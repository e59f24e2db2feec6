/**
 What a scoped lookup means. `Lookup` is the reference: it resolves a symbolic link by resolving
 the link's target as a path of its own and then going on from where that led. `Run` is the same
 walk flattened the way the program runs it, with a link's target pushed in front of the
 components that are left. RunIsLookup shows the two agree.
 */
module Resolution {
  import opened Results
  import opened FileTree
  import opened PathText

  const MAX_SYMLINKS := 128

  /**
   stops: the directories at which ".." stays put. The kernel stops at the root directory alone;
   the program stops at every directory that carries the root's inode number.
   */
  datatype Scope = Scope(fs: Fs, root: Path, stops: set<Path>)

  ghost predicate ValidScope(s: Scope) {
    && ValidFs(s.fs)
    && IsDir(s.fs, s.root)
    && s.root in s.stops
  }

  /**
   Found: the entry reached, and the links still allowed. Absent: a component of the path proper
   does not exist; `todo` starts with it. Dangling: a component of some link's target does not
   exist. Refused: any other error.
   */
  datatype Outcome =
    | Found(at: Path, budget: nat)
    | Absent(at: Path, todo: seq<Name>)
    | Dangling
    | Refused(errno: Errno)

  function TargetParts(target: string): seq<Name> {
    SplitParts(RelativePath(target))
  }

  /** The components of a link's target are those of the target as a path, slashes in front included. */
  lemma {:induction false} TargetIsPath(target: string)
    ensures TargetParts(target) == SplitParts(target)
    decreases |target|
  {
    hide SplitParts;
    if target != "" && target[0] == '/' {
      assert target == "/" + target[1..];
      SlashesCollapse("", target[1..]);
      TargetIsPath(target[1..]);
    }
  }

  /** Where a link's target starts from, or why the link is not followed. */
  function Follow(s: Scope, cur: Path, link: Path, target: string, budget: nat): (r: Result<Path, Errno>)
    ensures r.Success? ==> budget > 0 && r.value == if target != "" && target[0] == '/' then s.root else cur
  {
    if budget == 0 then Failure(ELOOP)
    else if link in s.fs.followFault then Failure(s.fs.followFault[link])
    else if IsAbsolute(target) && link in s.fs.magic then Failure(ELOOP)
    else Success(if IsAbsolute(target) then s.root else cur)
  }

  /** Resolution of a component list from directory `cur`, link targets resolved recursively. */
  function Lookup(s: Scope, cur: Path, comps: seq<Name>, noFollow: bool, budget: nat): (o: Outcome)
    ensures o.Found? ==> o.budget <= budget
    ensures o.Absent? ==> o.todo != []
    decreases budget, |comps|
  {
    if comps == [] then Found(cur, budget)
    else if comps[0] == ".." then
      if cur in s.stops then Lookup(s, cur, comps[1..], noFollow, budget)
      else
        match OpenAt(s.fs, cur, "..")
        case Failure(e) => Refused(e)
        case Success(up) => Lookup(s, up, comps[1..], noFollow, budget)
    else
      match OpenAt(s.fs, cur, comps[0])
      case Failure(e) => if e == ENOENT then Absent(cur, comps) else Refused(e)
      case Success(h) =>
        if IsLink(s.fs, h) then
          if noFollow && |comps| == 1 then Found(h, budget)
          else
            var target := s.fs.nodes[h].target;
            match Follow(s, cur, h, target, budget)
            case Failure(e) => Refused(e)
            case Success(base) =>
              match Lookup(s, base, TargetParts(target), false, budget - 1)
              case Found(mid, left) =>
                if |comps| > 1 && !IsDir(s.fs, mid) then Refused(ENOTDIR)
                else Lookup(s, mid, comps[1..], noFollow, left)
              case Absent(_, _) => Dangling
              case other => other
        else if |comps| > 1 && !IsDir(s.fs, h) then Refused(ENOTDIR)
        else Lookup(s, h, comps[1..], noFollow, budget)
  }

  /** One turn of the flat walk: it ends, or goes on from another place with other components. */
  datatype Move = Stop(outcome: Outcome) | Go(cur: Path, parts: seq<Name>, pending: nat, budget: nat)

  /** The first `pending` of `parts` came out of link targets. */
  function Step(s: Scope, cur: Path, parts: seq<Name>, pending: nat, noFollow: bool, budget: nat): (m: Move)
    requires parts != []
    ensures m.Go? ==> m.budget < budget || (m.budget == budget && m.parts == parts[1..])
  {
    var rest, left := parts[1..], Less(pending);
    if parts[0] == ".." then
      if cur in s.stops then Go(cur, rest, left, budget)
      else
        match OpenAt(s.fs, cur, "..")
        case Failure(e) => Stop(Refused(e))
        case Success(up) => Go(up, rest, left, budget)
    else
      match OpenAt(s.fs, cur, parts[0])
      case Failure(e) => Stop(if e != ENOENT then Refused(e) else if pending > 0 then Dangling else Absent(cur, parts))
      case Success(h) =>
        if IsLink(s.fs, h) then
          if noFollow && rest == [] then Stop(Found(h, budget))
          else
            match Follow(s, cur, h, s.fs.nodes[h].target, budget)
            case Failure(e) => Stop(Refused(e))
            case Success(base) =>
              var t := TargetParts(s.fs.nodes[h].target);
              Go(base, t + rest, |t| + left, budget - 1)
        else if rest != [] && !IsDir(s.fs, h) then Stop(Refused(ENOTDIR))
        else Go(h, rest, left, budget)
  }

  /** The flat walk. */
  function Run(s: Scope, cur: Path, parts: seq<Name>, pending: nat, noFollow: bool, budget: nat): Outcome
    decreases budget, |parts|
  {
    if parts == [] then Found(cur, budget)
    else
      match Step(s, cur, parts, pending, noFollow, budget)
      case Stop(o) => o
      case Go(cur', parts', pending', budget') => Run(s, cur', parts', pending', noFollow, budget')
  }

  function Less(n: nat): nat {
    if n == 0 then 0 else n - 1
  }

  /** A miss seen from outside the link whose target it happened in. */
  function Seal(o: Outcome): Outcome {
    if o.Absent? then Dangling else o
  }

  /** Going on with `rest` from where an earlier part of the walk ended. */
  function Continue(s: Scope, o: Outcome, rest: seq<Name>, pending: nat, noFollow: bool): Outcome {
    match o
    case Found(mid, left) =>
      if rest != [] && !IsDir(s.fs, mid) then Refused(ENOTDIR) else Run(s, mid, rest, pending, noFollow, left)
    case other => other
  }

  /** A walk stands in a directory for as long as components are left. */
  lemma {:induction false} StepStaysInDirectories(s: Scope, cur: Path, parts: seq<Name>, pending: nat, noFollow: bool, budget: nat)
    requires ValidScope(s) && IsDir(s.fs, cur) && parts != []
    ensures var m := Step(s, cur, parts, pending, noFollow, budget);
            m.Go? ==> m.cur in s.fs.nodes && (m.parts != [] ==> IsDir(s.fs, m.cur))
    ensures var m := Step(s, cur, parts, pending, noFollow, budget);
            m.Go? && !IsDir(s.fs, m.cur)
            ==> parts[0] != ".." && OpenAt(s.fs, cur, parts[0]) == Success(m.cur) && !IsLink(s.fs, m.cur)
  {
    if OpenAt(s.fs, cur, parts[0]).Success? {
      OpenAtFinds(s.fs, cur, parts[0]);
    }
  }

  lemma {:induction false} StepOfPrefix(s: Scope, cur: Path, a: seq<Name>, b: seq<Name>, pending: nat, noFollow: bool, budget: nat)
    requires ValidScope(s) && IsDir(s.fs, cur)
    requires a != [] && (b != [] || !noFollow)
    ensures var part := Step(s, cur, a, |a|, false, budget);
            Step(s, cur, a + b, |a| + pending, noFollow, budget)
            == if part.Stop? then part
               else if b != [] && !IsDir(s.fs, part.cur) then Stop(Refused(ENOTDIR))
               else Go(part.cur, part.parts + b, |part.parts| + pending, part.budget)
    ensures var part := Step(s, cur, a, |a|, false, budget);
            if part.Stop? then !part.outcome.Found? && !part.outcome.Absent? else part.pending == |part.parts|
  {
    assert (a + b)[0] == a[0] && (a + b)[1..] == a[1..] + b;
    StepStaysInDirectories(s, cur, a, |a|, false, budget);
    var entry := OpenAt(s.fs, cur, a[0]);
    if a[0] != ".." && entry.Success? && IsLink(s.fs, entry.value) {
      var t := TargetParts(s.fs.nodes[entry.value].target);
      assert t + (a[1..] + b) == t + a[1..] + b;
    }
  }

  /** The flat walk is compositional: walking a ++ b is walking a, then b from there. */
  lemma {:induction false} RunSplits(s: Scope, cur: Path, a: seq<Name>, b: seq<Name>, pending: nat, noFollow: bool, budget: nat)
    requires ValidScope(s) && IsDir(s.fs, cur)
    requires b != [] || !noFollow
    ensures Run(s, cur, a + b, |a| + pending, noFollow, budget)
         == Continue(s, Run(s, cur, a, |a|, false, budget), b, pending, noFollow)
    decreases budget, |a|
  {
    hide Step;
    if a == [] {
      assert a + b == b;
    } else {
      StepOfPrefix(s, cur, a, b, pending, noFollow, budget);
      StepStaysInDirectories(s, cur, a, |a|, false, budget);
      var part := Step(s, cur, a, |a|, false, budget);
      if part.Go? && IsDir(s.fs, part.cur) {
        RunSplits(s, part.cur, part.parts, b, pending, noFollow, part.budget);
      } else if part.Go? && b == [] {
        assert part.parts + b == [];
      }
    }
  }

  /** How many components came out of links decides nothing but how a miss is reported. */
  lemma {:induction false} StepIgnoresPending(s: Scope, cur: Path, parts: seq<Name>, pending: nat, noFollow: bool, budget: nat)
    requires parts != []
    ensures var m, m0 := Step(s, cur, parts, pending, noFollow, budget), Step(s, cur, parts, 0, noFollow, budget);
            if m.Go? then
              && m0.Go? && m0.cur == m.cur && m0.parts == m.parts && m0.budget == m.budget
              && (pending <= |parts| ==> m.pending <= |m.parts| && m0.pending <= |m.parts|)
              && (pending == |parts| ==> m.pending == |m.parts|)
            else m0.Stop? && Seal(m0.outcome) == Seal(m.outcome) && (pending > 0 ==> !m.outcome.Absent?)
  {
  }

  /** Walking a link's target as part of a longer walk only changes how a miss is reported. */
  lemma {:induction false} RunSealed(s: Scope, cur: Path, parts: seq<Name>, pending: nat, noFollow: bool, budget: nat)
    requires pending <= |parts|
    ensures Seal(Run(s, cur, parts, pending, noFollow, budget)) == Seal(Run(s, cur, parts, 0, noFollow, budget))
    ensures pending == |parts| ==> !Run(s, cur, parts, pending, noFollow, budget).Absent?
    decreases budget, |parts|
  {
    hide Step, Seal;
    if parts == [] {
    } else {
      StepIgnoresPending(s, cur, parts, pending, noFollow, budget);
      var m, m0 := Step(s, cur, parts, pending, noFollow, budget), Step(s, cur, parts, 0, noFollow, budget);
      if m.Go? {
        RunSealed(s, m.cur, m.parts, m.pending, noFollow, m.budget);
        RunSealed(s, m.cur, m.parts, m0.pending, noFollow, m.budget);
      }
    }
  }

  /** The program's flat walk computes the recursive resolution. */
  lemma {:induction false} RunIsLookup(s: Scope, cur: Path, parts: seq<Name>, noFollow: bool, budget: nat)
    requires ValidScope(s) && IsDir(s.fs, cur)
    ensures Run(s, cur, parts, 0, noFollow, budget) == Lookup(s, cur, parts, noFollow, budget)
    decreases budget, |parts|, 1
  {
    if parts != [] {
      var m := Step(s, cur, parts, 0, noFollow, budget);
      StepStaysInDirectories(s, cur, parts, 0, noFollow, budget);
      if m.Go? {
        if m.budget < budget {
          LinkIsLookup(s, cur, parts, noFollow, budget);
        } else if m.parts != [] {
          RunIsLookup(s, m.cur, m.parts, noFollow, budget);
        }
      }
    }
  }

  /** The link case of Lookup, spelled out: resolve the target, then go on from there. */
  function LookupPast(s: Scope, base: Path, target: string, rest: seq<Name>, noFollow: bool, budget: nat): Outcome {
    match Lookup(s, base, TargetParts(target), false, budget)
    case Found(mid, left) =>
      if rest != [] && !IsDir(s.fs, mid) then Refused(ENOTDIR) else Lookup(s, mid, rest, noFollow, left)
    case Absent(_, _) => Dangling
    case other => other
  }

  lemma {:induction false} LookupOfLink(s: Scope, cur: Path, h: Path, comps: seq<Name>, noFollow: bool, budget: nat)
    requires comps != [] && comps[0] != ".." && OpenAt(s.fs, cur, comps[0]) == Success(h) && IsLink(s.fs, h)
    requires !(noFollow && |comps| == 1)
    ensures var target := s.fs.nodes[h].target;
            Lookup(s, cur, comps, noFollow, budget) ==
            match Follow(s, cur, h, target, budget)
            case Failure(e) => Refused(e)
            case Success(base) => LookupPast(s, base, target, comps[1..], noFollow, budget - 1)
  {
  }

  lemma {:induction false} LinkStep(s: Scope, cur: Path, parts: seq<Name>, noFollow: bool, budget: nat) returns (base: Path, target: string)
    requires ValidScope(s) && IsDir(s.fs, cur)
    requires parts != [] && Step(s, cur, parts, 0, noFollow, budget).Go?
    requires Step(s, cur, parts, 0, noFollow, budget).budget < budget
    ensures IsDir(s.fs, base) && (parts[1..] != [] || !noFollow)
    ensures var t := TargetParts(target);
            Step(s, cur, parts, 0, noFollow, budget) == Go(base, t + parts[1..], |t|, budget - 1)
    ensures Lookup(s, cur, parts, noFollow, budget) == LookupPast(s, base, target, parts[1..], noFollow, budget - 1)
  {
    var h := OpenAt(s.fs, cur, parts[0]).value;
    target := s.fs.nodes[h].target;
    base := Follow(s, cur, h, target, budget).value;
  }

  lemma {:induction false} LinkIsLookup(s: Scope, cur: Path, parts: seq<Name>, noFollow: bool, budget: nat)
    requires ValidScope(s) && IsDir(s.fs, cur)
    requires parts != [] && Step(s, cur, parts, 0, noFollow, budget).Go?
    requires Step(s, cur, parts, 0, noFollow, budget).budget < budget
    ensures Run(s, cur, parts, 0, noFollow, budget) == Lookup(s, cur, parts, noFollow, budget)
    decreases budget, |parts|, 0
  {
    hide Step, Lookup, TargetParts;
    var base, target := LinkStep(s, cur, parts, noFollow, budget);
    var t, rest := TargetParts(target), parts[1..];
    RunSplits(s, base, t, rest, 0, noFollow, budget - 1);
    RunSealed(s, base, t, |t|, false, budget - 1);
    RunIsLookup(s, base, t, false, budget - 1);
    var inner := Lookup(s, base, t, false, budget - 1);
    assert |t| + 0 == |t|;
    if inner.Found? {
      if rest != [] && IsDir(s.fs, inner.at) {
        RunIsLookup(s, inner.at, rest, noFollow, inner.budget);
      }
      if rest == [] {
        LookupNothing(s, inner.at, noFollow, inner.budget);
      }
    }
  }

  lemma {:induction false} LookupNothing(s: Scope, cur: Path, noFollow: bool, budget: nat)
    ensures Lookup(s, cur, [], noFollow, budget) == Found(cur, budget)
  {
  }
}
