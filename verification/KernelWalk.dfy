/**
 The kernel's own lookup under RESOLVE_IN_ROOT, and how the walker compares with it. The two part
 at the first of: a ".." in a directory the walker takes for the root or may not search, a slash
 behind a directory that may not be searched, and the 41st link. The tables of verdicts on links
 and of search errors are the same for both.
 */
module KernelWalk {
  import opened Results
  import opened FileTree
  import opened PathText
  import opened Resolution
  import opened Rootfs
  import opened Confinement

  /** MAXSYMLINKS of the kernel, and how many more links the walker follows. */
  const KERNEL_SYMLINKS := 40
  const SPARE := MAX_SYMLINKS - KERNEL_SYMLINKS

  /** The components the kernel walks; a slash behind the last name, here "", only asks for a directory. */
  function KernelParts(s: string): seq<Name> {
    var names := NonEmpty(Segments(s));
    names + (if names != [] && s != "" && s[|s| - 1] == '/' then [""] else [])
  }

  datatype KernelMove = Answer(answer: Result<Path, Errno>) | Onward(cur: Path, parts: seq<Name>, budget: nat)

  function KernelStep(fs: Fs, root: Path, cur: Path, parts: seq<Name>, noFollow: bool, budget: nat): (m: KernelMove)
    requires parts != []
    ensures m.Onward? ==> m.budget < budget || (m.budget == budget && m.parts == parts[1..])
  {
    var rest := parts[1..];
    if parts[0] == "" then Onward(cur, rest, budget)
    else if parts[0] == ".." then
      if (cur, "..") in fs.lookupFault then Answer(Failure(fs.lookupFault[(cur, "..")]))
      else Onward(if cur == root then root else Parent(cur), rest, budget)
    else
      match OpenAt(fs, cur, parts[0])
      case Failure(e) => Answer(Failure(e))
      case Success(h) =>
        if IsLink(fs, h) && !(noFollow && rest == []) then
          if budget == 0 then Answer(Failure(ELOOP))
          else if h in fs.followFault then Answer(Failure(fs.followFault[h]))
          else
            var target := fs.nodes[h].target;
            if IsAbsolute(target) && h in fs.magic then Answer(Failure(ELOOP))
            else Onward(if IsAbsolute(target) then root else cur, KernelParts(RelativePath(target)) + rest, budget - 1)
        else if rest == [] then Answer(Success(h))
        else if !IsDir(fs, h) then Answer(Failure(ENOTDIR))
        else Onward(h, rest, budget)
  }

  function KernelRun(fs: Fs, root: Path, cur: Path, parts: seq<Name>, noFollow: bool, budget: nat): Result<Path, Errno>
    decreases budget, |parts|
  {
    if parts == [] then Success(cur)
    else
      match KernelStep(fs, root, cur, parts, noFollow, budget)
      case Answer(r) => r
      case Onward(cur', parts', budget') => KernelRun(fs, root, cur', parts', noFollow, budget')
  }

  /** openat2 with RESOLVE_IN_ROOT: the empty path is refused. */
  function KernelHandle(fs: Fs, root: Path, path: string, noFollow: bool): Result<Path, Errno> {
    if path == "" then Failure(ENOENT)
    else KernelRun(fs, root, root, KernelParts(path), noFollow, KERNEL_SYMLINKS)
  }

  // ---- the walker, seen the same way ----

  function Dots(parts: seq<Name>): (r: seq<Name>)
    ensures |r| == |parts|
  {
    seq(|parts|, i requires 0 <= i < |parts| => if parts[i] == "" then "." else parts[i])
  }

  lemma {:induction false} DotsOfKernelParts(s: string)
    ensures Dots(KernelParts(s)) == SplitParts(s)
  {
    hide Segments, NonEmpty;
    var names := NonEmpty(Segments(s));
    assert forall i :: 0 <= i < |names| ==> names[i] in names;
  }

  lemma {:induction false} DotsAppend(a: seq<Name>, b: seq<Name>)
    ensures Dots(a + b) == Dots(a) + Dots(b)
  {
  }

  lemma {:induction false} DotsPop(parts: seq<Name>)
    requires parts != []
    ensures Dots(parts)[0] == (if parts[0] == "" then "." else parts[0]) && Dots(parts)[1..] == Dots(parts[1..])
    ensures |Dots(parts)| == |parts|
  {
  }

  /** What the walker answers from a place in the middle of a walk. */
  function WalkerRun(s: Scope, cur: Path, parts: seq<Name>, noFollow: bool, budget: nat): Result<Path, Errno> {
    Handle(Run(s, cur, parts, 0, noFollow, budget))
  }

  lemma {:induction false} WalkerStep(s: Scope, cur: Path, parts: seq<Name>, noFollow: bool, budget: nat)
    requires parts != []
    ensures WalkerRun(s, cur, parts, noFollow, budget) ==
            match Step(s, cur, parts, 0, noFollow, budget)
            case Stop(o) => Handle(o)
            case Go(cur', parts', _, budget') => WalkerRun(s, cur', parts', noFollow, budget')
  {
    hide Step;
    StepIgnoresPending(s, cur, parts, 0, noFollow, budget);
    var m := Step(s, cur, parts, 0, noFollow, budget);
    if m.Go? {
      RunSealed(s, m.cur, m.parts, m.pending, noFollow, m.budget);
      HandleSealed(Run(s, m.cur, m.parts, m.pending, noFollow, m.budget));
      HandleSealed(Run(s, m.cur, m.parts, 0, noFollow, m.budget));
    }
  }

  lemma {:induction false} HandleSealed(o: Outcome)
    ensures Handle(Seal(o)) == Handle(o)
  {
  }

  /** A link that is to be followed comes next. */
  predicate MeetsLink(fs: Fs, cur: Path, parts: seq<Name>, noFollow: bool)
    requires parts != []
  {
    && parts[0] != ".."
    && OpenAt(fs, cur, parts[0]).Success?
    && IsLink(fs, OpenAt(fs, cur, parts[0]).value)
    && !(noFollow && |parts| == 1)
  }

  /** How many links the walker comes to follow. */
  function LinksMet(s: Scope, cur: Path, parts: seq<Name>, noFollow: bool, budget: nat): nat
    decreases budget, |parts|
  {
    if parts == [] then 0
    else
      (if MeetsLink(s.fs, cur, parts, noFollow) then 1 else 0) +
      match Step(s, cur, parts, 0, noFollow, budget)
      case Stop(_) => 0
      case Go(cur', parts', _, budget') => LinksMet(s, cur', parts', noFollow, budget')
  }

  function LinksOf(fs: Fs, root: Path, path: string, noFollow: bool): nat {
    LinksMet(WalkerScope(fs, root), root, SplitParts(path), noFollow, MAX_SYMLINKS)
  }

  // ---- where the two part ----

  /** The next component is one the walker treats in its own way; budget is the kernel's. */
  predicate PartsHere(s: Scope, cur: Path, parts: seq<Name>, noFollow: bool, budget: nat)
    requires parts != []
  {
    if parts[0] == "" then (cur, ".") in s.fs.lookupFault
    else if parts[0] == ".." then cur in s.stops && (cur != s.root || (cur, "..") in s.fs.lookupFault)
    else budget == 0 && MeetsLink(s.fs, cur, parts, noFollow)
  }

  datatype Parting = Together | Apart(cur: Path, parts: seq<Name>, budget: nat)

  /** The first place, on the kernel's way, where walker and kernel part. */
  function PartingOf(s: Scope, cur: Path, parts: seq<Name>, noFollow: bool, budget: nat): (p: Parting)
    ensures p.Apart? ==> p.parts != [] && PartsHere(s, p.cur, p.parts, noFollow, p.budget)
    decreases budget, |parts|
  {
    if parts == [] then Together
    else if PartsHere(s, cur, parts, noFollow, budget) then Apart(cur, parts, budget)
    else
      match KernelStep(s.fs, s.root, cur, parts, noFollow, budget)
      case Answer(_) => Together
      case Onward(cur', parts', budget') => PartingOf(s, cur', parts', noFollow, budget')
  }

  /** Where they part, they answer alike all the same. */
  predicate AlikeFrom(s: Scope, cur: Path, parts: seq<Name>, noFollow: bool, budget: nat)
    requires parts != [] && PartsHere(s, cur, parts, noFollow, budget)
  {
    var rest := parts[1..];
    if parts[0] == "" then
      // the walker may not search the directory, the kernel does not ask
      KernelRun(s.fs, s.root, cur, rest, noFollow, budget) == Failure(s.fs.lookupFault[(cur, ".")])
    else if parts[0] == ".." then
      // the walker stays, the kernel is refused or goes up
      WalkerRun(s, cur, Dots(rest), noFollow, budget + SPARE) ==
      if (cur, "..") in s.fs.lookupFault then Failure(s.fs.lookupFault[(cur, "..")])
      else KernelRun(s.fs, s.root, Parent(cur), rest, noFollow, budget)
    else
      // the kernel has followed its last link
      WalkerRun(s, cur, Dots(parts), noFollow, SPARE) == Failure(ELOOP)
  }

  lemma {:induction false} StepMatches(s: Scope, cur: Path, parts: seq<Name>, noFollow: bool, budget: nat)
    requires ValidScope(s) && IsDir(s.fs, cur)
    requires parts != [] && !PartsHere(s, cur, parts, noFollow, budget)
    ensures var m := Step(s, cur, Dots(parts), 0, noFollow, budget + SPARE);
            match KernelStep(s.fs, s.root, cur, parts, noFollow, budget)
            case Answer(r) => if m.Stop? then Handle(m.outcome) == r else m.parts == [] && r == Success(m.cur)
            case Onward(cur', parts', budget') =>
              m.Go? && m.cur == cur' && m.parts == Dots(parts') && m.budget == budget' + SPARE
  {
    hide Dots, TargetParts, KernelParts;
    DotsPop(parts);
    if MeetsLink(s.fs, cur, parts, noFollow) {
      var h := OpenAt(s.fs, cur, parts[0]).value;
      var t := RelativePath(s.fs.nodes[h].target);
      DotsOfTarget(s.fs.nodes[h].target);
      DotsAppend(KernelParts(t), parts[1..]);
    }
  }

  lemma {:induction false} DotsOfTarget(target: string)
    ensures Dots(KernelParts(RelativePath(target))) == TargetParts(target)
  {
    DotsOfKernelParts(RelativePath(target));
  }

  lemma {:induction false} DotsOfNothing()
    ensures Dots([]) == []
  {
  }

  lemma {:induction false} KernelStaysInDirectories(s: Scope, cur: Path, parts: seq<Name>, noFollow: bool, budget: nat)
    requires ValidScope(s) && IsDir(s.fs, cur) && parts != []
    ensures var m := KernelStep(s.fs, s.root, cur, parts, noFollow, budget);
            m.Onward? ==> IsDir(s.fs, m.cur)
  {
    hide KernelParts;
    assert Seated(s.fs, cur);
  }

  /** Where they do not part, both take the same step. */
  lemma {:induction false} StepTogether(s: Scope, cur: Path, parts: seq<Name>, noFollow: bool, budget: nat)
    requires ValidScope(s) && IsDir(s.fs, cur)
    requires parts != [] && !PartsHere(s, cur, parts, noFollow, budget)
    ensures match KernelStep(s.fs, s.root, cur, parts, noFollow, budget)
            case Answer(r) => WalkerRun(s, cur, Dots(parts), noFollow, budget + SPARE) == r
            case Onward(cur', parts', budget') =>
              WalkerRun(s, cur, Dots(parts), noFollow, budget + SPARE) == WalkerRun(s, cur', Dots(parts'), noFollow, budget' + SPARE)
  {
    hide Step, KernelStep, Dots;
    StepMatches(s, cur, parts, noFollow, budget);
    WalkerStep(s, cur, Dots(parts), noFollow, budget + SPARE);
  }

  /** From any place: the answers are alike if and only if the two never part, or go on alike from there. */
  lemma {:induction false} AlikeIff(s: Scope, cur: Path, parts: seq<Name>, noFollow: bool, budget: nat)
    requires ValidScope(s) && IsDir(s.fs, cur)
    ensures WalkerRun(s, cur, Dots(parts), noFollow, budget + SPARE) == KernelRun(s.fs, s.root, cur, parts, noFollow, budget)
            <==> match PartingOf(s, cur, parts, noFollow, budget)
                 case Together => true
                 case Apart(at, todo, left) => AlikeFrom(s, at, todo, noFollow, left)
    decreases budget, |parts|
  {
    hide KernelStep, Dots, AlikeFrom, WalkerRun;
    if parts == [] {
      DotsOfNothing();
      WalkerAtEnd(s, cur, noFollow, budget + SPARE);
    } else if PartsHere(s, cur, parts, noFollow, budget) {
      PartingAlike(s, cur, parts, noFollow, budget);
    } else {
      StepTogether(s, cur, parts, noFollow, budget);
      KernelStaysInDirectories(s, cur, parts, noFollow, budget);
      var m := KernelStep(s.fs, s.root, cur, parts, noFollow, budget);
      if m.Onward? {
        AlikeIff(s, m.cur, m.parts, noFollow, m.budget);
      }
    }
  }

  lemma {:induction false} WalkerAtEnd(s: Scope, cur: Path, noFollow: bool, budget: nat)
    ensures WalkerRun(s, cur, [], noFollow, budget) == Success(cur)
  {
  }

  /** At the parting itself: what each of them does there. */
  lemma {:induction false} PartingAlike(s: Scope, cur: Path, parts: seq<Name>, noFollow: bool, budget: nat)
    requires ValidScope(s) && IsDir(s.fs, cur)
    requires parts != [] && PartsHere(s, cur, parts, noFollow, budget)
    ensures WalkerRun(s, cur, Dots(parts), noFollow, budget + SPARE) == KernelRun(s.fs, s.root, cur, parts, noFollow, budget)
            <==> AlikeFrom(s, cur, parts, noFollow, budget)
  {
    hide Dots, WalkerRun, KernelParts;
    DotsPop(parts);
    WalkerStep(s, cur, Dots(parts), noFollow, budget + SPARE);
    RefusalIsNoMiss(s.fs, cur);
  }

  lemma {:induction false} RefusalIsNoMiss(fs: Fs, cur: Path)
    requires ValidFs(fs)
    ensures forall name :: (cur, name) in fs.lookupFault ==> fs.lookupFault[(cur, name)] != ENOENT
  {
  }

  // ---- whole paths ----

  /** What the walker answers, from the root on. */
  lemma {:induction false} WalkerAnswers(fs: Fs, root: Path, path: string, noFollow: bool)
    requires ValidFs(fs) && IsDir(fs, root)
    ensures ScopedHandle(WalkerScope(fs, root), path, noFollow)
         == WalkerRun(WalkerScope(fs, root), root, Dots(KernelParts(path)), noFollow, KERNEL_SYMLINKS + SPARE)
  {
    hide Run, Lookup, Dots, KernelParts, SplitParts;
    DotsOfKernelParts(path);
    RunIsLookup(WalkerScope(fs, root), root, SplitParts(path), noFollow, MAX_SYMLINKS);
  }

  lemma {:induction false} EmptyPath(fs: Fs, root: Path, noFollow: bool)
    requires ValidFs(fs) && IsDir(fs, root)
    ensures ScopedHandle(WalkerScope(fs, root), "", noFollow) == Success(root)
    ensures KernelHandle(fs, root, "", noFollow) == Failure(ENOENT)
  {
    NothingSplits();
  }

  /**
   On every tree and path: walker and kernel give the same entry or error if and only if the path is
   not empty and the two never part on it, or go on alike from where they do.
   */
  lemma {:induction false} PathMatchesIff(fs: Fs, root: Path, path: string, noFollow: bool)
    requires ValidFs(fs) && IsDir(fs, root)
    ensures ScopedHandle(WalkerScope(fs, root), path, noFollow) == KernelHandle(fs, root, path, noFollow)
            <==> path != "" && match PartingOf(WalkerScope(fs, root), root, KernelParts(path), noFollow, KERNEL_SYMLINKS)
                               case Together => true
                               case Apart(at, todo, left) => AlikeFrom(WalkerScope(fs, root), at, todo, noFollow, left)
  {
    hide WalkerRun, KernelRun, PartingOf, AlikeFrom, KernelParts, Dots, ScopedHandle;
    if path == "" {
      EmptyPath(fs, root, noFollow);
    } else {
      WalkerAnswers(fs, root, path, noFollow);
      AlikeIff(WalkerScope(fs, root), root, KernelParts(path), noFollow, KERNEL_SYMLINKS);
    }
  }

  /**
   No directory that a lookup can reach shares the root's inode, and all of them, with the root's
   own "..", may be searched.
   */
  ghost predicate Ordinary(fs: Fs, root: Path) {
    && (root, "..") !in fs.lookupFault
    && forall p :: IsDir(fs, p) && Accessible(fs, root, p) ==>
                     (p, ".") !in fs.lookupFault && (p in Aliases(fs, root) ==> p == root)
  }

  lemma {:induction false} KernelStaysReached(s: Scope, cur: Path, parts: seq<Name>, noFollow: bool, budget: nat)
    requires ValidScope(s) && Reached(s, cur) && IsDir(s.fs, cur) && parts != []
    ensures var m := KernelStep(s.fs, s.root, cur, parts, noFollow, budget);
            m.Onward? ==> Reached(s, m.cur)
  {
    hide KernelParts, Reached, Accessible;
    RootReached(s);
    if parts[0] == ".." {
      if cur != s.root {
        ParentReached(s, cur);
      }
    } else if OpenAt(s.fs, cur, parts[0]).Success? {
      ChildReached(s, cur, parts[0]);
    }
  }

  lemma {:induction false} OrdinaryPartsAtLink(s: Scope, cur: Path, parts: seq<Name>, noFollow: bool, budget: nat)
    requires Ordinary(s.fs, s.root) && s == WalkerScope(s.fs, s.root)
    requires Reached(s, cur) && IsDir(s.fs, cur) && parts != [] && PartsHere(s, cur, parts, noFollow, budget)
    ensures budget == 0 && MeetsLink(s.fs, cur, parts, noFollow) && parts[0] != ""
  {
  }

  lemma {:induction false} LinksStep(s: Scope, cur: Path, parts: seq<Name>, noFollow: bool, budget: nat)
    requires ValidScope(s) && IsDir(s.fs, cur)
    requires parts != [] && !PartsHere(s, cur, parts, noFollow, budget)
    ensures match KernelStep(s.fs, s.root, cur, parts, noFollow, budget)
            case Answer(_) => LinksMet(s, cur, Dots(parts), noFollow, budget + SPARE) <= budget
            case Onward(cur', parts', budget') =>
              && budget' <= budget
              && LinksMet(s, cur, Dots(parts), noFollow, budget + SPARE)
              == budget - budget' + LinksMet(s, cur', Dots(parts'), noFollow, budget' + SPARE)
  {
    hide Dots, Step, KernelParts, LinksMet;
    StepMatches(s, cur, parts, noFollow, budget);
    DotsPop(parts);
    LinksUnfold(s, cur, Dots(parts), noFollow, budget + SPARE);
  }

  lemma {:induction false} LinksUnfold(s: Scope, cur: Path, parts: seq<Name>, noFollow: bool, budget: nat)
    requires parts != []
    ensures forall p: Path, b: nat :: LinksMet(s, p, [], noFollow, b) == 0
    ensures LinksMet(s, cur, parts, noFollow, budget) ==
            (if MeetsLink(s.fs, cur, parts, noFollow) then 1 else 0) +
            match Step(s, cur, parts, 0, noFollow, budget)
            case Stop(_) => 0
            case Go(cur', parts', _, budget') => LinksMet(s, cur', parts', noFollow, budget')
  {
  }

  lemma {:induction false} LinksAtParting(s: Scope, cur: Path, parts: seq<Name>, noFollow: bool)
    requires IsDir(s.fs, cur)
    requires parts != [] && parts[0] != "" && MeetsLink(s.fs, cur, parts, noFollow)
    ensures LinksMet(s, cur, Dots(parts), noFollow, SPARE) > 0
    ensures KernelRun(s.fs, s.root, cur, parts, noFollow, 0) == Failure(ELOOP)
  {
    hide Dots, KernelParts;
    DotsPop(parts);
  }

  /** In an ordinary tree the two part exactly when there is a 41st link to follow. */
  lemma {:induction false} OrdinaryParting(s: Scope, cur: Path, parts: seq<Name>, noFollow: bool, budget: nat)
    requires ValidScope(s) && Ordinary(s.fs, s.root) && s == WalkerScope(s.fs, s.root)
    requires Reached(s, cur) && IsDir(s.fs, cur)
    ensures PartingOf(s, cur, parts, noFollow, budget).Together?
            <==> LinksMet(s, cur, Dots(parts), noFollow, budget + SPARE) <= budget
    ensures PartingOf(s, cur, parts, noFollow, budget).Apart?
            ==> KernelRun(s.fs, s.root, cur, parts, noFollow, budget) == Failure(ELOOP)
    decreases budget, |parts|
  {
    hide KernelStep, Dots, LinksMet, Ordinary, Reached, WalkerScope;
    if parts == [] {
      DotsOfNothing();
      NoLinksInNothing(s, cur, noFollow, budget + SPARE);
    } else if PartsHere(s, cur, parts, noFollow, budget) {
      OrdinaryPartsAtLink(s, cur, parts, noFollow, budget);
      LinksAtParting(s, cur, parts, noFollow);
    } else {
      LinksStep(s, cur, parts, noFollow, budget);
      KernelStaysInDirectories(s, cur, parts, noFollow, budget);
      KernelStaysReached(s, cur, parts, noFollow, budget);
      var m := KernelStep(s.fs, s.root, cur, parts, noFollow, budget);
      if m.Onward? {
        OrdinaryParting(s, m.cur, m.parts, noFollow, m.budget);
      }
    }
  }

  lemma {:induction false} NoLinksInNothing(s: Scope, cur: Path, noFollow: bool, budget: nat)
    ensures LinksMet(s, cur, [], noFollow, budget) == 0
  {
  }

  /** The two answer a path alike if and only if it is not empty and has at most 40 links to follow, or both report ELOOP. */
  ghost predicate MatchesOn(fs: Fs, root: Path, path: string, noFollow: bool) {
    var walker := ScopedHandle(WalkerScope(fs, root), path, noFollow);
    walker == KernelHandle(fs, root, path, noFollow)
    <==> path != "" && (LinksOf(fs, root, path, noFollow) <= KERNEL_SYMLINKS || walker == Failure(ELOOP))
  }

  lemma {:induction false} OrdinaryMatches(fs: Fs, root: Path, path: string, noFollow: bool)
    requires ValidFs(fs) && IsDir(fs, root) && Ordinary(fs, root)
    ensures MatchesOn(fs, root, path, noFollow)
  {
    hide WalkerRun, KernelRun, PartingOf, AlikeFrom, KernelParts, Dots, ScopedHandle, LinksMet, Ordinary, SplitParts, Reached;
    var s := WalkerScope(fs, root);
    if path == "" {
      EmptyPath(fs, root, noFollow);
    } else {
      RootReached(s);
      DotsOfKernelParts(path);
      PathMatchesIff(fs, root, path, noFollow);
      OrdinaryParting(s, root, KernelParts(path), noFollow, KERNEL_SYMLINKS);
    }
  }

  // ---- trees that are not ordinary ----

  lemma {:induction false} KernelPartsOfJoin(names: seq<Name>)
    requires names != []
    requires forall i :: 0 <= i < |names| ==> names[i] != "" && '/' !in names[i]
    ensures KernelParts(JoinNames(names)) == names && JoinNames(names) != ""
    ensures KernelParts(JoinNames(names) + "/") == names + [""]
  {
    hide JoinNames, Segments, NonEmpty;
    SegmentsOfJoin(names);
    NonEmptyKeepsNames(names);
    SegmentsOfJoinSlash(names);
    NonEmptyDropsLast(names);
  }

  lemma {:induction false} SegmentsOfJoinSlash(names: seq<Name>)
    requires names != []
    requires forall i :: 0 <= i < |names| ==> names[i] != "" && '/' !in names[i]
    ensures Segments(JoinNames(names) + "/") == names + [""]
  {
    assert Segments("") == [""];
    hide Segments, JoinNames;
    SegmentsOfJoin(names);
    SegmentsAppend(JoinNames(names), "");
    assert JoinNames(names) + "/" + "" == JoinNames(names) + "/";
  }

  lemma {:induction false} NonEmptyDropsLast(names: seq<Name>)
    requires forall i :: 0 <= i < |names| ==> names[i] != ""
    ensures NonEmpty(names + [""]) == names
  {
    if names == [] {
      assert names + [""] == [""];
      assert NonEmpty([""][1..]) == [];
    } else {
      assert (names + [""])[0] == names[0] && (names + [""])[1..] == names[1..] + [""];
      NonEmptyDropsLast(names[1..]);
    }
  }

  /** Entering a subdirectory takes both one step, without a link. */
  lemma {:induction false} PlainStepTogether(s: Scope, cur: Path, name: Name, more: seq<Name>, noFollow: bool, budget: nat)
    requires ValidScope(s) && IsDir(s.fs, cur) && IsDir(s.fs, cur + [name]) && (cur, name) !in s.fs.lookupFault && more != []
    ensures var parts := [name] + more;
            && !PartsHere(s, cur, parts, noFollow, budget)
            && KernelStep(s.fs, s.root, cur, parts, noFollow, budget) == Onward(cur + [name], more, budget)
  {
    hide KernelParts;
    var next := cur + [name];
    assert Seated(s.fs, next);
    assert next[|next| - 1] == name;
    assert ([name] + more)[1..] == more;
  }

  /** A walk through directories reaches the last one the same way on both sides, and meets no link. */
  lemma {:induction false} PlainTogether(s: Scope, cur: Path, names: seq<Name>, more: seq<Name>, noFollow: bool, budget: nat)
    requires ValidScope(s) && IsDir(s.fs, cur + names) && Accessible(s.fs, cur, cur + names) && more != []
    ensures PartingOf(s, cur, names + more, noFollow, budget) == PartingOf(s, cur + names, more, noFollow, budget)
    ensures LinksMet(s, cur, Dots(names + more), noFollow, budget + SPARE)
         == LinksMet(s, cur + names, Dots(more), noFollow, budget + SPARE)
    decreases |names|
  {
    hide LinksMet, KernelStep, PartsHere, Dots;
    if names == [] {
      assert cur + names == cur && names + more == more;
    } else {
      var p, next, rest := cur + names, cur + [names[0]], names[1..];
      assert next + rest == p;
      assert p[..|cur|] == cur && p[|cur|] == names[0];
      AncestorIsDir(s.fs, p, |cur|);
      if rest == [] {
        assert next == p;
      } else {
        AncestorIsDir(s.fs, p, |next|);
        assert p[..|next|] == next;
      }
      assert [names[0]] + (rest + more) == names + more;
      PlainStepTogether(s, cur, names[0], rest + more, noFollow, budget);
      LinksStep(s, cur, names + more, noFollow, budget);
      PlainTogether(s, next, rest, more, noFollow, budget);
    }
  }

  /** A last ".." or slash at which they part is answered differently. */
  lemma {:induction false} PartsForGood(s: Scope, p: Path, last: Name)
    requires ValidScope(s) && IsDir(s.fs, p) && Within(s.root, p) && (last == "" || last == "..")
    requires PartsHere(s, p, [last], false, KERNEL_SYMLINKS)
    ensures !AlikeFrom(s, p, [last], false, KERNEL_SYMLINKS)
    ensures LinksMet(s, p, Dots([last]), false, KERNEL_SYMLINKS + SPARE) == 0
  {
    hide Dots, WalkerRun;
    DotsPop([last]);
    assert [last][1..] == [];
    DotsOfNothing();
    WalkerAtEnd(s, p, false, KERNEL_SYMLINKS + SPARE);
    if last == ".." && (p, "..") !in s.fs.lookupFault {
      assert Parent(p) != p;
    }
    LinksUnfold(s, p, Dots([last]), false, KERNEL_SYMLINKS + SPARE);
    assert Dots([last])[1..] == [];
  }

  /** A path of directories with such an end tells walker and kernel apart. */
  lemma {:induction false} PathTellsApart(fs: Fs, root: Path, path: string, names: seq<Name>, last: Name)
    requires ValidFs(fs) && IsDir(fs, root)
    requires IsDir(fs, root + names) && Accessible(fs, root, root + names) && (last == "" || last == "..")
    requires path != "" && KernelParts(path) == names + [last]
    requires PartsHere(WalkerScope(fs, root), root + names, [last], false, KERNEL_SYMLINKS)
    ensures !MatchesOn(fs, root, path, false)
  {
    hide WalkerScope, PartsHere, AlikeFrom, KernelParts, Dots, ScopedHandle, KernelHandle, LinksMet, SplitParts;
    var s := WalkerScope(fs, root);
    WalkerScopeIs(fs, root);
    PathMatchesIff(fs, root, path, false);
    PlainTogether(s, root, names, [last], false, KERNEL_SYMLINKS);
    PartsForGood(s, root + names, last);
    DotsOfKernelParts(path);
  }

  lemma {:induction false} WalkerScopeIs(fs: Fs, root: Path)
    requires ValidFs(fs) && IsDir(fs, root)
    ensures var s := WalkerScope(fs, root); ValidScope(s) && s.fs == fs && s.root == root
  {
  }

  /** Going up at the root first gives a path to the root that ends in a slash. */
  lemma {:induction false} RootTellsApart(fs: Fs, root: Path) returns (path: string)
    requires ValidFs(fs) && IsDir(fs, root)
    requires (root, "..") in fs.lookupFault || (root, ".") in fs.lookupFault
    ensures !MatchesOn(fs, root, path, false)
  {
    KernelPartsOfJoin([".."]);
    assert root + [] == root && [] + [".."] == [".."];
    if (root, "..") in fs.lookupFault {
      path := "..";
      PathTellsApart(fs, root, path, [], "..");
    } else {
      path := "../";
      SlashAtRoot(fs, root);
    }
  }

  lemma {:induction false} SlashAtRoot(fs: Fs, root: Path)
    requires ValidFs(fs) && IsDir(fs, root)
    requires (root, "..") !in fs.lookupFault && (root, ".") in fs.lookupFault
    ensures !MatchesOn(fs, root, "../", false)
  {
    var s := WalkerScope(fs, root);
    KernelPartsOfJoin([".."]);
    assert JoinNames([".."]) + "/" == "../";
    assert [".."] + [""] == ["..", ""];
    PathMatchesIff(fs, root, "../", false);
    assert ["..", ""][1..] == [""];
    hide KernelParts, ScopedHandle, KernelHandle, SplitParts, LinksMet, AlikeFrom, Dots;
    DotsOfKernelParts("../");
    PartsForGood(s, root, "");
    LinksStep(s, root, ["..", ""], false, KERNEL_SYMLINKS);
  }

  lemma {:induction false} NotOrdinaryTellsApart(fs: Fs, root: Path) returns (path: string)
    requires ValidFs(fs) && IsDir(fs, root) && !Ordinary(fs, root)
    ensures !MatchesOn(fs, root, path, false)
  {
    if (root, "..") in fs.lookupFault || (root, ".") in fs.lookupFault {
      path := RootTellsApart(fs, root);
    } else {
      var p :| IsDir(fs, p) && Accessible(fs, root, p) && ((p, ".") in fs.lookupFault || (p in Aliases(fs, root) && p != root));
      var names := p[|root|..];
      assert root + names == p;
      NamesBelow(fs, root, names);
      if p in Aliases(fs, root) && p != root {
        KernelPartsOfJoin(names + [".."]);
        path := JoinNames(names + [".."]);
        PathTellsApart(fs, root, path, names, "..");
      } else {
        KernelPartsOfJoin(names);
        path := JoinNames(names) + "/";
        PathTellsApart(fs, root, path, names, "");
      }
    }
  }

  /**
   The ordinary trees are exactly those in which every path is answered alike, but for the empty
   path and for a 41st link that the walker still follows.
   */
  lemma {:induction false} WalkerMatchesKernelIff(fs: Fs, root: Path)
    requires ValidFs(fs) && IsDir(fs, root)
    ensures Ordinary(fs, root) <==> forall path: string, noFollow: bool :: MatchesOn(fs, root, path, noFollow)
  {
    hide MatchesOn, Ordinary;
    if Ordinary(fs, root) {
      forall path: string, noFollow: bool ensures MatchesOn(fs, root, path, noFollow) {
        OrdinaryMatches(fs, root, path, noFollow);
      }
    } else {
      var path := NotOrdinaryTellsApart(fs, root);
      assert !MatchesOn(fs, root, path, false);
    }
  }

  // ---- a path through more than 40 links ----

  /** A root directory holding one link, `a`, whose target is ".". */
  function DotLinkTree(): Fs {
    Fs(map[[] := Directory(1), ["a"] := Symlink(".")], map[], map[], {}, map[], {}, 2)
  }

  function Times(n: nat): seq<Name> {
    seq(n, _ => "a")
  }

  lemma {:induction false} DotLinkIsValid()
    ensures ValidFs(DotLinkTree()) && IsDir(DotLinkTree(), [])
    ensures KernelParts(RelativePath(".")) == ["."] == TargetParts(".")
    ensures OpenAt(DotLinkTree(), [], "a") == Success(["a"]) && OpenAt(DotLinkTree(), [], ".") == Success([])
    ensures DotLinkTree().nodes[["a"]] == Symlink(".") && ["a"] in DotLinkTree().nodes
    ensures DotLinkTree().followFault == map[] && !IsAbsolute(".")
  {
    KernelPartsOfJoin(["."]);
    assert RelativePath(".") == ".";
    DotsOfKernelParts(".");
    assert [] + ["a"] == ["a"];
  }

  lemma {:induction false} KernelThroughLinks(n: nat, budget: nat)
    ensures KernelRun(DotLinkTree(), [], [], Times(n), false, budget) == if n <= budget then Success([]) else Failure(ELOOP)
    decreases n
  {
    DotLinkIsValid();
    hide DotLinkTree, KernelParts, TargetParts, RelativePath;
    if n > 0 && budget > 0 {
      assert Times(n)[1..] == Times(n - 1);
      var after := ["."] + Times(n - 1);
      assert after[0] == "." && after[1..] == Times(n - 1);
      assert KernelStep(DotLinkTree(), [], [], Times(n), false, budget) == Onward([], after, budget - 1);
      if n > 1 {
        assert KernelStep(DotLinkTree(), [], [], after, false, budget - 1) == Onward([], Times(n - 1), budget - 1);
      }
      KernelThroughLinks(n - 1, budget - 1);
    }
  }

  lemma {:induction false} WalkerThroughLinks(n: nat, budget: nat)
    ensures WalkerRun(WalkerScope(DotLinkTree(), []), [], Times(n), false, budget)
         == if n <= budget then Success([]) else Failure(ELOOP)
    decreases n
  {
    DotLinkIsValid();
    var s := WalkerScope(DotLinkTree(), []);
    WalkerScopeIs(DotLinkTree(), []);
    hide DotLinkTree, TargetParts, RelativePath, WalkerScope, WalkerRun;
    if n == 0 {
      WalkerAtEnd(s, [], false, budget);
    } else {
      WalkerStep(s, [], Times(n), false, budget);
      if budget > 0 {
        assert Times(n)[1..] == Times(n - 1);
        var after := ["."] + Times(n - 1);
        assert after[0] == "." && after[1..] == Times(n - 1);
        assert Step(s, [], Times(n), 0, false, budget) == Go([], after, 1, budget - 1);
        WalkerStep(s, [], after, false, budget - 1);
        WalkerThroughLinks(n - 1, budget - 1);
      }
    }
  }

  /** A path through n links is answered alike if and only if n is at most 40, or more than 128. */
  lemma {:induction false} LinksTellApart(n: nat, path: string)
    requires n > 0 && path == JoinNames(Times(n))
    ensures ScopedHandle(WalkerScope(DotLinkTree(), []), path, false) == if n <= 128 then Success([]) else Failure(ELOOP)
    ensures KernelHandle(DotLinkTree(), [], path, false) == if n <= 40 then Success([]) else Failure(ELOOP)
  {
    KernelPartsOfJoin(Times(n));
    DotLinkIsValid();
    hide DotLinkTree, KernelParts, JoinNames, WalkerScope, WalkerRun, KernelRun, ScopedHandle;
    WalkerAnswers(DotLinkTree(), [], path, false);
    assert Dots(Times(n)) == Times(n);
    WalkerThroughLinks(n, MAX_SYMLINKS);
    KernelThroughLinks(n, KERNEL_SYMLINKS);
  }
}
