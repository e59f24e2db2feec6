/**
 The walker of infra/rootfs.cpp: an iterative emulation of openat2 with RESOLVE_IN_ROOT. It keeps
 the components still to walk (reversed, so that the next one is last), the entry it stands on, the
 path it expects that entry to have below the root, the number of links it may still follow and a
 stack of the links it has entered.
 */
module Rootfs {
  import opened Results
  import opened Sequences
  import opened FileTree
  import opened PathText
  import opened Resolution

  /** The deepest entry reached and the components not walked; error is set when a lookup missed. */
  datatype PartialLookup = PartialLookup(fd: Path, remaining: seq<Name>, error: Option<Errno>)

  datatype SymlinkEntry = SymlinkEntry(
    fd: Path,
    savedParts: seq<Name>,
    targetParts: seq<Name>,
    symlinkName: Name,
    consumed: nat)

  predicate SameInode(fs: Fs, a: Path, b: Path) {
    IsDir(fs, a) && IsDir(fs, b) && fs.nodes[a].inode == fs.nodes[b].inode
  }

  /** The directories the walker takes for the root, the root among them. */
  function Aliases(fs: Fs, root: Path): set<Path> {
    set p | p in fs.nodes && SameInode(fs, p, root)
  }

  function WalkerScope(fs: Fs, root: Path): (s: Scope) {
    Scope(fs, root, Aliases(fs, root))
  }

  function CheckCurrent(rootNow: Path, rootProcPath: Path, current: Path, expected: Path): Result<(), Errno> {
    if current != rootProcPath + expected then Failure(EACCES)
    else if rootNow != rootProcPath then Failure(ESTALE)
    else Success(())
  }

  // ---- the stack of entered links ----

  /** One component of the innermost entered link's target is done; a finished entry is dropped. */
  function ConsumeTarget(stack: seq<SymlinkEntry>): seq<SymlinkEntry> {
    if stack == [] then stack
    else
      var back := stack[|stack| - 1];
      if back.consumed >= |back.targetParts| then stack
      else if back.consumed + 1 == |back.targetParts| then stack[..|stack| - 1]
      else stack[..|stack| - 1] + [back.(consumed := back.consumed + 1)]
  }

  ghost function Outstanding(e: SymlinkEntry): nat {
    if e.consumed <= |e.targetParts| then |e.targetParts| - e.consumed else 0
  }

  /** Target components the stack still waits for. */
  ghost function Owed(stack: seq<SymlinkEntry>): nat {
    if stack == [] then 0 else Owed(stack[..|stack| - 1]) + Outstanding(stack[|stack| - 1])
  }

  ghost predicate AllWaiting(stack: seq<SymlinkEntry>) {
    forall i :: 0 <= i < |stack| ==> Outstanding(stack[i]) > 0
  }

  ghost predicate Stuck(stack: seq<SymlinkEntry>) {
    exists i :: 0 <= i < |stack| && Outstanding(stack[i]) == 0
  }

  /** A symbolic link of a directory below the root. */
  ghost predicate NamesLink(fs: Fs, root: Path, dir: Path, name: Name) {
    && Within(root, dir) && IsDir(fs, dir)
    && OpenAt(fs, dir, name) == Success(dir + [name]) && IsLink(fs, dir + [name])
  }

  /** Every entry names a symbolic link of a directory below the root. */
  ghost predicate EntriesNameLinks(fs: Fs, root: Path, stack: seq<SymlinkEntry>) {
    forall i :: 0 <= i < |stack| ==>
      NamesLink(fs, root, stack[i].fd, stack[i].symlinkName)
  }

  /** What the stack amounts to: a count of owed components, or an entry that never leaves. */
  ghost predicate StackIs(stack: seq<SymlinkEntry>, owed: nat, stuck: bool) {
    if stuck then Stuck(stack) else AllWaiting(stack) && Owed(stack) == owed
  }

  lemma {:induction false} OwedIsZero(stack: seq<SymlinkEntry>, owed: nat, stuck: bool)
    requires StackIs(stack, owed, stuck)
    ensures stack == [] <==> !stuck && owed == 0
  {
  }

  lemma {:induction false} ConsumePaysOff(stack: seq<SymlinkEntry>)
    requires stack != [] && AllWaiting(stack)
    ensures AllWaiting(ConsumeTarget(stack)) && Owed(ConsumeTarget(stack)) == Owed(stack) - 1
  {
  }

  lemma {:induction false} ConsumeKeepsStuck(stack: seq<SymlinkEntry>)
    requires Stuck(stack)
    ensures Stuck(ConsumeTarget(stack))
  {
    var i :| 0 <= i < |stack| && Outstanding(stack[i]) == 0;
    var after := ConsumeTarget(stack);
    assert i < |after| && after[i] == stack[i];
  }

  lemma {:induction false} ConsumeKeepsEntries(fs: Fs, root: Path, stack: seq<SymlinkEntry>)
    requires EntriesNameLinks(fs, root, stack)
    ensures EntriesNameLinks(fs, root, ConsumeTarget(stack))
  {
  }

  lemma {:induction false} ConsumeIsLess(fs: Fs, root: Path, stack: seq<SymlinkEntry>, owed: nat, stuck: bool)
    requires StackIs(stack, owed, stuck) && EntriesNameLinks(fs, root, stack)
    ensures StackIs(ConsumeTarget(stack), Less(owed), stuck)
    ensures EntriesNameLinks(fs, root, ConsumeTarget(stack))
  {
    hide ConsumeTarget, EntriesNameLinks;
    ConsumeKeepsEntries(fs, root, stack);
    if stuck {
      ConsumeKeepsStuck(stack);
    } else if stack != [] {
      ConsumePaysOff(stack);
    } else {
      ConsumeNothing();
    }
  }

  lemma {:induction false} ConsumeNothing()
    ensures ConsumeTarget([]) == []
  {
  }

  lemma {:induction false} EmptyStack(fs: Fs, root: Path)
    ensures StackIs([], 0, false) && BottomIs([], None) && EntriesNameLinks(fs, root, [])
  {
  }

  lemma {:induction false} PushNamesLink(fs: Fs, root: Path, stack: seq<SymlinkEntry>, e: SymlinkEntry)
    requires EntriesNameLinks(fs, root, stack)
    requires NamesLink(fs, root, e.fd, e.symlinkName)
    ensures EntriesNameLinks(fs, root, stack + [e])
  {
  }

  lemma {:induction false} PushOwes(stack: seq<SymlinkEntry>, e: SymlinkEntry, owed: nat, stuck: bool)
    requires StackIs(stack, owed, stuck) && e.consumed == 0
    ensures StackIs(stack + [e], owed + |e.targetParts|, stuck || e.targetParts == [])
  {
    var after := stack + [e];
    assert after[..|after| - 1] == stack && after[|after| - 1] == e;
    if stuck {
      var i :| 0 <= i < |stack| && Outstanding(stack[i]) == 0;
      assert Outstanding(after[i]) == 0;
    }
  }

  // ---- one turn of the loop, case by case ----

  /** A link that was followed at directory `at`, with the components that stood behind it. */
  datatype Entered = Entered(at: Path, name: Name, rest: seq<Name>)

  /** The loop's state as the flat walk sees it, with what the stack owes and its outermost entry. */
  datatype Position = Position(
    cur: Path,
    parts: seq<Name>,
    pending: nat,
    budget: nat,
    owed: nat,
    stuck: bool,
    outermost: Option<Entered>)

  /** The bottom of the stack is the outermost link that is not paid off. */
  ghost predicate BottomIs(stack: seq<SymlinkEntry>, outermost: Option<Entered>) {
    match outermost
    case None => stack == []
    case Some(e) =>
      && stack != []
      && stack[0].fd == e.at && stack[0].symlinkName == e.name && stack[0].savedParts == Reverse(e.rest)
  }

  /** The position after one component, or with a link's target in front. */
  function Past(w: Position, next: Path): Position
    requires w.parts != []
  {
    w.(cur := next, parts := w.parts[1..], pending := Less(w.pending), owed := Less(w.owed),
       outermost := if w.stuck || Less(w.owed) > 0 then w.outermost else None)
  }

  function Inside(w: Position, base: Path, t: seq<Name>): Position
    requires w.parts != [] && w.budget > 0
  {
    Position(base, t + w.parts[1..], |t| + Less(w.pending), w.budget - 1, w.owed + |t|, w.stuck || t == [],
             if w.outermost.Some? then w.outermost else Some(Entered(w.cur, w.parts[0], w.parts[1..])))
  }

  /**
   The outermost link still on the stack when the walk stops. A followed link adds its target's
   components to the debt, every other component pays one off, a link does not; a target without
   components is never paid off.
   */
  function EntryLeft(s: Scope, w: Position, noFollow: bool): Option<Entered>
    decreases w.budget, |w.parts|
  {
    if w.parts == [] then w.outermost
    else
      match Step(s, w.cur, w.parts, 0, noFollow, w.budget)
      case Stop(_) => w.outermost
      case Go(next, parts, entered, budget) =>
        if budget < w.budget
        then EntryLeft(s, Inside(w, next, if entered <= |parts| then parts[..entered] else []), noFollow)
        else EntryLeft(s, Past(w, next), noFollow)
  }

  /** How a walk from here ends, and the entered link that is left on the stack then. */
  ghost function Ending(s: Scope, w: Position, noFollow: bool): (Outcome, Option<Entered>) {
    (Run(s, w.cur, w.parts, w.pending, noFollow, w.budget), EntryLeft(s, w, noFollow))
  }

  lemma {:induction false} ConsumeKeepsBottom(stack: seq<SymlinkEntry>, w: Position, next: Path)
    requires StackIs(stack, w.owed, w.stuck) && BottomIs(stack, w.outermost) && w.parts != []
    requires StackIs(ConsumeTarget(stack), Less(w.owed), w.stuck)
    ensures BottomIs(ConsumeTarget(stack), Past(w, next).outermost)
  {
    hide StackIs;
    OwedIsZero(stack, w.owed, w.stuck);
    OwedIsZero(ConsumeTarget(stack), Less(w.owed), w.stuck);
  }

  lemma {:induction false} PushKeepsBottom(stack: seq<SymlinkEntry>, e: SymlinkEntry, w: Position, base: Path)
    requires BottomIs(stack, w.outermost) && w.parts != [] && w.budget > 0
    requires e.fd == w.cur && e.symlinkName == w.parts[0] && e.savedParts == Reverse(w.parts[1..])
    ensures BottomIs(stack + [e], Inside(w, base, e.targetParts).outermost)
  {
  }

  lemma {:induction false} EndingStops(s: Scope, w: Position, noFollow: bool, o: Outcome)
    requires w.parts != [] && Step(s, w.cur, w.parts, w.pending, noFollow, w.budget) == Stop(o)
    ensures Ending(s, w, noFollow) == (o, w.outermost)
  {
  }

  lemma {:induction false} EntersFresh(s: Scope, w: Position, noFollow: bool, base: Path, t: seq<Name>)
    requires w.parts != [] && w.budget > 0
    requires Step(s, w.cur, w.parts, w.pending, noFollow, w.budget)
          == Go(base, t + w.parts[1..], |t| + Less(w.pending), w.budget - 1)
    ensures Step(s, w.cur, w.parts, 0, noFollow, w.budget) == Go(base, t + w.parts[1..], |t|, w.budget - 1)
  {
  }

  lemma {:induction false} EntryEnters(s: Scope, w: Position, noFollow: bool, base: Path, t: seq<Name>)
    requires w.parts != [] && w.budget > 0
    requires Step(s, w.cur, w.parts, 0, noFollow, w.budget) == Go(base, t + w.parts[1..], |t|, w.budget - 1)
    ensures EntryLeft(s, w, noFollow) == EntryLeft(s, Inside(w, base, t), noFollow)
    ensures Inside(w, base, t).cur == base && Inside(w, base, t).parts == t + w.parts[1..]
    ensures Inside(w, base, t).pending == |t| + Less(w.pending) && Inside(w, base, t).budget == w.budget - 1
  {
    hide Step;
    var whole := t + w.parts[1..];
    assert whole[..|t|] == t;
  }

  lemma {:induction false} EndingEnters(s: Scope, w: Position, noFollow: bool, base: Path, t: seq<Name>)
    requires w.parts != [] && w.budget > 0
    requires Step(s, w.cur, w.parts, w.pending, noFollow, w.budget)
          == Go(base, t + w.parts[1..], |t| + Less(w.pending), w.budget - 1)
    ensures Ending(s, w, noFollow) == Ending(s, Inside(w, base, t), noFollow)
  {
    hide Step, EntryLeft, Inside;
    EntersFresh(s, w, noFollow, base, t);
    EntryEnters(s, w, noFollow, base, t);
  }

  lemma {:induction false} TurnUp(s: Scope, w: Position, noFollow: bool)
    requires w.parts != [] && w.parts[0] == ".."
    ensures w.cur in s.stops ==> Ending(s, w, noFollow) == Ending(s, Past(w, w.cur), noFollow)
    ensures w.cur !in s.stops ==>
              match OpenAt(s.fs, w.cur, "..")
              case Failure(e) => Ending(s, w, noFollow).0 == Refused(e)
              case Success(up) => Ending(s, w, noFollow) == Ending(s, Past(w, up), noFollow)
  {
  }

  lemma {:induction false} TurnMiss(s: Scope, w: Position, noFollow: bool)
    requires w.parts != [] && w.parts[0] != ".." && OpenAt(s.fs, w.cur, w.parts[0]).Failure?
    ensures var e := OpenAt(s.fs, w.cur, w.parts[0]).error;
            Ending(s, w, noFollow) == (if e != ENOENT then Refused(e) else if w.pending > 0 then Dangling else Absent(w.cur, w.parts),
                                       w.outermost)
  {
  }

  lemma {:induction false} TurnLink(s: Scope, w: Position, noFollow: bool, h: Path)
    requires w.parts != [] && w.parts[0] != ".." && OpenAt(s.fs, w.cur, w.parts[0]) == Success(h) && IsLink(s.fs, h)
    ensures noFollow && |w.parts| == 1 ==> Ending(s, w, noFollow).0 == Found(h, w.budget)
    ensures !(noFollow && |w.parts| == 1) ==>
              var target := s.fs.nodes[h].target;
              match Follow(s, w.cur, h, target, w.budget)
              case Failure(e) => Ending(s, w, noFollow).0 == Refused(e)
              case Success(base) => Ending(s, w, noFollow) == Ending(s, Inside(w, base, TargetParts(target)), noFollow)
  {
    hide Ending;
    var m := Step(s, w.cur, w.parts, w.pending, noFollow, w.budget);
    if m.Stop? {
      EndingStops(s, w, noFollow, m.outcome);
    } else {
      EndingEnters(s, w, noFollow, m.cur, TargetParts(s.fs.nodes[h].target));
    }
  }

  lemma {:induction false} TurnEntry(s: Scope, w: Position, noFollow: bool, h: Path)
    requires w.parts != [] && w.parts[0] != ".." && OpenAt(s.fs, w.cur, w.parts[0]) == Success(h) && !IsLink(s.fs, h)
    ensures |w.parts| > 1 && !IsDir(s.fs, h) ==> Ending(s, w, noFollow).0 == Refused(ENOTDIR)
    ensures |w.parts| == 1 || IsDir(s.fs, h) ==> Ending(s, w, noFollow) == Ending(s, Past(w, h), noFollow)
  {
  }

  lemma {:induction false} TurnDone(s: Scope, w: Position, noFollow: bool)
    requires w.parts == []
    ensures Ending(s, w, noFollow).0 == Found(w.cur, w.budget)
  {
  }

  // ---- the walk ----

  /** A lookup that missed and was taken back to the outermost entered link. */
  ghost predicate Rewound(fs: Fs, root: Path, p: PartialLookup) {
    p.error == Some(ENOENT) && p.remaining != [] && NamesLink(fs, root, p.fd, p.remaining[0])
  }

  /** The answer to a miss behind an entered link: the link, and what stood behind it, last name first. */
  function BackTo(e: Entered): PartialLookup {
    PartialLookup(e.at, [e.name] + Reverse(e.rest), Some(ENOENT))
  }

  /** How a partial lookup answers the walk's outcome. */
  ghost predicate Answers(fs: Fs, root: Path, r: Result<PartialLookup, Errno>, o: Outcome, left: Option<Entered>) {
    match o
    case Found(at, _) => r == Success(PartialLookup(at, [], None))
    case Refused(e) => r == Failure(e)
    case Dangling => left.Some? && r == Success(BackTo(left.value)) && Rewound(fs, root, r.value)
    case Absent(at, todo) =>
      if left.Some? then r == Success(BackTo(left.value)) && Rewound(fs, root, r.value)
      else r == Success(PartialLookup(at, todo, Some(ENOENT)))
  }

  /** How a lookup of a path ends; the second part is the entered link left pending, if there is one. */
  ghost function LookupEnding(fs: Fs, root: Path, path: string, noFollow: bool): (Outcome, Option<Entered>) {
    var s := WalkerScope(fs, root);
    (Lookup(s, root, SplitParts(path), noFollow, MAX_SYMLINKS), EntryLeft(s, AtRoot(root, path), noFollow))
  }

  function AtRoot(root: Path, path: string): Position {
    Position(root, SplitParts(path), 0, MAX_SYMLINKS, 0, false, None)
  }

  lemma {:induction false} EndingOfPath(fs: Fs, root: Path, path: string, noFollow: bool)
    requires ValidFs(fs) && IsDir(fs, root)
    ensures LookupEnding(fs, root, path, noFollow)
         == Ending(WalkerScope(fs, root), AtRoot(root, path), noFollow)
  {
    hide Run, Lookup, EntryLeft;
    RunIsLookup(WalkerScope(fs, root), root, SplitParts(path), noFollow, MAX_SYMLINKS);
  }

  /** The walker's variables agree with the flat walk's position; expectedPath is where it stands below the root. */
  ghost predicate Tracks(fs: Fs, root: Path, w: Position,
                         parts: seq<Name>, current: Path, expectedPath: Path, stack: seq<SymlinkEntry>, budget: int)
  {
    && budget == w.budget
    && parts == Reverse(w.parts)
    && (forall x :: x in w.parts ==> '/' !in x)
    && current == w.cur == root + expectedPath && current in fs.nodes
    && (w.parts != [] ==> IsDir(fs, current))
    && StackIs(stack, w.owed, w.stuck) && BottomIs(stack, w.outermost) && EntriesNameLinks(fs, root, stack)
    && (w.pending <= w.owed || w.stuck)
  }

  /** The ".." branch of the walk. */
  method ClimbUp(fs: Fs, root: Path, rootProcPath: Path, parts: seq<Name>, current: Path, expectedPath: Path,
                 stack: seq<SymlinkEntry>, ghost w: Position, noFollow: bool)
    returns (r: Result<(), Errno>, current': Path, expectedPath': Path, stack': seq<SymlinkEntry>)
    requires ValidFs(fs) && IsDir(fs, root) && rootProcPath == root
    requires w.parts != [] && w.parts[0] == ".."
    requires Tracks(fs, root, w, parts + [".."], current, expectedPath, stack, w.budget)
    ensures var s := WalkerScope(fs, root);
            match r
            case Failure(e) => Ending(s, w, noFollow).0 == Refused(e)
            case Success(_) =>
              && Tracks(fs, root, Past(w, current'), parts, current', expectedPath', stack', w.budget)
              && Ending(s, w, noFollow) == Ending(s, Past(w, current'), noFollow)
  {
    hide Ending, StackIs, BottomIs, EntriesNameLinks, ConsumeTarget;
    current', expectedPath', stack' := current, expectedPath, stack;
    TurnUp(WalkerScope(fs, root), w, noFollow);
    ConsumeIsLess(fs, root, stack, w.owed, w.stuck);
    ConsumeKeepsBottom(stack, w, current);
    PoppedReverse(w.parts, parts, "..");
    if SameInode(fs, current, root) {
      var check := CheckCurrent(root, rootProcPath, current, expectedPath);
      if check.Failure? {
        return check, current', expectedPath', stack';
      }
      stack' := ConsumeTarget(stack);
      return Success(()), current', expectedPath', stack';
    }
    var up := OpenAt(fs, current, "..");
    if up.Failure? {
      return Failure(up.error), current', expectedPath', stack';
    }
    OpenAtFinds(fs, current, "..");
    assert expectedPath != [] by {
      assert root + [] == root;
    }
    assert Parent(root + expectedPath) == root + Parent(expectedPath);
    current' := up.value;
    expectedPath' := Parent(expectedPath);
    var check := CheckCurrent(root, rootProcPath, current', expectedPath');
    if check.Failure? {
      return check, current', expectedPath', stack';
    }
    stack' := ConsumeTarget(stack);
    r := Success(());
  }

  /** The symbolic link branch of the walk, for a link that is to be followed. */
  method EnterLink(fs: Fs, root: Path, parts: seq<Name>, name: Name, current: Path, expectedPath: Path,
                   stack: seq<SymlinkEntry>, budget: int, link: Path, ghost w: Position, noFollow: bool)
    returns (r: Result<(), Errno>, parts': seq<Name>, current': Path, expectedPath': Path,
             stack': seq<SymlinkEntry>, budget': int, ghost w': Position)
    requires ValidFs(fs) && IsDir(fs, root)
    requires w.parts != [] && w.parts[0] == name != ".."
    requires OpenAt(fs, current, name) == Success(link) && IsLink(fs, link) && link == current + [name]
    requires !(noFollow && |w.parts| == 1)
    requires Tracks(fs, root, w, parts + [name], current, expectedPath, stack, budget)
    ensures var s := WalkerScope(fs, root);
            match r
            case Failure(e) => Ending(s, w, noFollow).0 == Refused(e)
            case Success(_) =>
              && Tracks(fs, root, w', parts', current', expectedPath', stack', budget')
              && Ending(s, w, noFollow) == Ending(s, w', noFollow)
              && 0 <= budget' < budget
  {
    hide Ending, StackIs, BottomIs, EntriesNameLinks, SplitParts, RelativePath;
    parts', current', expectedPath', stack', w' := parts, current, expectedPath, stack, w;
    TurnLink(WalkerScope(fs, root), w, noFollow, link);
    PoppedReverse(w.parts, parts, name);
    budget' := budget - 1;
    if budget' < 0 {
      return Failure(ELOOP), parts', current', expectedPath', stack', budget', w';
    }
    if link in fs.followFault {
      return Failure(fs.followFault[link]), parts', current', expectedPath', stack', budget', w';
    }
    var target := fs.nodes[link].target;
    var targetParts := WalkSplit(RelativePath(target));
    var saved := SymlinkEntry(current, parts, targetParts, name, 0);
    PushOwes(stack, saved, w.owed, w.stuck);
    PushNamesLink(fs, root, stack, saved);
    PushKeepsBottom(stack, saved, w, current);
    stack' := stack + [saved];
    if IsAbsolute(target) {
      if link in fs.magic {
        return Failure(ELOOP), parts', current', expectedPath', stack', budget', w';
      }
      current' := root;
      expectedPath' := [];
    }
    parts' := parts + Reverse(targetParts);
    ReverseAppend(targetParts, w.parts[1..]);
    w' := Inside(w, current', targetParts);
    r := Success(());
  }

  /** A component that does not exist: back to the outermost entered link, if there is one. */
  method Miss(fs: Fs, root: Path, parts: seq<Name>, name: Name, current: Path, ghost expectedPath: Path,
              stack: seq<SymlinkEntry>, ghost w: Position, noFollow: bool)
    returns (p: PartialLookup)
    requires w.parts != [] && w.parts[0] == name != ".." && OpenAt(fs, current, name) == Failure(ENOENT)
    requires Tracks(fs, root, w, parts + [name], current, expectedPath, stack, w.budget)
    ensures var ending := Ending(WalkerScope(fs, root), w, noFollow);
            Answers(fs, root, Success(p), ending.0, ending.1)
    ensures Within(root, p.fd) && p.fd in fs.nodes
  {
    hide Ending;
    TurnMiss(WalkerScope(fs, root), w, noFollow);
    OwedIsZero(stack, w.owed, w.stuck);
    if stack != [] {
      var front := stack[0];
      return PartialLookup(front.fd, [front.symlinkName] + front.savedParts, Some(ENOENT));
    }
    ReverseTwice(w.parts);
    return PartialLookup(current, Reverse(parts + [name]), Some(ENOENT));
  }

  lemma {:induction false} PoppedReverse(todo: seq<Name>, parts: seq<Name>, name: Name)
    requires todo != [] && parts + [name] == Reverse(todo)
    ensures parts == Reverse(todo[1..]) && name == todo[0]
  {
    assert (parts + [name])[..|parts|] == parts;
    assert Reverse(todo)[..|todo| - 1] == Reverse(todo[1..]);
    assert (parts + [name])[|parts|] == name;
  }

  method ResolvePartial(fs: Fs, root: Path, path: string, noFollowTrailing: bool)
    returns (r: Result<PartialLookup, Errno>)
    requires ValidFs(fs) && IsDir(fs, root)
    ensures var ending := LookupEnding(fs, root, path, noFollowTrailing);
            Answers(fs, root, r, ending.0, ending.1)
    ensures r.Success? ==> Within(root, r.value.fd) && r.value.fd in fs.nodes
  {
    hide Ending, LookupEnding, StackIs, BottomIs, EntriesNameLinks, ConsumeTarget, SplitParts;
    ghost var s := WalkerScope(fs, root);
    EndingOfPath(fs, root, path, noFollowTrailing);
    var parts := WalkSplit(path);
    ghost var w := AtRoot(root, path);
    if parts == [] {
      TurnDone(s, w, noFollowTrailing);
      return Success(PartialLookup(root, [], None));
    }
    var rootProcPath := root;
    parts := Reverse(parts);
    var current, expectedPath: Path := root, [];
    var symlinkStack: seq<SymlinkEntry> := [];
    var budget: int := MAX_SYMLINKS;
    EmptyStack(fs, root);

    while parts != []
      invariant 0 <= budget
      invariant Tracks(fs, root, w, parts, current, expectedPath, symlinkStack, budget)
      invariant LookupEnding(fs, root, path, noFollowTrailing) == Ending(s, w, noFollowTrailing)
      decreases budget, |parts|
    {
      var name := parts[|parts| - 1];
      ghost var before := parts;
      parts := parts[..|parts| - 1];
      assert parts + [name] == before;
      PoppedReverse(w.parts, parts, name);

      if name == ".." {
        var climbed;
        climbed, current, expectedPath, symlinkStack :=
          ClimbUp(fs, root, rootProcPath, parts, current, expectedPath, symlinkStack, w, noFollowTrailing);
        if climbed.Failure? {
          return Failure(climbed.error);
        }
        w := Past(w, current);
        continue;
      }

      if '/' in name {
        return Failure(EINVAL);
      }

      var comp := OpenAt(fs, current, name);
      if comp.Failure? {
        if comp.error == ENOENT {
          var missed := Miss(fs, root, parts, name, current, expectedPath, symlinkStack, w, noFollowTrailing);
          return Success(missed);
        }
        TurnMiss(s, w, noFollowTrailing);
        return Failure(comp.error);
      }
      OpenAtFinds(fs, current, name);
      var entry := comp.value;

      if IsLink(fs, entry) {
        if noFollowTrailing && parts == [] {
          TurnLink(s, w, noFollowTrailing, entry);
          return Success(PartialLookup(entry, [], None));
        }
        var entered;
        entered, parts, current, expectedPath, symlinkStack, budget, w :=
          EnterLink(fs, root, parts, name, current, expectedPath, symlinkStack, budget, entry, w, noFollowTrailing);
        if entered.Failure? {
          return Failure(entered.error);
        }
        continue;
      }

      TurnEntry(s, w, noFollowTrailing, entry);
      if !IsDir(fs, entry) && parts != [] {
        return Failure(ENOTDIR);
      }
      if name != "." {
        expectedPath := expectedPath + [name];
      }
      current := entry;
      ConsumeIsLess(fs, root, symlinkStack, w.owed, w.stuck);
      ConsumeKeepsBottom(symlinkStack, w, entry);
      symlinkStack := ConsumeTarget(symlinkStack);
      w := Past(w, current);
    }

    TurnDone(s, w, noFollowTrailing);
    var check := CheckCurrent(root, rootProcPath, current, expectedPath);
    return match check
           case Failure(e) => Failure(e)
           case Success(_) => Success(PartialLookup(current, [], None));
  }

  method ResolveScoped(fs: Fs, root: Path, path: string, noFollowTrailing: bool) returns (r: Result<Path, Errno>)
    requires ValidFs(fs) && IsDir(fs, root)
    ensures r == Handle(Lookup(WalkerScope(fs, root), root, SplitParts(path), noFollowTrailing, MAX_SYMLINKS))
    ensures r.Success? ==> Within(root, r.value) && r.value in fs.nodes
  {
    var lookup := ResolvePartial(fs, root, path, noFollowTrailing);
    if lookup.Failure? {
      return Failure(lookup.error);
    }
    if lookup.value.remaining != [] {
      return Failure(lookup.value.error.value);
    }
    return Success(lookup.value.fd);
  }

  /** The entry or error a caller of a scoped open sees. */
  function Handle(o: Outcome): Result<Path, Errno> {
    match o
    case Found(at, _) => Success(at)
    case Refused(e) => Failure(e)
    case Absent(_, _) => Failure(ENOENT)
    case Dangling => Failure(ENOENT)
  }
}
