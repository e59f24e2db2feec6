/**
 remove_all_in_dir of infra/rootfs.cpp: an explicit stack of entries to delete, worked on until it
 is empty. The host's file system changes under it only by its own system calls.
 */
module Removal {
  import opened Results
  import opened FileTree

  datatype Task = Task(name: Name, dir: Path, scanned: bool)

  function TaskPath(t: Task): Path {
    t.dir + [t.name]
  }

  /** The names getdents64 reports, "." and ".." aside. */
  function Children(fs: Fs, dir: Path): set<Name> {
    set p | p in fs.nodes && p != [] && Parent(p) == dir :: p[|p| - 1]
  }

  /** unlinkat, with AT_REMOVEDIR when removeDir is set. */
  function UnlinkAt(fs: Fs, dir: Path, name: Name, removeDir: bool): (r: Result<Fs, Errno>) {
    var p := dir + [name];
    if !IsDir(fs, dir) then Failure(ENOTDIR)
    else if (dir, name) in fs.lookupFault then Failure(fs.lookupFault[(dir, name)])
    else if p !in fs.nodes then Failure(ENOENT)
    else if !removeDir && IsDir(fs, p) then Failure(EISDIR)
    else if removeDir && !IsDir(fs, p) then Failure(ENOTDIR)
    else if p in fs.pinned then Failure(EPERM)
    else if removeDir && Children(fs, p) != {} then Failure(ENOTEMPTY)
    else Success(fs.(nodes := fs.nodes - {p}))
  }

  /** openat(dir, name, O_DIRECTORY | O_NOFOLLOW). */
  function OpenDirectory(fs: Fs, dir: Path, name: Name): Result<Path, Errno> {
    match OpenAt(fs, dir, name)
    case Failure(e) => Failure(e)
    case Success(h) => if IsDir(fs, h) then Success(h) else Failure(ENOTDIR)
  }

  // ---- what is to be deleted ----

  ghost function Subtree(fs: Fs, base: Path): set<Path> {
    set p | p in fs.nodes && base <= p
  }

  ghost predicate Deletable(fs: Fs, p: Path) {
    p != [] && p !in fs.pinned && (Parent(p), p[|p| - 1]) !in fs.lookupFault
  }

  /** Nothing refuses to be looked up or removed in the subtree of dir's entry `name`. */
  ghost predicate Removable(fs: Fs, dir: Path, name: Name) {
    (dir, name) !in fs.lookupFault && forall p :: p in Subtree(fs, dir + [name]) ==> Deletable(fs, p)
  }

  ghost predicate Distinct<T>(s: seq<T>) {
    forall i, j :: 0 <= i < j < |s| ==> s[i] != s[j]
  }

  // ---- lemmas about trees ----

  lemma {:induction false} NothingBelow(fs: Fs, p: Path, q: Path)
    requires ValidFs(fs) && q in fs.nodes && p < q
    ensures p in fs.nodes && IsDir(fs, p) && q[|p|] in Children(fs, p)
  {
    var child := q[..|p| + 1];
    assert child in fs.nodes by {
      if |p| + 1 == |q| {
        assert child == q;
      } else {
        AncestorIsDir(fs, q, |p| + 1);
      }
    }
    AncestorIsDir(fs, q, |p|);
    assert q[..|p|] == p;
    assert Parent(child) == p && child[|child| - 1] == q[|p|];
  }

  lemma {:induction false} ChildrenAreEntries(fs: Fs, dir: Path, n: Name)
    ensures n in Children(fs, dir) <==> dir + [n] in fs.nodes
  {
    var p := dir + [n];
    assert Parent(p) == dir && p[|p| - 1] == n;
    if n in Children(fs, dir) {
      var q :| q in fs.nodes && q != [] && Parent(q) == dir && q[|q| - 1] == n;
      assert q == p;
    }
  }

  lemma {:induction false} UnlinkKeepsTree(fs: Fs, dir: Path, name: Name, removeDir: bool)
    requires ValidFs(fs) && UnlinkAt(fs, dir, name, removeDir).Success?
    ensures ValidFs(UnlinkAt(fs, dir, name, removeDir).value)
    ensures forall q :: q in fs.nodes && dir + [name] <= q ==> q == dir + [name]
  {
    var p := dir + [name];
    var fs' := UnlinkAt(fs, dir, name, removeDir).value;
    forall q | q in fs.nodes && p <= q ensures q == p {
      if q != p {
        NothingBelow(fs, p, q);
      }
    }
    forall q: Path ensures Seated(fs', q) {
      assert Seated(fs, q);
      assert q != [] ==> Parent(q) <= q;
    }
  }

  // ---- the stack of tasks ----

  ghost predicate DistinctTasks(stack: seq<Task>) {
    forall i, j {:trigger TaskPath(stack[i]), TaskPath(stack[j])} :: 0 <= i < j < |stack| ==> TaskPath(stack[i]) != TaskPath(stack[j])
  }

  ghost predicate HasScanned(stack: seq<Task>, p: Path, below: nat) {
    exists j :: 0 <= j < below && j < |stack| && stack[j].scanned && TaskPath(stack[j]) == p
  }

  ghost predicate HasTask(stack: seq<Task>, p: Path, above: int) {
    exists j :: above < j < |stack| && 0 <= j && TaskPath(stack[j]) == p
  }

  /** The bottom task is the whole job; every other one lies in a scanned directory further down. */
  ghost predicate Stacked(fs: Fs, dir: Path, name: Name, stack: seq<Task>) {
    && IsDir(fs, dir)
    && DistinctTasks(stack)
    && (forall i :: 0 <= i < |stack| ==> ProperName(stack[i].name) && dir + [name] <= TaskPath(stack[i]))
    && (forall i :: 0 < i < |stack| ==> TaskPath(stack[i]) in fs.nodes)
    && (stack != [] ==> stack[0].dir == dir && stack[0].name == name)
    && (stack == [] ==> dir + [name] !in fs.nodes)
    && (forall i {:trigger HasScanned(stack, stack[i].dir, i)} :: 0 < i < |stack| ==> HasScanned(stack, stack[i].dir, i))
  }

  /** What is left of a scanned directory has its tasks above it. */
  ghost predicate Covered(fs: Fs, stack: seq<Task>) {
    forall i :: 0 <= i < |stack| && stack[i].scanned ==> CoveredTask(fs, stack, i)
  }

  ghost predicate CoveredTask(fs: Fs, stack: seq<Task>, i: nat)
    requires i < |stack|
  {
    var p := TaskPath(stack[i]);
    IsDir(fs, p) && forall n {:trigger HasTask(stack, p + [n], i)} :: n in Children(fs, p) ==> HasTask(stack, p + [n], i)
  }

  /** What is gone so far, and which directories have been read. */
  ghost predicate Accounted(fs0: Fs, dir: Path, name: Name, fs: Fs, scans: seq<Path>) {
    && ValidFs(fs0) && ValidFs(fs)
    && fs == fs0.(nodes := fs.nodes)
    && (forall p :: p in fs.nodes ==> p in fs0.nodes && fs.nodes[p] == fs0.nodes[p])
    && (forall g :: g in fs0.nodes && g !in fs.nodes ==> Gone(fs0, dir, name, g, scans))
  }

  ghost predicate Gone(fs0: Fs, dir: Path, name: Name, g: Path, scans: seq<Path>) {
    && dir + [name] <= g && Deletable(fs0, g)
    && (g == dir + [name] || Parent(g) in scans)
    && (IsDir(fs0, g) && Children(fs0, g) != {} ==> g in scans)
  }

  ghost predicate Logged(fs0: Fs, fs: Fs, dir: Path, name: Name, stack: seq<Task>, scans: seq<Path>) {
    && Distinct(scans)
    && (forall i :: 0 <= i < |stack| && stack[i].scanned ==> TaskPath(stack[i]) in scans)
    && forall p :: p in scans ==>
         && dir + [name] <= p && IsDir(fs0, p)
         && (Children(fs0, p) != {} || !Deletable(fs0, p))
         && (p in fs.nodes ==> HasScanned(stack, p, |stack|))
  }

  ghost predicate Working(fs0: Fs, dir: Path, name: Name, fs: Fs, stack: seq<Task>, scans: seq<Path>) {
    && Accounted(fs0, dir, name, fs, scans)
    && Stacked(fs, dir, name, stack)
    && Covered(fs, stack)
    && Logged(fs0, fs, dir, name, stack, scans)
  }

  lemma {:induction false} TaskDirIsDir(fs: Fs, dir: Path, name: Name, stack: seq<Task>, i: nat)
    requires Stacked(fs, dir, name, stack) && Covered(fs, stack) && i < |stack|
    ensures IsDir(fs, stack[i].dir)
  {
    if i > 0 {
      assert HasScanned(stack, stack[i].dir, i);
      var j :| 0 <= j < i && stack[j].scanned && TaskPath(stack[j]) == stack[i].dir;
      assert CoveredTask(fs, stack, j);
    }
  }

  lemma {:induction false} PopKeepsNested(stack: seq<Task>, i: nat)
    requires 0 < i < |stack| - 1 && HasScanned(stack, stack[i].dir, i)
    ensures HasScanned(stack[..|stack| - 1], stack[i].dir, i)
  {
  }

  lemma {:induction false} PopKeepsDistinct(stack: seq<Task>)
    requires stack != [] && DistinctTasks(stack)
    ensures DistinctTasks(stack[..|stack| - 1])
    ensures forall i :: 0 <= i < |stack| - 1 ==> TaskPath(stack[i]) != TaskPath(stack[|stack| - 1])
  {
  }

  /** Dropping the top task once its entry is gone keeps the stack in order. */
  lemma {:induction false} BottomPath(dir: Path, name: Name, stack: seq<Task>)
    requires stack != [] && stack[0].dir == dir && stack[0].name == name
    ensures TaskPath(stack[0]) == dir + [name]
  {
  }

  lemma {:induction false} PopKeepsStacked(fs: Fs, fs': Fs, dir: Path, name: Name, stack: seq<Task>)
    requires stack != [] && Stacked(fs, dir, name, stack) && IsDir(fs', dir)
    requires TaskPath(stack[|stack| - 1]) !in fs'.nodes
    requires forall q :: q in fs.nodes && q != TaskPath(stack[|stack| - 1]) ==> q in fs'.nodes
    ensures Stacked(fs', dir, name, stack[..|stack| - 1])
  {
    hide TaskPath, ProperName, HasScanned, DistinctTasks;
    BottomPath(dir, name, stack);
    var rest := stack[..|stack| - 1];
    PopKeepsDistinct(stack);
    assert forall i :: 0 <= i < |rest| ==> rest[i] == stack[i];
    forall i | 0 < i < |rest| ensures HasScanned(rest, rest[i].dir, i) {
      assert HasScanned(stack, stack[i].dir, i);
      PopKeepsNested(stack, i);
    }
  }

  lemma {:induction false} PopKeepsCovered(fs: Fs, fs': Fs, dir: Path, name: Name, stack: seq<Task>)
    requires stack != [] && Stacked(fs, dir, name, stack) && Covered(fs, stack)
    requires var p := TaskPath(stack[|stack| - 1]);
             p !in fs'.nodes && forall q :: q in fs.nodes && q != p <==> q in fs'.nodes
    requires forall q :: q in fs'.nodes ==> fs'.nodes[q] == fs.nodes[q]
    ensures Covered(fs', stack[..|stack| - 1])
  {
    hide Children;
    var rest, p := stack[..|stack| - 1], TaskPath(stack[|stack| - 1]);
    forall i | 0 <= i < |rest| && rest[i].scanned ensures CoveredTask(fs', rest, i) {
      var d := TaskPath(rest[i]);
      assert rest[i] == stack[i];
      assert CoveredTask(fs, stack, i);
      assert d != p;
      assert IsDir(fs, d);
      forall n | n in Children(fs', d) ensures HasTask(rest, d + [n], i) {
        ChildrenAreEntries(fs', d, n);
        ChildrenAreEntries(fs, d, n);
        assert HasTask(stack, d + [n], i);
        var j :| i < j < |stack| && TaskPath(stack[j]) == d + [n];
        assert j != |stack| - 1;
        assert rest[j] == stack[j];
      }
    }
  }

  lemma {:induction false} PopKeepsLogged(fs0: Fs, fs: Fs, fs': Fs, dir: Path, name: Name, stack: seq<Task>, scans: seq<Path>)
    requires stack != [] && Logged(fs0, fs, dir, name, stack, scans)
    requires TaskPath(stack[|stack| - 1]) !in fs'.nodes
    requires forall q :: q in fs'.nodes ==> q in fs.nodes
    ensures Logged(fs0, fs', dir, name, stack[..|stack| - 1], scans)
  {
  }

  lemma {:induction false} PopAbsent(fs0: Fs, dir: Path, name: Name, fs: Fs, stack: seq<Task>, scans: seq<Path>)
    requires stack != [] && Working(fs0, dir, name, fs, stack, scans)
    requires TaskPath(stack[|stack| - 1]) !in fs.nodes
    ensures Working(fs0, dir, name, fs, stack[..|stack| - 1], scans)
  {
    PopKeepsStacked(fs, fs, dir, name, stack);
    PopKeepsCovered(fs, fs, dir, name, stack);
    PopKeepsLogged(fs0, fs, fs, dir, name, stack, scans);
  }

  /** A directory that has not been read has kept all its entries. */
  lemma {:induction false} UnreadIsIntact(fs0: Fs, dir: Path, name: Name, fs: Fs, scans: seq<Path>, p: Path)
    requires Accounted(fs0, dir, name, fs, scans) && dir + [name] <= p && p !in scans
    ensures Children(fs, p) == Children(fs0, p)
  {
  }

  lemma {:induction false} UnscannedIsUnread(fs0: Fs, dir: Path, name: Name, fs: Fs, stack: seq<Task>, scans: seq<Path>)
    requires stack != [] && Working(fs0, dir, name, fs, stack, scans)
    requires !stack[|stack| - 1].scanned && TaskPath(stack[|stack| - 1]) in fs.nodes
    ensures TaskPath(stack[|stack| - 1]) !in scans
  {
    hide Accounted, Covered, CoveredTask;
    var p := TaskPath(stack[|stack| - 1]);
    forall j | 0 <= j < |stack| && stack[j].scanned ensures TaskPath(stack[j]) != p {
    }
    assert !HasScanned(stack, p, |stack|);
  }

  lemma {:induction false} PopRemoved(fs0: Fs, dir: Path, name: Name, fs: Fs, stack: seq<Task>, scans: seq<Path>, removeDir: bool)
    requires stack != [] && Working(fs0, dir, name, fs, stack, scans)
    requires var t := stack[|stack| - 1]; UnlinkAt(fs, t.dir, t.name, removeDir).Success?
    ensures var t := stack[|stack| - 1];
            Working(fs0, dir, name, UnlinkAt(fs, t.dir, t.name, removeDir).value, stack[..|stack| - 1], scans)
  {
    hide UnlinkAt, Gone, Seated, DistinctTasks, Children, HasTask, HasScanned;
    var t := stack[|stack| - 1];
    var p, fs' := TaskPath(t), UnlinkAt(fs, t.dir, t.name, removeDir).value;
    RemovedIsGone(fs0, dir, name, fs, stack, scans, removeDir);
    UnlinkKeepsTree(fs, t.dir, t.name, removeDir);
    UnlinkTakes(fs, t, removeDir);
    assert dir + [name] <= p;
    AccountedWithout(fs0, dir, name, fs, scans, p, fs');
    PopKeepsStacked(fs, fs', dir, name, stack);
    PopKeepsCovered(fs, fs', dir, name, stack);
    PopKeepsLogged(fs0, fs, fs', dir, name, stack, scans);
  }

  lemma {:induction false} UnlinkTakes(fs: Fs, t: Task, removeDir: bool)
    requires UnlinkAt(fs, t.dir, t.name, removeDir).Success?
    ensures UnlinkAt(fs, t.dir, t.name, removeDir).value == fs.(nodes := fs.nodes - {TaskPath(t)})
  {
  }

  lemma {:induction false} AccountedWithout(fs0: Fs, dir: Path, name: Name, fs: Fs, scans: seq<Path>, p: Path, fs': Fs)
    requires Accounted(fs0, dir, name, fs, scans) && Gone(fs0, dir, name, p, scans)
    requires fs' == fs.(nodes := fs.nodes - {p}) && ValidFs(fs')
    ensures Accounted(fs0, dir, name, fs', scans)
  {
  }

  lemma {:induction false} RemovedIsGone(fs0: Fs, dir: Path, name: Name, fs: Fs, stack: seq<Task>, scans: seq<Path>, removeDir: bool)
    requires stack != [] && Working(fs0, dir, name, fs, stack, scans)
    requires var t := stack[|stack| - 1]; UnlinkAt(fs, t.dir, t.name, removeDir).Success?
    ensures Gone(fs0, dir, name, TaskPath(stack[|stack| - 1]), scans)
  {
    var last := |stack| - 1;
    var t := stack[last];
    var p := TaskPath(t);
    assert Parent(p) == t.dir && p[|p| - 1] == t.name;
    if last > 0 {
      ScannedDirIsLogged(fs0, dir, name, fs, stack, scans, last);
    }
    if IsDir(fs0, p) && Children(fs0, p) != {} && !t.scanned {
      UnscannedIsUnread(fs0, dir, name, fs, stack, scans);
      UnreadIsIntact(fs0, dir, name, fs, scans, p);
    }
  }

  lemma {:induction false} ScannedDirIsLogged(fs0: Fs, dir: Path, name: Name, fs: Fs, stack: seq<Task>, scans: seq<Path>, i: nat)
    requires Working(fs0, dir, name, fs, stack, scans) && 0 < i < |stack|
    ensures stack[i].dir in scans
  {
    assert HasScanned(stack, stack[i].dir, i);
  }

  // ---- reading a directory ----

  function ChildTasks(dir: Path, names: seq<Name>): (r: seq<Task>)
    ensures |r| == |names| && forall i :: 0 <= i < |r| ==> r[i] == Task(names[i], dir, false)
  {
    seq(|names|, i requires 0 <= i < |names| => Task(names[i], dir, false))
  }

  /** The stack once the top directory has been read. */
  function AfterScan(stack: seq<Task>, names: seq<Name>): (r: seq<Task>)
    requires stack != []
    ensures |r| == |stack| + |names|
    ensures forall i :: 0 <= i < |stack| ==>
              r[i].name == stack[i].name && r[i].dir == stack[i].dir && (r[i].scanned <==> stack[i].scanned || i == |stack| - 1)
    ensures forall i :: |stack| <= i < |r| ==> !r[i].scanned
    ensures forall k :: 0 <= k < |names| ==> r[|stack| + k] == Task(names[k], TaskPath(stack[|stack| - 1]), false)
  {
    stack[|stack| - 1 := stack[|stack| - 1].(scanned := true)] + ChildTasks(TaskPath(stack[|stack| - 1]), names)
  }

  /** The names read are the directory's, each once. */
  ghost predicate Lists(fs: Fs, dir: Path, names: seq<Name>) {
    Distinct(names) && forall n :: n in names <==> n in Children(fs, dir)
  }

  lemma {:induction false} ChildPathIsProper(fs: Fs, p: Path, n: Name)
    requires ValidFs(fs) && n in Children(fs, p)
    ensures ProperName(n) && p <= p + [n]
  {
    ChildrenAreEntries(fs, p, n);
    assert Seated(fs, p + [n]);
    assert (p + [n])[|p|] == n;
  }

  /** No task of the stack is for an entry of the unscanned top directory. */
  lemma {:induction false} ChildIsNew(fs: Fs, dir: Path, name: Name, stack: seq<Task>, i: nat, n: Name)
    requires Stacked(fs, dir, name, stack) && i < |stack| && !stack[|stack| - 1].scanned
    ensures TaskPath(stack[i]) != TaskPath(stack[|stack| - 1]) + [n]
  {
    var p := TaskPath(stack[|stack| - 1]);
    assert Parent(TaskPath(stack[i])) == stack[i].dir && Parent(p + [n]) == p;
    assert dir + [name] <= p;
    if i > 0 {
      assert HasScanned(stack, stack[i].dir, i);
      var j :| 0 <= j < i && stack[j].scanned && TaskPath(stack[j]) == stack[i].dir;
      assert TaskPath(stack[j]) != p;
    }
  }

  lemma {:induction false} SiblingsDiffer(p: Path, n: Name, m: Name)
    requires n != m
    ensures p + [n] != p + [m]
  {
    assert (p + [n])[|p|] == n && (p + [m])[|p|] == m;
  }

  lemma {:induction false} NewTasksDiffer(fs: Fs, dir: Path, name: Name, stack: seq<Task>, names: seq<Name>, i: nat, j: nat)
    requires stack != [] && Stacked(fs, dir, name, stack) && !stack[|stack| - 1].scanned && Distinct(names)
    requires i < j && |stack| <= j < |AfterScan(stack, names)|
    ensures TaskPath(AfterScan(stack, names)[i]) != TaskPath(AfterScan(stack, names)[j])
  {
    hide AfterScan, Stacked;
    var all, p, k := AfterScan(stack, names), TaskPath(stack[|stack| - 1]), j - |stack|;
    assert all[|stack| + k] == Task(names[k], p, false);
    if i < |stack| {
      assert TaskPath(all[i]) == TaskPath(stack[i]);
      ChildIsNew(fs, dir, name, stack, i, names[k]);
    } else {
      assert all[|stack| + (i - |stack|)] == Task(names[i - |stack|], p, false);
      SiblingsDiffer(p, names[i - |stack|], names[k]);
    }
  }

  lemma {:induction false} OldTasksDiffer(stack: seq<Task>, names: seq<Name>, i: nat, j: nat)
    requires stack != [] && DistinctTasks(stack) && i < j < |stack|
    ensures TaskPath(AfterScan(stack, names)[i]) != TaskPath(AfterScan(stack, names)[j])
  {
  }

  lemma {:induction false} ScanKeepsDistinct(fs: Fs, dir: Path, name: Name, stack: seq<Task>, names: seq<Name>)
    requires stack != [] && Stacked(fs, dir, name, stack) && !stack[|stack| - 1].scanned && Distinct(names)
    ensures DistinctTasks(AfterScan(stack, names))
  {
    assert DistinctTasks(stack);
    hide Stacked, AfterScan, Distinct, TaskPath;
    var all := AfterScan(stack, names);
    forall i: nat, j: nat | i < j < |stack| ensures TaskPath(all[i]) != TaskPath(all[j]) {
      OldTasksDiffer(stack, names, i, j);
    }
    forall i: nat, j: nat | i < j && |stack| <= j < |all| ensures TaskPath(all[i]) != TaskPath(all[j]) {
      NewTasksDiffer(fs, dir, name, stack, names, i, j);
    }
  }

  lemma {:induction false} ScanKeepsNested(fs: Fs, dir: Path, name: Name, stack: seq<Task>, names: seq<Name>, i: nat)
    requires stack != [] && Stacked(fs, dir, name, stack) && 0 < i < |AfterScan(stack, names)|
    ensures HasScanned(AfterScan(stack, names), AfterScan(stack, names)[i].dir, i)
  {
    var all, top := AfterScan(stack, names), |stack| - 1;
    if i <= top {
      assert HasScanned(stack, stack[i].dir, i);
      var j :| 0 <= j < i && stack[j].scanned && TaskPath(stack[j]) == stack[i].dir;
      assert all[j].scanned && TaskPath(all[j]) == all[i].dir;
    } else {
      assert all[i] == all[|stack| + (i - |stack|)];
      assert all[top].scanned && TaskPath(all[top]) == all[i].dir;
    }
  }

  lemma {:induction false} ScanKeepsProper(fs: Fs, dir: Path, name: Name, stack: seq<Task>, names: seq<Name>, i: nat)
    requires ValidFs(fs) && stack != [] && Stacked(fs, dir, name, stack) && i < |AfterScan(stack, names)|
    requires Lists(fs, TaskPath(stack[|stack| - 1]), names)
    ensures var t := AfterScan(stack, names)[i];
            ProperName(t.name) && dir + [name] <= TaskPath(t) && (i > 0 ==> TaskPath(t) in fs.nodes)
  {
    if i >= |stack| {
      var p, n := TaskPath(stack[|stack| - 1]), names[i - |stack|];
      assert AfterScan(stack, names)[|stack| + (i - |stack|)] == Task(n, p, false);
      assert n in names;
      ChildPathIsProper(fs, p, n);
      ChildrenAreEntries(fs, p, n);
      assert dir + [name] <= p;
    } else {
      assert TaskPath(AfterScan(stack, names)[i]) == TaskPath(stack[i]);
    }
  }

  lemma {:induction false} ScanKeepsStacked(fs: Fs, dir: Path, name: Name, stack: seq<Task>, names: seq<Name>)
    requires stack != [] && ValidFs(fs) && Stacked(fs, dir, name, stack) && Lists(fs, TaskPath(stack[|stack| - 1]), names)
    requires !stack[|stack| - 1].scanned
    ensures Stacked(fs, dir, name, AfterScan(stack, names))
  {
    hide HasScanned, AfterScan, ProperName;
    ScanKeepsDistinct(fs, dir, name, stack, names);
    forall i | 0 < i < |AfterScan(stack, names)| {
      ScanKeepsNested(fs, dir, name, stack, names, i);
    }
    forall i | 0 <= i < |AfterScan(stack, names)| {
      ScanKeepsProper(fs, dir, name, stack, names, i);
    }
  }

  lemma {:induction false} ScanCovers(fs: Fs, dir: Path, name: Name, stack: seq<Task>, names: seq<Name>, i: nat)
    requires stack != [] && Covered(fs, stack) && i < |stack| && (i < |stack| - 1 ==> stack[i].scanned)
    requires IsDir(fs, TaskPath(stack[|stack| - 1])) && Lists(fs, TaskPath(stack[|stack| - 1]), names)
    ensures CoveredTask(fs, AfterScan(stack, names), i)
  {
    hide Children;
    var all, d := AfterScan(stack, names), TaskPath(stack[i]);
    assert TaskPath(all[i]) == d;
    forall n | n in Children(fs, d) ensures HasTask(all, d + [n], i) {
      if i == |stack| - 1 {
        var k :| 0 <= k < |names| && names[k] == n;
        assert TaskPath(all[|stack| + k]) == d + [n];
      } else {
        assert CoveredTask(fs, stack, i);
        assert HasTask(stack, d + [n], i);
        var j :| i < j < |stack| && TaskPath(stack[j]) == d + [n];
        assert TaskPath(all[j]) == d + [n];
      }
    }
    assert i < |stack| - 1 ==> CoveredTask(fs, stack, i);
  }

  lemma {:induction false} ScanKeepsCovered(fs: Fs, dir: Path, name: Name, stack: seq<Task>, names: seq<Name>)
    requires stack != [] && Covered(fs, stack)
    requires IsDir(fs, TaskPath(stack[|stack| - 1])) && Lists(fs, TaskPath(stack[|stack| - 1]), names)
    ensures Covered(fs, AfterScan(stack, names))
  {
    hide CoveredTask, AfterScan, Lists;
    var all := AfterScan(stack, names);
    forall i | 0 <= i < |all| && all[i].scanned ensures CoveredTask(fs, all, i) {
      ScanCovers(fs, dir, name, stack, names, i);
    }
  }

  lemma {:induction false} ScanKeepsFound(stack: seq<Task>, names: seq<Name>, q: Path)
    requires stack != [] && (HasScanned(stack, q, |stack|) || q == TaskPath(stack[|stack| - 1]))
    ensures HasScanned(AfterScan(stack, names), q, |AfterScan(stack, names)|)
  {
  }

  lemma {:induction false} ScanKeepsLogged(fs0: Fs, dir: Path, name: Name, fs: Fs, stack: seq<Task>, scans: seq<Path>, names: seq<Name>)
    requires stack != [] && Stacked(fs, dir, name, stack) && Logged(fs0, fs, dir, name, stack, scans)
    requires var p := TaskPath(stack[|stack| - 1]);
             IsDir(fs0, p) && p !in scans && (Children(fs0, p) != {} || !Deletable(fs0, p))
    ensures Logged(fs0, fs, dir, name, AfterScan(stack, names), scans + [TaskPath(stack[|stack| - 1])])
  {
    hide HasScanned, Children, Deletable, DistinctTasks;
    var p := TaskPath(stack[|stack| - 1]);
    var all, scans' := AfterScan(stack, names), scans + [p];
    forall i | 0 <= i < |all| && all[i].scanned ensures TaskPath(all[i]) in scans' {
      assert TaskPath(all[i]) == TaskPath(stack[i]);
      assert i < |stack| - 1 ==> TaskPath(stack[i]) in scans;
      assert scans'[|scans|] == p;
    }
    forall q | q in scans' && q in fs.nodes ensures HasScanned(all, q, |all|) {
      ScanKeepsFound(stack, names, q);
    }
    assert forall q :: q in scans' ==> q in scans || q == p;
  }

  lemma {:induction false} ScanTop(fs0: Fs, dir: Path, name: Name, fs: Fs, stack: seq<Task>, scans: seq<Path>, names: seq<Name>)
    requires stack != [] && Working(fs0, dir, name, fs, stack, scans)
    requires var t := stack[|stack| - 1];
             && !t.scanned && IsDir(fs, TaskPath(t)) && Lists(fs, TaskPath(t), names)
             && UnlinkAt(fs, t.dir, t.name, true).Failure?
    ensures var p := TaskPath(stack[|stack| - 1]);
            Working(fs0, dir, name, fs, AfterScan(stack, names), scans + [p]) && p !in scans
  {
    var t := stack[|stack| - 1];
    var p := TaskPath(t);
    StuckOrFull(fs0, dir, name, fs, stack, scans);
    hide Children, Deletable, Lists, DistinctTasks, Covered, Gone, UnlinkAt;
    UnscannedIsUnread(fs0, dir, name, fs, stack, scans);
    ScanKeepsStacked(fs, dir, name, stack, names);
    ScanKeepsCovered(fs, dir, name, stack, names);
    ScanKeepsLogged(fs0, dir, name, fs, stack, scans, names);
    assert Accounted(fs0, dir, name, fs, scans + [p]) by {
      GoneStaysGone(fs0, dir, name, fs, scans, p);
    }
  }

  lemma {:induction false} GoneStaysGone(fs0: Fs, dir: Path, name: Name, fs: Fs, scans: seq<Path>, p: Path)
    requires Accounted(fs0, dir, name, fs, scans)
    ensures Accounted(fs0, dir, name, fs, scans + [p])
  {
  }

  lemma {:induction false} RmdirRefuses(fs: Fs, t: Task)
    requires IsDir(fs, t.dir) && IsDir(fs, TaskPath(t)) && UnlinkAt(fs, t.dir, t.name, true).Failure?
    ensures !Deletable(fs, TaskPath(t)) || Children(fs, TaskPath(t)) != {}
  {
  }

  /** A directory that rmdir refuses has entries or cannot be deleted at all. */
  lemma {:induction false} StuckOrFull(fs0: Fs, dir: Path, name: Name, fs: Fs, stack: seq<Task>, scans: seq<Path>)
    requires stack != [] && Working(fs0, dir, name, fs, stack, scans)
    requires var t := stack[|stack| - 1];
             !t.scanned && IsDir(fs, TaskPath(t)) && UnlinkAt(fs, t.dir, t.name, true).Failure?
    ensures var p := TaskPath(stack[|stack| - 1]);
            IsDir(fs0, p) && (Children(fs0, p) != {} || !Deletable(fs0, p))
  {
    hide UnlinkAt, Children, Deletable, Seated;
    var t := stack[|stack| - 1];
    var p := TaskPath(t);
    TaskDirIsDir(fs, dir, name, stack, |stack| - 1);
    UnscannedIsUnread(fs0, dir, name, fs, stack, scans);
    RmdirRefuses(fs, t);
    hide Covered, Logged, DistinctTasks;
    UnreadIsIntact(fs0, dir, name, fs, scans, p);
    SameFaults(fs0, dir, name, fs, scans, p);
  }

  // ---- the outcome ----

  lemma {:induction false} AllGone(fs0: Fs, dir: Path, name: Name, fs: Fs, scans: seq<Path>, p: Path)
    requires Working(fs0, dir, name, fs, [], scans) && p in Subtree(fs0, dir + [name])
    ensures p !in fs.nodes && Gone(fs0, dir, name, p, scans)
  {
    hide Gone, Children;
    assert dir + [name] !in fs.nodes;
    if p in fs.nodes && p != dir + [name] {
      NothingBelow(fs, dir + [name], p);
    }
  }

  /** Everything is gone: the subtree was deletable, nothing else changed, and the log is exact. */
  lemma {:induction false} Finished(fs0: Fs, dir: Path, name: Name, fs: Fs, scans: seq<Path>)
    requires Working(fs0, dir, name, fs, [], scans)
    requires (dir, name) !in fs0.lookupFault
    ensures Removable(fs0, dir, name)
    ensures fs == fs0.(nodes := fs0.nodes - Subtree(fs0, dir + [name]))
    ensures Distinct(scans) && forall p :: p in scans <==> p in Subtree(fs0, dir + [name]) && IsDir(fs0, p) && Children(fs0, p) != {}
  {
    var base := dir + [name];
    forall p | p in Subtree(fs0, base) ensures p !in fs.nodes && Gone(fs0, dir, name, p, scans) {
      AllGone(fs0, dir, name, fs, scans, p);
    }
    hide Children, Distinct;
    assert fs.nodes == fs0.nodes - Subtree(fs0, base) by {
      hide Deletable, Logged;
    }
    assert forall p :: p in scans ==> p in Subtree(fs0, base);
  }

  /** A top task that neither goes away nor can be read stands for an entry that cannot be deleted. */
  lemma {:induction false} GivesUp(fs0: Fs, dir: Path, name: Name, fs: Fs, stack: seq<Task>, scans: seq<Path>)
    requires stack != [] && Working(fs0, dir, name, fs, stack, scans)
    requires var t := stack[|stack| - 1];
             && UnlinkAt(fs, t.dir, t.name, false).Failure? && UnlinkAt(fs, t.dir, t.name, true).Failure?
             && UnlinkAt(fs, t.dir, t.name, true).error != ENOENT
             && (t.scanned || OpenDirectory(fs, t.dir, t.name).Failure?)
    ensures !Removable(fs0, dir, name)
  {
    var t := stack[|stack| - 1];
    var p := TaskPath(t);
    assert Parent(p) == t.dir && p[|p| - 1] == t.name;
    TaskDirIsDir(fs, dir, name, stack, |stack| - 1);
    if t.scanned {
      assert CoveredTask(fs, stack, |stack| - 1);
      assert Children(fs, p) == {} by {
        forall n ensures n !in Children(fs, p) {
          assert !HasTask(stack, p + [n], |stack| - 1);
        }
      }
    }
    assert p in fs.nodes ==> p in Subtree(fs0, dir + [name]);
  }

  lemma {:induction false} BothMiss(fs: Fs, dir: Path, name: Name)
    requires UnlinkAt(fs, dir, name, false) == Failure(ENOENT) && UnlinkAt(fs, dir, name, true).Failure?
    ensures UnlinkAt(fs, dir, name, true).error == ENOENT
  {
  }

  /** No scanned task's entry refuses to be looked up. */
  ghost predicate Searched(fs: Fs, stack: seq<Task>) {
    forall i :: 0 <= i < |stack| && stack[i].scanned ==> (stack[i].dir, stack[i].name) !in fs.lookupFault
  }

  lemma {:induction false} ScanKeepsSearched(fs0: Fs, fs: Fs, stack: seq<Task>, names: seq<Name>)
    requires stack != [] && Searched(fs0, stack) && fs.lookupFault == fs0.lookupFault
    requires OpenDirectory(fs, stack[|stack| - 1].dir, stack[|stack| - 1].name).Success?
    ensures Searched(fs0, AfterScan(stack, names))
  {
  }

  /** The entry that stopped the deletion, and what is reported of it: the true error of unlinkat is not. */
  ghost predicate Blames(fs: Fs, dir: Path, name: Name, at: Path, n: Name, e: Errno) {
    && dir + [name] <= at + [n]
    && ((at, n) in fs.lookupFault || (at + [n] in fs.nodes && at + [n] in fs.pinned))
    && e == if (at, n) in fs.lookupFault then fs.lookupFault[(at, n)] else if IsDir(fs, at + [n]) then ENOTEMPTY else ENOTDIR
  }

  lemma {:induction false} TopIsBlamed(fs0: Fs, dir: Path, name: Name, fs: Fs, stack: seq<Task>, scans: seq<Path>, e: Errno)
    requires stack != [] && Working(fs0, dir, name, fs, stack, scans) && Searched(fs0, stack)
    requires var t := stack[|stack| - 1];
             && UnlinkAt(fs, t.dir, t.name, false).Failure? && UnlinkAt(fs, t.dir, t.name, true).Failure?
             && UnlinkAt(fs, t.dir, t.name, true).error != ENOENT
             && if t.scanned then e == ENOTEMPTY else OpenDirectory(fs, t.dir, t.name) == Failure(e)
    ensures Blames(fs0, dir, name, stack[|stack| - 1].dir, stack[|stack| - 1].name, e)
  {
    var t := stack[|stack| - 1];
    var p := TaskPath(t);
    TaskDirIsDir(fs, dir, name, stack, |stack| - 1);
    if t.scanned {
      assert CoveredTask(fs, stack, |stack| - 1);
      assert Children(fs, p) == {} by {
        forall n ensures n !in Children(fs, p) {
          assert !HasTask(stack, p + [n], |stack| - 1);
        }
      }
    }
  }

  lemma {:induction false} Begun(fs: Fs, dir: Path, name: Name)
    requires ValidFs(fs) && IsDir(fs, dir) && ProperName(name)
    ensures Working(fs, dir, name, fs, [Task(name, dir, false)], [])
  {
  }

  ghost function UnreadDirs(fs: Fs, read: seq<Path>): set<Path> {
    set p | p in fs.nodes && p !in read
  }

  lemma {:induction false} UnreadShrinks(fs: Fs, read: seq<Path>, p: Path)
    requires p in fs.nodes && p !in read
    ensures UnreadDirs(fs, read + [p]) < UnreadDirs(fs, read)
  {
    assert p in UnreadDirs(fs, read) && p !in UnreadDirs(fs, read + [p]);
    assert forall q :: q in UnreadDirs(fs, read + [p]) ==> q in UnreadDirs(fs, read);
  }

  lemma {:induction false} TopRemoved(fs0: Fs, dir: Path, name: Name, fs: Fs, stack: seq<Task>, read: seq<Path>, fs': Fs)
    requires stack != [] && Working(fs0, dir, name, fs, stack, read)
    requires var t := stack[|stack| - 1];
             UnlinkAt(fs, t.dir, t.name, false) == Success(fs') || UnlinkAt(fs, t.dir, t.name, true) == Success(fs')
    ensures Working(fs0, dir, name, fs', stack[..|stack| - 1], read)
    ensures UnreadDirs(fs', read) <= UnreadDirs(fs, read)
    ensures |stack| == 1 ==> (dir, name) !in fs0.lookupFault
  {
    hide Covered, Logged, Accounted, Gone, Children, DistinctTasks, Seated;
    var t := stack[|stack| - 1];
    var removeDir := UnlinkAt(fs, t.dir, t.name, true) == Success(fs');
    assert UnlinkAt(fs, t.dir, t.name, removeDir) == Success(fs');
    assert fs.lookupFault == fs0.lookupFault by {
      SameFaults(fs0, dir, name, fs, read, dir);
    }
    PopRemoved(fs0, dir, name, fs, stack, read, removeDir);
  }

  lemma {:induction false} SameFaults(fs0: Fs, dir: Path, name: Name, fs: Fs, read: seq<Path>, p: Path)
    requires Accounted(fs0, dir, name, fs, read)
    ensures fs.lookupFault == fs0.lookupFault
    ensures Deletable(fs, p) == Deletable(fs0, p)
  {
  }

  lemma {:induction false} TopAbsent(fs0: Fs, dir: Path, name: Name, fs: Fs, stack: seq<Task>, read: seq<Path>)
    requires stack != [] && Working(fs0, dir, name, fs, stack, read)
    requires var t := stack[|stack| - 1];
             UnlinkAt(fs, t.dir, t.name, true).Failure? && UnlinkAt(fs, t.dir, t.name, true).error == ENOENT
    ensures Working(fs0, dir, name, fs, stack[..|stack| - 1], read)
    ensures |stack| == 1 ==> (dir, name) !in fs0.lookupFault
  {
    TaskDirIsDir(fs, dir, name, stack, |stack| - 1);
    hide Covered, Logged, Gone, Children, DistinctTasks;
    PopAbsent(fs0, dir, name, fs, stack, read);
  }

  lemma {:induction false} OpenDirectoryFinds(fs: Fs, dir: Path, name: Name, stack: seq<Task>)
    requires stack != [] && Stacked(fs, dir, name, stack)
    requires OpenDirectory(fs, stack[|stack| - 1].dir, stack[|stack| - 1].name).Success?
    ensures var p := TaskPath(stack[|stack| - 1]);
            OpenDirectory(fs, stack[|stack| - 1].dir, stack[|stack| - 1].name) == Success(p) && IsDir(fs, p)
  {
  }

  lemma {:induction false} OpensIfNotMissing(fs: Fs, dir: Path, name: Name)
    requires ValidFs(fs) && UnlinkAt(fs, dir, name, true).Failure? && UnlinkAt(fs, dir, name, true).error != ENOENT
    ensures OpenDirectory(fs, dir, name) != Failure(ENOENT)
  {
  }

  // ---- the method ----

  class Host {
    var fs: Fs
    /** The directories read with getdents64, in order. */
    ghost var scans: seq<Path>

    constructor (fs: Fs)
      requires ValidFs(fs)
      ensures this.fs == fs && scans == []
    {
      this.fs := fs;
      scans := [];
    }

    method Unlink(dir: Path, name: Name, removeDir: bool) returns (r: Result<(), Errno>)
      modifies this`fs
      ensures match UnlinkAt(old(fs), dir, name, removeDir)
              case Failure(e) => r == Failure(e) && fs == old(fs)
              case Success(fs') => r == Success(()) && fs == fs'
    {
      match UnlinkAt(fs, dir, name, removeDir)
      case Failure(e) => r := Failure(e);
      case Success(fs') =>
        fs := fs';
        r := Success(());
    }

    /** unlink for files and links, rmdir for empty directories; the more telling error of the two. */
    method RemoveDirent(dir: Path, name: Name) returns (r: Result<(), Errno>)
      modifies this`fs
      ensures r.Success? ==>
                || UnlinkAt(old(fs), dir, name, false) == Success(fs)
                || UnlinkAt(old(fs), dir, name, true) == Success(fs)
      ensures r.Failure? ==>
                && fs == old(fs)
                && UnlinkAt(fs, dir, name, false).Failure? && UnlinkAt(fs, dir, name, true).Failure?
                && r.error == (if UnlinkAt(fs, dir, name, true).error == ENOTDIR then UnlinkAt(fs, dir, name, false).error
                               else UnlinkAt(fs, dir, name, true).error)
    {
      var unlinked := Unlink(dir, name, false);
      if unlinked.Success? {
        return Success(());
      }
      var removed := Unlink(dir, name, true);
      if removed.Success? {
        return Success(());
      }
      r := Failure(if removed.error == ENOTDIR then unlinked.error else removed.error);
    }

    /** The directory's entries in whatever order the kernel lists them. */
    method ReadDirectory(dir: Path) returns (names: seq<Name>)
      requires ValidFs(fs)
      modifies this`scans
      ensures Lists(fs, dir, names) && scans == old(scans) + [dir]
    {
      forall n | n in Children(fs, dir) ensures n != "." && n != ".." {
        ChildPathIsProper(fs, dir, n);
      }
      var remaining := Children(fs, dir) + {".", ".."};
      names := [];
      scans := scans + [dir];
      while remaining != {}
        invariant Distinct(names)
        invariant forall n :: n in names ==> n !in remaining
        invariant forall n :: n in names || (n in remaining && n != "." && n != "..") <==> n in Children(fs, dir)
        decreases remaining
      {
        var child :| child in remaining;
        remaining := remaining - {child};
        if child == "." || child == ".." {
          continue;
        }
        names := names + [child];
      }
    }

    /**
     Deletes dir's entry `name` and everything below it, or fails; it succeeds exactly when nothing in
     the subtree refuses. On success each directory that had entries was read once, no other one, and
     nothing outside the subtree changed; a failure has deleted only entries of the subtree.
     */
    method RemoveAllInDir(dir: Path, name: Name) returns (r: Result<(), Errno>)
      requires ValidFs(fs) && IsDir(fs, dir) && (ProperName(name) || '/' in name)
      modifies this
      ensures '/' in name ==> r == Failure(EINVAL) && fs == old(fs) && scans == old(scans)
      ensures '/' !in name ==> (r.Success? <==> Removable(old(fs), dir, name))
      ensures '/' !in name && r.Failure? ==> exists at, n :: Blames(old(fs), dir, name, at, n, r.error)
      ensures r.Success? ==> fs == old(fs).(nodes := old(fs).nodes - Subtree(old(fs), dir + [name]))
      ensures r.Success? ==>
                && old(scans) <= scans && Distinct(scans[|old(scans)|..])
                && forall p :: p in scans[|old(scans)|..]
                     <==> p in Subtree(old(fs), dir + [name]) && IsDir(old(fs), p) && Children(old(fs), p) != {}
      ensures ValidFs(fs) && fs == old(fs).(nodes := fs.nodes)
      ensures forall p :: p in fs.nodes ==> p in old(fs).nodes && fs.nodes[p] == old(fs).nodes[p]
      ensures forall p :: p in old(fs).nodes && !(dir + [name] <= p) ==> p in fs.nodes
    {
      hide Stacked, Covered, Logged, Children, AfterScan, Removable, Distinct, UnlinkAt, Lists, Deletable, Blames, OpenDirectory;
      if '/' in name {
        return Failure(EINVAL);
      }
      ghost var fs0 := fs;
      ghost var read: seq<Path> := [];
      var stack := [Task(name, dir, false)];
      Begun(fs, dir, name);

      while stack != []
        invariant Working(fs0, dir, name, fs, stack, read)
        invariant scans == old(scans) + read && Searched(fs0, stack)
        invariant stack == [] ==> (dir, name) !in fs0.lookupFault
        decreases UnreadDirs(fs, read), |stack|
      {
        var t := stack[|stack| - 1];
        ghost var before := fs;
        var removed := RemoveDirent(t.dir, t.name);
        if removed.Success? {
          TopRemoved(fs0, dir, name, before, stack, read, fs);
          stack := stack[..|stack| - 1];
          continue;
        }
        if removed.error == ENOENT {
          if UnlinkAt(fs, t.dir, t.name, true).error != ENOENT {
            BothMiss(fs, t.dir, t.name);
          }
          TopAbsent(fs0, dir, name, fs, stack, read);
          stack := stack[..|stack| - 1];
          continue;
        }
        if t.scanned {
          GivesUp(fs0, dir, name, fs, stack, read);
          TopIsBlamed(fs0, dir, name, fs, stack, read, ENOTEMPTY);
          return Failure(ENOTEMPTY);
        }
        var sub := OpenDirectory(fs, t.dir, t.name);
        // The source goes on when the entry is gone by now; here nobody else removes it.
        OpensIfNotMissing(fs, t.dir, t.name);
        assert sub != Failure(ENOENT);
        if sub.Failure? {
          GivesUp(fs0, dir, name, fs, stack, read);
          TopIsBlamed(fs0, dir, name, fs, stack, read, sub.error);
          return Failure(sub.error);
        }
        OpenDirectoryFinds(fs, dir, name, stack);
        var names := ReadDirectory(sub.value);
        ScanTop(fs0, dir, name, fs, stack, read, names);
        UnreadShrinks(fs, read, sub.value);
        ScanKeepsSearched(fs0, fs, stack, names);
        stack := AfterScan(stack, names);
        read := read + [sub.value];
      }
      Finished(fs0, dir, name, fs, read);
      assert scans[|old(scans)|..] == read;
      return Success(());
    }
  }
}
