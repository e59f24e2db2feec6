/**
 Two processes that talk over a FIFO socket pair, each running its own list of operations, with
 log messages mixed into the child's direction at will, and either side failing at any moment.
 A script lists what both do in one order; the lemmas say what the two programs that come out of
 a script guarantee in every interleaving.
 */
module Choreography {
  import opened Results

  datatype Stage =
    | NamespaceReady | NamespaceDone | PrestartReady | PrestartDone
    | CreateRuntimeReady | CreateRuntimeDone | CreateContainerDone | ExecReady

  datatype Body = StageMsg(stage: Stage) | PidReport | ConsoleFd | Proceed

  datatype Message = Log(fatal: bool, errno: int) | Control(body: Body)

  datatype Act =
    | WriteStatus | ConfigureNamespaces | ConfigureMounts | PrestartHooks | CreateRuntimeHooks
    | ReadStatus | CreateContainerHooks | PivotRoot | StartContainerHooks | Exec | PoststartHooks
    | HoldPid | PrepareWorkload

  /** The parent's operations: wait_for_stage or drain_logs, send_stage, an action, wait_for_close. */
  datatype ParentOp = Wait(body: Body) | Tell(body: Body) | Do(act: Act) | AwaitClose

  /** The child's operations: send, expect_stage, an action. Its last action is exec. */
  datatype ChildOp = Send(body: Body) | Expect(body: Body) | Perform(act: Act)

  // ---- scripts ----

  datatype Item = Up(body: Body) | Down(body: Body) | ParentDoes(act: Act) | ChildDoes(act: Act)

  function ParentSide(s: seq<Item>): seq<ParentOp> {
    if s == [] then []
    else
      (match s[0]
       case Up(b) => [Wait(b)]
       case Down(b) => [Tell(b)]
       case ParentDoes(a) => [Do(a)]
       case ChildDoes(_) => []) + ParentSide(s[1..])
  }

  function ChildSide(s: seq<Item>): seq<ChildOp> {
    if s == [] then []
    else
      (match s[0]
       case Up(b) => [Send(b)]
       case Down(b) => [Expect(b)]
       case ParentDoes(_) => []
       case ChildDoes(a) => [Perform(a)]) + ChildSide(s[1..])
  }

  function Ups(s: seq<Item>): seq<Body> {
    if s == [] then [] else (if s[0].Up? then [s[0].body] else []) + Ups(s[1..])
  }

  function Downs(s: seq<Item>): seq<Body> {
    if s == [] then [] else (if s[0].Down? then [s[0].body] else []) + Downs(s[1..])
  }

  function Bodies(queue: seq<Message>): seq<Body> {
    if queue == [] then [] else (if queue[0].Control? then [queue[0].body] else []) + Bodies(queue[1..])
  }

  // ---- the system ----

  /**
   What both processes still have to do, the two queues, whether the parent has given up, whether the
   child still holds its end of the socket, whether wait_for_close has met a fatal log, and every
   action taken so far in order.
   */
  datatype State = State(
    parentTodo: seq<ParentOp>,
    childTodo: seq<ChildOp>,
    up: seq<Message>,
    down: seq<Body>,
    failed: bool,
    alive: bool,
    sawFatal: bool,
    trace: seq<Act>)

  datatype Step = ParentTurn | ChildTurn | ChildLogs(fatal: bool, errno: int) | ChildCrashes | ParentFails

  function Start(parent: seq<ParentOp>, child: seq<ChildOp>): State {
    State(parent, child, [], [], false, true, false, [])
  }

  predicate ParentRuns(st: State) {
    !st.failed && st.parentTodo != []
  }

  /** Receiving blocks while nothing has come and the peer is there; sending blocks on a full queue. */
  predicate Enabled(st: State, step: Step, capacity: nat) {
    match step
    case ParentTurn =>
      && ParentRuns(st)
      && (match st.parentTodo[0]
          case Wait(_) => st.up != [] || !st.alive
          case AwaitClose => st.up != [] || !st.alive
          case Tell(_) => |st.down| < capacity || !st.alive
          case Do(_) => true)
    case ChildTurn =>
      && st.alive && st.childTodo != []
      && (match st.childTodo[0]
          case Send(_) => |st.up| < capacity
          case Expect(_) => st.down != []
          case Perform(_) => true)
    case ChildLogs(_, _) => st.alive && |st.up| < capacity
    case ChildCrashes => st.alive
    case ParentFails => ParentRuns(st)
  }

  /** The parent throws: it stops and kills the child. */
  function GiveUp(st: State): State {
    st.(failed := true, alive := false)
  }

  function ParentStep(st: State): State
    requires ParentRuns(st)
  {
    var rest := st.parentTodo[1..];
    match st.parentTodo[0]
    case Wait(b) =>
      if st.up == [] then GiveUp(st)
      else if st.up[0].Log? then st.(up := st.up[1..])
      else if st.up[0].body == b then st.(up := st.up[1..], parentTodo := rest)
      else GiveUp(st)
    case AwaitClose =>
      if st.up == [] then if st.sawFatal then GiveUp(st) else st.(parentTodo := rest)
      else if st.up[0].Log? then st.(up := st.up[1..], sawFatal := st.sawFatal || st.up[0].fatal)
      else GiveUp(st)
    case Tell(b) => if st.alive then st.(down := st.down + [b], parentTodo := rest) else GiveUp(st)
    case Do(a) => st.(parentTodo := rest, trace := st.trace + [a])
  }

  /** A message the child does not expect makes it exit; exec closes its end of the socket. */
  function ChildStep(st: State): State
    requires st.alive && st.childTodo != []
  {
    var rest := st.childTodo[1..];
    match st.childTodo[0]
    case Send(b) => st.(up := st.up + [Control(b)], childTodo := rest)
    case Expect(b) =>
      if st.down != [] && st.down[0] == b then st.(down := st.down[1..], childTodo := rest) else st.(alive := false)
    case Perform(a) => st.(childTodo := rest, trace := st.trace + [a], alive := a != Exec)
  }

  function Apply(st: State, step: Step, capacity: nat): State
    requires Enabled(st, step, capacity)
  {
    match step
    case ParentTurn => ParentStep(st)
    case ChildTurn => ChildStep(st)
    case ChildLogs(fatal, errno) => st.(up := st.up + [Log(fatal, errno)])
    case ChildCrashes => st.(alive := false)
    case ParentFails => GiveUp(st)
  }

  /** The state after a list of steps, if each is possible when its turn comes. */
  function Execute(st: State, steps: seq<Step>, capacity: nat): Option<State>
    decreases |steps|
  {
    if steps == [] then Some(st)
    else if Enabled(st, steps[0], capacity) then Execute(Apply(st, steps[0], capacity), steps[1..], capacity)
    else None
  }

  // ---- sound scripts ----

  /**
   Scanning a script. parentActed: the parent acted and has told the child nothing since.
   childActed: the child acted and has sent nothing since. told: the parent told the child something
   and the child has sent nothing since. last: the rank of the latest action.
   */
  datatype Scan = Scan(parentActed: bool, childActed: bool, told: bool, last: int)

  function Rank(a: Act): nat {
    match a
    case WriteStatus => 0
    case ConfigureNamespaces => 1
    case ConfigureMounts => 2
    case PrestartHooks => 3
    case CreateRuntimeHooks => 4
    case ReadStatus => 5
    case CreateContainerHooks => 6
    case PivotRoot => 7
    case StartContainerHooks => 8
    case Exec => 9
    case PoststartHooks => 10
    case HoldPid => 0
    case PrepareWorkload => 1
  }

  /** Actions come by rank, and whoever acts after the other side acted has heard from it since. */
  function Flags(f: Scan, t: Item): Option<Scan> {
    match t
    case Up(_) => Some(f.(childActed := false, told := false))
    case Down(_) => if f.told then None else Some(f.(parentActed := false, told := true))
    case ParentDoes(a) =>
      if f.childActed || Rank(a) <= f.last || Rank(a) >= Rank(Exec) then None
      else Some(f.(parentActed := true, last := Rank(a)))
    case ChildDoes(a) =>
      if f.parentActed || Rank(a) <= f.last || Rank(a) >= Rank(Exec) then None
      else Some(f.(childActed := true, last := Rank(a)))
  }

  function Scanned(s: seq<Item>, f: Scan): Option<Scan> {
    if s == [] then Some(f)
    else
      match Flags(f, s[0])
      case None => None
      case Some(g) => Scanned(s[1..], g)
  }

  const FRESH := Scan(false, false, false, -1)

  /** At the end neither side has an action the other has not heard of. */
  ghost predicate Sound(s: seq<Item>) {
    var g := Scanned(s, FRESH);
    g.Some? && !g.value.parentActed && !g.value.childActed
  }

  lemma {:induction false} ScanAppend(a: seq<Item>, b: seq<Item>, f: Scan)
    ensures Scanned(a + b, f) == match Scanned(a, f) case None => None case Some(g) => Scanned(b, g)
    decreases |a|
  {
    if a == [] {
      assert a + b == b;
    } else {
      assert (a + b)[1..] == a[1..] + b;
      if Flags(f, a[0]).Some? {
        ScanAppend(a[1..], b, Flags(f, a[0]).value);
      }
    }
  }

  ghost predicate HasUp(s: seq<Item>, lo: nat, hi: nat) {
    exists u :: lo <= u < hi && u < |s| && s[u].Up?
  }

  ghost predicate HasDown(s: seq<Item>, lo: nat, hi: nat) {
    exists d :: lo <= d < hi && d < |s| && s[d].Down?
  }

  function ActOf(t: Item): Option<Act> {
    match t
    case ParentDoes(a) => Some(a)
    case ChildDoes(a) => Some(a)
    case _ => None
  }

  /** What scanning a script establishes about it, pair by pair. */
  ghost predicate Separated(s: seq<Item>) {
    && (forall k, m :: 0 <= k < m < |s| && ActOf(s[k]).Some? && ActOf(s[m]).Some? ==> Rank(ActOf(s[k]).value) < Rank(ActOf(s[m]).value))
    && (forall k :: 0 <= k < |s| && ActOf(s[k]).Some? ==> Rank(ActOf(s[k]).value) < Rank(Exec))
    && (forall k, m :: 0 <= k < m < |s| && s[k].ParentDoes? && s[m].ChildDoes? ==> HasDown(s, k, m))
    && (forall k, m :: 0 <= k < m < |s| && s[k].ChildDoes? && s[m].ParentDoes? ==> HasUp(s, k, m))
    && (forall k, m :: 0 <= k < m < |s| && s[k].Down? && s[m].Down? ==> HasUp(s, k, m))
    && (forall k :: 0 <= k < |s| && s[k].ParentDoes? ==> HasDown(s, k, |s|))
    && (forall k :: 0 <= k < |s| && s[k].ChildDoes? ==> HasUp(s, k, |s|))
  }

  /** The flags after a prefix say what the prefix holds. */
  ghost predicate Describes(f: Scan, s: seq<Item>, n: nat)
    requires n <= |s|
  {
    && (forall k :: 0 <= k < n && s[k].ParentDoes? && !f.parentActed ==> HasDown(s, k, n))
    && (forall k :: 0 <= k < n && s[k].ChildDoes? && !f.childActed ==> HasUp(s, k, n))
    && (forall k :: 0 <= k < n && s[k].Down? && !f.told ==> HasUp(s, k, n))
    && (forall k :: 0 <= k < n && ActOf(s[k]).Some? ==> Rank(ActOf(s[k]).value) <= f.last)
  }

  ghost predicate SeparatedTo(s: seq<Item>, n: nat)
    requires n <= |s|
  {
    && (forall k, m :: 0 <= k < m < n && ActOf(s[k]).Some? && ActOf(s[m]).Some? ==> Rank(ActOf(s[k]).value) < Rank(ActOf(s[m]).value))
    && (forall k :: 0 <= k < n && ActOf(s[k]).Some? ==> Rank(ActOf(s[k]).value) < Rank(Exec))
    && (forall k, m :: 0 <= k < m < n && s[k].ParentDoes? && s[m].ChildDoes? ==> HasDown(s, k, m))
    && (forall k, m :: 0 <= k < m < n && s[k].ChildDoes? && s[m].ParentDoes? ==> HasUp(s, k, m))
    && (forall k, m :: 0 <= k < m < n && s[k].Down? && s[m].Down? ==> HasUp(s, k, m))
  }

  lemma {:induction false} DescribeOneMore(s: seq<Item>, n: nat, f: Scan)
    requires n < |s| && Describes(f, s, n) && Flags(f, s[n]).Some?
    ensures Describes(Flags(f, s[n]).value, s, n + 1)
  {
  }

  lemma {:induction false} SeparateOneMore(s: seq<Item>, n: nat, f: Scan)
    requires n < |s| && Describes(f, s, n) && SeparatedTo(s, n) && Flags(f, s[n]).Some?
    ensures SeparatedTo(s, n + 1)
  {
    hide HasUp, HasDown, Rank;
  }

  lemma {:induction false} ScanSeparates(s: seq<Item>, n: nat, f: Scan)
    requires n <= |s| && Describes(f, s, n) && SeparatedTo(s, n)
    requires Scanned(s[n..], f).Some?
    ensures Describes(Scanned(s[n..], f).value, s, |s|) && SeparatedTo(s, |s|)
    decreases |s| - n
  {
    hide Describes, SeparatedTo;
    if n == |s| {
    } else {
      assert s[n..][1..] == s[n + 1..];
      DescribeOneMore(s, n, f);
      SeparateOneMore(s, n, f);
      ScanSeparates(s, n + 1, Flags(f, s[n]).value);
    }
  }

  lemma {:induction false} SoundIsSeparated(s: seq<Item>)
    requires Sound(s)
    ensures Separated(s)
  {
    assert s[0..] == s;
    ScanSeparates(s, 0, FRESH);
    hide HasUp, HasDown, Rank;
  }
}
