/**
 The start protocol of `run`: container::run in the runtime's namespace against clone_fn in the
 container's. Both sides' operations depend on which hooks the configuration has and on whether the
 process gets a terminal.
 */
module RunHandshake {
  import opened Results
  import opened Choreography
  import opened Interleaving

  datatype Config = Config(
    prestart: bool,
    createRuntime: bool,
    createContainer: bool,
    startContainer: bool,
    poststart: bool,
    terminal: bool)

  function When<T>(present: bool, ops: seq<T>): seq<T> {
    if present then ops else []
  }

  /** container::run, from the status file to the poststart hooks. */
  function RunOps(c: Config): seq<ParentOp> {
    [Do(WriteStatus)]
    + [Wait(StageMsg(NamespaceReady)), Do(ConfigureNamespaces), Tell(StageMsg(NamespaceDone))]
    + When(c.prestart, [Wait(StageMsg(PrestartReady)), Do(PrestartHooks), Tell(StageMsg(PrestartDone))])
    + When(c.createRuntime, [Wait(StageMsg(CreateRuntimeReady)), Do(CreateRuntimeHooks), Tell(StageMsg(CreateRuntimeDone))])
    + When(c.createContainer, [Wait(StageMsg(CreateContainerDone))])
    + When(c.terminal, [Wait(ConsoleFd)])
    + [Wait(StageMsg(ExecReady))]
    + ([AwaitClose] + When(c.poststart, [Do(PoststartHooks)]))
  }

  /** clone_fn, up to exec. */
  function CloneOps(c: Config): seq<ChildOp> {
    [Send(StageMsg(NamespaceReady)), Expect(StageMsg(NamespaceDone)), Perform(ConfigureMounts)]
    + When(c.prestart, [Send(StageMsg(PrestartReady)), Expect(StageMsg(PrestartDone))])
    + When(c.createRuntime, [Send(StageMsg(CreateRuntimeReady)), Expect(StageMsg(CreateRuntimeDone))])
    + [Perform(ReadStatus)]
    + When(c.createContainer, [Perform(CreateContainerHooks), Send(StageMsg(CreateContainerDone))])
    + [Perform(PivotRoot)]
    + When(c.terminal, [Send(ConsoleFd)])
    + When(c.startContainer, [Perform(StartContainerHooks)])
    + [Send(StageMsg(ExecReady))]
    + [Perform(Exec)]
  }

  // ---- one script for both ----

  const Opening: seq<Item> := [
    ParentDoes(WriteStatus), Up(StageMsg(NamespaceReady)), ParentDoes(ConfigureNamespaces),
    Down(StageMsg(NamespaceDone)), ChildDoes(ConfigureMounts)]
  const Prestart: seq<Item> := [Up(StageMsg(PrestartReady)), ParentDoes(PrestartHooks), Down(StageMsg(PrestartDone))]
  const CreateRuntime: seq<Item> :=
    [Up(StageMsg(CreateRuntimeReady)), ParentDoes(CreateRuntimeHooks), Down(StageMsg(CreateRuntimeDone))]
  const CreateContainer: seq<Item> := [ChildDoes(CreateContainerHooks), Up(StageMsg(CreateContainerDone))]

  /** The script up to the hooks that the runtime runs, up to the switch of the root, and whole. */
  function Prepared(c: Config): seq<Item> {
    Opening + When(c.prestart, Prestart) + When(c.createRuntime, CreateRuntime)
  }

  function Created(c: Config): seq<Item> {
    Prepared(c) + [ChildDoes(ReadStatus)] + When(c.createContainer, CreateContainer)
  }

  function Script(c: Config): seq<Item> {
    Created(c) + [ChildDoes(PivotRoot)] + When(c.terminal, [Up(ConsoleFd)])
    + When(c.startContainer, [ChildDoes(StartContainerHooks)]) + [Up(StageMsg(ExecReady))]
  }

  function AfterClose(c: Config): seq<ParentOp> {
    When(c.poststart, [Do(PoststartHooks)])
  }

  // ---- sides and soundness, segment by segment ----

  lemma {:induction false} ParentSideAppend(a: seq<Item>, b: seq<Item>)
    ensures ParentSide(a + b) == ParentSide(a) + ParentSide(b)
  {
    if a == [] {
      assert a + b == b;
    } else {
      var whole := a + b;
      assert whole[0] == a[0] && whole[1..] == a[1..] + b;
      ParentSideAppend(a[1..], b);
      var head := if a[0].ChildDoes? then [] else [ParentOpOf(a[0])];
      assert ParentSide(a) == head + ParentSide(a[1..]);
      assert ParentSide(whole) == head + (ParentSide(a[1..]) + ParentSide(b));
    }
  }

  lemma {:induction false} ChildSideAppend(a: seq<Item>, b: seq<Item>)
    ensures ChildSide(a + b) == ChildSide(a) + ChildSide(b)
  {
    if a == [] {
      assert a + b == b;
    } else {
      var whole := a + b;
      assert whole[0] == a[0] && whole[1..] == a[1..] + b;
      ChildSideAppend(a[1..], b);
      var head := if a[0].ParentDoes? then [] else [ChildOpOf(a[0])];
      assert ChildSide(a) == head + ChildSide(a[1..]);
      assert ChildSide(whole) == head + (ChildSide(a[1..]) + ChildSide(b));
    }
  }

  lemma {:induction false} SidesAppend(a: seq<Item>, b: seq<Item>)
    ensures ParentSide(a + b) == ParentSide(a) + ParentSide(b)
    ensures ChildSide(a + b) == ChildSide(a) + ChildSide(b)
  {
    ParentSideAppend(a, b);
    ChildSideAppend(a, b);
  }

  lemma {:induction false} SidesOfSegments()
    ensures ParentSide(Opening)
         == [Do(WriteStatus), Wait(StageMsg(NamespaceReady)), Do(ConfigureNamespaces), Tell(StageMsg(NamespaceDone))]
    ensures ChildSide(Opening)
         == [Send(StageMsg(NamespaceReady)), Expect(StageMsg(NamespaceDone)), Perform(ConfigureMounts)]
    ensures ParentSide(Prestart) == [Wait(StageMsg(PrestartReady)), Do(PrestartHooks), Tell(StageMsg(PrestartDone))]
    ensures ChildSide(Prestart) == [Send(StageMsg(PrestartReady)), Expect(StageMsg(PrestartDone))]
    ensures ParentSide(CreateRuntime)
         == [Wait(StageMsg(CreateRuntimeReady)), Do(CreateRuntimeHooks), Tell(StageMsg(CreateRuntimeDone))]
    ensures ChildSide(CreateRuntime) == [Send(StageMsg(CreateRuntimeReady)), Expect(StageMsg(CreateRuntimeDone))]
    ensures ParentSide(CreateContainer) == [Wait(StageMsg(CreateContainerDone))]
    ensures ChildSide(CreateContainer) == [Perform(CreateContainerHooks), Send(StageMsg(CreateContainerDone))]
  {
  }

  lemma {:induction false} PreparedSides(c: Config)
    ensures ParentSide(Prepared(c))
         == ParentSide(Opening) + When(c.prestart, ParentSide(Prestart)) + When(c.createRuntime, ParentSide(CreateRuntime))
    ensures ChildSide(Prepared(c))
         == ChildSide(Opening) + When(c.prestart, ChildSide(Prestart)) + When(c.createRuntime, ChildSide(CreateRuntime))
  {
    hide ParentSide, ChildSide;
    NoSides();
    SidesAppend(Opening, When(c.prestart, Prestart));
    SidesAppend(Opening + When(c.prestart, Prestart), When(c.createRuntime, CreateRuntime));
  }

  lemma {:induction false} CreatedSides(c: Config)
    ensures ParentSide(Created(c)) == ParentSide(Prepared(c)) + When(c.createContainer, ParentSide(CreateContainer))
    ensures ChildSide(Created(c))
         == ChildSide(Prepared(c)) + [Perform(ReadStatus)] + When(c.createContainer, ChildSide(CreateContainer))
  {
    hide ParentSide, ChildSide, Prepared;
    NoSides();
    SidesAppend(Prepared(c), [ChildDoes(ReadStatus)]);
    SidesAppend(Prepared(c) + [ChildDoes(ReadStatus)], When(c.createContainer, CreateContainer));
  }

  lemma {:induction false} ScriptSides(c: Config)
    ensures ParentSide(Script(c)) == ParentSide(Created(c)) + When(c.terminal, [Wait(ConsoleFd)]) + [Wait(StageMsg(ExecReady))]
    ensures ChildSide(Script(c))
         == ChildSide(Created(c)) + [Perform(PivotRoot)] + When(c.terminal, [Send(ConsoleFd)])
            + When(c.startContainer, [Perform(StartContainerHooks)]) + [Send(StageMsg(ExecReady))]
  {
    hide ParentSide, ChildSide, Created;
    NoSides();
    var a := Created(c) + [ChildDoes(PivotRoot)];
    var b := a + When(c.terminal, [Up(ConsoleFd)]);
    var d := b + When(c.startContainer, [ChildDoes(StartContainerHooks)]);
    SidesAppend(Created(c), [ChildDoes(PivotRoot)]);
    SidesAppend(a, When(c.terminal, [Up(ConsoleFd)]));
    SidesAppend(b, When(c.startContainer, [ChildDoes(StartContainerHooks)]));
    SidesAppend(d, [Up(StageMsg(ExecReady))]);
  }

  lemma {:induction false} NoSides()
    ensures ParentSide([]) == [] && ChildSide([]) == []
    ensures ParentSide([ChildDoes(ReadStatus)]) == [] && ChildSide([ChildDoes(ReadStatus)]) == [Perform(ReadStatus)]
    ensures ParentSide([ChildDoes(PivotRoot)]) == [] && ChildSide([ChildDoes(PivotRoot)]) == [Perform(PivotRoot)]
    ensures ParentSide([ChildDoes(StartContainerHooks)]) == []
    ensures ChildSide([ChildDoes(StartContainerHooks)]) == [Perform(StartContainerHooks)]
    ensures ParentSide([Up(ConsoleFd)]) == [Wait(ConsoleFd)] && ChildSide([Up(ConsoleFd)]) == [Send(ConsoleFd)]
    ensures ParentSide([Up(StageMsg(ExecReady))]) == [Wait(StageMsg(ExecReady))]
    ensures ChildSide([Up(StageMsg(ExecReady))]) == [Send(StageMsg(ExecReady))]
  {
  }

  lemma {:induction false} ParentIsSide(c: Config)
    ensures RunOps(c) == ParentProgram(Script(c), AfterClose(c))
  {
    hide ParentSide, ChildSide, Script, Created, Prepared, CloneOps, ChildProgram, When;
    SidesOfSegments();
    PreparedSides(c);
    CreatedSides(c);
    ScriptSides(c);
  }

  lemma {:induction false} ChildIsSide(c: Config)
    ensures CloneOps(c) == ChildProgram(Script(c))
  {
    hide ParentSide, ChildSide, Script, Created, Prepared, RunOps, ParentProgram, When;
    SidesOfSegments();
    PreparedSides(c);
    CreatedSides(c);
    ScriptSides(c);
  }

  /** The two programs of the source are the two sides of one script, whatever the configuration. */
  lemma {:induction false} ProgramsAreSides(c: Config)
    ensures RunOps(c) == ParentProgram(Script(c), AfterClose(c))
    ensures CloneOps(c) == ChildProgram(Script(c))
  {
    hide RunOps, CloneOps, ParentProgram, ChildProgram, Script;
    ParentIsSide(c);
    ChildIsSide(c);
  }

  lemma {:induction false} ScanOne(t: Item, f: Scan)
    ensures Scanned([t], f) == Flags(f, t)
  {
  }

  lemma {:induction false} ScanThree(t: Item, u: Item, v: Item, f: Scan)
    ensures Scanned([t, u, v], f) ==
            match Flags(f, t)
            case None => None
            case Some(g) => match Flags(g, u)
              case None => None
              case Some(h) => Flags(h, v)
  {
    assert [t, u, v] == [t] + ([u] + [v]);
    ScanAppend([t], [u] + [v], f);
    ScanOne(t, f);
    if Flags(f, t).Some? {
      var g := Flags(f, t).value;
      ScanAppend([u], [v], g);
      ScanOne(u, g);
      if Flags(g, u).Some? {
        ScanOne(v, Flags(g, u).value);
      }
    }
  }

  /** A hook of the runtime: asked for, run and reported. */
  lemma {:induction false} ScanRuntimeHook(ready: Stage, hook: Act, done: Stage, f: Scan)
    requires f.last < Rank(hook) < Rank(Exec)
    ensures Scanned([Up(StageMsg(ready)), ParentDoes(hook), Down(StageMsg(done))], f) == Some(Scan(false, false, true, Rank(hook)))
  {
    ScanThree(Up(StageMsg(ready)), ParentDoes(hook), Down(StageMsg(done)), f);
  }

  lemma {:induction false} ScanOpening()
    ensures Scanned(Opening, FRESH) == Some(Scan(false, true, true, Rank(ConfigureMounts)))
  {
  }

  lemma {:induction false} ScanNothing(f: Scan)
    ensures Scanned([], f) == Some(f)
  {
  }

  lemma {:induction false} PreparedScans(c: Config)
    ensures var f := Scanned(Prepared(c), FRESH);
            f.Some? && !f.value.parentActed && f.value.last < Rank(ReadStatus)
  {
    hide Scanned;
    ScanOpening();
    var f := Scan(false, true, true, Rank(ConfigureMounts));
    ScanRuntimeHook(PrestartReady, PrestartHooks, PrestartDone, f);
    ScanNothing(f);
    ScanAppend(Opening, When(c.prestart, Prestart), FRESH);
    var g := Scanned(Opening + When(c.prestart, Prestart), FRESH).value;
    ScanRuntimeHook(CreateRuntimeReady, CreateRuntimeHooks, CreateRuntimeDone, g);
    ScanNothing(g);
    ScanAppend(Opening + When(c.prestart, Prestart), When(c.createRuntime, CreateRuntime), FRESH);
  }

  lemma {:induction false} CreatedScans(c: Config)
    ensures var f := Scanned(Created(c), FRESH);
            f.Some? && !f.value.parentActed && f.value.last < Rank(PivotRoot)
  {
    hide Scanned, Prepared;
    PreparedScans(c);
    var f := Scanned(Prepared(c), FRESH).value;
    ScanAppend(Prepared(c), [ChildDoes(ReadStatus)], FRESH);
    ScanOne(ChildDoes(ReadStatus), f);
    var g := f.(childActed := true, last := Rank(ReadStatus));
    ScanAppend([CreateContainer[0]], [CreateContainer[1]], g);
    ScanOne(CreateContainer[0], g);
    ScanOne(CreateContainer[1], g.(childActed := true, last := Rank(CreateContainerHooks)));
    assert CreateContainer == [CreateContainer[0]] + [CreateContainer[1]];
    ScanNothing(g);
    ScanAppend(Prepared(c) + [ChildDoes(ReadStatus)], When(c.createContainer, CreateContainer), FRESH);
  }

  lemma {:induction false} ScriptIsSound(c: Config)
    ensures Sound(Script(c))
  {
    hide Scanned, Created;
    CreatedScans(c);
    var a := Created(c) + [ChildDoes(PivotRoot)];
    var b := a + When(c.terminal, [Up(ConsoleFd)]);
    var d := b + When(c.startContainer, [ChildDoes(StartContainerHooks)]);
    ScanAppend(Created(c), [ChildDoes(PivotRoot)], FRESH);
    ScanOne(ChildDoes(PivotRoot), Scanned(Created(c), FRESH).value);
    var f := Scanned(a, FRESH).value;
    ScanAppend(a, When(c.terminal, [Up(ConsoleFd)]), FRESH);
    ScanOne(Up(ConsoleFd), f);
    ScanNothing(f);
    var g := Scanned(b, FRESH).value;
    ScanAppend(b, When(c.startContainer, [ChildDoes(StartContainerHooks)]), FRESH);
    ScanOne(ChildDoes(StartContainerHooks), g);
    ScanNothing(g);
    ScanAppend(d, [Up(StageMsg(ExecReady))], FRESH);
    ScanOne(Up(StageMsg(ExecReady)), Scanned(d, FRESH).value);
  }

  // ---- the main results ----

  /** Any schedule of the two processes, with any logs and any failures. */
  function Run(c: Config, steps: seq<Step>, capacity: nat): Option<State> {
    Execute(Start(RunOps(c), CloneOps(c)), steps, capacity)
  }

  /**
   Whatever the hooks, the terminal, the logs, the failures and the schedule: the handshake never
   blocks, ends, hands every message to the side that expects it, keeps at most one message on its way
   to the container, and takes the lifecycle's actions in their order.
   */
  lemma {:induction false} HandshakeIsSafe(c: Config, steps: seq<Step>, capacity: nat)
    requires capacity >= 1 && Run(c, steps, capacity).Some?
    ensures Safe(Script(c), Run(c, steps, capacity).value, capacity)
    ensures |steps| <= 3 * (|RunOps(c)| + |CloneOps(c)|) + 2 + 2 * Logs(steps)
  {
    ProgramsAreSides(c);
    ScriptIsSound(c);
    hide Safe, Sound, Script, Execute, RunOps, CloneOps, ParentProgram, ChildProgram;
    RunsAreSafe(Script(c), AfterClose(c), steps, capacity);
  }

  predicate Present(c: Config, a: Act) {
    match a
    case PrestartHooks => c.prestart
    case CreateRuntimeHooks => c.createRuntime
    case CreateContainerHooks => c.createContainer
    case StartContainerHooks => c.startContainer
    case PoststartHooks => false
    case Exec => false
    case HoldPid => false
    case PrepareWorkload => false
    case _ => true
  }

  lemma {:induction false} PresentIsInScript(c: Config, a: Act)
    requires Present(c, a)
    ensures InScript(Script(c), a)
  {
    var s := Script(c);
    var p := |Prepared(c)|;
    var q := |Created(c)|;
    match a {
      case WriteStatus => assert s[0] == ParentDoes(a);
      case ConfigureNamespaces => assert s[2] == ParentDoes(a);
      case ConfigureMounts => assert s[4] == ChildDoes(a);
      case PrestartHooks => assert s[6] == ParentDoes(a);
      case CreateRuntimeHooks => assert s[p - 2] == ParentDoes(a);
      case ReadStatus => assert s[p] == ChildDoes(a);
      case CreateContainerHooks => assert s[p + 1] == ChildDoes(a);
      case PivotRoot => assert s[q] == ChildDoes(a);
      case StartContainerHooks => assert s[|s| - 2] == ChildDoes(a);
    }
  }

  /**
   The order of OCI Runtime Specification, section "Lifecycle" of runtime.md, in every run: an action
   happens only after every configured action but exec that comes before it; for exec see
   PoststartAfterExecIff. With ReadStatus for b and WriteStatus for a: the child reads the status file
   only after the parent has written it.
   */
  lemma {:induction false} LifecycleOrder(c: Config, steps: seq<Step>, capacity: nat, a: Act, y: nat)
    requires capacity >= 1 && Run(c, steps, capacity).Some?
    requires y < |Run(c, steps, capacity).value.trace|
    requires Present(c, a) && Rank(a) < Rank(Run(c, steps, capacity).value.trace[y])
    ensures a in Run(c, steps, capacity).value.trace[..y]
  {
    hide Run, RunOps, CloneOps, Script, ReceivesAreExpected, Enabled;
    HandshakeIsSafe(c, steps, capacity);
    PresentIsInScript(c, a);
    var trace := Run(c, steps, capacity).value.trace;
    assert trace[y] in trace;
    var x :| 0 <= x < |trace| && trace[x] == a;
    assert x < y;
    assert trace[..y][x] == a;
  }

  /** Without failures every run that can go no further has started the container and run all the hooks. */
  lemma {:induction false} CleanHandshakeStarts(c: Config, steps: seq<Step>, capacity: nat)
    requires capacity >= 1 && Run(c, steps, capacity).Some?
    requires forall k :: 0 <= k < |steps| ==> Benign(steps[k])
    requires var st := Run(c, steps, capacity).value;
             !Enabled(st, ParentTurn, capacity) && !Enabled(st, ChildTurn, capacity)
    ensures var st := Run(c, steps, capacity).value;
            && st.parentTodo == [] && Exec in st.trace
            && (forall a :: Present(c, a) ==> a in st.trace)
            && (c.poststart ==> PoststartHooks in st.trace)
  {
    ProgramsAreSides(c);
    ScriptIsSound(c);
    hide Sound, Script, Execute, RunOps, CloneOps, ParentProgram, ChildProgram, Enabled;
    CleanRunsComplete(Script(c), AfterClose(c), steps, capacity);
    forall a | Present(c, a) ensures InScript(Script(c), a) {
      PresentIsInScript(c, a);
    }
  }

  /** The parent is past wait_for_close: the container's process has exec'ed if and only if it did not crash. */
  lemma {:induction false} AcceptedRunIsExecedIff(c: Config, steps: seq<Step>, capacity: nat)
    requires Run(c, steps, capacity).Some? && Accepted(Run(c, steps, capacity).value)
    ensures Exec in Run(c, steps, capacity).value.trace <==> ChildCrashes !in steps
  {
    ProgramsAreSides(c);
    ScriptIsSound(c);
    hide Accepted, Sound, Script, Execute, RunOps, CloneOps, ParentProgram, ChildProgram;
    AcceptedIsExecedIff(Script(c), AfterClose(c), steps, capacity);
  }

  lemma {:induction false} PoststartIsAccepted(c: Config, steps: seq<Step>, capacity: nat)
    requires Run(c, steps, capacity).Some? && PoststartHooks in Run(c, steps, capacity).value.trace
    ensures Accepted(Run(c, steps, capacity).value)
  {
    var s, after := Script(c), AfterClose(c);
    ProgramsAreSides(c);
    ScriptIsSound(c);
    SoundIsSeparated(s);
    BeginsAt(s, after);
    var st0 := Start(RunOps(c), CloneOps(c));
    assert Invariant(s, after, st0) by {
      assert At(s, after, st0, 0, 0);
    }
    hide Invariant, Sound, Separated, Script, Execute, RunOps, CloneOps, ParentProgram, ChildProgram;
    RunKeeps(s, after, st0, steps, capacity);
    ExecedIff(s, after, Run(c, steps, capacity).value);
  }

  /** The poststart hooks run after the exec if and only if the container's process did not crash. */
  lemma {:induction false} PoststartAfterExecIff(c: Config, steps: seq<Step>, capacity: nat, y: nat)
    requires capacity >= 1 && Run(c, steps, capacity).Some?
    requires y < |Run(c, steps, capacity).value.trace| && Run(c, steps, capacity).value.trace[y] == PoststartHooks
    ensures Exec in Run(c, steps, capacity).value.trace[..y] <==> ChildCrashes !in steps
  {
    hide Run, RunOps, CloneOps, Script, ReceivesAreExpected, Enabled, Accepted;
    var trace := Run(c, steps, capacity).value.trace;
    assert trace[y] in trace;
    PoststartIsAccepted(c, steps, capacity);
    AcceptedRunIsExecedIff(c, steps, capacity);
    HandshakeIsSafe(c, steps, capacity);
    assert forall x :: 0 <= x < y ==> trace[..y][x] == trace[x];
    if Exec in trace {
      var x :| 0 <= x < |trace| && trace[x] == Exec;
      assert x < y;
      assert trace[..y][x] == Exec;
    }
  }

  // ---- a run with poststart hooks and without an exec ----

  lemma {:induction false} ParentGoesOn(st: State, op: ParentOp, todo: seq<ParentOp>, more: seq<Step>)
    requires ParentRuns(st) && st.parentTodo == [op] + todo
    ensures op.Do? ==>
              Execute(st, [ParentTurn] + more, 1) == Execute(st.(parentTodo := todo, trace := st.trace + [op.act]), more, 1)
    ensures op.Wait? && st.up == [Control(op.body)] ==>
              Execute(st, [ParentTurn] + more, 1) == Execute(st.(parentTodo := todo, up := []), more, 1)
    ensures op.Tell? && st.alive && st.down == [] ==>
              Execute(st, [ParentTurn] + more, 1) == Execute(st.(parentTodo := todo, down := [op.body]), more, 1)
    ensures op.AwaitClose? && !st.alive && st.up == [] && !st.sawFatal ==>
              Execute(st, [ParentTurn] + more, 1) == Execute(st.(parentTodo := todo), more, 1)
  {
    assert ([ParentTurn] + more)[1..] == more && st.parentTodo[1..] == todo;
    assert op.Wait? && st.up == [Control(op.body)] ==> st.up[1..] == [];
    assert op.Tell? ==> [] + [op.body] == [op.body];
  }

  lemma {:induction false} ChildGoesOn(st: State, op: ChildOp, todo: seq<ChildOp>, more: seq<Step>)
    requires st.alive && st.childTodo == [op] + todo
    ensures op.Send? && st.up == [] ==>
              Execute(st, [ChildTurn] + more, 1) == Execute(st.(childTodo := todo, up := [Control(op.body)]), more, 1)
    ensures op.Expect? && st.down == [op.body] ==>
              Execute(st, [ChildTurn] + more, 1) == Execute(st.(childTodo := todo, down := []), more, 1)
    ensures op.Perform? && op.act != Exec ==>
              Execute(st, [ChildTurn] + more, 1) == Execute(st.(childTodo := todo, trace := st.trace + [op.act]), more, 1)
    ensures Execute(st, [ChildCrashes] + more, 1) == Execute(st.(alive := false), more, 1)
  {
    assert ([ChildTurn] + more)[1..] == more && st.childTodo[1..] == todo;
    assert ([ChildCrashes] + more)[1..] == more;
    assert op.Expect? && st.down == [op.body] ==> st.down[1..] == [];
    assert op.Send? ==> [] + [Control(op.body)] == [Control(op.body)];
  }

  const OnlyPoststart := Config(false, false, false, false, true, false)

  /** The two programs of that configuration, from the place that each lemma begins at. */
  function Ready(): seq<ParentOp> {
    [Wait(StageMsg(ExecReady)), AwaitClose, Do(PoststartHooks)]
  }

  function Preparing(): seq<ChildOp> {
    [Perform(ConfigureMounts), Perform(ReadStatus), Perform(PivotRoot), Send(StageMsg(ExecReady)), Perform(Exec)]
  }

  lemma {:induction false} OnlyPoststartPrograms()
    ensures RunOps(OnlyPoststart)
         == [Do(WriteStatus), Wait(StageMsg(NamespaceReady)), Do(ConfigureNamespaces), Tell(StageMsg(NamespaceDone))] + Ready()
    ensures CloneOps(OnlyPoststart) == [Send(StageMsg(NamespaceReady)), Expect(StageMsg(NamespaceDone))] + Preparing()
  {
  }

  function Opened(more: seq<Step>): seq<Step> {
    [ParentTurn] + ([ChildTurn] + ([ParentTurn] + ([ParentTurn] + ([ParentTurn] + more))))
  }

  function SetUp(more: seq<Step>): seq<Step> {
    [ChildTurn] + ([ChildTurn] + ([ChildTurn] + ([ChildTurn] + ([ChildTurn] + more))))
  }

  function Killed(): seq<Step> {
    [ChildCrashes] + ([ParentTurn] + ([ParentTurn] + ([ParentTurn] + [])))
  }

  /** The parent waits for exec_ready; the child has been told to go on. */
  function AfterOpened(): State {
    State(Ready(), [Expect(StageMsg(NamespaceDone))] + Preparing(), [], [StageMsg(NamespaceDone)], false, true, false,
          [WriteStatus] + [ConfigureNamespaces])
  }

  /** The child has reported exec_ready and has only its exec left. */
  function AfterSetUp(): State {
    State(Ready(), [Perform(Exec)], [Control(StageMsg(ExecReady))], [], false, true, false,
          [WriteStatus] + [ConfigureNamespaces] + [ConfigureMounts] + [ReadStatus] + [PivotRoot])
  }

  lemma {:induction false} OpenedPasses(more: seq<Step>)
    ensures Run(OnlyPoststart, Opened(more), 1) == Execute(AfterOpened(), more, 1)
  {
    hide Execute, Ready, Preparing, RunOps, CloneOps;
    OnlyPoststartPrograms();
    var s0 := Start(RunOps(OnlyPoststart), CloneOps(OnlyPoststart));
    var p3 := [Tell(StageMsg(NamespaceDone))] + Ready();
    var p2 := [Do(ConfigureNamespaces)] + p3;
    var p1 := [Wait(StageMsg(NamespaceReady))] + p2;
    assert s0.parentTodo == [Do(WriteStatus)] + p1;
    var c1 := [Expect(StageMsg(NamespaceDone))] + Preparing();
    assert s0.childTodo == [Send(StageMsg(NamespaceReady))] + c1;
    assert [] + [WriteStatus] == [WriteStatus];
    var m4 := [ParentTurn] + more;
    var m3 := [ParentTurn] + m4;
    var m2 := [ParentTurn] + m3;
    ParentGoesOn(s0, Do(WriteStatus), p1, [ChildTurn] + m2);
    var s1 := s0.(parentTodo := p1, trace := [WriteStatus]);
    ChildGoesOn(s1, Send(StageMsg(NamespaceReady)), c1, m2);
    var s2 := s1.(childTodo := c1, up := [Control(StageMsg(NamespaceReady))]);
    ParentGoesOn(s2, Wait(StageMsg(NamespaceReady)), p2, m3);
    var s3 := s2.(parentTodo := p2, up := []);
    ParentGoesOn(s3, Do(ConfigureNamespaces), p3, m4);
    ParentGoesOn(s3.(parentTodo := p3, trace := [WriteStatus] + [ConfigureNamespaces]), Tell(StageMsg(NamespaceDone)), Ready(), more);
  }

  lemma {:induction false} SetUpPasses(more: seq<Step>)
    ensures Execute(AfterOpened(), SetUp(more), 1) == Execute(AfterSetUp(), more, 1)
  {
    hide Execute, Ready;
    var s0 := AfterOpened();
    var c4 := [Send(StageMsg(ExecReady))] + [Perform(Exec)];
    var c3 := [Perform(PivotRoot)] + c4;
    var c2 := [Perform(ReadStatus)] + c3;
    var c1 := [Perform(ConfigureMounts)] + c2;
    assert Preparing() == c1;
    var m4 := [ChildTurn] + more;
    var m3 := [ChildTurn] + m4;
    var m2 := [ChildTurn] + m3;
    hide Preparing;
    ChildGoesOn(s0, Expect(StageMsg(NamespaceDone)), c1, [ChildTurn] + m2);
    var s1 := s0.(childTodo := c1, down := []);
    ChildGoesOn(s1, Perform(ConfigureMounts), c2, m2);
    var s2 := s1.(childTodo := c2, trace := s1.trace + [ConfigureMounts]);
    ChildGoesOn(s2, Perform(ReadStatus), c3, m3);
    var s3 := s2.(childTodo := c3, trace := s2.trace + [ReadStatus]);
    ChildGoesOn(s3, Perform(PivotRoot), c4, m4);
    ChildGoesOn(s3.(childTodo := c4, trace := s3.trace + [PivotRoot]), Send(StageMsg(ExecReady)), [Perform(Exec)], more);
  }

  lemma {:induction false} KilledPasses() returns (end: State)
    ensures Execute(AfterSetUp(), Killed(), 1) == Some(end)
    ensures PoststartHooks in end.trace && Exec !in end.trace && !end.failed && end.parentTodo == []
  {
    hide Execute, Ready;
    ReadyIs();
    var s0 := AfterSetUp();
    var p2 := [Do(PoststartHooks)] + [];
    var p1 := [AwaitClose] + p2;
    end := s0.(parentTodo := [], up := [], alive := false, trace := s0.trace + [PoststartHooks]);
    NoSteps(end);
    assert s0.childTodo == [Perform(Exec)] + [];
    ChildGoesOn(s0, Perform(Exec), [], [ParentTurn] + ([ParentTurn] + ([ParentTurn] + [])));
    ParentGoesOn(s0.(alive := false), Wait(StageMsg(ExecReady)), p1, [ParentTurn] + ([ParentTurn] + []));
    ParentGoesOn(s0.(alive := false, up := [], parentTodo := p1), AwaitClose, p2, [ParentTurn] + []);
    ParentGoesOn(s0.(alive := false, up := [], parentTodo := p2), Do(PoststartHooks), [], []);
  }

  lemma {:induction false} ReadyIs()
    ensures Ready() == [Wait(StageMsg(ExecReady))] + ([AwaitClose] + ([Do(PoststartHooks)] + []))
  {
  }

  lemma {:induction false} NoSteps(st: State)
    ensures Execute(st, [], 1) == Some(st)
  {
  }

  /**
   A process killed between exec_ready and its exec: the parent takes the close for the exec and runs the
   poststart hooks, and no exec has happened.
   */
  lemma {:induction false} PoststartWithoutExec()
    ensures var end := Run(OnlyPoststart, Opened(SetUp(Killed())), 1);
            && end.Some? && end.value.parentTodo == [] && !end.value.failed
            && PoststartHooks in end.value.trace && Exec !in end.value.trace
  {
    hide Run, Execute, Killed, SetUp, Opened, AfterOpened, AfterSetUp;
    OpenedPasses(SetUp(Killed()));
    SetUpPasses(Killed());
    var end := KilledPasses();
  }
}
