/**
 The start protocol of `exec`. With a pid namespace the forked child joins the namespaces, forks the
 process that will become the workload, reports that process's pid and exits, so that two processes
 hold the child's end of one socket. Without one the forked child is the workload itself.
 */
module ExecHandshake {
  import opened Results
  import opened Choreography
  import opened Interleaving
  import opened RunHandshake

  /** The intermediate child: absent, joining namespaces, past its fork, or gone. */
  datatype Helper = Absent | Joining | Forked | Gone(reported: bool)

  datatype ExecState = ExecState(
    parentTodo: seq<ParentOp>,
    helper: Helper,
    workerTodo: seq<ChildOp>,
    workerAlive: bool,
    up: seq<Message>,
    down: seq<Body>,
    failed: bool,
    sawFatal: bool,
    trace: seq<Act>)

  datatype ExecStep =
    | ParentMoves | HelperForks | HelperReports | WorkerMoves
    | Logs(fatal: bool, errno: int) | HelperDies | WorkerDies | ParentThrows

  // ---- the programs ----

  /** exec_parent_process. */
  function ExecParentOps(terminal: bool): seq<ParentOp> {
    [Wait(PidReport), Do(HoldPid), Tell(Proceed)]
    + When(terminal, [Wait(ConsoleFd)])
    + [Wait(StageMsg(ExecReady)), AwaitClose]
  }

  /** exec_child_process, from expect_proceed to exec. */
  function WorkloadOps(terminal: bool): seq<ChildOp> {
    [Expect(Proceed), Perform(PrepareWorkload)]
    + When(terminal, [Send(ConsoleFd)])
    + [Send(StageMsg(ExecReady)), Perform(Exec)]
  }

  function Begin(pidNamespace: bool, terminal: bool): ExecState {
    if pidNamespace
    then ExecState(ExecParentOps(terminal), Joining, WorkloadOps(terminal), false, [], [], false, false, [])
    else ExecState(ExecParentOps(terminal), Absent, [Send(PidReport)] + WorkloadOps(terminal), true, [], [], false, false, [])
  }

  // ---- the steps ----

  predicate HelperRuns(st: ExecState) {
    st.helper == Joining || st.helper == Forked
  }

  /** Some process still holds the child's end of the socket. */
  predicate Connected(st: ExecState) {
    HelperRuns(st) || st.workerAlive
  }

  /** The pair of parent and "whoever is left to do the child's part". */
  function View(st: ExecState): State {
    State(st.parentTodo,
          (if HelperRuns(st) || st.helper == Gone(false) then [Send(PidReport)] else []) + st.workerTodo,
          st.up, st.down, st.failed, !st.failed && Connected(st), st.sawFatal, st.trace)
  }

  /** The worker as the child of a pair. */
  function WorkerView(st: ExecState): State {
    State(st.parentTodo, st.workerTodo, st.up, st.down, st.failed, st.workerAlive, st.sawFatal, st.trace)
  }

  predicate CanStep(st: ExecState, step: ExecStep, capacity: nat) {
    match step
    case ParentMoves => Enabled(View(st), ParentTurn, capacity)
    case HelperForks => st.helper == Joining
    case HelperReports => st.helper == Forked && (st.failed || |st.up| < capacity)
    case WorkerMoves => st.workerAlive && st.workerTodo != [] && (st.failed || Enabled(WorkerView(st), ChildTurn, capacity))
    case Logs(_, _) => Connected(st) && !st.failed && |st.up| < capacity
    case HelperDies => HelperRuns(st)
    case WorkerDies => st.workerAlive
    case ParentThrows => Enabled(View(st), ParentFails, capacity)
  }

  /** Once the parent is gone, a child that sends or receives gets an error and exits. */
  function Next(st: ExecState, step: ExecStep, capacity: nat): ExecState
    requires CanStep(st, step, capacity)
  {
    match step
    case ParentMoves =>
      var v := ParentStep(View(st));
      st.(parentTodo := v.parentTodo, up := v.up, down := v.down, failed := v.failed, sawFatal := v.sawFatal, trace := v.trace)
    case HelperForks => st.(helper := Forked, workerAlive := true)
    case HelperReports =>
      if st.failed then st.(helper := Gone(false))
      else st.(helper := Gone(true), up := st.up + [Control(PidReport)])
    case WorkerMoves =>
      if st.failed then st.(workerAlive := false)
      else
        var v := ChildStep(WorkerView(st));
        st.(workerTodo := v.childTodo, workerAlive := v.alive, up := v.up, down := v.down, trace := v.trace)
    case Logs(fatal, errno) => st.(up := st.up + [Log(fatal, errno)])
    case HelperDies => st.(helper := Gone(false))
    case WorkerDies => st.(workerAlive := false)
    case ParentThrows => st.(failed := true)
  }

  function Play(st: ExecState, steps: seq<ExecStep>, capacity: nat): Option<ExecState>
    decreases |steps|
  {
    if steps == [] then Some(st)
    else if CanStep(st, steps[0], capacity) then Play(Next(st, steps[0], capacity), steps[1..], capacity)
    else None
  }

  // ---- one script ----

  function ExecScript(terminal: bool): seq<Item> {
    [Up(PidReport), ParentDoes(HoldPid), Down(Proceed)]
    + ([ChildDoes(PrepareWorkload)] + When(terminal, [Up(ConsoleFd)]) + [Up(StageMsg(ExecReady))])
  }

  /** What the forked child does, or the intermediate child and the workload between them. */
  function ExecChildOps(terminal: bool): seq<ChildOp> {
    [Send(PidReport)] + WorkloadOps(terminal)
  }

  const Introduction: seq<Item> := [Up(PidReport), ParentDoes(HoldPid), Down(Proceed)]

  lemma {:induction false} IntroductionSides()
    ensures ParentSide(Introduction) == [Wait(PidReport), Do(HoldPid), Tell(Proceed)]
    ensures ChildSide(Introduction) == [Send(PidReport), Expect(Proceed)]
    ensures ParentSide([ChildDoes(PrepareWorkload)]) == [] && ChildSide([ChildDoes(PrepareWorkload)]) == [Perform(PrepareWorkload)]
  {
  }

  lemma {:induction false} ScriptSidesOfExec(terminal: bool)
    ensures ParentSide(ExecScript(terminal))
         == [Wait(PidReport), Do(HoldPid), Tell(Proceed)] + When(terminal, [Wait(ConsoleFd)]) + [Wait(StageMsg(ExecReady))]
    ensures ChildSide(ExecScript(terminal))
         == [Send(PidReport), Expect(Proceed)] + [Perform(PrepareWorkload)] + When(terminal, [Send(ConsoleFd)])
            + [Send(StageMsg(ExecReady))]
  {
    hide ParentSide, ChildSide, ExecScript, When;
    var a := Introduction + [ChildDoes(PrepareWorkload)];
    var b := a + When(terminal, [Up(ConsoleFd)]);
    ExecScriptIs(terminal);
    IntroductionSides();
    NoSides();
    WhenSides(terminal);
    SidesAppend(Introduction, [ChildDoes(PrepareWorkload)]);
    SidesAppend(a, When(terminal, [Up(ConsoleFd)]));
    SidesAppend(b, [Up(StageMsg(ExecReady))]);
  }

  lemma {:induction false} ExecScriptIs(terminal: bool)
    ensures ExecScript(terminal)
         == Introduction + [ChildDoes(PrepareWorkload)] + When(terminal, [Up(ConsoleFd)]) + [Up(StageMsg(ExecReady))]
  {
  }

  lemma {:induction false} WhenSides(terminal: bool)
    ensures ParentSide(When(terminal, [Up(ConsoleFd)])) == When(terminal, [Wait(ConsoleFd)])
    ensures ChildSide(When(terminal, [Up(ConsoleFd)])) == When(terminal, [Send(ConsoleFd)])
  {
    NoSides();
  }

  lemma {:induction false} ExecSides(terminal: bool)
    ensures ExecParentOps(terminal) == ParentProgram(ExecScript(terminal), [])
    ensures ExecChildOps(terminal) == ChildProgram(ExecScript(terminal))
  {
    hide ParentSide, ChildSide, ExecScript, When;
    ScriptSidesOfExec(terminal);
  }

  lemma {:induction false} ExecScriptIsSound(terminal: bool)
    ensures Sound(ExecScript(terminal))
  {
    var a := Introduction + [ChildDoes(PrepareWorkload)];
    var b := a + When(terminal, [Up(ConsoleFd)]);
    hide Scanned, ExecScript;
    ExecScriptIs(terminal);
    ScanThree(Up(PidReport), ParentDoes(HoldPid), Down(Proceed), FRESH);
    var f := Scanned(Introduction, FRESH).value;
    ScanAppend(Introduction, [ChildDoes(PrepareWorkload)], FRESH);
    ScanOne(ChildDoes(PrepareWorkload), f);
    var g := Scanned(a, FRESH).value;
    ScanAppend(a, When(terminal, [Up(ConsoleFd)]), FRESH);
    ScanOne(Up(ConsoleFd), g);
    ScanNothing(g);
    ScanAppend(b, [Up(StageMsg(ExecReady))], FRESH);
    ScanOne(Up(StageMsg(ExecReady)), Scanned(b, FRESH).value);
  }

  // ---- three processes refine two ----

  /** The pid report is still owed. */
  predicate Unreported(st: ExecState) {
    HelperRuns(st) || st.helper == Gone(false)
  }

  ghost predicate Keeps(terminal: bool, st: ExecState) {
    && (Unreported(st) ==>
          st.parentTodo == ExecParentOps(terminal) && st.workerTodo == WorkloadOps(terminal) && st.down == [] && Bodies(st.up) == [])
    && (st.helper == Joining ==> !st.workerAlive)
    && (st.failed ==> st.parentTodo != [])
  }

  /** What a step of the three processes is to the pair. */
  function Seen(st: ExecState, step: ExecStep): seq<Step> {
    match step
    case ParentMoves => [ParentTurn]
    case HelperForks => []
    case HelperReports => if st.failed then [] else if st.workerAlive then [ChildTurn] else [ChildTurn, ChildCrashes]
    case WorkerMoves => if st.failed then [] else [ChildTurn]
    case Logs(fatal, errno) => [ChildLogs(fatal, errno)]
    case HelperDies => if st.failed || st.workerAlive then [] else [ChildCrashes]
    case WorkerDies => if st.failed || HelperRuns(st) then [] else [ChildCrashes]
    case ParentThrows => [ParentFails]
  }

  function SeenAll(st: ExecState, steps: seq<ExecStep>, capacity: nat): seq<Step>
    requires Play(st, steps, capacity).Some?
    decreases |steps|
  {
    if steps == [] then [] else Seen(st, steps[0]) + SeenAll(Next(st, steps[0], capacity), steps[1..], capacity)
  }

  lemma {:induction false} ExecuteOne(st: State, step: Step, capacity: nat)
    requires Enabled(st, step, capacity)
    ensures Execute(st, [step], capacity) == Some(Apply(st, step, capacity))
  {
  }

  lemma {:induction false} ExecuteAppend(st: State, a: seq<Step>, b: seq<Step>, capacity: nat)
    requires Execute(st, a, capacity).Some?
    ensures Execute(st, a + b, capacity) == Execute(Execute(st, a, capacity).value, b, capacity)
    decreases |a|
  {
    if a == [] {
      assert a + b == b;
    } else {
      assert (a + b)[1..] == a[1..] + b;
      ExecuteAppend(Apply(st, a[0], capacity), a[1..], b, capacity);
    }
  }

  lemma {:induction false} KeepsOn(terminal: bool, st: ExecState, step: ExecStep, capacity: nat)
    requires Keeps(terminal, st) && CanStep(st, step, capacity)
    ensures Keeps(terminal, Next(st, step, capacity))
  {
    match step {
      case ParentMoves =>
        if st.up != [] {
          HeadOfBodies(st.up);
        }
      case Logs(fatal, errno) =>
        BodiesAppend(st.up, [Log(fatal, errno)]);
        assert Bodies([Log(fatal, errno)]) == [];
      case _ =>
    }
  }

  /** A report by an intermediate child whose workload is gone is a report and a crash. */
  lemma {:induction false} ReportIsSeen(terminal: bool, st: ExecState, capacity: nat)
    requires Keeps(terminal, st) && CanStep(st, HelperReports, capacity) && !st.failed
    ensures Execute(View(st), Seen(st, HelperReports), capacity) == Some(View(Next(st, HelperReports, capacity)))
  {
    var v := View(st);
    assert v.childTodo[0] == Send(PidReport) && v.childTodo[1..] == st.workerTodo;
    ExecuteOne(v, ChildTurn, capacity);
    var w := Apply(v, ChildTurn, capacity);
    assert w == v.(up := v.up + [Control(PidReport)], childTodo := st.workerTodo);
    var next := View(Next(st, HelperReports, capacity));
    if st.workerAlive {
      assert next == w;
    } else {
      assert next == w.(alive := false);
      ExecuteOne(w, ChildCrashes, capacity);
      assert [ChildTurn, ChildCrashes] == [ChildTurn] + [ChildCrashes];
      ExecuteAppend(v, [ChildTurn], [ChildCrashes], capacity);
    }
  }

  /** The workload moves only when the report is out, and then it is the pair's child. */
  lemma {:induction false} WorkerIsSeen(terminal: bool, st: ExecState, capacity: nat)
    requires Keeps(terminal, st) && CanStep(st, WorkerMoves, capacity) && !st.failed
    ensures Execute(View(st), Seen(st, WorkerMoves), capacity) == Some(View(Next(st, WorkerMoves, capacity)))
  {
    var v := View(st);
    assert !Unreported(st);
    assert [] + st.workerTodo == st.workerTodo;
    assert v == WorkerView(st);
    ExecuteOne(v, ChildTurn, capacity);
    var w := ChildStep(v);
    var next := Next(st, WorkerMoves, capacity);
    assert [] + next.workerTodo == next.workerTodo;
    assert View(next) == w;
  }

  lemma {:induction false} StepIsSeen(terminal: bool, st: ExecState, step: ExecStep, capacity: nat)
    requires Keeps(terminal, st) && CanStep(st, step, capacity)
    ensures Execute(View(st), Seen(st, step), capacity) == Some(View(Next(st, step, capacity)))
  {
    var v := View(st);
    NoStep(v, capacity);
    hide Execute;
    match step {
      case ParentMoves => ExecuteOne(v, ParentTurn, capacity);
      case HelperForks => assert View(Next(st, step, capacity)) == v;
      case HelperReports =>
        if !st.failed {
          ReportIsSeen(terminal, st, capacity);
        } else {
          assert View(Next(st, step, capacity)) == v;
        }
      case WorkerMoves =>
        if !st.failed {
          WorkerIsSeen(terminal, st, capacity);
        } else {
          assert View(Next(st, step, capacity)) == v;
        }
      case Logs(fatal, errno) => ExecuteOne(v, ChildLogs(fatal, errno), capacity);
      case HelperDies =>
        if !st.failed && !st.workerAlive {
          ExecuteOne(v, ChildCrashes, capacity);
        }
      case WorkerDies =>
        if !st.failed && !HelperRuns(st) {
          ExecuteOne(v, ChildCrashes, capacity);
        }
      case ParentThrows => ExecuteOne(v, ParentFails, capacity);
    }
  }

  lemma {:induction false} PlayIsSeen(terminal: bool, st: ExecState, steps: seq<ExecStep>, capacity: nat)
    requires Keeps(terminal, st) && Play(st, steps, capacity).Some?
    ensures Keeps(terminal, Play(st, steps, capacity).value)
    ensures Execute(View(st), SeenAll(st, steps, capacity), capacity) == Some(View(Play(st, steps, capacity).value))
    decreases |steps|
  {
    hide Keeps, CanStep, Next, Seen, View, Execute;
    if steps == [] {
      NoStep(View(st), capacity);
    } else {
      var st' := Next(st, steps[0], capacity);
      KeepsOn(terminal, st, steps[0], capacity);
      StepIsSeen(terminal, st, steps[0], capacity);
      PlayIsSeen(terminal, st', steps[1..], capacity);
      ExecuteAppend(View(st), Seen(st, steps[0]), SeenAll(st', steps[1..], capacity), capacity);
    }
  }

  lemma {:induction false} NoStep(st: State, capacity: nat)
    ensures Execute(st, [], capacity) == Some(st)
  {
  }

  lemma {:induction false} BeginKeeps(pidNamespace: bool, terminal: bool)
    ensures Keeps(terminal, Begin(pidNamespace, terminal))
    ensures View(Begin(pidNamespace, terminal)) == Start(ExecParentOps(terminal), ExecChildOps(terminal))
  {
  }

  /** Every run of the three processes is a run of the parent and one child, step for step. */
  lemma {:induction false} ExecRefinesPair(pidNamespace: bool, terminal: bool, steps: seq<ExecStep>, capacity: nat)
    requires Play(Begin(pidNamespace, terminal), steps, capacity).Some?
    ensures var st := Play(Begin(pidNamespace, terminal), steps, capacity).value;
            && Keeps(terminal, st)
            && Execute(Start(ExecParentOps(terminal), ExecChildOps(terminal)),
                       SeenAll(Begin(pidNamespace, terminal), steps, capacity), capacity) == Some(View(st))
  {
    hide Keeps, View, Begin, Execute, Play, SeenAll;
    BeginKeeps(pidNamespace, terminal);
    PlayIsSeen(terminal, Begin(pidNamespace, terminal), steps, capacity);
  }

  // ---- the main results ----

  /** Some process can go on with its own program. */
  predicate Progresses(st: ExecState, capacity: nat) {
    || CanStep(st, ParentMoves, capacity) || CanStep(st, HelperForks, capacity)
    || CanStep(st, HelperReports, capacity) || CanStep(st, WorkerMoves, capacity)
  }

  /** The intermediate child has died between its fork and its report, and the workload lives. */
  predicate Stranded(st: ExecState) {
    st.helper == Gone(false) && st.workerAlive && !st.failed
  }

  /**
   What every reachable state guarantees: each message received is the expected one, at most one is on
   its way down, actions come in order, and a parent past wait_for_close has everything done, no holder
   of the child's end left and no fatal log since exec_ready.
   */
  lemma {:induction false} ExecIsSafe(pidNamespace: bool, terminal: bool, steps: seq<ExecStep>, capacity: nat)
    requires capacity >= 1 && Play(Begin(pidNamespace, terminal), steps, capacity).Some?
    ensures var st := Play(Begin(pidNamespace, terminal), steps, capacity).value;
            && ReceivesAreExpected(View(st))
            && |st.down| <= 1 && |st.up| <= capacity
            && InOrder(ExecScript(terminal), st.trace)
            && (st.parentTodo == [] ==>
                  !Connected(st) && !st.sawFatal && forall a :: InScript(ExecScript(terminal), a) ==> a in st.trace)
  {
    hide Play, Execute, ExecScript, ExecParentOps, ExecChildOps, ParentProgram, ChildProgram, Sound, SeenAll,
      ReceivesAreExpected, InOrder, Begin, Enabled, Connected;
    ExecRefinesPair(pidNamespace, terminal, steps, capacity);
    ExecSides(terminal);
    ExecScriptIsSound(terminal);
    RunsAreSafe(ExecScript(terminal), [], SeenAll(Begin(pidNamespace, terminal), steps, capacity), capacity);
  }

  /** The workload gets past expect_proceed only after the parent has taken its pid. */
  lemma {:induction false} ProceedsAfterPid(pidNamespace: bool, terminal: bool, steps: seq<ExecStep>, capacity: nat, y: nat)
    requires capacity >= 1 && Play(Begin(pidNamespace, terminal), steps, capacity).Some?
    requires var trace := Play(Begin(pidNamespace, terminal), steps, capacity).value.trace;
             y < |trace| && (trace[y] == PrepareWorkload || trace[y] == Exec)
    ensures HoldPid in Play(Begin(pidNamespace, terminal), steps, capacity).value.trace[..y]
  {
    assert InScript(ExecScript(terminal), HoldPid) by {
      assert ActOf(ExecScript(terminal)[1]) == Some(HoldPid);
    }
    hide Play, ExecScript, Begin, ReceivesAreExpected, Connected, InScript;
    ExecIsSafe(pidNamespace, terminal, steps, capacity);
    var trace := Play(Begin(pidNamespace, terminal), steps, capacity).value.trace;
    assert trace[y] in trace;
    assert HoldPid in trace;
    hide InOrder;
    EarlierInOrder(ExecScript(terminal), trace, HoldPid, y);
  }

  lemma {:induction false} EarlierInOrder(s: seq<Item>, trace: seq<Act>, a: Act, y: nat)
    requires InOrder(s, trace) && y < |trace| && a in trace && Rank(a) < Rank(trace[y])
    ensures a in trace[..y]
  {
  }

  /**
   While the parent runs, the only state in which no process can go on is the stranded one: the parent
   waits for a pid nobody will report, and the workload, which keeps the socket open, waits for it.
   */
  lemma {:induction false} BlockedIffStranded(pidNamespace: bool, terminal: bool, steps: seq<ExecStep>, capacity: nat)
    requires capacity >= 1 && Play(Begin(pidNamespace, terminal), steps, capacity).Some?
    requires ParentRuns(View(Play(Begin(pidNamespace, terminal), steps, capacity).value))
    ensures var st := Play(Begin(pidNamespace, terminal), steps, capacity).value;
            !Progresses(st, capacity) <==> Stranded(st) && st.up == []
  {
    var st := Play(Begin(pidNamespace, terminal), steps, capacity).value;
    ExecRefinesPair(pidNamespace, terminal, steps, capacity);
    PairNeverStuck(terminal, SeenAll(Begin(pidNamespace, terminal), steps, capacity), View(st), capacity);
    hide Play, Execute, Begin, SeenAll;
    PairGoesOn(terminal, st, capacity);
  }

  lemma {:induction false} PairNeverStuck(terminal: bool, seen: seq<Step>, v: State, capacity: nat)
    requires capacity >= 1 && Execute(Start(ExecParentOps(terminal), ExecChildOps(terminal)), seen, capacity) == Some(v)
    ensures ParentRuns(v) ==> Enabled(v, ParentTurn, capacity) || Enabled(v, ChildTurn, capacity)
  {
    hide Execute, ExecScript, ExecParentOps, ExecChildOps, ParentProgram, ChildProgram, Sound,
      ReceivesAreExpected, InOrder, Enabled, ParentRuns;
    ExecSides(terminal);
    ExecScriptIsSound(terminal);
    RunsAreSafe(ExecScript(terminal), [], seen, capacity);
  }

  lemma {:induction false} PairGoesOn(terminal: bool, st: ExecState, capacity: nat)
    requires Keeps(terminal, st) && capacity >= 1 && ParentRuns(View(st))
    requires Enabled(View(st), ParentTurn, capacity) || Enabled(View(st), ChildTurn, capacity)
    ensures !Progresses(st, capacity) <==> Stranded(st) && st.up == []
  {
  }

  /** Logs do not help a stranded start: only the death of the workload or of the parent ends it. */
  lemma {:induction false} StrandedStays(terminal: bool, st: ExecState, step: ExecStep, capacity: nat)
    requires Keeps(terminal, st) && Stranded(st) && CanStep(st, step, capacity)
    requires step != WorkerDies && step != ParentThrows
    ensures Stranded(Next(st, step, capacity))
    ensures step.Logs? || (step == ParentMoves && |Next(st, step, capacity).up| < |st.up|)
  {
  }

  /** A start gets stranded exactly this way, and can. */
  lemma {:induction false} StrandedHappens(terminal: bool, capacity: nat)
    requires capacity >= 1
    ensures var end := Play(Begin(true, terminal), [HelperForks, HelperDies], capacity);
            end.Some? && Stranded(end.value) && ParentRuns(View(end.value)) && !Progresses(end.value, capacity)
  {
  }

  lemma {:induction false} StrandedNeedsDeath(st: ExecState, steps: seq<ExecStep>, capacity: nat)
    requires Play(st, steps, capacity).Some? && !Stranded(st) && (forall k :: 0 <= k < |steps| ==> steps[k] != HelperDies)
    ensures !Stranded(Play(st, steps, capacity).value)
    decreases |steps|
  {
    if steps != [] && Play(st, steps, capacity).Some? {
      assert steps[0] != HelperDies;
      StrandedNeedsDeath(Next(st, steps[0], capacity), steps[1..], capacity);
    }
  }

  /** As long as the intermediate child does not die before it reports, nothing ever blocks. */
  lemma {:induction false} ExecNeverBlocks(pidNamespace: bool, terminal: bool, steps: seq<ExecStep>, capacity: nat)
    requires capacity >= 1 && Play(Begin(pidNamespace, terminal), steps, capacity).Some?
    requires forall k :: 0 <= k < |steps| ==> steps[k] != HelperDies
    requires ParentRuns(View(Play(Begin(pidNamespace, terminal), steps, capacity).value))
    ensures Progresses(Play(Begin(pidNamespace, terminal), steps, capacity).value, capacity)
  {
    BlockedIffStranded(pidNamespace, terminal, steps, capacity);
    StrandedNeedsDeath(Begin(pidNamespace, terminal), steps, capacity);
  }

  // ---- a closed socket is taken for exec ----

  /** How the workload's death is seen as the death of the pair's child. */
  ghost predicate Deaths(st: ExecState, died: bool, crashed: bool) {
    || st.failed || st.helper == Gone(false)
    || (&& (crashed <==> died && !HelperRuns(st))
        && (st.helper == Joining ==> !died)
        && (st.helper == Forked ==> (st.workerAlive <==> !died)))
  }

  lemma {:induction false} DeathsStep(terminal: bool, st: ExecState, died: bool, crashed: bool, step: ExecStep, capacity: nat)
    requires Keeps(terminal, st) && Deaths(st, died, crashed) && CanStep(st, step, capacity)
    ensures Deaths(Next(st, step, capacity), died || step == WorkerDies, crashed || ChildCrashes in Seen(st, step))
  {
  }

  lemma {:induction false} DeathsRun(terminal: bool, st: ExecState, died: bool, crashed: bool, steps: seq<ExecStep>, capacity: nat)
    requires Keeps(terminal, st) && Deaths(st, died, crashed) && Play(st, steps, capacity).Some?
    ensures Deaths(Play(st, steps, capacity).value, died || WorkerDies in steps, crashed || ChildCrashes in SeenAll(st, steps, capacity))
    decreases |steps|
  {
    hide Keeps, CanStep, Next, Seen, Deaths;
    if steps != [] {
      var st' := Next(st, steps[0], capacity);
      KeepsOn(terminal, st, steps[0], capacity);
      DeathsStep(terminal, st, died, crashed, steps[0], capacity);
      DeathsRun(terminal, st', died || steps[0] == WorkerDies, crashed || ChildCrashes in Seen(st, steps[0]), steps[1..], capacity);
      assert WorkerDies in steps <==> steps[0] == WorkerDies || WorkerDies in steps[1..];
    }
  }

  lemma {:induction false} DeathsAtEnd(terminal: bool, st: ExecState, died: bool, crashed: bool)
    requires Keeps(terminal, st) && Deaths(st, died, crashed) && st.parentTodo == []
    ensures crashed <==> died
  {
  }

  /**
   wait_for_close takes a closed socket for an exec: a parent that is done has seen the command executed if and
   only if the workload did not die.
   */
  lemma {:induction false} DoneIsExecedIff(pidNamespace: bool, terminal: bool, steps: seq<ExecStep>, capacity: nat)
    requires Play(Begin(pidNamespace, terminal), steps, capacity).Some?
    requires Play(Begin(pidNamespace, terminal), steps, capacity).value.parentTodo == []
    ensures Exec in Play(Begin(pidNamespace, terminal), steps, capacity).value.trace <==> WorkerDies !in steps
  {
    var st0 := Begin(pidNamespace, terminal);
    BeginKeeps(pidNamespace, terminal);
    assert Deaths(st0, false, false);
    hide Keeps, Begin, Play, Execute, SeenAll, ExecScript, ExecParentOps, ExecChildOps, ParentProgram, ChildProgram, Sound, Deaths;
    DeathsRun(terminal, st0, false, false, steps, capacity);
    ExecRefinesPair(pidNamespace, terminal, steps, capacity);
    ExecSides(terminal);
    ExecScriptIsSound(terminal);
    var st := Play(st0, steps, capacity).value;
    DeathsAtEnd(terminal, st, WorkerDies in steps, ChildCrashes in SeenAll(st0, steps, capacity));
    AcceptedIsExecedIff(ExecScript(terminal), [], SeenAll(st0, steps, capacity), capacity);
  }

  lemma {:induction false} ParentPlaysOn(st: ExecState, op: ParentOp, todo: seq<ParentOp>, more: seq<ExecStep>)
    requires !st.failed && st.helper == Absent && st.parentTodo == [op] + todo
    ensures op.Do? ==>
              Play(st, [ParentMoves] + more, 1) == Play(st.(parentTodo := todo, trace := st.trace + [op.act]), more, 1)
    ensures op.Wait? && st.up == [Control(op.body)] ==>
              Play(st, [ParentMoves] + more, 1) == Play(st.(parentTodo := todo, up := []), more, 1)
    ensures op.Tell? && st.workerAlive && st.down == [] ==>
              Play(st, [ParentMoves] + more, 1) == Play(st.(parentTodo := todo, down := [op.body]), more, 1)
    ensures op.AwaitClose? && !st.workerAlive && st.up == [] && !st.sawFatal ==>
              Play(st, [ParentMoves] + more, 1) == Play(st.(parentTodo := todo), more, 1)
  {
    assert ([ParentMoves] + more)[1..] == more && st.parentTodo[1..] == todo;
    assert op.Wait? && st.up == [Control(op.body)] ==> st.up[1..] == [];
    assert op.Tell? ==> [] + [op.body] == [op.body];
  }

  lemma {:induction false} WorkerPlaysOn(st: ExecState, op: ChildOp, todo: seq<ChildOp>, more: seq<ExecStep>)
    requires !st.failed && st.workerAlive && st.workerTodo == [op] + todo
    ensures op.Send? && st.up == [] ==>
              Play(st, [WorkerMoves] + more, 1) == Play(st.(workerTodo := todo, up := [Control(op.body)]), more, 1)
    ensures op.Expect? && st.down == [op.body] ==>
              Play(st, [WorkerMoves] + more, 1) == Play(st.(workerTodo := todo, down := []), more, 1)
    ensures op.Perform? && op.act != Exec ==>
              Play(st, [WorkerMoves] + more, 1) == Play(st.(workerTodo := todo, trace := st.trace + [op.act]), more, 1)
    ensures Play(st, [WorkerDies] + more, 1) == Play(st.(workerAlive := false), more, 1)
  {
    assert ([WorkerMoves] + more)[1..] == more && st.workerTodo[1..] == todo;
    assert ([WorkerDies] + more)[1..] == more;
    assert op.Expect? && st.down == [op.body] ==> st.down[1..] == [];
    assert op.Send? ==> [] + [Control(op.body)] == [Control(op.body)];
  }

  function Ending(): seq<ParentOp> {
    [Wait(StageMsg(ExecReady))] + ([AwaitClose] + [])
  }

  function Working(): seq<ChildOp> {
    [Expect(Proceed)] + ([Perform(PrepareWorkload)] + ([Send(StageMsg(ExecReady))] + [Perform(Exec)]))
  }

  lemma {:induction false} ProgramsWithoutTerminal()
    ensures Begin(false, false)
         == ExecState([Wait(PidReport)] + ([Do(HoldPid)] + ([Tell(Proceed)] + Ending())), Absent, [Send(PidReport)] + Working(),
                      true, [], [], false, false, [])
  {
  }

  function Introduced(more: seq<ExecStep>): seq<ExecStep> {
    [WorkerMoves] + ([ParentMoves] + ([ParentMoves] + ([ParentMoves] + more)))
  }

  function GotReady(more: seq<ExecStep>): seq<ExecStep> {
    [WorkerMoves] + ([WorkerMoves] + ([WorkerMoves] + more))
  }

  function Died(): seq<ExecStep> {
    [WorkerDies] + ([ParentMoves] + ([ParentMoves] + []))
  }

  /** The parent has taken the pid and let the workload go on. */
  function AfterIntroduced(): ExecState {
    ExecState(Ending(), Absent, Working(), true, [], [Proceed], false, false, [HoldPid])
  }

  lemma {:induction false} IntroducedPlays(more: seq<ExecStep>)
    ensures Play(Begin(false, false), Introduced(more), 1) == Play(AfterIntroduced(), more, 1)
  {
    hide Play, Begin, Ending, Working;
    ProgramsWithoutTerminal();
    var s0 := Begin(false, false);
    var p2 := [Tell(Proceed)] + Ending();
    var p1 := [Do(HoldPid)] + p2;
    var m3 := [ParentMoves] + more;
    var m2 := [ParentMoves] + m3;
    WorkerPlaysOn(s0, Send(PidReport), Working(), [ParentMoves] + m2);
    var s1 := s0.(workerTodo := Working(), up := [Control(PidReport)]);
    ParentPlaysOn(s1, Wait(PidReport), p1, m2);
    var s2 := s1.(parentTodo := p1, up := []);
    ParentPlaysOn(s2, Do(HoldPid), p2, m3);
    assert [] + [HoldPid] == [HoldPid];
    ParentPlaysOn(s2.(parentTodo := p2, trace := [HoldPid]), Tell(Proceed), Ending(), more);
  }

  /** The workload has reported exec_ready and has only its exec left. */
  function AfterGotReady(): ExecState {
    ExecState(Ending(), Absent, [Perform(Exec)], true, [Control(StageMsg(ExecReady))], [], false, false, [HoldPid] + [PrepareWorkload])
  }

  lemma {:induction false} GotReadyPlays(more: seq<ExecStep>)
    ensures Play(AfterIntroduced(), GotReady(more), 1) == Play(AfterGotReady(), more, 1)
  {
    hide Play, Ending;
    var s0 := AfterIntroduced();
    var c2 := [Send(StageMsg(ExecReady))] + [Perform(Exec)];
    var c1 := [Perform(PrepareWorkload)] + c2;
    var m3 := [WorkerMoves] + more;
    WorkerPlaysOn(s0, Expect(Proceed), c1, [WorkerMoves] + m3);
    var s1 := s0.(workerTodo := c1, down := []);
    WorkerPlaysOn(s1, Perform(PrepareWorkload), c2, m3);
    WorkerPlaysOn(s1.(workerTodo := c2, trace := [HoldPid] + [PrepareWorkload]), Send(StageMsg(ExecReady)), [Perform(Exec)], more);
  }

  lemma {:induction false} DiedPlays() returns (end: ExecState)
    ensures Play(AfterGotReady(), Died(), 1) == Some(end)
    ensures end.parentTodo == [] && !end.failed && Exec !in end.trace
  {
    hide Play;
    var s0 := AfterGotReady();
    var p1 := [AwaitClose] + [];
    end := s0.(parentTodo := [], workerAlive := false, up := []);
    NoPlay(end);
    assert s0.workerTodo == [Perform(Exec)] + [];
    WorkerPlaysOn(s0, Perform(Exec), [], [ParentMoves] + ([ParentMoves] + []));
    var s1 := s0.(workerAlive := false);
    ParentPlaysOn(s1, Wait(StageMsg(ExecReady)), p1, [ParentMoves] + []);
    ParentPlaysOn(s1.(parentTodo := p1, up := []), AwaitClose, [], []);
  }

  lemma {:induction false} NoPlay(st: ExecState)
    ensures Play(st, [], 1) == Some(st)
  {
  }

  /** A workload killed between exec_ready and its exec: the parent is done, and no exec has happened. */
  lemma {:induction false} DoneWithoutExec()
    ensures var end := Play(Begin(false, false), Introduced(GotReady(Died())), 1);
            end.Some? && end.value.parentTodo == [] && !end.value.failed && Exec !in end.value.trace
  {
    hide Play, Begin, Introduced, GotReady, Died, AfterIntroduced, AfterGotReady;
    IntroducedPlays(GotReady(Died()));
    GotReadyPlays(Died());
    var end := DiedPlays();
  }

  // ---- runs end ----

  function Work(st: ExecState): nat {
    3 * (|st.parentTodo| + |st.workerTodo|) + |st.up| + (if st.failed then 0 else 1) + (if st.workerAlive then 1 else 0)
    + (match st.helper case Joining => 5 case Forked => 3 case _ => 0)
  }

  function LogSteps(steps: seq<ExecStep>): nat {
    if steps == [] then 0 else (if steps[0].Logs? then 1 else 0) + LogSteps(steps[1..])
  }

  lemma {:induction false} StepUsesUp(st: ExecState, step: ExecStep, capacity: nat)
    requires CanStep(st, step, capacity) && (st.helper == Joining ==> !st.workerAlive)
    ensures !step.Logs? ==> Work(Next(st, step, capacity)) < Work(st)
    ensures step.Logs? ==> Work(Next(st, step, capacity)) == Work(st) + 1
  {
  }

  /** However the three are scheduled, a run takes no more steps than the programs and the logs allow. */
  lemma {:induction false} ExecRunsEnd(terminal: bool, st: ExecState, steps: seq<ExecStep>, capacity: nat)
    requires Keeps(terminal, st) && Play(st, steps, capacity).Some?
    ensures |steps| <= Work(st) + 2 * LogSteps(steps)
    decreases |steps|
  {
    if steps != [] {
      assert Keeps(terminal, st);
      hide CanStep, Next, Work;
      KeepsOn(terminal, st, steps[0], capacity);
      StepUsesUp(st, steps[0], capacity);
      ExecRunsEnd(terminal, Next(st, steps[0], capacity), steps[1..], capacity);
    }
  }

  // ---- runs in which nothing fails ----

  predicate Kindly(step: ExecStep) {
    step == ParentMoves || step == HelperForks || step == HelperReports || step == WorkerMoves || (step.Logs? && !step.fatal)
  }

  ghost predicate Healthy(st: ExecState) {
    Clean(View(st)) && (st.helper == Forked ==> st.workerAlive) && st.helper != Gone(false)
  }

  lemma {:induction false} KindlyKeeps(terminal: bool, st: ExecState, step: ExecStep, capacity: nat)
    requires Keeps(terminal, st) && Healthy(st) && Invariant(ExecScript(terminal), [], View(st)) && Separated(ExecScript(terminal))
    requires Kindly(step) && CanStep(st, step, capacity)
    ensures Healthy(Next(st, step, capacity)) && Invariant(ExecScript(terminal), [], View(Next(st, step, capacity)))
  {
    StepIsSeen(terminal, st, step, capacity);
    NoStep(View(st), capacity);
    var turn := KindlyTurn(step);
    assert Seen(st, step) == [] || (Seen(st, step) == [turn] && Benign(turn));
    if Seen(st, step) == [] {
      hide Invariant, Clean, Separated;
    } else {
      PairKindlyKeeps(ExecScript(terminal), View(st), turn, capacity);
      hide Invariant, Clean, Separated, ExecScript;
      KindlyHelper(terminal, st, step, capacity);
    }
  }

  function KindlyTurn(step: ExecStep): Step
    requires Kindly(step)
  {
    match step
    case ParentMoves => ParentTurn
    case Logs(fatal, errno) => ChildLogs(fatal, errno)
    case _ => ChildTurn
  }

  /** The pair's step that a step is seen as keeps the pair's invariants. */
  lemma {:induction false} PairKindlyKeeps(s: seq<Item>, v: State, step: Step, capacity: nat)
    requires Separated(s) && Invariant(s, [], v) && Clean(v) && Benign(step) && Execute(v, [step], capacity).Some?
    ensures Invariant(s, [], Execute(v, [step], capacity).value) && Clean(Execute(v, [step], capacity).value)
  {
    hide Invariant, Clean, Separated, Benign, Enabled, Apply;
    assert [step][1..] == [];
    CleanStep(s, [], v, step, capacity);
    StepKeeps(s, [], v, step, capacity);
  }

  /** No kindly step takes the workload away before the report, or the intermediate child. */
  lemma {:induction false} KindlyHelper(terminal: bool, st: ExecState, step: ExecStep, capacity: nat)
    requires Keeps(terminal, st) && !st.failed && (st.helper == Forked ==> st.workerAlive) && st.helper != Gone(false)
    requires Kindly(step) && CanStep(st, step, capacity)
    ensures var next := Next(st, step, capacity); (next.helper == Forked ==> next.workerAlive) && next.helper != Gone(false)
  {
  }

  lemma {:induction false} KindlyRun(terminal: bool, st: ExecState, steps: seq<ExecStep>, capacity: nat)
    requires Keeps(terminal, st) && Healthy(st) && Invariant(ExecScript(terminal), [], View(st)) && Separated(ExecScript(terminal))
    requires (forall k :: 0 <= k < |steps| ==> Kindly(steps[k])) && Play(st, steps, capacity).Some?
    ensures var end := Play(st, steps, capacity).value;
            Keeps(terminal, end) && Healthy(end) && Invariant(ExecScript(terminal), [], View(end))
    decreases |steps|
  {
    hide Keeps, Healthy, Invariant, ExecScript, Separated, CanStep, Next, Kindly, View;
    if steps != [] {
      assert Kindly(steps[0]);
      KindlyKeeps(terminal, st, steps[0], capacity);
      KeepsOn(terminal, st, steps[0], capacity);
      KindlyRun(terminal, Next(st, steps[0], capacity), steps[1..], capacity);
    }
  }

  lemma {:induction false} BeginIsHealthy(pidNamespace: bool, terminal: bool)
    ensures var st := Begin(pidNamespace, terminal);
            Keeps(terminal, st) && Healthy(st) && Invariant(ExecScript(terminal), [], View(st))
  {
    BeginKeeps(pidNamespace, terminal);
    ExecSides(terminal);
    BeginsAt(ExecScript(terminal), []);
    hide At, ExecParentOps, ExecChildOps, ExecScript, ParentProgram, ChildProgram;
    assert At(ExecScript(terminal), [], View(Begin(pidNamespace, terminal)), 0, 0);
  }

  /** Without failures every run that can go no further has executed the command, and the parent knows. */
  lemma {:induction false} CleanExecCompletes(pidNamespace: bool, terminal: bool, steps: seq<ExecStep>, capacity: nat)
    requires capacity >= 1 && Play(Begin(pidNamespace, terminal), steps, capacity).Some?
    requires forall k :: 0 <= k < |steps| ==> Kindly(steps[k])
    requires !Progresses(Play(Begin(pidNamespace, terminal), steps, capacity).value, capacity)
    ensures var st := Play(Begin(pidNamespace, terminal), steps, capacity).value;
            st.parentTodo == [] && !st.failed && HoldPid in st.trace && Exec in st.trace
  {
    var st := Play(Begin(pidNamespace, terminal), steps, capacity).value;
    var s := ExecScript(terminal);
    assert InScript(s, HoldPid) by {
      assert ActOf(s[1]) == Some(HoldPid);
    }
    BeginIsHealthy(pidNamespace, terminal);
    ExecScriptIsSound(terminal);
    SoundIsSeparated(s);
    hide Invariant, Separated, ExecScript, Play, Begin, Keeps, InScript, Sound, Kindly, Progresses;
    KindlyRun(terminal, Begin(pidNamespace, terminal), steps, capacity);
    if st.parentTodo != [] {
      BlockedIffStranded(pidNamespace, terminal, steps, capacity);
    }
    assert st.parentTodo == [];
    StartedMeansDone(s, [], View(st));
    ExecAndPoststart(s, [], View(st));
  }
}
