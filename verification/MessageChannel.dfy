/**
 The receiving ends of the start protocol. Datagrams arrive whole and in order; the parent's receive
 loops hand log records on and stop at the first datagram that is something else.
 */
module MessageChannel {
  import opened Results
  import opened Bytes
  import opened Wire
  import opened Choreography
  import opened Interleaving

  datatype Arrival = Datagram(bytes: seq<byte>) | Broken(errno: int)

  datatype ChannelError =
    | Exited | Unexpected(packet: Packet) | ExecFailed(errno: int) | Malformed(why: WireError) | System(errno: int)

  const ENOTCONN := 107
  const ECONNRESET := 104
  const EPIPE := 32

  // ---- one receive ----

  /** What recv makes of the next arrival; nothing more to come is the peer's end closed. */
  function Received(inbox: seq<Arrival>, located: bool): Result<Option<Packet>, ChannelError> {
    if inbox == [] then Success(None)
    else
      match inbox[0]
      case Broken(e) => if e == ECONNRESET || e == ENOTCONN || e == EPIPE then Success(None) else Failure(System(e))
      case Datagram(bytes) =>
        if bytes == [] then Success(None)
        else
          match Decode(bytes, located)
          case Success(p) => Success(Some(p))
          case Failure(why) => Failure(Malformed(why))
  }

  /** A connection that is reset, a socket that is not connected and a broken pipe count as a close; no other error does. */
  lemma {:induction false} BrokenIsClose(e: int, rest: seq<Arrival>, located: bool)
    ensures Received([Broken(e)] + rest, located) == if e in {104, 107, 32} then Success(None) else Failure(System(e))
  {
  }

  predicate IsLog(r: Result<Option<Packet>, ChannelError>) {
    r.Success? && r.value.Some? && r.value.value.LogPacket?
  }

  /** The log records up to the first arrival that is not one. */
  function LeadingLogs(inbox: seq<Arrival>, located: bool): (logs: seq<LogRecord>)
    ensures |logs| <= |inbox|
  {
    if inbox != [] && IsLog(Received(inbox, located))
    then [Received(inbox, located).value.value.record] + LeadingLogs(inbox[1..], located)
    else []
  }

  lemma {:induction false} LeadingLogsAreAll(inbox: seq<Arrival>, located: bool)
    ensures var logs := LeadingLogs(inbox, located);
            && (forall k :: 0 <= k < |logs| ==> Received(inbox[k..], located) == Success(Some(LogPacket(logs[k]))))
            && !IsLog(Received(inbox[|logs|..], located))
  {
    hide Received;
    NothingIsReceived(located);
    assert inbox[0..] == inbox;
    if inbox != [] && IsLog(Received(inbox, located)) {
      LeadingLogsAreAll(inbox[1..], located);
      var logs := LeadingLogs(inbox, located);
      assert inbox[|logs|..] == inbox[1..][|logs| - 1..];
      forall k | 0 <= k < |logs| ensures Received(inbox[k..], located) == Success(Some(LogPacket(logs[k]))) {
        if k > 0 {
          assert inbox[k..] == inbox[1..][k - 1..];
        }
      }
    }
  }

  lemma {:induction false} NextLog(inbox: seq<Arrival>, located: bool)
    ensures LeadingLogs(inbox, located)
         == if inbox != [] && IsLog(Received(inbox, located))
            then [Received(inbox, located).value.value.record] + LeadingLogs(inbox[1..], located)
            else []
  {
  }

  /** The inbox is what was there less one arrival for each log record read. */
  ghost predicate Past(was: seq<Arrival>, inbox: seq<Arrival>, read: seq<LogRecord>, located: bool) {
    && |read| <= |was| && inbox == was[|read|..]
    && LeadingLogs(was, located) == read + LeadingLogs(inbox, located)
  }

  lemma {:induction false} PastNothing(inbox: seq<Arrival>, located: bool)
    ensures Past(inbox, inbox, [], located)
  {
  }

  lemma {:induction false} PastOneMore(was: seq<Arrival>, inbox: seq<Arrival>, read: seq<LogRecord>, located: bool)
    requires Past(was, inbox, read, located) && inbox != [] && IsLog(Received(inbox, located))
    ensures Past(was, inbox[1..], read + [Received(inbox, located).value.value.record], located)
  {
    NextLog(inbox, located);
    hide LeadingLogs, Received;
  }

  lemma {:induction false} PastAll(was: seq<Arrival>, inbox: seq<Arrival>, read: seq<LogRecord>, located: bool)
    requires Past(was, inbox, read, located) && !IsLog(Received(inbox, located))
    ensures LeadingLogs(was, located) == read && was[|read|..] == inbox
  {
  }

  /** The errno of the last fatal record, if there is a fatal one. */
  function LastFatal(logs: seq<LogRecord>): Option<int> {
    if logs == [] then None
    else if logs[|logs| - 1].level == Fatal then Some(logs[|logs| - 1].errno)
    else LastFatal(logs[..|logs| - 1])
  }

  predicate LastFatalAt(logs: seq<LogRecord>, k: int) {
    0 <= k < |logs| && logs[k].level == Fatal && forall m :: k < m < |logs| ==> logs[m].level != Fatal
  }

  lemma {:induction false} LastFatalIff(logs: seq<LogRecord>) returns (k: int)
    ensures LastFatal(logs) == None ==> forall m :: 0 <= m < |logs| ==> logs[m].level != Fatal
    ensures LastFatal(logs).Some? ==> LastFatalAt(logs, k) && LastFatal(logs) == Some(logs[k].errno)
  {
    k := |logs| - 1;
    if logs != [] && logs[k].level != Fatal {
      var front := logs[..k];
      k := LastFatalIff(front);
      assert forall m :: 0 <= m < |front| ==> front[m] == logs[m];
    }
  }

  lemma {:induction false} OneMoreFatal(logs: seq<LogRecord>, l: LogRecord)
    ensures LastFatal(logs + [l]) == if l.level == Fatal then Some(l.errno) else LastFatal(logs)
  {
  }

  // ---- the receiver ----

  /** A channel end: what will have arrived on it until the peer closes, and the records handed on. */
  class Channel {
    const located: bool
    var inbox: seq<Arrival>
    var dispatched: seq<LogRecord>

    constructor (inbox: seq<Arrival>, located: bool)
      ensures this.inbox == inbox && this.located == located && dispatched == []
    {
      this.inbox := inbox;
      this.located := located;
      dispatched := [];
    }

    /** An empty datagram and a broken connection stay where they are. */
    method Recv() returns (r: Result<Option<Packet>, ChannelError>)
      modifies this`inbox
      ensures r == Received(old(inbox), located)
      ensures inbox == if old(inbox) != [] && old(inbox)[0].Datagram? && old(inbox)[0].bytes != []
                       then old(inbox)[1..] else old(inbox)
      ensures r.Success? && r.value.Some? ==> old(inbox) != [] && inbox == old(inbox)[1..]
      ensures r == Success(None) ==> inbox == old(inbox)
    {
      if inbox == [] {
        return Success(None);
      }
      match inbox[0] {
        case Broken(e) =>
          return if e == ECONNRESET || e == ENOTCONN || e == EPIPE then Success(None) else Failure(System(e));
        case Datagram(bytes) =>
          if bytes == [] {
            return Success(None);
          }
          inbox := inbox[1..];
          var p := Deserialize(bytes, located);
          match p {
            case Success(m) => return Success(Some(m));
            case Failure(why) => return Failure(Malformed(why));
          }
      }
    }

    /** drain_logs: the first packet that is no log record. */
    method DrainLogs() returns (r: Result<Packet, ChannelError>)
      modifies this
      ensures var logs := LeadingLogs(old(inbox), located);
              var rest := old(inbox)[|logs|..];
              && dispatched == old(dispatched) + logs
              && match Received(rest, located)
                 case Failure(e) => r == Failure(e)
                 case Success(None) => r == Failure(Exited) && inbox == rest
                 case Success(Some(p)) => !p.LogPacket? && r == Success(p) && rest != [] && inbox == rest[1..]
    {
      ghost var read := [];
      PastNothing(inbox, located);
      hide LeadingLogs, Received, Past;
      while true
        invariant Past(old(inbox), inbox, read, located) && dispatched == old(dispatched) + read
        decreases |inbox|
      {
        ghost var was := inbox;
        var got := Recv();
        if !IsLog(got) {
          PastAll(old(inbox), was, read, located);
        }
        var inc :- got;
        if inc == None {
          return Failure(Exited);
        }
        if !inc.value.LogPacket? {
          return Success(inc.value);
        }
        PastOneMore(old(inbox), was, read, located);
        read := read + [inc.value.record];
        dispatched := dispatched + [inc.value.record];
      }
    }

    /** wait_for_stage: any packet but the expected stage, after the log records, is an error. */
    method WaitForStage(expected: Stage) returns (r: Result<(), ChannelError>)
      modifies this
      ensures var logs := LeadingLogs(old(inbox), located);
              var rest := old(inbox)[|logs|..];
              && dispatched == old(dispatched) + logs
              && match Received(rest, located)
                 case Failure(e) => r == Failure(e)
                 case Success(None) => r == Failure(Exited) && inbox == rest
                 case Success(Some(p)) =>
                   && rest != [] && inbox == rest[1..]
                   && r == if p == StagePacket(expected) then Success(()) else Failure(Unexpected(p))
    {
      ghost var read := [];
      PastNothing(inbox, located);
      hide LeadingLogs, Received, Past;
      while true
        invariant Past(old(inbox), inbox, read, located) && dispatched == old(dispatched) + read
        decreases |inbox|
      {
        ghost var was := inbox;
        var got := Recv();
        if !IsLog(got) {
          PastAll(old(inbox), was, read, located);
        }
        var inc :- got;
        if inc == None {
          return Failure(Exited);
        }
        match inc.value {
          case LogPacket(l) =>
            PastOneMore(old(inbox), was, read, located);
            read := read + [l];
            dispatched := dispatched + [l];
          case StagePacket(s) =>
            return if s == expected then Success(()) else Failure(Unexpected(inc.value));
          case _ =>
            return Failure(Unexpected(inc.value));
        }
      }
    }

    /** wait_for_close: only log records may still come, and none of them may be fatal. */
    method WaitForClose() returns (r: Result<(), ChannelError>)
      modifies this
      ensures var logs := LeadingLogs(old(inbox), located);
              var rest := old(inbox)[|logs|..];
              && dispatched == old(dispatched) + logs
              && match Received(rest, located)
                 case Failure(e) => r == Failure(e)
                 case Success(Some(p)) => r == Failure(Unexpected(p))
                 case Success(None) =>
                   r == match LastFatal(logs) case None => Success(()) case Some(errno) => Failure(ExecFailed(errno))
    {
      ghost var read := [];
      PastNothing(inbox, located);
      hide LeadingLogs, Received, Past;
      assert LastFatal([]) == None;
      hide LastFatal;
      var sawLog, savedErrno := false, 0;
      while true
        invariant Past(old(inbox), inbox, read, located) && dispatched == old(dispatched) + read
        invariant LastFatal(read) == if sawLog then Some(savedErrno) else None
        decreases |inbox|
      {
        ghost var was := inbox;
        var got := Recv();
        if !IsLog(got) {
          PastAll(old(inbox), was, read, located);
        }
        var inc :- got;
        if inc == None {
          return if sawLog then Failure(ExecFailed(savedErrno)) else Success(());
        }
        match inc.value {
          case LogPacket(l) =>
            PastOneMore(old(inbox), was, read, located);
            OneMoreFatal(read, l);
            read := read + [l];
            if l.level == Fatal {
              sawLog, savedErrno := true, l.errno;
            }
            dispatched := dispatched + [l];
          case _ =>
            return Failure(Unexpected(inc.value));
        }
      }
    }

    /** expect_stage, on the child's end: the very next packet. */
    method ExpectStage(expected: Stage) returns (r: Result<(), ChannelError>)
      modifies this`inbox
      ensures match Received(old(inbox), located)
              case Failure(e) => r == Failure(e)
              case Success(None) => r == Failure(Exited)
              case Success(Some(p)) => r == if p == StagePacket(expected) then Success(()) else Failure(Unexpected(p))
      ensures r.Success? ==> old(inbox) != [] && inbox == old(inbox)[1..]
    {
      var inc :- Recv();
      if inc == None {
        return Failure(Exited);
      }
      return if inc.value.StagePacket? && inc.value.stage == expected then Success(()) else Failure(Unexpected(inc.value));
    }

    method ExpectProceed() returns (r: Result<(), ChannelError>)
      modifies this`inbox
      ensures match Received(old(inbox), located)
              case Failure(e) => r == Failure(e)
              case Success(None) => r == Failure(Exited)
              case Success(Some(p)) => r == if p == ProceedPacket then Success(()) else Failure(Unexpected(p))
      ensures r.Success? ==> old(inbox) != [] && inbox == old(inbox)[1..]
    {
      var inc :- Recv();
      if inc == None {
        return Failure(Exited);
      }
      return if inc.value == ProceedPacket then Success(()) else Failure(Unexpected(inc.value));
    }
  }

  // ---- the loops are the parent's turns ----

  function MessageOf(p: Packet): Message {
    match p
    case LogPacket(l) => Log(l.level == Fatal, l.errno)
    case StagePacket(s) => Control(StageMsg(s))
    case PidPacket(_) => Control(PidReport)
    case ConsolePacket => Control(ConsoleFd)
    case ProceedPacket => Control(Proceed)
  }

  /** An inbox that holds exactly what a sender that serializes its messages has sent. */
  function Sent(packets: seq<Packet>, located: bool): seq<Arrival>
    requires forall k :: 0 <= k < |packets| ==> Fits(packets[k], located)
  {
    seq(|packets|, k requires 0 <= k < |packets| => Datagram(Encoding(packets[k], located)))
  }

  function Messages(packets: seq<Packet>): seq<Message> {
    if packets == [] then [] else [MessageOf(packets[0])] + Messages(packets[1..])
  }

  function LogsOf(packets: seq<Packet>): (logs: seq<LogRecord>)
    ensures |logs| <= |packets|
  {
    if packets != [] && packets[0].LogPacket? then [packets[0].record] + LogsOf(packets[1..]) else []
  }

  /** What is sent is what is received. */
  lemma {:induction false} SentIsReceived(packets: seq<Packet>, located: bool)
    requires forall k :: 0 <= k < |packets| ==> Fits(packets[k], located)
    ensures Received(Sent(packets, located), located) == Success(if packets == [] then None else Some(packets[0]))
  {
    hide Received, Encoding, Fits;
    if packets != [] {
      OneIsReceived(Sent(packets, located), packets[0], located);
    } else {
      NothingIsReceived(located);
      assert Sent(packets, located) == [];
    }
  }

  lemma {:induction false} NothingIsReceived(located: bool)
    ensures Received([], located) == Success(None)
  {
  }

  lemma {:induction false} SentTail(packets: seq<Packet>, located: bool)
    requires packets != [] && forall k :: 0 <= k < |packets| ==> Fits(packets[k], located)
    ensures Sent(packets, located)[1..] == Sent(packets[1..], located)
  {
  }

  lemma {:induction false} OneIsReceived(inbox: seq<Arrival>, p: Packet, located: bool)
    requires Fits(p, located) && inbox != [] && inbox[0] == Datagram(Encoding(p, located))
    ensures Received(inbox, located) == Success(Some(p))
  {
    hide Decode, Fits;
    DecodeIff(Encoding(p, located), located, p);
    hide Encoding;
  }

  lemma {:induction false} SentLogs(packets: seq<Packet>, located: bool)
    requires forall k :: 0 <= k < |packets| ==> Fits(packets[k], located)
    ensures LeadingLogs(Sent(packets, located), located) == LogsOf(packets)
    ensures Sent(packets, located)[|LogsOf(packets)|..] == Sent(packets[|LogsOf(packets)|..], located)
  {
    hide Received, Encoding, Fits;
    SentIsReceived(packets, located);
    if packets != [] && packets[0].LogPacket? {
      SentTail(packets, located);
      SentLogs(packets[1..], located);
    }
  }

  function Turns(n: nat): seq<Step> {
    if n == 0 then [] else [ParentTurn] + Turns(n - 1)
  }

  lemma {:induction false} TurnsUnfold(st: State, n: nat, capacity: nat)
    requires Enabled(st, ParentTurn, capacity)
    ensures Execute(st, Turns(n + 1), capacity) == Execute(ParentStep(st), Turns(n), capacity)
    ensures Execute(st, Turns(1), capacity) == Some(ParentStep(st))
  {
  }

  /** Where the parent is when it has waited for a packet that is no log record. */
  function Waited(st: State, packets: seq<Packet>): State
    requires ParentRuns(st) && st.parentTodo[0].Wait?
  {
    var rest := packets[|LogsOf(packets)|..];
    if rest == [] then GiveUp(st.(up := []))
    else if MessageOf(rest[0]) == Control(st.parentTodo[0].body)
    then st.(up := Messages(rest[1..]), parentTodo := st.parentTodo[1..])
    else GiveUp(st.(up := Messages(rest)))
  }

  /** Waiting for a packet is as many turns of the parent as there are log records, and one more. */
  lemma {:induction false} WaitingIsTurns(st: State, packets: seq<Packet>, capacity: nat)
    requires ParentRuns(st) && st.parentTodo[0].Wait? && st.up == Messages(packets)
    requires packets[|LogsOf(packets)|..] == [] ==> !st.alive
    ensures Execute(st, Turns(|LogsOf(packets)| + 1), capacity) == Some(Waited(st, packets))
    decreases packets
  {
    var n := |LogsOf(packets)|;
    TurnsUnfold(st, n, capacity);
    hide Execute;
    if n > 0 {
      assert st.up == [MessageOf(packets[0])] + Messages(packets[1..]);
      assert packets[n..] == packets[1..][n - 1..];
      var st' := ParentStep(st);
      assert st' == st.(up := Messages(packets[1..]));
      WaitingIsTurns(st', packets[1..], capacity);
      assert Waited(st', packets[1..]) == Waited(st, packets);
      hide Waited;
    } else {
      WaitingIsOver(st, packets);
    }
  }

  lemma {:induction false} WaitingIsOver(st: State, packets: seq<Packet>)
    requires ParentRuns(st) && st.parentTodo[0].Wait? && st.up == Messages(packets) && LogsOf(packets) == []
    ensures ParentStep(st) == Waited(st, packets)
  {
  }

  /** wait_for_stage throws exactly when the parent of the pair, waiting for that stage, gives up. */
  lemma {:induction false} StageWaitAgrees(st: State, packets: seq<Packet>, located: bool, expected: Stage)
    requires forall k :: 0 <= k < |packets| ==> Fits(packets[k], located)
    requires ParentRuns(st) && st.parentTodo[0] == Wait(StageMsg(expected))
    ensures var inbox := Sent(packets, located);
            var rest := inbox[|LeadingLogs(inbox, located)|..];
            Received(rest, located) == Success(Some(StagePacket(expected))) <==> !Waited(st, packets).failed
  {
    hide Received, Encoding, Fits, LeadingLogs;
    SentLogs(packets, located);
    SentIsReceived(packets[|LogsOf(packets)|..], located);
  }

  /** The same for what drain_logs is used for, the pid report and the console. */
  lemma {:induction false} DrainAgrees(st: State, packets: seq<Packet>, located: bool, body: Body)
    requires forall k :: 0 <= k < |packets| ==> Fits(packets[k], located)
    requires ParentRuns(st) && st.parentTodo[0] == Wait(body) && (body == PidReport || body == ConsoleFd)
    ensures var inbox := Sent(packets, located);
            var got := Received(inbox[|LeadingLogs(inbox, located)|..], located);
            (got.Success? && got.value.Some? && if body == PidReport then got.value.value.PidPacket? else got.value.value.ConsolePacket?)
            <==> !Waited(st, packets).failed
  {
    hide Received, Encoding, Fits, LeadingLogs;
    SentLogs(packets, located);
    SentIsReceived(packets[|LogsOf(packets)|..], located);
  }

  /** expect_stage and expect_proceed go on exactly when the child of the pair does. */
  lemma {:induction false} ExpectAgrees(st: State, p: Packet, located: bool, expected: Packet)
    requires Fits(p, located) && (expected.StagePacket? || expected.ProceedPacket?) && MessageOf(p).Control?
    requires st.alive && st.down == [MessageOf(p).body] && st.childTodo != [] && st.childTodo[0] == Expect(MessageOf(expected).body)
    ensures MessageOf(expected) == if expected.ProceedPacket? then Control(Proceed) else Control(StageMsg(expected.stage))
    ensures ChildStep(st).alive && |ChildStep(st).childTodo| < |st.childTodo|
            <==> Received([Datagram(Encoding(p, located))], located) == Success(Some(expected))
  {
    hide Encoding, Fits;
    OneIsReceived([Datagram(Encoding(p, located))], p, located);
    hide Received;
  }

  /** Where the parent is when it has waited for the close. */
  function Closed(st: State, packets: seq<Packet>): State
    requires ParentRuns(st) && st.parentTodo[0].AwaitClose?
  {
    var logs := LogsOf(packets);
    var rest := packets[|logs|..];
    var fatal := st.sawFatal || LastFatal(logs).Some?;
    if rest != [] then GiveUp(st.(up := Messages(rest), sawFatal := fatal))
    else if fatal then GiveUp(st.(up := [], sawFatal := true))
    else st.(up := [], parentTodo := st.parentTodo[1..])
  }

  lemma {:induction false} FirstFatal(logs: seq<LogRecord>)
    requires logs != []
    ensures LastFatal(logs).Some? <==> logs[0].level == Fatal || LastFatal(logs[1..]).Some?
  {
    var last := |logs| - 1;
    if last > 0 && logs[last].level != Fatal {
      assert logs[1..][..last - 1] == logs[..last][1..];
      FirstFatal(logs[..last]);
    }
  }

  lemma {:induction false} ClosingIsTurns(st: State, packets: seq<Packet>, capacity: nat)
    requires ParentRuns(st) && st.parentTodo[0].AwaitClose? && st.up == Messages(packets)
    requires packets[|LogsOf(packets)|..] == [] ==> !st.alive
    ensures Execute(st, Turns(|LogsOf(packets)| + 1), capacity) == Some(Closed(st, packets))
    decreases packets
  {
    var n := |LogsOf(packets)|;
    TurnsUnfold(st, n, capacity);
    hide Execute;
    if packets != [] {
      assert st.up[1..] == Messages(packets[1..]);
    }
    if packets != [] && packets[0].LogPacket? {
      assert packets[n..] == packets[1..][n - 1..];
      FirstFatal(LogsOf(packets));
      var st' := ParentStep(st);
      ClosingIsTurns(st', packets[1..], capacity);
      assert Closed(st', packets[1..]) == Closed(st, packets);
      hide Closed, LastFatal;
    } else {
      assert packets[0..] == packets;
    }
  }

  /** wait_for_close throws exactly when the parent of the pair, waiting for the close, gives up. */
  lemma {:induction false} CloseWaitAgrees(st: State, packets: seq<Packet>, located: bool)
    requires forall k :: 0 <= k < |packets| ==> Fits(packets[k], located)
    requires ParentRuns(st) && st.parentTodo[0].AwaitClose? && !st.sawFatal
    ensures var inbox := Sent(packets, located);
            var logs := LeadingLogs(inbox, located);
            Received(inbox[|logs|..], located) == Success(None) && LastFatal(logs) == None <==> !Closed(st, packets).failed
  {
    hide Received, Encoding, Fits, LeadingLogs;
    SentLogs(packets, located);
    SentIsReceived(packets[|LogsOf(packets)|..], located);
  }
}
