/**
 The messages of the start protocol as bytes. A message decodes from exactly the byte strings that begin
 with its encoding; log records carry their source location when the build enables it.
 */
module Wire {
  import opened Results
  import opened Bytes
  import opened Choreography

  datatype Level = Fatal | Error | Warn | Info | Debug

  datatype Place = Place(file: seq<byte>, line: int, func: seq<byte>)

  datatype LogRecord = LogRecord(
    level: Level,
    text: seq<byte>,
    place: Option<Place>,
    errno: int,
    pid: int,
    time: int)

  datatype Packet =
    | LogPacket(record: LogRecord)
    | StagePacket(stage: Stage)
    | PidPacket(pid: int)
    | ConsolePacket
    | ProceedPacket

  // ---- codes ----

  function LevelCode(l: Level): nat {
    match l case Fatal => 0 case Error => 1 case Warn => 2 case Info => 3 case Debug => 4
  }

  function LevelOf(code: nat): Level
    requires code <= LevelCode(Debug)
  {
    match code case 0 => Fatal case 1 => Error case 2 => Warn case 3 => Info case _ => Debug
  }

  function StageCode(s: Stage): nat {
    match s
    case NamespaceReady => 0
    case NamespaceDone => 1
    case PrestartReady => 2
    case PrestartDone => 3
    case CreateRuntimeReady => 4
    case CreateRuntimeDone => 5
    case CreateContainerDone => 6
    case ExecReady => 7
  }

  predicate ValidStage(code: nat) {
    code <= StageCode(ExecReady)
  }

  function StageOf(code: nat): Stage
    requires ValidStage(code)
  {
    match code
    case 0 => NamespaceReady
    case 1 => NamespaceDone
    case 2 => PrestartReady
    case 3 => PrestartDone
    case 4 => CreateRuntimeReady
    case 5 => CreateRuntimeDone
    case 6 => CreateContainerDone
    case _ => ExecReady
  }

  const LOG: byte := 0
  const STAGE: byte := 1
  const PID_REPORT: byte := 2
  const CONSOLE_FD: byte := 3
  const PROCEED: byte := 4

  // ---- what can be sent, and how it looks ----

  predicate PlaceFits(p: Place) {
    ShortText(p.file) && InWidth(p.line, 4) && ShortText(p.func)
  }

  predicate RecordFits(l: LogRecord, located: bool) {
    && ShortText(l.text) && InWidth(l.errno, 4) && InWidth(l.pid, 4) && InWidth(l.time, 8)
    && l.place.Some? == located
    && (located ==> PlaceFits(l.place.value))
  }

  /** The integers are in their types' ranges, the strings below 4 GiB, the location there if built in. */
  predicate Fits(m: Packet, located: bool) {
    match m
    case LogPacket(l) => RecordFits(l, located)
    case PidPacket(pid) => InWidth(pid, 4)
    case _ => true
  }

  function PlaceBytes(p: Place): seq<byte>
    requires PlaceFits(p)
  {
    Text(p.file) + (Pod(p.line, 4) + Text(p.func))
  }

  function Numbers(errno: int, pid: int, time: int): seq<byte>
    requires InWidth(errno, 4) && InWidth(pid, 4) && InWidth(time, 8)
  {
    Pod(errno, 4) + (Pod(pid, 4) + Pod(time, 8))
  }

  function RecordBytes(l: LogRecord): seq<byte>
    requires RecordFits(l, l.place.Some?)
  {
    Little(LevelCode(l.level), 1) + (Text(l.text) + ((match l.place case None => [] case Some(p) => PlaceBytes(p)) + Numbers(l.errno, l.pid, l.time)))
  }

  function Encoding(m: Packet, located: bool): (r: seq<byte>)
    requires Fits(m, located)
    ensures r != []
  {
    match m
    case LogPacket(l) => [LOG] + RecordBytes(l)
    case StagePacket(s) => [STAGE] + Little(StageCode(s), 1)
    case PidPacket(pid) => [PID_REPORT] + Pod(pid, 4)
    case ConsolePacket => [CONSOLE_FD]
    case ProceedPacket => [PROCEED]
  }

  // ---- decoding ----

  function TakePlace(data: seq<byte>): Result<Taken<Place>, WireError> {
    var file :- TakeText(data);
    var line :- TakeInt(file.rest, 4);
    var func :- TakeText(line.rest);
    Success(Taken(Place(file.value, line.value, func.value), func.rest))
  }

  function TakePlaceIf(data: seq<byte>, located: bool): Result<Taken<Option<Place>>, WireError> {
    if !located then Success(Taken(None, data))
    else
      var p :- TakePlace(data);
      Success(Taken(Some(p.value), p.rest))
  }

  datatype Three = Three(errno: int, pid: int, time: int)

  function TakeNumbers(data: seq<byte>): Result<Taken<Three>, WireError> {
    var errno :- TakeInt(data, 4);
    var pid :- TakeInt(errno.rest, 4);
    var time :- TakeInt(pid.rest, 8);
    Success(Taken(Three(errno.value, pid.value, time.value), time.rest))
  }

  function TakeRecord(data: seq<byte>, located: bool): Result<Taken<LogRecord>, WireError> {
    var level :- TakeNat(data, 1);
    if level.value > LevelCode(Debug) then Failure(InvalidLevel(level.value))
    else
      var text :- TakeText(level.rest);
      var place :- TakePlaceIf(text.rest, located);
      var n :- TakeNumbers(place.rest);
      Success(Taken(LogRecord(LevelOf(level.value), text.value, place.value, n.value.errno, n.value.pid, n.value.time), n.rest))
  }

  function Decode(wire: seq<byte>, located: bool): Result<Packet, WireError> {
    if wire == [] then Failure(NoMessageId)
    else
      var payload := wire[1..];
      if wire[0] == LOG then
        var l :- TakeRecord(payload, located);
        Success(LogPacket(l.value))
      else if wire[0] == STAGE then
        var s :- TakeNat(payload, 1);
        if ValidStage(s.value) then Success(StagePacket(StageOf(s.value))) else Failure(UnknownStage(s.value))
      else if wire[0] == PID_REPORT then
        var p :- TakeInt(payload, 4);
        Success(PidPacket(p.value))
      else if wire[0] == CONSOLE_FD then Success(ConsolePacket)
      else if wire[0] == PROCEED then Success(ProceedPacket)
      else Failure(UnknownMessageId(wire[0]))
  }

  // ---- a value is taken off exactly the data that begins with it ----

  lemma {:induction false} TakePlaceIff(data: seq<byte>, v: Place, rest: seq<byte>)
    ensures TakePlace(data) == Success(Taken(v, rest)) <==> PlaceFits(v) && data == PlaceBytes(v) + rest
  {
    hide TakeText, TakeInt, Text, Pod;
    if TakePlace(data) == Success(Taken(v, rest)) {
      var file := TakeText(data).value;
      var line := TakeInt(file.rest, 4).value;
      TakeTextIff(data, v.file, file.rest);
      TakeIntIff(file.rest, 4, v.line, line.rest);
      TakeTextIff(line.rest, v.func, rest);
      assert data == PlaceBytes(v) + rest;
    }
    if PlaceFits(v) && data == PlaceBytes(v) + rest {
      var r2 := Text(v.func) + rest;
      var r1 := Pod(v.line, 4) + r2;
      assert data == Text(v.file) + r1;
      TakeTextIff(data, v.file, r1);
      TakeIntIff(r1, 4, v.line, r2);
      TakeTextIff(r2, v.func, rest);
    }
  }

  lemma {:induction false} TakeNumbersIff(data: seq<byte>, v: Three, rest: seq<byte>)
    ensures TakeNumbers(data) == Success(Taken(v, rest))
       <==> InWidth(v.errno, 4) && InWidth(v.pid, 4) && InWidth(v.time, 8) && data == Numbers(v.errno, v.pid, v.time) + rest
  {
    hide TakeInt, Pod, InWidth;
    if TakeNumbers(data) == Success(Taken(v, rest)) {
      var errno := TakeInt(data, 4).value;
      var pid := TakeInt(errno.rest, 4).value;
      TakeIntIff(data, 4, v.errno, errno.rest);
      TakeIntIff(errno.rest, 4, v.pid, pid.rest);
      TakeIntIff(pid.rest, 8, v.time, rest);
      assert data == Numbers(v.errno, v.pid, v.time) + rest;
    }
    if InWidth(v.errno, 4) && InWidth(v.pid, 4) && InWidth(v.time, 8) && data == Numbers(v.errno, v.pid, v.time) + rest {
      var r2 := Pod(v.time, 8) + rest;
      var r1 := Pod(v.pid, 4) + r2;
      assert data == Pod(v.errno, 4) + r1;
      TakeIntIff(data, 4, v.errno, r1);
      TakeIntIff(r1, 4, v.pid, r2);
      TakeIntIff(r2, 8, v.time, rest);
    }
  }

  lemma {:induction false} TakePlaceIfIff(data: seq<byte>, located: bool, v: Option<Place>, rest: seq<byte>)
    ensures TakePlaceIf(data, located) == Success(Taken(v, rest))
       <==> && v.Some? == located && (located ==> PlaceFits(v.value))
            && data == (match v case None => [] case Some(p) => if PlaceFits(p) then PlaceBytes(p) else []) + rest
  {
    hide TakePlace, PlaceFits, PlaceBytes;
    if located {
      if TakePlace(data).Success? {
        TakePlaceIff(data, TakePlace(data).value.value, TakePlace(data).value.rest);
      }
      if v.Some? {
        TakePlaceIff(data, v.value, rest);
      }
    } else {
      assert [] + rest == rest;
    }
  }

  lemma {:induction false} Levels()
    ensures forall l :: LevelCode(l) <= LevelCode(Debug) && LevelOf(LevelCode(l)) == l
    ensures forall code: nat :: code <= LevelCode(Debug) ==> LevelCode(LevelOf(code)) == code
  {
  }

  lemma {:induction false} Stages()
    ensures forall s :: ValidStage(StageCode(s)) && StageOf(StageCode(s)) == s
    ensures forall code: nat :: ValidStage(code) ==> StageCode(StageOf(code)) == code
  {
  }

  lemma {:induction false} RecordIsTaken(data: seq<byte>, located: bool, v: LogRecord, rest: seq<byte>)
    requires RecordFits(v, located) && data == RecordBytes(v) + rest
    ensures TakeRecord(data, located) == Success(Taken(v, rest))
  {
    Levels();
    Widths();
    hide TakeNat, TakeText, TakePlaceIf, TakeNumbers, Text, PlaceBytes, Numbers, Little, LevelCode, LevelOf, PlaceFits, InWidth, ShortText, Pow256;
    var r3 := Numbers(v.errno, v.pid, v.time) + rest;
    var place := match v.place case None => [] case Some(p) => PlaceBytes(p);
    var r2 := place + r3;
    var r1 := Text(v.text) + r2;
    FourParts(Little(LevelCode(v.level), 1), Text(v.text), place, Numbers(v.errno, v.pid, v.time), rest);
    CodesAreSmall(v.level);
    TakeNatIff(data, 1, LevelCode(v.level), r1);
    TakeTextIff(r1, v.text, r2);
    TakePlaceIfIff(r2, located, v.place, r3);
    TakeNumbersIff(r3, Three(v.errno, v.pid, v.time), rest);
  }

  lemma {:induction false} CodesAreSmall(l: Level)
    ensures LevelCode(l) < Pow256(1) && LevelCode(Debug) == 4
  {
  }

  lemma {:induction false} RecordIsThere(data: seq<byte>, located: bool, v: LogRecord, rest: seq<byte>)
    requires TakeRecord(data, located) == Success(Taken(v, rest))
    ensures RecordFits(v, located) && data == RecordBytes(v) + rest
  {
    Levels();
    var level := TakeNat(data, 1).value;
    var text := TakeText(level.rest).value;
    var place := TakePlaceIf(text.rest, located).value;
    hide TakeNat, TakeText, TakePlaceIf, TakeNumbers, Text, PlaceBytes, Numbers, Little, LevelCode, LevelOf, PlaceFits, InWidth, ShortText, Pow256;
    TakeNatIff(data, 1, level.value, level.rest);
    TakeTextIff(level.rest, v.text, text.rest);
    TakePlaceIfIff(text.rest, located, v.place, place.rest);
    TakeNumbersIff(place.rest, Three(v.errno, v.pid, v.time), rest);
    assert LevelCode(v.level) == level.value;
    var placeBytes := match v.place case None => [] case Some(p) => PlaceBytes(p);
    FourParts(Little(LevelCode(v.level), 1), Text(v.text), placeBytes, Numbers(v.errno, v.pid, v.time), rest);
  }

  lemma {:induction false} FourParts(a: seq<byte>, b: seq<byte>, c: seq<byte>, d: seq<byte>, rest: seq<byte>)
    ensures a + (b + (c + (d + rest))) == (a + (b + (c + d))) + rest
  {
  }

  // ---- the main results ----

  lemma {:induction false} EncodedDecodes(wire: seq<byte>, located: bool, m: Packet)
    requires Fits(m, located) && Encoding(m, located) <= wire
    ensures Decode(wire, located) == Success(m)
  {
    hide TakeRecord, RecordBytes, RecordFits, TakeNat, Little, TakeInt, Pod, StageCode, StageOf, InWidth, Pow256;
    var tail := wire[|Encoding(m, located)|..];
    assert wire == Encoding(m, located) + tail;
    var payload := Encoding(m, located)[1..];
    assert wire[1..] == payload + tail;
    Stages();
    Widths();
    match m {
      case LogPacket(l) => RecordIsTaken(wire[1..], located, l, tail);
      case StagePacket(s) =>
        SmallCode(s);
        TakeNatIff(wire[1..], 1, StageCode(s), tail);
      case PidPacket(pid) => TakeIntIff(wire[1..], 4, pid, tail);
      case _ =>
    }
  }

  lemma {:induction false} SmallCode(s: Stage)
    ensures StageCode(s) < Pow256(1)
  {
  }

  lemma {:induction false} DecodedIsEncoded(wire: seq<byte>, located: bool, m: Packet)
    requires Decode(wire, located) == Success(m)
    ensures Fits(m, located) && Encoding(m, located) <= wire
  {
    hide TakeRecord, RecordBytes, RecordFits, TakeNat, Little, TakeInt, Pod, StageCode, StageOf, InWidth, Pow256;
    var payload := wire[1..];
    assert wire == [wire[0]] + payload;
    Stages();
    match m {
      case LogPacket(l) => RecordIsThere(payload, located, l, TakeRecord(payload, located).value.rest);
      case StagePacket(s) => TakeNatIff(payload, 1, StageCode(s), TakeNat(payload, 1).value.rest);
      case PidPacket(pid) => TakeIntIff(payload, 4, pid, TakeInt(payload, 4).value.rest);
      case _ =>
    }
  }

  /** A datagram decodes to a message exactly when it begins with that message's encoding. */
  lemma {:induction false} DecodeIff(wire: seq<byte>, located: bool, m: Packet)
    ensures Decode(wire, located) == Success(m) <==> Fits(m, located) && Encoding(m, located) <= wire
  {
    if Decode(wire, located) == Success(m) {
      DecodedIsEncoded(wire, located, m);
    }
    if Fits(m, located) && Encoding(m, located) <= wire {
      EncodedDecodes(wire, located, m);
    }
  }

  /** No encoding is the beginning of another one. */
  lemma {:induction false} EncodingIsPrefixFree(a: Packet, b: Packet, located: bool)
    requires Fits(a, located) && Fits(b, located) && Encoding(a, located) <= Encoding(b, located)
    ensures a == b
  {
    hide Decode, Encoding, Fits;
    DecodeIff(Encoding(b, located), located, a);
    DecodeIff(Encoding(b, located), located, b);
  }

  lemma {:induction false} OneByte(v: nat)
    requires v < 256
    ensures Little(v, 1) == [v]
  {
    assert Little(v / 256, 0) == [];
  }

  /** The first byte says what a message is; a stage and the level of a log record are the second one. */
  lemma {:induction false} CodesOnTheWire(located: bool)
    ensures Encoding(ConsolePacket, located) == [3] && Encoding(ProceedPacket, located) == [4]
    ensures Encoding(StagePacket(NamespaceReady), located) == [1, 0] && Encoding(StagePacket(NamespaceDone), located) == [1, 1]
    ensures Encoding(StagePacket(PrestartReady), located) == [1, 2] && Encoding(StagePacket(PrestartDone), located) == [1, 3]
    ensures Encoding(StagePacket(CreateRuntimeReady), located) == [1, 4] && Encoding(StagePacket(CreateRuntimeDone), located) == [1, 5]
    ensures Encoding(StagePacket(CreateContainerDone), located) == [1, 6] && Encoding(StagePacket(ExecReady), located) == [1, 7]
    ensures forall pid :: InWidth(pid, 4) ==> Encoding(PidPacket(pid), located) == [2] + Pod(pid, 4)
  {
    hide Little, Pod, InWidth;
    OneByte(0);
    OneByte(1);
    OneByte(2);
    OneByte(3);
    OneByte(4);
    OneByte(5);
    OneByte(6);
    OneByte(7);
  }

  lemma {:induction false} LevelsOnTheWire(l: LogRecord)
    requires RecordFits(l, l.place.Some?)
    ensures var wire := Encoding(LogPacket(l), l.place.Some?);
            var code := match l.level case Fatal => 0 case Error => 1 case Warn => 2 case Info => 3 case Debug => 4;
            |wire| >= 2 && wire[0] == 0 && wire[1] == code
  {
    hide Little, Text, PlaceBytes, Numbers, RecordFits;
    OneByte(LevelCode(l.level));
  }

  /** Integers are 1, 4 or 8 bytes wide, with the lowest byte first, and negative ones count down from the top. */
  lemma {:induction false} IntegersOnTheWire()
    ensures Pod(1, 4) == [1, 0, 0, 0] && Pod(256, 4) == [0, 1, 0, 0] && Pod(-1, 4) == [255, 255, 255, 255]
    ensures Pod(1, 8) == [1, 0, 0, 0, 0, 0, 0, 0]
    ensures !InWidth(0x8000_0000, 4) && InWidth(0x7FFF_FFFF, 4) && InWidth(-0x8000_0000, 4) && !InWidth(-0x8000_0001, 4)
  {
  }

  // ---- the source's procedures ----

  /** What the types of a message's integers already guarantee. */
  predicate Typed(m: Packet) {
    match m
    case LogPacket(l) =>
      InWidth(l.errno, 4) && InWidth(l.pid, 4) && InWidth(l.time, 8) && (l.place.Some? ==> InWidth(l.place.value.line, 4))
    case PidPacket(pid) => InWidth(pid, 4)
    case _ => true
  }

  /** A string too large for the format stops the serialization where it stands. */
  method SerializeLogInto(buf: Writer, l: LogRecord) returns (ok: bool)
    requires Typed(LogPacket(l))
    modifies buf
    ensures ok == Fits(LogPacket(l), l.place.Some?)
    ensures ok ==> buf.bytes == old(buf.bytes) + Encoding(LogPacket(l), l.place.Some?)
    ensures old(buf.bytes) <= buf.bytes
  {
    hide Little, Text, Pod, Pow256, InWidth, ShortText;
    buf.AppendNat(LOG, 1);
    buf.AppendNat(LevelCode(l.level), 1);
    ok := buf.AppendText(l.text);
    if !ok {
      return;
    }
    ghost var place: seq<byte> := [];
    if l.place.Some? {
      ok := AppendPlace(buf, l.place.value);
      if !ok {
        return;
      }
      place := PlaceBytes(l.place.value);
    }
    ghost var before := buf.bytes;
    buf.AppendInt(l.errno, 4);
    buf.AppendInt(l.pid, 4);
    buf.AppendInt(l.time, 8);
    assert buf.bytes == before + Numbers(l.errno, l.pid, l.time);
    IdsAreOneByte();
    LogParts(old(buf.bytes), [LOG], Little(LevelCode(l.level), 1), Text(l.text), place, Numbers(l.errno, l.pid, l.time));
  }

  lemma {:induction false} LogParts(was: seq<byte>, id: seq<byte>, level: seq<byte>, text: seq<byte>, place: seq<byte>, numbers: seq<byte>)
    ensures was + id + level + text + place + numbers == was + (id + (level + (text + (place + numbers))))
  {
  }

  /** The part of a log record that a build with source locations adds. */
  method AppendPlace(buf: Writer, p: Place) returns (ok: bool)
    requires InWidth(p.line, 4)
    modifies buf
    ensures ok == PlaceFits(p)
    ensures ok ==> buf.bytes == old(buf.bytes) + PlaceBytes(p)
    ensures old(buf.bytes) <= buf.bytes
  {
    hide Text, Pod, InWidth, ShortText;
    ok := buf.AppendText(p.file);
    if ok {
      buf.AppendInt(p.line, 4);
      ok := buf.AppendText(p.func);
    }
  }

  method Serialize(m: Packet) returns (r: Result<seq<byte>, WireError>)
    requires Typed(m)
    ensures var located := m.LogPacket? && m.record.place.Some?;
            r == if Fits(m, located) then Success(Encoding(m, located)) else Failure(StringTooLarge)
  {
    hide Little, Pod, RecordFits, RecordBytes;
    IdsAreOneByte();
    var buf := new Writer();
    match m {
      case LogPacket(l) =>
        var ok := SerializeLogInto(buf, l);
        if !ok {
          return Failure(StringTooLarge);
        }
        assert buf.bytes == Encoding(m, l.place.Some?);
      case StagePacket(s) =>
        buf.AppendNat(STAGE, 1);
        buf.AppendNat(StageCode(s), 1);
        assert buf.bytes == Encoding(m, false);
      case PidPacket(pid) =>
        buf.AppendNat(PID_REPORT, 1);
        buf.AppendInt(pid, 4);
        assert buf.bytes == Encoding(m, false);
      case ConsolePacket =>
        buf.AppendNat(CONSOLE_FD, 1);
        assert buf.bytes == Encoding(m, false);
      case ProceedPacket =>
        buf.AppendNat(PROCEED, 1);
        assert buf.bytes == Encoding(m, false);
    }
    return Success(buf.bytes);
  }

  lemma {:induction false} IdsAreOneByte()
    ensures Little(LOG, 1) == [LOG] && Little(STAGE, 1) == [STAGE] && Little(PID_REPORT, 1) == [PID_REPORT]
    ensures Little(CONSOLE_FD, 1) == [CONSOLE_FD] && Little(PROCEED, 1) == [PROCEED]
  {
  }

  method Deserialize(wire: seq<byte>, located: bool) returns (r: Result<Packet, WireError>)
    ensures r == Decode(wire, located)
    ensures forall m :: r == Success(m) <==> Fits(m, located) && Encoding(m, located) <= wire
  {
    hide Encoding, Fits;
    forall m ensures Decode(wire, located) == Success(m) <==> Fits(m, located) && Encoding(m, located) <= wire {
      DecodeIff(wire, located, m);
    }
    if |wire| < 1 {
      return Failure(NoMessageId);
    }
    var payload := new Reader(wire[1..]);
    hide TakeNat, TakeInt, TakeText;
    if wire[0] == LOG {
      var record :- DeserializeLog(payload, located);
      return Success(LogPacket(record));
    } else if wire[0] == STAGE {
      var s :- payload.ReadNat(1);
      return if ValidStage(s) then Success(StagePacket(StageOf(s))) else Failure(UnknownStage(s));
    } else if wire[0] == PID_REPORT {
      var pid :- payload.ReadInt(4);
      return Success(PidPacket(pid));
    } else if wire[0] == CONSOLE_FD {
      return Success(ConsolePacket);
    } else if wire[0] == PROCEED {
      return Success(ProceedPacket);
    } else {
      return Failure(UnknownMessageId(wire[0]));
    }
  }

  /** The log case of deserialize. */
  method DeserializeLog(payload: Reader, located: bool) returns (r: Result<LogRecord, WireError>)
    requires payload.Valid()
    modifies payload
    ensures payload.Valid()
    ensures match TakeRecord(old(payload.Rest()), located)
            case Success(t) => r == Success(t.value) && payload.Rest() == t.rest
            case Failure(e) => r == Failure(e)
  {
    hide TakeNat, TakeInt, TakeText;
    var level :- payload.ReadNat(1);
    if level > LevelCode(Debug) {
      return Failure(InvalidLevel(level));
    }
    var text :- payload.ReadText();
    var place := None;
    if located {
      var file :- payload.ReadText();
      var line :- payload.ReadInt(4);
      var func :- payload.ReadText();
      place := Some(Place(file, line, func));
    }
    var errno :- payload.ReadInt(4);
    var pid :- payload.ReadInt(4);
    var time :- payload.ReadInt(8);
    return Success(LogRecord(LevelOf(level), text, place, errno, pid, time));
  }
}
