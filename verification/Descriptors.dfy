/**
 Reading and writing through descriptors. What the system calls will report is a script; past its end
 nothing is ready.
 */
module Descriptors {
  import opened Results
  import opened RingBuffer

  datatype IOStatus = Ok | TryAgain | Eof | Closed | Timeout

  /** A status after which a forwarder gives the descriptor up. */
  predicate Ending(status: Option<IOStatus>) {
    status == Some(Eof) || status == Some(Closed) || status == Some(Timeout)
  }

  // ---- reading ----

  /** Data([]) is the end of the file; ReadGone stands for EIO and ECONNRESET, ReadBad for other errors. */
  datatype ReadEvent = Data(bytes: seq<Byte>) | ReadInterrupted | ReadWouldBlock | ReadGone | ReadBad

  /** The bytes a script still delivers. */
  function Stream(script: seq<ReadEvent>): seq<Byte> {
    if script == [] then [] else (if script[0].Data? then script[0].bytes else []) + Stream(script[1..])
  }

  /** What the first read that is not interrupted reports. */
  function FirstRead(script: seq<ReadEvent>): ReadEvent {
    if script == [] then ReadWouldBlock
    else if script[0].ReadInterrupted? then FirstRead(script[1..])
    else script[0]
  }

  class Source {
    const nonblock: bool
    var script: seq<ReadEvent>
    /** The whole stream and what has been read of it. */
    ghost const whole: seq<Byte>
    ghost var taken: seq<Byte>
    /** How often a read reported TryAgain, an end (Eof, Closed or Timeout), and an exception. */
    ghost var stalls: nat
    ghost var ends: nat
    ghost var throws: nat

    ghost predicate Valid()
      reads this
    {
      whole == taken + Stream(script)
    }

    constructor (script: seq<ReadEvent>, nonblock: bool)
      ensures this.script == script && this.nonblock == nonblock && taken == [] && stalls == ends == throws == 0
      ensures Valid() && whole == Stream(script)
    {
      this.script := script;
      this.nonblock := nonblock;
      taken, whole := [], Stream(script);
      stalls, ends, throws := 0, 0, 0;
    }

    /** read_span into room for n bytes; None is an exception. */
    method ReadSpan(n: nat) returns (status: Option<IOStatus>, bytes: seq<Byte>)
      requires Valid()
      modifies this
      ensures Valid()
      ensures n == 0 ==> status == Some(Ok) && bytes == [] && script == old(script)
      ensures n > 0 ==> status == StatusOfRead(FirstRead(old(script)), nonblock)
      ensures n > 0 && FirstRead(old(script)).Data? ==>
                var b := FirstRead(old(script)).bytes; bytes == if |b| <= n then b else b[..n]
      ensures |bytes| <= n && (bytes != [] <==> n > 0 && status == Some(Ok))
      ensures bytes == [] ==> taken == old(taken)
      ensures taken == old(taken) + bytes
      ensures stalls == old(stalls) + if status == Some(TryAgain) then 1 else 0
      ensures ends == old(ends) + if Ending(status) then 1 else 0
      ensures throws == old(throws) + if status == None then 1 else 0
    {
      hide Stream, FirstRead, StatusOfRead;
      bytes := [];
      if n == 0 {
        return Some(Ok), [];
      }
      while script != [] && script[0].ReadInterrupted?
        invariant FirstRead(script) == FirstRead(old(script)) && whole == taken + Stream(script)
        invariant taken == old(taken) && stalls == old(stalls) && ends == old(ends) && throws == old(throws)
        decreases |script|
      {
        HeadOfScript(script);
        script := script[1..];
      }
      HeadOfScript(script);
      var e := FirstOr(script, ReadWouldBlock);
      script := if script == [] then [] else script[1..];
      if e.Data? {
        bytes := e.bytes;
        if |e.bytes| > n {
          bytes := e.bytes[..n];
          Cut(e.bytes, n, script);
          script := [Data(e.bytes[n..])] + script;
        }
      }
      status := match e {
        case Data(b) => Some(if b == [] then Eof else Ok)
        case ReadWouldBlock => Some(if nonblock then TryAgain else Timeout)
        case ReadGone => Some(Closed)
        case _ => None
      };
      StatusIs(e, nonblock, status);
      StatusesOfReads(e, nonblock);
      taken := taken + bytes;
      Count(status);
    }

    ghost method Count(status: Option<IOStatus>)
      modifies this`stalls, this`ends, this`throws
      ensures stalls == old(stalls) + if status == Some(TryAgain) then 1 else 0
      ensures ends == old(ends) + if Ending(status) then 1 else 0
      ensures throws == old(throws) + if status == None then 1 else 0
    {
      stalls := stalls + if status == Some(TryAgain) then 1 else 0;
      ends := ends + if Ending(status) then 1 else 0;
      throws := throws + if status == None then 1 else 0;
    }
  }

  lemma {:induction false} HeadOfScript(script: seq<ReadEvent>)
    ensures var e := FirstOr(script, ReadWouldBlock);
            var rest := if script == [] then [] else script[1..];
            && FirstRead(script) == (if e.ReadInterrupted? then FirstRead(rest) else e)
            && Stream(script) == (if e.Data? then e.bytes else []) + Stream(rest)
  {
  }

  lemma {:induction false} StatusIs(e: ReadEvent, nonblock: bool, status: Option<IOStatus>)
    requires match e
             case Data(b) => status == Some(if b == [] then Eof else Ok)
             case ReadWouldBlock => status == Some(if nonblock then TryAgain else Timeout)
             case ReadGone => status == Some(Closed)
             case _ => status == None
    ensures status == StatusOfRead(e, nonblock)
  {
  }

  lemma {:induction false} StatusesOfReads(e: ReadEvent, nonblock: bool)
    ensures StatusOfRead(e, nonblock) == Some(Ok) <==> e.Data? && e.bytes != []
    ensures StatusOfRead(e, nonblock) == Some(Eof) <==> e == Data([])
    ensures StatusOfRead(e, nonblock) == Some(TryAgain) <==> e == ReadWouldBlock && nonblock
    ensures StatusOfRead(e, nonblock) == Some(Timeout) <==> e == ReadWouldBlock && !nonblock
    ensures StatusOfRead(e, nonblock) == Some(Closed) <==> e == ReadGone
  {
  }

  function FirstOr<E>(script: seq<E>, none: E): E {
    if script == [] then none else script[0]
  }

  /** What a read reports to the caller of read_span. */
  function StatusOfRead(e: ReadEvent, nonblock: bool): Option<IOStatus> {
    match e
    case Data(b) => Some(if b == [] then Eof else Ok)
    case ReadWouldBlock => Some(if nonblock then TryAgain else Timeout)
    case ReadGone => Some(Closed)
    case _ => None
  }

  /** What is left of a read stays at the front of the script. */
  lemma {:induction false} Cut(bytes: seq<Byte>, n: nat, rest: seq<ReadEvent>)
    requires n <= |bytes|
    ensures bytes[..n] + Stream([Data(bytes[n..])] + rest) == bytes + Stream(rest)
  {
    assert ([Data(bytes[n..])] + rest)[1..] == rest;
    assert bytes[..n] + bytes[n..] == bytes;
  }

  // ---- writing ----

  /** Room(0) is a write that returns 0; WriteGone stands for EPIPE, ECONNRESET, ENOTCONN and EIO. */
  datatype WriteEvent = Room(n: nat) | WriteInterrupted | WriteWouldBlock | WriteGone | WriteBad

  /** The bytes the system calls take before one of them takes nothing. */
  function RoomAhead(script: seq<WriteEvent>): nat {
    if script == [] then 0
    else
      match script[0]
      case Room(k) => if k == 0 then 0 else k + RoomAhead(script[1..])
      case WriteInterrupted => RoomAhead(script[1..])
      case _ => 0
  }

  /** The first system call that takes nothing, unless it is interrupted. */
  function StopsAt(script: seq<WriteEvent>): WriteEvent {
    if script == [] then WriteWouldBlock
    else
      match script[0]
      case Room(k) => if k == 0 then Room(0) else StopsAt(script[1..])
      case WriteInterrupted => StopsAt(script[1..])
      case e => e
  }

  /** What a system call that took nothing makes of a write of which total bytes are done. */
  function StatusOf(e: WriteEvent, nonblock: bool, total: nat): Option<IOStatus> {
    match e
    case Room(_) => Some(if total > 0 then Ok else TryAgain)
    case WriteGone => Some(Closed)
    case WriteBad => None
    case _ => Some(if nonblock then TryAgain else Timeout)
  }

  lemma {:induction false} MoreOf(data: seq<Byte>, n: nat, k: nat)
    requires n + k <= |data|
    ensures data[..n] + data[n..][..k] == data[..n + k]
  {
  }

  class Sink {
    const nonblock: bool
    var script: seq<WriteEvent>
    /** Everything accepted so far. */
    ghost var accepted: seq<Byte>
    /** How often a write reported TryAgain, an end (Closed or Timeout), and an exception. */
    ghost var stalls: nat
    ghost var ends: nat
    ghost var throws: nat

    constructor (script: seq<WriteEvent>, nonblock: bool)
      ensures this.script == script && this.nonblock == nonblock && accepted == [] && stalls == ends == throws == 0
    {
      this.script := script;
      this.nonblock := nonblock;
      accepted := [];
      stalls, ends, throws := 0, 0, 0;
    }

    /** One write or writev system call on the bytes; writing nothing returns 0 at once. */
    method SystemWrite(data: seq<Byte>) returns (e: WriteEvent)
      modifies this`script, this`accepted
      ensures e.Room? ==> e.n <= |data| && accepted == old(accepted) + data[..e.n]
      ensures !e.Room? ==> accepted == old(accepted)
      ensures data != [] ==> e == if old(script) == [] then WriteWouldBlock
                                  else if old(script)[0].Room? && old(script)[0].n > |data| then Room(|data|)
                                  else old(script)[0]
      ensures data == [] ==> e == Room(0)
      ensures script == if data == [] || old(script) == [] then old(script) else old(script)[1..]
    {
      if data == [] {
        return Room(0);
      }
      if script == [] {
        return WriteWouldBlock;
      }
      e := script[0];
      script := script[1..];
      if e.Room? {
        if e.n > |data| {
          e := Room(|data|);
        }
        accepted := accepted + data[..e.n];
      }
    }

    /**
     write_span; None is an exception. It can report TryAgain after the kernel has accepted bytes: what
     comes first of enough room and a system call that takes nothing decides.
     */
    method WriteSpan(data: seq<Byte>) returns (status: Option<IOStatus>, n: nat)
      modifies this
      ensures n == if |data| <= RoomAhead(old(script)) then |data| else RoomAhead(old(script))
      ensures status == if n == |data| then Some(Ok) else StatusOf(StopsAt(old(script)), nonblock, n)
      ensures status != Some(Eof)
      ensures accepted == old(accepted) + data[..n]
      ensures stalls == old(stalls) + if status == Some(TryAgain) then 1 else 0
      ensures ends == old(ends) + if Ending(status) then 1 else 0
      ensures throws == old(throws) + if status == None then 1 else 0
    {
      n := 0;
      while n < |data|
        invariant 0 <= n <= |data| && accepted == old(accepted) + data[..n]
        invariant stalls == old(stalls) && ends == old(ends) && throws == old(throws)
        invariant n == |data| <= RoomAhead(old(script)) || RoomAhead(old(script)) == n + RoomAhead(script)
        invariant n < |data| ==> StopsAt(old(script)) == StopsAt(script)
        decreases |data| - n, |script|
      {
        var e := SystemWrite(data[n..]);
        match e {
          case Room(k) =>
            if k == 0 {
              if n == 0 {
                stalls := stalls + 1;
              }
              return Some(if n > 0 then Ok else TryAgain), n;
            }
            MoreOf(data, n, k);
            n := n + k;
          case WriteInterrupted =>
          case WriteWouldBlock =>
            if nonblock {
              stalls := stalls + 1;
            } else {
              ends := ends + 1;
            }
            return Some(if nonblock then TryAgain else Timeout), n;
          case WriteGone =>
            ends := ends + 1;
            return Some(Closed), n;
          case WriteBad =>
            throws := throws + 1;
            return None, n;
        }
      }
      status := Some(Ok);
    }
  }
}
