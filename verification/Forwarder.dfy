/**
 Moving bytes from a source to a sink through the ring buffer: in turns of a limited number of bytes,
 until one end has nothing to give and the other takes nothing.
 */
module Forwarder {
  import opened Results
  import opened RingBuffer
  import opened Descriptors
  import opened Words

  const BYTES_QUOTA := 16 * 1024

  // ---- what the sink has been given ----

  /** One call of write_span: the bytes the sink accepted, and whether the forwarder released them. */
  datatype Attempt = Attempt(data: seq<Byte>, kept: bool)

  function Sent(attempts: seq<Attempt>): seq<Byte> {
    if attempts == [] then [] else Sent(attempts[..|attempts| - 1]) + attempts[|attempts| - 1].data
  }

  function Kept(attempts: seq<Attempt>): seq<Byte> {
    if attempts == [] then []
    else
      var last := attempts[|attempts| - 1];
      Kept(attempts[..|attempts| - 1]) + if last.kept then last.data else []
  }

  function Lost(attempts: seq<Attempt>): nat {
    if attempts == [] then 0
    else
      var last := attempts[|attempts| - 1];
      Lost(attempts[..|attempts| - 1]) + if last.kept then 0 else |last.data|
  }

  /** How many bytes had been released before the k-th call. */
  function Released(attempts: seq<Attempt>, k: nat): nat
    requires k <= |attempts|
  {
    |Kept(attempts[..k])|
  }

  /** Every call offered the bytes of the stream from the first unreleased one on. */
  ghost predicate Offered(attempts: seq<Attempt>, stream: seq<Byte>) {
    forall k: nat :: k < |attempts| ==> OfferedAt(attempts, stream, k)
  }

  ghost predicate OfferedAt(attempts: seq<Attempt>, stream: seq<Byte>, k: nat)
    requires k < |attempts|
  {
    var at := Released(attempts, k);
    at + |attempts[k].data| <= |stream| && attempts[k].data == stream[at..at + |attempts[k].data|]
  }

  lemma {:induction false} OneMoreAttempt(attempts: seq<Attempt>, a: Attempt)
    ensures Sent(attempts + [a]) == Sent(attempts) + a.data
    ensures Kept(attempts + [a]) == Kept(attempts) + if a.kept then a.data else []
    ensures Lost(attempts + [a]) == Lost(attempts) + if a.kept then 0 else |a.data|
  {
  }

  lemma {:induction false} OfferedOnceMore(attempts: seq<Attempt>, stream: seq<Byte>, a: Attempt, rest: seq<Byte>)
    requires Offered(attempts, stream) && stream == Kept(attempts) + rest && a.data <= rest
    ensures Offered(attempts + [a], stream)
  {
    hide Kept;
    var more := attempts + [a];
    forall k: nat | k < |more| ensures OfferedAt(more, stream, k) {
      if k < |attempts| {
        assert OfferedAt(attempts, stream, k);
        assert more[..k] == attempts[..k];
      } else {
        assert more[..k] == attempts;
      }
    }
  }

  lemma {:induction false} OfferedOfMore(attempts: seq<Attempt>, stream: seq<Byte>, more: seq<Byte>)
    requires Offered(attempts, stream)
    ensures Offered(attempts, stream + more)
  {
    hide Kept;
    forall k: nat | k < |attempts| ensures OfferedAt(attempts, stream + more, k) {
      assert OfferedAt(attempts, stream, k);
    }
  }

  /** What the sink was given is what was released, and, once more, every byte accepted but not released. */
  lemma {:induction false} SentIsKeptAndLost(attempts: seq<Attempt>)
    ensures |Sent(attempts)| == |Kept(attempts)| + Lost(attempts)
    ensures Lost(attempts) == 0 ==> Sent(attempts) == Kept(attempts)
  {
    if attempts != [] {
      SentIsKeptAndLost(attempts[..|attempts| - 1]);
    }
  }

  lemma {:induction false} NothingLostIff(attempts: seq<Attempt>)
    ensures Lost(attempts) == 0 <==> forall k :: 0 <= k < |attempts| && !attempts[k].kept ==> attempts[k].data == []
  {
    if attempts != [] {
      NothingLostIff(attempts[..|attempts| - 1]);
    }
  }

  lemma {:induction false} GivenUp(status: Option<IOStatus>)
    requires status != None && status != Some(Ok) && status != Some(TryAgain)
    ensures Ending(status)
  {
    var s := status.value;
    assert s.Ok? ==> status == Some(Ok);
    assert s.TryAgain? ==> status == Some(TryAgain);
    assert s.Eof? ==> status == Some(Eof);
    assert s.Closed? ==> status == Some(Closed);
    assert s.Timeout? ==> status == Some(Timeout);
  }

  function Less(quota: nat, n: nat): nat {
    if n <= quota then quota - n else 0
  }

  lemma {:induction false} Charged(quota: nat, m: nat, n: nat)
    ensures Less(quota, 0) == quota && Less(0, m) == 0
    ensures Less(quota, m + n) == Less(quota, m) - if Less(quota, m) < n then Less(quota, m) else n
    ensures Less(quota, m) == 0 <==> quota <= m
  {
  }

  lemma {:induction false} Joined(a: seq<Byte>, b: seq<Byte>, got: seq<Byte>, more: seq<Byte>)
    ensures (a + got) + more == a + (got + more) && (b + got) + more == b + (got + more)
    ensures a + [] == a && b + [] == b
  {
  }

  lemma {:induction false} FurtherOn(before: seq<Byte>, whole: seq<Byte>, m: nat, n: nat)
    requires m + n <= |whole|
    ensures (before + whole[..m]) + whole[m..][..n] == before + whole[..m + n] && whole[m..][n..] == whole[m + n..]
  {
  }

  /** How one write_span of the forwarder ends: bytes moved, would block, the sink given up, an exception. */
  datatype Turn = Moved(n: nat, partial: bool) | Stalls | Fails | Throws

  class Forwarder {
    const rb: Ring
    const src: Source
    const dst: Sink
    var srcEof: bool
    var dstFailed: bool
    /** The bytes the tail has moved past, and the calls of write_span, as long as the sink works. */
    ghost var released: seq<Byte>
    ghost var attempts: seq<Attempt>

    constructor (rb: Ring, src: Source, dst: Sink)
      requires rb.Valid() && rb.Contents() == [] && src.Valid() && src.taken == [] && dst.accepted == []
      ensures Valid() && this.rb == rb && this.src == src && this.dst == dst
      ensures !srcEof && !dstFailed && released == []
    {
      this.rb := rb;
      this.src := src;
      this.dst := dst;
      srcEof, dstFailed := false, false;
      released, attempts := [], [];
    }

    /** While the sink works, no byte is lost, and the sink has what was released, with re-sent bytes. */
    ghost predicate Valid()
      reads this, rb, rb.mem, src, dst
    {
      && rb.Valid() && src.Valid()
      && (!dstFailed ==>
            && src.taken == released + rb.Contents()
            && released == Kept(attempts) && dst.accepted == Sent(attempts)
            && Offered(attempts, src.taken))
    }

    predicate IsFinished()
      requires Valid()
      reads this, rb, rb.mem, src, dst
    {
      (srcEof && rb.Empty()) || dstFailed
    }

    /** Finished means that the sink has failed, or that nothing read from the source is left behind. */
    lemma {:induction false} FinishedIff()
      requires Valid()
      ensures IsFinished() <==> dstFailed || (srcEof && rb.Contents() == [])
      ensures IsFinished() && !dstFailed ==> released == src.taken
    {
      assert |rb.Contents()| == rb.Size();
    }

    method MarkSrcEof()
      requires Valid()
      modifies this`srcEof
      ensures Valid() && srcEof
    {
      srcEof := true;
    }

    method MarkDstFailed()
      requires Valid()
      modifies this`dstFailed
      ensures Valid() && dstFailed
    {
      dstFailed := true;
    }

    /** One read_span into the free space. */
    method Receive() returns (status: Option<IOStatus>, n: nat, ghost bytes: seq<Byte>)
      requires Valid() && !rb.Full()
      modifies rb`head, rb.mem, src
      ensures Valid() && src.taken == old(src.taken) + bytes && rb.Contents() == old(rb.Contents()) + bytes
      ensures |bytes| == n <= old(rb.FreeSpace()) && (n > 0 <==> status == Some(Ok))
      ensures src.stalls == old(src.stalls) + if status == Some(TryAgain) then 1 else 0
      ensures src.ends == old(src.ends) + if Ending(status) then 1 else 0
      ensures src.throws == old(src.throws) + if status == None then 1 else 0
    {
      hide Offered, Kept, Sent, Window, Pow2, Stream, FirstRead;
      var address := rb.WritePtr();
      var read;
      status, read := src.ReadSpan(rb.FreeSpace());
      n, bytes := |read|, read;
      if n > 0 {
        rb.Fill(address, read);
        rb.AdvanceHead(n);
        if !dstFailed {
          OfferedOfMore(attempts, old(src.taken), read);
        }
      }
    }

    /** Read into the free space while there is some and the quota lasts; None is an exception. last: the last read. */
    method Pull(quota: nat) returns (wouldBlock: Option<bool>, quota': nat, ghost got: seq<Byte>, ghost last: nat)
      requires Valid()
      modifies rb`head, rb.mem, src, this`srcEof
      ensures Valid() && src.taken == old(src.taken) + got && rb.Contents() == old(rb.Contents()) + got
      ensures quota' == Less(quota, |got|) && |got| <= old(rb.FreeSpace())
      ensures quota == 0 ==> got == [] && wouldBlock == Some(false) && src.script == old(src.script)
      ensures got != [] ==> 0 < last <= |got| && |got| - last < quota
      ensures wouldBlock == Some(false) && quota' > 0 ==> rb.Full() || src.ends > old(src.ends)
      ensures src.stalls == old(src.stalls) + if wouldBlock == Some(true) then 1 else 0
      ensures src.throws == old(src.throws) + if wouldBlock == None then 1 else 0
      ensures old(src.ends) <= src.ends <= old(src.ends) + 1 && srcEof == (old(srcEof) || src.ends > old(src.ends))
    {
      hide Offered, Kept, Sent, Window, Pow2, Stream, FirstRead, Less, Minus;
      quota', got, last := quota, [], 0;
      Charged(quota, 0, 0);
      Joined(src.taken, rb.Contents(), [], []);
      if quota == 0 {
        return Some(false), 0, [], 0;
      }
      while quota' > 0 && !rb.Full()
        invariant got != [] ==> 0 < last <= |got| && |got| - last < quota
        invariant Valid() && src.taken == old(src.taken) + got && rb.Contents() == old(rb.Contents()) + got
        invariant quota' == Less(quota, |got|) && srcEof == old(srcEof)
        invariant src.stalls == old(src.stalls) && src.ends == old(src.ends) && src.throws == old(src.throws)
        invariant dstFailed == old(dstFailed)
        decreases rb.FreeSpace()
      {
        Charged(quota, |got|, 0);
        var status, n;
        ghost var bytes;
        status, n, bytes := Receive();
        if status == None {
          return None, quota', got, last;
        }
        if status == Some(TryAgain) {
          return Some(true), quota', got, last;
        }
        if status != Some(Ok) {
          GivenUp(status);
          srcEof := true;
          break;
        }
        if n == 0 {
          break;
        }
        Charged(quota, |got|, n);
        Joined(old(src.taken), old(rb.Contents()), got, bytes);
        got, last := got + bytes, n;
        quota' := quota' - if quota' < n then quota' else n;
      }
      return Some(false), quota', got, last;
    }

    /** One write_span of the contents. What it reports to have written is released only on success. */
    method Offer() returns (status: Option<IOStatus>, n: nat, span: nat)
      requires Valid() && !rb.Empty()
      modifies rb`tail, dst, this`released, this`attempts
      ensures Valid() && span == old(rb.Size())
      ensures n == if span <= RoomAhead(old(dst.script)) then span else RoomAhead(old(dst.script))
      ensures status == if n == span then Some(Ok) else StatusOf(StopsAt(old(dst.script)), dst.nonblock, n)
      ensures Lost(attempts) == old(Lost(attempts)) + if status == Some(Ok) then 0 else n
      ensures var gone := if status == Some(Ok) then n else 0;
              rb.Contents() == old(rb.Contents())[gone..] && released == old(released) + old(rb.Contents())[..gone]
      ensures dst.stalls == old(dst.stalls) + if status == Some(TryAgain) then 1 else 0
      ensures dst.ends == old(dst.ends) + if Ending(status) then 1 else 0
      ensures dst.throws == old(dst.throws) + if status == None then 1 else 0
      ensures status != Some(Eof)
    {
      hide Offered, Kept, Sent, Lost, Window, Pow2, RoomAhead, StopsAt, StatusOf, Stream;
      ghost var contents := rb.Contents();
      span := rb.Size();
      status, n := dst.WriteSpan(Window(rb.mem[..], rb.ReadPtr(), span));
      Record(contents, n, status == Some(Ok));
      if status == Some(Ok) {
        rb.AdvanceTail(n);
      }
    }

    /** The account of a call of write_span that had the contents' first n bytes accepted. */
    ghost method Record(contents: seq<Byte>, n: nat, ok: bool)
      requires n <= |contents|
      requires !dstFailed ==>
                 && src.taken == released + contents && released == Kept(attempts)
                 && dst.accepted == Sent(attempts) + contents[..n] && Offered(attempts, src.taken)
      modifies this`attempts, this`released
      ensures released == old(released) + if ok then contents[..n] else []
      ensures Lost(attempts) == old(Lost(attempts)) + if ok then 0 else n
      ensures !dstFailed ==>
                && src.taken == released + (if ok then contents[n..] else contents) && released == Kept(attempts)
                && dst.accepted == Sent(attempts) && Offered(attempts, src.taken)
    {
      var a := Attempt(contents[..n], ok);
      hide Offered, Kept, Sent, Lost;
      OneMoreAttempt(attempts, a);
      if !dstFailed {
        OfferedOnceMore(attempts, src.taken, a, contents);
      }
      attempts := attempts + [a];
      released := released + if ok then contents[..n] else [];
    }

    /** The sink has failed: what is in the ring goes nowhere. */
    method FailSink()
      requires Valid()
      modifies rb`head, rb`tail, this`dstFailed
      ensures Valid() && dstFailed && rb.Contents() == []
    {
      hide Offered, Kept, Sent, Window, Pow2;
      dstFailed := true;
      rb.Clear();
    }

    /** One turn of the loop of Push: a write, or the end of it for now or for good. */
    method PushOnce() returns (turn: Turn)
      requires Valid() && !rb.Empty()
      modifies rb`head, rb`tail, dst, this`dstFailed, this`released, this`attempts
      ensures Valid()
      ensures dst.throws == old(dst.throws) + if turn.Throws? then 1 else 0
      ensures turn.Moved? ==>
                && 0 < turn.n <= |old(rb.Contents())| && (turn.partial <==> turn.n < |old(rb.Contents())|)
                && rb.Contents() == old(rb.Contents())[turn.n..] && released == old(released) + old(rb.Contents())[..turn.n]
      ensures !turn.Moved? ==> released == old(released) && rb.Contents() == if turn.Fails? then [] else old(rb.Contents())
      ensures dst.stalls == old(dst.stalls) + if turn.Stalls? then 1 else 0
      ensures dst.ends == old(dst.ends) + if turn.Fails? then 1 else 0
      ensures dstFailed == (old(dstFailed) || turn.Fails?)
    {
      hide Offered, Kept, Sent, Lost, Window, Pow2;
      var status, n, span := Offer();
      if status == None {
        return Throws;
      }
      if status == Some(TryAgain) {
        return Stalls;
      }
      if status != Some(Ok) {
        GivenUp(status);
        dstFailed := true;
        rb.Clear();
        return Fails;
      }
      turn := Moved(n, n < span);
    }

    /**
     Write the contents, as long as the sink takes some. The quota is asked after only before the first write:
     a write that leaves something counts as partial, and after a partial write the quota does not matter.
     */
    method Push(quota: nat) returns (wouldBlock: Option<bool>, quota': nat, ghost gone: seq<Byte>)
      requires Valid()
      modifies rb`head, rb`tail, dst, this`dstFailed, this`released, this`attempts
      ensures Valid() && gone <= old(rb.Contents()) && released == old(released) + gone
      ensures rb.Contents() == if dst.ends > old(dst.ends) then [] else old(rb.Contents())[|gone|..]
      ensures quota' == Less(quota, |gone|)
      ensures quota == 0 ==> gone == [] && wouldBlock == Some(false) && dst.script == old(dst.script)
      ensures wouldBlock == Some(false) && quota > 0 ==> rb.Empty()
      ensures wouldBlock == Some(false) && quota > 0 && old(rb.Contents()) != [] ==> gone != []
      ensures wouldBlock == Some(true) <==> dst.stalls > old(dst.stalls) || dst.ends > old(dst.ends)
      ensures dst.throws == old(dst.throws) + if wouldBlock == None then 1 else 0
      ensures old(dst.stalls) <= dst.stalls <= old(dst.stalls) + 1 && old(dst.ends) <= dst.ends <= old(dst.ends) + 1
      ensures dstFailed == (old(dstFailed) || dst.ends > old(dst.ends))
    {
      hide Offered, Kept, Sent, Lost, Window, Pow2, RoomAhead, StopsAt, Less, Minus;
      quota' := quota;
      Charged(quota, 0, 0);
      if quota == 0 {
        return Some(false), 0, [];
      }
      var partial := false;
      ghost var whole, m: nat := rb.Contents(), 0;
      assert whole[0..] == whole && old(released) + whole[..0] == old(released);
      while !rb.Empty()
        invariant Valid() && m <= |whole| && rb.Contents() == whole[m..] && released == old(released) + whole[..m]
        invariant quota' == Less(quota, m) && dstFailed == old(dstFailed)
        invariant dst.stalls == old(dst.stalls) && dst.ends == old(dst.ends) && dst.throws == old(dst.throws)
        invariant if m == 0 then quota' == quota else partial || rb.Empty()
        decreases rb.Size()
      {
        if quota' == 0 && !partial {
          break;
        }
        var turn := PushOnce();
        match turn {
          case Throws => return None, quota', whole[..m];
          case Stalls => return Some(true), quota', whole[..m];
          case Fails => return Some(true), quota', whole[..m];
          case Moved(n, left) =>
            if n == 0 {
              break;
            }
            FurtherOn(old(released), whole, m, n);
            Charged(quota, m, n);
            m := m + n;
            quota' := quota' - if quota' < n then quota' else n;
            partial := left;
        }
      }
      return Some(false), quota', whole[..m];
    }

    /** A pull and a push. true: there is nothing to read or no room for it, and nothing to write or no taker. */
    method Round(quota: nat) returns (blocked: Option<bool>, quota': nat, ghost got: seq<Byte>, ghost gone: seq<Byte>)
      requires Valid() && quota > 0
      modifies rb, rb.mem, src, dst, this
      ensures Valid() && src.taken == old(src.taken) + got && released == old(released) + gone
      ensures quota' == Less(quota, |got| + |gone|) && |got| + |gone| < quota + rb.mem.Length
      ensures src.stalls >= old(src.stalls) && dst.stalls >= old(dst.stalls)
      ensures src.ends >= old(src.ends) && dst.ends >= old(dst.ends)
      ensures src.throws + dst.throws == old(src.throws + dst.throws) + if blocked == None then 1 else 0
      ensures srcEof == (old(srcEof) || src.ends > old(src.ends)) && dstFailed == (old(dstFailed) || dst.ends > old(dst.ends))
      ensures blocked == Some(true) ==>
                && (src.stalls > old(src.stalls) || rb.Full())
                && (dst.stalls > old(dst.stalls) || rb.Empty() || dstFailed)
      ensures blocked == Some(false) && quota' == quota ==> src.ends > old(src.ends) || dst.ends > old(dst.ends)
    {
      hide Offered, Kept, Sent, Window, Pow2, Stream, FirstRead, RoomAhead, StopsAt;
      var readBlocks: Option<bool>;
      var writeBlocks: Option<bool>;
      gone := [];
      ghost var last;
      readBlocks, quota', got, last := Pull(quota);
      if readBlocks == None {
        return None, quota', got, [];
      }
      ghost var full := rb.Full();
      assert full ==> rb.Contents() != [];
      writeBlocks, quota', gone := Push(quota');
      assert full && gone == [] && dst.ends == old(dst.ends) ==> rb.Full();
      if writeBlocks == None {
        return None, quota', got, gone;
      }
      assert quota' == quota ==> got == [] && gone == [];
      var cannotRead := readBlocks.value || rb.Full();
      var cannotWrite := writeBlocks.value || rb.Empty();
      blocked := Some(cannotRead && cannotWrite);
    }

    /**
     One turn. false: no progress is possible before an end reports that it is ready, and each end that
     would be needed has reported in this call that it is not. true: the quota is used up, or an end was
     given up in this call. None: a system call failed.
     */
    method Drive() returns (more: Option<bool>, ghost got: seq<Byte>, ghost gone: seq<Byte>)
      requires Valid()
      modifies rb, rb.mem, src, dst, this
      ensures Valid() && src.taken == old(src.taken) + got && released == old(released) + gone
      ensures |got| + |gone| <= 16384 + rb.mem.Length - 1
      ensures more == Some(false) ==>
                && (src.stalls > old(src.stalls) || rb.Full())
                && (dst.stalls > old(dst.stalls) || rb.Empty() || dstFailed)
      ensures more == Some(true) ==>
                |got| + |gone| >= 16384 || src.ends > old(src.ends) || dst.ends > old(dst.ends)
      ensures more == None <==> src.throws + dst.throws > old(src.throws + dst.throws)
      ensures srcEof == (old(srcEof) || src.ends > old(src.ends)) && dstFailed == (old(dstFailed) || dst.ends > old(dst.ends))
    {
      hide Offered, Kept, Sent, Window, Pow2, Stream, FirstRead, RoomAhead, StopsAt;
      var quota: nat := BYTES_QUOTA;
      got, gone := [], [];
      while quota > 0
        invariant Valid() && src.taken == old(src.taken) + got && released == old(released) + gone
        invariant quota == Less(BYTES_QUOTA, |got| + |gone|)
        invariant |got| + |gone| <= BYTES_QUOTA + rb.mem.Length - 1
        invariant src.stalls >= old(src.stalls) && dst.stalls >= old(dst.stalls)
        invariant src.ends >= old(src.ends) && dst.ends >= old(dst.ends)
        invariant src.throws + dst.throws == old(src.throws + dst.throws)
        invariant srcEof == (old(srcEof) || src.ends > old(src.ends)) && dstFailed == (old(dstFailed) || dst.ends > old(dst.ends))
        decreases quota
      {
        var before := quota;
        ghost var pulled: seq<Byte>, pushed: seq<Byte>;
        var blocked: Option<bool>;
        blocked, quota, pulled, pushed := Round(quota);
        got, gone := got + pulled, gone + pushed;
        if blocked == None {
          return None, got, gone;
        }
        if blocked.value {
          return Some(false), got, gone;
        }
        if quota == before {
          break;
        }
      }
      return Some(true), got, gone;
    }

    /**
     While the sink works: what is released is a beginning of the source's stream and, with the ring's
     contents, all that was read of it; the sink has that beginning exactly, if and only if no call that
     failed to report success had some bytes accepted, and otherwise that many bytes more.
     */
    lemma {:induction false} SinkStream()
      requires Valid() && !dstFailed
      ensures released + rb.Contents() == src.taken <= src.whole
      ensures |dst.accepted| == |released| + Lost(attempts)
      ensures dst.accepted == released
         <==> forall k :: 0 <= k < |attempts| && !attempts[k].kept ==> attempts[k].data == []
    {
      SentIsKeptAndLost(attempts);
      NothingLostIff(attempts);
    }
  }
}
