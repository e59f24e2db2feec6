/** Reading a descriptor to its end into a growing buffer, and writing a buffer completely. */
module Streams {
  import opened Results
  import opened RingBuffer

  const PROBE_SIZE: nat := 32
  const DEFAULT_CHUNK: nat := 8192
  const MAX_CHUNK: nat := 64 * 1024

  // ---- reading ----

  /** The next read returns an error, or at least one byte, but no more than a limit, if there is one. */
  datatype ReadAnswer = Error(errno: int) | AtMost(limit: nat)

  /** An open file, the place in it, and what its reads will report; then they return what is asked for. */
  class File {
    const content: seq<Byte>
    var pos: nat
    var answers: seq<ReadAnswer>
    /** Whether a probe read was short before the end of the file. */
    ghost var shortProbe: bool
    /** How many bytes each read asked for. */
    ghost var asked: seq<nat>

    constructor (content: seq<Byte>, answers: seq<ReadAnswer>)
      ensures this.content == content && pos == 0 && this.answers == answers && !shortProbe && asked == []
    {
      this.content, this.answers := content, answers;
      pos, shortProbe, asked := 0, false, [];
    }

    predicate Valid()
      reads this
    {
      pos <= |content|
    }

    /** No read will fail. */
    ghost predicate Readable()
      reads this
    {
      forall k :: 0 <= k < |answers| ==> answers[k].AtMost?
    }

    method Read(n: nat) returns (r: Result<seq<Byte>, int>)
      requires Valid()
      modifies this`pos, this`answers, this`asked
      ensures Valid() && asked == old(asked) + [n]
      ensures r.Success? ==> |r.value| <= n && pos == old(pos) + |r.value| && r.value == content[old(pos)..pos]
      ensures r.Success? && r.value == [] && n > 0 ==> pos == |content|
      ensures r.Failure? ==> pos == old(pos) && !old(Readable())
      ensures old(Readable()) ==> Readable()
    {
      asked := asked + [n];
      var most := n;
      if answers != [] {
        var a := answers[0];
        answers := answers[1..];
        if a.Error? {
          return Failure(a.errno);
        }
        if 0 < a.limit < most {
          most := a.limit;
        }
      }
      if |content| - pos < most {
        most := |content| - pos;
      }
      r := Success(content[pos..pos + most]);
      pos := pos + most;
    }
  }

  /** std::vector<std::byte>: its elements and its capacity. */
  datatype Buffer = Buffer(bytes: seq<Byte>, capacity: nat)

  predicate Fits(b: Buffer) {
    |b.bytes| <= b.capacity
  }

  function Reserve(b: Buffer, n: nat): Buffer {
    if b.capacity < n then b.(capacity := n) else b
  }

  function Append(b: Buffer, bytes: seq<Byte>): (r: Buffer)
    ensures Fits(r)
  {
    var all := b.bytes + bytes;
    Buffer(all, if |all| <= b.capacity then b.capacity else |all|)
  }

  function Least(a: nat, b: nat): nat {
    if a < b then a else b
  }

  /** What has been read since a place in the file stands at the end of the buffer. */
  ghost predicate ReadSince(file: File, from: nat, before: seq<Byte>, b: Buffer)
    reads file
  {
    from <= file.pos <= |file.content| && Fits(b) && b.bytes == before + file.content[from..file.pos]
  }

  lemma {:induction false} ReadMore(content: seq<Byte>, from: nat, mid: nat, to: nat, before: seq<Byte>)
    requires from <= mid <= to <= |content|
    ensures (before + content[from..mid]) + content[mid..to] == before + content[from..to]
  {
  }

  /** probe_and_grow: true is the end, or what is taken for it. */
  method ProbeAndGrow(file: File, b: Buffer, ghost from: nat, ghost before: seq<Byte>) returns (done: Result<bool, int>, b': Buffer)
    requires file.Valid() && ReadSince(file, from, before, b)
    modifies file
    ensures file.Valid() && ReadSince(file, from, before, b') && file.asked == old(file.asked) + [32]
    ensures b'.capacity == if |b'.bytes| == |b.bytes| + 32 then Reserve(b, |b'.bytes| + 8192).capacity
                           else if |b'.bytes| <= b.capacity then b.capacity else |b'.bytes|
    ensures done.Success? ==> (done.value <==> |b'.bytes| < |b.bytes| + 32)
    ensures done == Success(true) ==> file.pos == |file.content| || (file.shortProbe && |b'.bytes| > |b.bytes|)
    ensures done == Success(false) ==> |b'.bytes| < b'.capacity && |b'.bytes| > |b.bytes|
    ensures file.shortProbe ==> old(file.shortProbe) || (done == Success(true) && file.pos < |file.content|)
    ensures old(file.Readable()) ==> file.Readable() && done.Success?
  {
    ghost var was := file.pos;
    var probe := file.Read(PROBE_SIZE);
    if probe.Failure? {
      return Failure(probe.error), b;
    }
    ReadMore(file.content, from, was, file.pos, before);
    if |probe.value| == 0 {
      return Success(true), b;
    }
    b' := b;
    if |probe.value| == PROBE_SIZE {
      b' := Reserve(b', |b'.bytes| + PROBE_SIZE + DEFAULT_CHUNK);
    }
    b' := Append(b', probe.value);
    done := Success(|probe.value| < PROBE_SIZE);
    if |probe.value| < PROBE_SIZE && file.pos < |file.content| {
      file.shortProbe := true;
    }
  }

  /** One read into the free capacity, but no more than a chunk. */
  method ReadChunk(file: File, b: Buffer, chunk: nat, ghost from: nat, ghost before: seq<Byte>)
    returns (n: Result<nat, int>, full: bool, b': Buffer)
    requires file.Valid() && ReadSince(file, from, before, b) && |b.bytes| < b.capacity && chunk > 0
    modifies file`pos, file`answers, file`asked
    ensures file.Valid() && ReadSince(file, from, before, b') && b'.capacity == b.capacity
    ensures var most := if b.capacity - |b.bytes| < chunk then b.capacity - |b.bytes| else chunk;
            file.asked == old(file.asked) + [most] && (n.Success? ==> (full <==> n.value == most))
    ensures n.Success? ==> |b'.bytes| == |b.bytes| + n.value
    ensures n == Success(0) ==> file.pos == |file.content|
    ensures n.Success? && n.value > 0 ==> file.pos > old(file.pos)
    ensures old(file.Readable()) ==> file.Readable() && n.Success?
  {
    ghost var was := file.pos;
    var toRead := if b.capacity - |b.bytes| < chunk then b.capacity - |b.bytes| else chunk;
    var r := file.Read(toRead);
    if r.Failure? {
      return Failure(r.error), false, b;
    }
    ReadMore(file.content, from, was, file.pos, before);
    b' := Append(b, r.value);
    n, full := Success(|r.value|), |r.value| == toRead;
  }

  /** The size of the first read: a probe when there is next to no room and no hint; else the room, up to a chunk. */
  function FirstSize(b: Buffer, hint: nat): nat
    requires Fits(b)
  {
    var room := if hint > 0 && b.capacity < |b.bytes| + hint + 1024 then hint + 1024 else b.capacity - |b.bytes|;
    if hint == 0 && room < 32 then 32 else if room < 8192 then room else 8192
  }

  /** A chunk size: it doubles from 8 KiB up to 64 KiB. */
  predicate IsChunk(n: int) {
    n in {8192, 16384, 32768, 65536}
  }

  /**
   read_to_end, given the size hint that fstat and lseek yield. On success the buffer has gained the file
   from the place it was read from to its end, unless a probe was short before the end; a buffer without
   capacity and a file with a size hint are never probed. No read asks for more than 64 KiB, and a hint that
   is large enough spares the buffer from growing while it is read into.
   */
  method ReadToEnd(file: File, b: Buffer, hint: nat) returns (r: Result<nat, int>, b': Buffer)
    requires file.Valid() && Fits(b)
    modifies file
    ensures file.Valid() && ReadSince(file, old(file.pos), b.bytes, b')
    ensures r.Success? ==> r.value == |b'.bytes| - |b.bytes| && (file.pos == |file.content| || file.shortProbe)
    ensures b.capacity == 0 && hint > 0 ==> file.shortProbe == old(file.shortProbe)
    ensures old(file.Readable()) ==> r.Success?
    ensures AskedSince(file.asked, old(file.asked)) && file.asked[|old(file.asked)|] == FirstSize(b, hint)
    ensures hint > 0 && |file.content| <= old(file.pos) + hint ==> b'.capacity == Reserve(b, |b.bytes| + hint + 1024).capacity
    ensures hint == 0 && b.capacity - |b.bytes| >= 32 && |b.bytes| + |file.content| - old(file.pos) <= b.capacity
            ==> b'.capacity == b.capacity
  {
    ghost var from := file.pos;
    assert b.bytes + file.content[from..from] == b.bytes;
    b' := b;
    if hint > 0 {
      b' := Reserve(b', |b'.bytes| + hint + 1024);
    }
    ghost var probed := hint == 0 && b'.capacity - |b'.bytes| < PROBE_SIZE;
    if hint == 0 && b'.capacity - |b'.bytes| < PROBE_SIZE {
      var done;
      done, b' := ProbeAndGrow(file, b', from, b.bytes);
      if done.Failure? {
        return Failure(done.error), b';
      }
      if done.value {
        return Success(|b'.bytes| - |b.bytes|), b';
      }
    }
    ghost var asked := file.asked;
    ghost var room := b'.capacity - |b'.bytes|;
    var e;
    e, b' := ReadOn(file, b', b.capacity, from, b.bytes);
    assert probed ==> file.asked[|old(file.asked)|] == asked[|old(file.asked)|] == 32;
    r := match e case None => Success(|b'.bytes| - |b.bytes|) case Some(n) => Failure(n);
  }

  /** The reads asked for since then, at least one, none for more than 64 KiB. */
  ghost predicate AskedSince(asked: seq<nat>, was: seq<nat>) {
    |was| < |asked| && asked[..|was|] == was && forall k :: |was| <= k < |asked| ==> asked[k] <= 65536
  }

  /** The loop of read_to_end, on a buffer with room in it. */
  method ReadOn(file: File, b: Buffer, initial: nat, ghost from: nat, ghost before: seq<Byte>)
    returns (e: Option<int>, b': Buffer)
    requires file.Valid() && ReadSince(file, from, before, b) && |b.bytes| < b.capacity
    modifies file
    ensures file.Valid() && ReadSince(file, from, before, b')
    ensures e == None ==> file.pos == |file.content| || file.shortProbe
    ensures initial == 0 || initial < b.capacity ==> file.shortProbe == old(file.shortProbe)
    ensures old(file.Readable()) ==> e == None
    ensures AskedSince(file.asked, old(file.asked))
    ensures file.asked[|old(file.asked)|] == Least(b.capacity - |b.bytes|, 8192)
    ensures |b.bytes| + |file.content| - old(file.pos) < b.capacity ==> b'.capacity == b.capacity
    ensures b.capacity == initial && |b.bytes| + |file.content| - old(file.pos) == b.capacity ==> b'.capacity == b.capacity
  {
    hide ReadSince, AskedSince, IsChunk;
    BeginsAsChunk();
    ghost var asked, first := file.asked, Least(b.capacity - |b.bytes|, 8192);
    ghost var left := |file.content| - file.pos;
    SinceIsThere(file, from, before, b);
    b' := b;
    var chunk := DEFAULT_CHUNK;
    var atEnd := false;
    while !atEnd
      invariant file.Valid() && ReadSince(file, from, before, b') && IsChunk(chunk)
      invariant atEnd ==> file.pos == |file.content| || file.shortProbe
      invariant initial == 0 || initial < b.capacity ==> file.shortProbe == old(file.shortProbe)
      invariant b'.capacity >= b.capacity && (old(file.Readable()) ==> file.Readable())
      invariant if file.asked == asked then b' == b && chunk == 8192 && !atEnd && file.pos == old(file.pos) else Begun(file.asked, asked, first)
      invariant |b.bytes| + left < b.capacity || (b.capacity == initial && |b.bytes| + left == b.capacity) ==> b'.capacity == b.capacity
      decreases !atEnd, |file.content| - file.pos
    {
      SinceIsThere(file, from, before, b');
      if |b'.bytes| == b'.capacity {
        var done;
        done, b' := MakeRoom(file, b', initial, chunk, from, before, asked, first);
        if done.Failure? {
          return Some(done.error), b';
        }
        if done.value {
          break;
        }
        SinceIsThere(file, from, before, b');
      }
      var n;
      n, chunk, b' := ReadTurn(file, b', chunk, from, before, asked, first);
      if n.Failure? {
        return Some(n.error), b';
      }
      atEnd := n.value == 0;
    }
    e := None;
  }

  /** One read of the loop; a chunk that was filled doubles, up to the limit. */
  method ReadTurn(file: File, b: Buffer, chunk: nat, ghost from: nat, ghost before: seq<Byte>, ghost asked: seq<nat>, ghost first: nat)
    returns (n: Result<nat, int>, chunk': nat, b': Buffer)
    requires file.Valid() && ReadSince(file, from, before, b) && |b.bytes| < b.capacity && IsChunk(chunk)
    requires if file.asked == asked then Least(b.capacity - |b.bytes|, chunk) == first else Begun(file.asked, asked, first)
    modifies file`pos, file`answers, file`asked
    ensures file.Valid() && ReadSince(file, from, before, b') && IsChunk(chunk') && b'.capacity == b.capacity
    ensures n == Success(0) ==> file.pos == |file.content|
    ensures n.Success? && n.value > 0 ==> file.pos > old(file.pos)
    ensures old(file.Readable()) ==> file.Readable() && n.Success?
    ensures Begun(file.asked, asked, first) && file.asked != asked
    ensures n.Success? ==> |b'.bytes| == |b.bytes| + n.value
    ensures n.Success? ==> chunk' == if n.value > 0 && n.value == Least(b.capacity - |b.bytes|, chunk) && chunk < 65536 then 2 * chunk else chunk
  {
    hide ReadSince, AskedSince, Begun;
    ghost var was := file.asked;
    var full;
    n, full, b' := ReadChunk(file, b, chunk, from, before);
    BegunMore(was, asked, first, file.asked[|was|]);
    chunk' := chunk;
    if n.Success? && n.value > 0 && full && chunk < MAX_CHUNK {
      chunk' := chunk * 2;
    }
  }

  lemma {:induction false} BeginsAsChunk()
    ensures IsChunk(8192) && forall n: int :: IsChunk(n) ==> 0 < n <= 65536
  {
  }

  /** A full buffer: a probe when it is still the caller's, more capacity otherwise. */
  method MakeRoom(file: File, b: Buffer, initial: nat, chunk: nat, ghost from: nat, ghost before: seq<Byte>, ghost asked: seq<nat>, ghost first: nat)
    returns (done: Result<bool, int>, b': Buffer)
    requires file.Valid() && ReadSince(file, from, before, b) && |b.bytes| == b.capacity && chunk > 0 && Begun(file.asked, asked, first)
    modifies file
    ensures file.Valid() && ReadSince(file, from, before, b') && Begun(file.asked, asked, first)
    ensures done == Success(true) ==> file.pos == |file.content| || file.shortProbe
    ensures done == Success(false) ==> |b'.bytes| < b'.capacity && (file.pos > old(file.pos) || file.pos == old(file.pos))
    ensures b.capacity != initial || initial == 0 ==> file.shortProbe == old(file.shortProbe)
    ensures b'.capacity >= b.capacity && (old(file.Readable()) ==> file.Readable() && done.Success?)
    ensures b.capacity == initial > 0 && old(file.pos) == |file.content| ==> b'.capacity == b.capacity
  {
    hide ReadSince, AskedSince;
    if b.capacity == initial && initial > 0 {
      ghost var was := file.asked;
      SinceIsThere(file, from, before, b);
      done, b' := ProbeAndGrow(file, b, from, before);
      SinceIsThere(file, from, before, b');
      BegunMore(was, asked, first, 32);
    } else {
      ReservedSince(file, from, before, b, |b.bytes| + chunk);
      b' := Reserve(b, |b.bytes| + chunk);
      done := Success(false);
    }
  }

  /** Reads have been asked for since then, and the first of them for so much. */
  ghost predicate Begun(asked: seq<nat>, was: seq<nat>, first: nat) {
    |was| < |asked| && AskedSince(asked, was) && asked[|was|] == first
  }

  lemma {:induction false} BegunMore(asked: seq<nat>, was: seq<nat>, first: nat, n: nat)
    requires n <= 65536 && if asked == was then n == first else Begun(asked, was, first)
    ensures Begun(asked + [n], was, first) && asked + [n] != was
  {
  }

  lemma {:induction false} ReservedSince(file: File, from: nat, before: seq<Byte>, b: Buffer, n: nat)
    requires ReadSince(file, from, before, b)
    ensures ReadSince(file, from, before, Reserve(b, n))
  {
  }

  lemma {:induction false} SinceIsThere(file: File, from: nat, before: seq<Byte>, b: Buffer)
    requires ReadSince(file, from, before, b)
    ensures |b.bytes| <= b.capacity && file.pos <= |file.content| && |b.bytes| == |before| + file.pos - from
  {
  }

  /** The hint of an open regular file: what is left of it, or nothing when its size cannot be had. */
  function SizeHint(size: nat, pos: nat, known: bool): nat {
    if known && size > pos then size - pos else 0
  }

  /** read_status, up to the parsing: the whole file, however its reads are cut up. */
  method ReadFile(file: File) returns (r: Result<seq<Byte>, int>)
    requires file.Valid() && file.pos == 0 && !file.shortProbe
    modifies file
    ensures r.Success? ==> r.value == file.content
    ensures old(file.Readable()) ==> r.Success?
  {
    var n, b := ReadToEnd(file, Buffer([], 0), SizeHint(|file.content|, file.pos, true));
    if n.Failure? {
      return Failure(n.error);
    }
    assert [] + file.content[0..file.pos] == file.content[..file.pos];
    assert file.content == [] || file.content[0..|file.content|] == file.content;
    r := Success(b.bytes);
  }

  // ---- writing ----

  /** A write to a regular file: an error, or some bytes of those given, at least one. */
  datatype WriteAnswer = WriteError(errno: int) | Accepts(limit: nat)

  /** How many bytes the next write takes of n. */
  function Taken(answers: seq<WriteAnswer>, n: nat): Result<nat, int> {
    if answers == [] then Success(n)
    else
      match answers[0]
      case WriteError(e) => Failure(e)
      case Accepts(k) => Success(if 0 < k < n then k else n)
  }
}
