/**
 Writing a list of buffers with writev: batches of at most IOV_MAX, and a private copy of the batch as
 soon as a write ends inside a buffer.
 */
module VectoredWrite {
  import opened Results
  import opened RingBuffer
  import opened Descriptors

  /** A buffer is the bytes it spans: to move its base forward by c is to drop the first c of them. */
  type Iovec = seq<Byte>

  const IOV_MAX := 1024
  const STACK_IOV := 64

  /** The bytes of the buffers, one after the other. */
  function Gathered(vs: seq<Iovec>): seq<Byte> {
    if vs == [] then [] else vs[0] + Gathered(vs[1..])
  }

  lemma {:induction false} GatheredAppend(a: seq<Iovec>, b: seq<Iovec>)
    ensures Gathered(a + b) == Gathered(a) + Gathered(b)
  {
    if a == [] {
      assert a + b == b;
    } else {
      var whole := a + b;
      assert whole[0] == a[0] && whole[1..] == a[1..] + b;
      GatheredAppend(a[1..], b);
      assert Gathered(whole) == a[0] + (Gathered(a[1..]) + Gathered(b));
    }
  }

  lemma {:induction false} GatheredUpTo(vs: seq<Iovec>, m: nat)
    requires m <= |vs|
    ensures Gathered(vs[..m]) <= Gathered(vs)
  {
    assert vs == vs[..m] + vs[m..];
    GatheredAppend(vs[..m], vs[m..]);
  }

  lemma {:induction false} AllEmpty(vs: seq<Iovec>)
    requires Gathered(vs) == []
    ensures forall k :: 0 <= k < |vs| ==> vs[k] == []
  {
    if vs != [] {
      AllEmpty(vs[1..]);
    }
  }

  /** A batch, but not the last one, ends after m buffers, and its last buffer is empty. */
  predicate EmptyEnd(vs: seq<Iovec>, m: nat) {
    0 < m < |vs| && m % 1024 == 0 && vs[m - 1] == []
  }

  /** Of the buffers up to next, those of the batch at hand, and nothing else, are still to be written. */
  ghost predicate Left(all: seq<Iovec>, next: nat, batch: seq<Iovec>, written: seq<Byte>) {
    next <= |all| && Gathered(all[..next]) == written + Gathered(batch)
  }

  /** Batches are full, none that is over ended in an empty buffer, and the one at hand ends as it began. */
  ghost predicate Batched(all: seq<Iovec>, next: nat, batch: seq<Iovec>) {
    && next <= |all| && (next < |all| ==> next % IOV_MAX == 0)
    && (forall m: nat :: m < next ==> !EmptyEnd(all, m))
    && (batch == [] ==> next == 0 || all[next - 1] != [])
    && (batch != [] ==> next > 0 && (batch[|batch| - 1] == [] <==> all[next - 1] == []))
  }

  ghost predicate Stands(all: seq<Iovec>, next: nat, batch: seq<Iovec>, written: seq<Byte>) {
    Left(all, next, batch, written) && Batched(all, next, batch)
  }

  // ---- the steps of the loop ----

  lemma {:induction false} NewBatch(all: seq<Iovec>, next: nat, written: seq<Byte>, n: nat)
    requires Stands(all, next, [], written) && next < |all|
    requires n == if |all| - next <= IOV_MAX then |all| - next else IOV_MAX
    ensures Stands(all, next + n, all[next..next + n], written)
  {
    var batch := all[next..next + n];
    assert all[..next + n] == all[..next] + batch;
    GatheredAppend(all[..next], batch);
    forall m: nat | m < next + n ensures !EmptyEnd(all, m) {
      if next < m {
        assert m % IOV_MAX == m - next;
      }
    }
    assert batch[|batch| - 1] == all[next + n - 1];
  }

  /** Where the inner loop stands: done bytes of what the batch held are accounted for. */
  ghost predicate Consumed(all: seq<Iovec>, next: nat, batch: seq<Iovec>, written: seq<Byte>, whole: seq<Byte>, done: nat) {
    && done <= |whole| && whole[done..] == Gathered(batch)
    && Stands(all, next, batch, written + whole[..done])
  }

  lemma {:induction false} ConsumeOne(all: seq<Iovec>, next: nat, batch: seq<Iovec>, written: seq<Byte>, whole: seq<Byte>, done: nat)
    requires Consumed(all, next, batch, written, whole, done) && batch != []
    requires |batch[0]| <= |whole| - done && (|batch| == 1 ==> batch[0] != [])
    ensures Consumed(all, next, batch[1..], written, whole, done + |batch[0]|)
  {
  }

  lemma {:induction false} ConsumePart(all: seq<Iovec>, next: nat, batch: seq<Iovec>, written: seq<Byte>, whole: seq<Byte>, done: nat, c: nat)
    requires Consumed(all, next, batch, written, whole, done) && batch != [] && c < |batch[0]|
    ensures Consumed(all, next, batch[0 := batch[0][c..]], written, whole, done + c)
  {
  }

  lemma {:induction false} ConsumeNone(all: seq<Iovec>, next: nat, batch: seq<Iovec>, written: seq<Byte>, whole: seq<Byte>)
    requires Stands(all, next, batch, written) && whole == Gathered(batch)
    ensures Consumed(all, next, batch, written, whole, 0)
  {
  }

  /** Of a batch with something left to consume, a last buffer is not empty. */
  lemma {:induction false} BatchHead(all: seq<Iovec>, next: nat, batch: seq<Iovec>, written: seq<Byte>, whole: seq<Byte>, done: nat)
    requires Consumed(all, next, batch, written, whole, done) && batch != []
    ensures |batch| == 1 && done < |whole| ==> batch[0] != []
    ensures |batch[0]| <= |whole| - done
  {
    hide Stands;
    assert Gathered(batch) == batch[0] + Gathered(batch[1..]);
  }

  lemma {:induction false} ConsumedAll(all: seq<Iovec>, next: nat, batch: seq<Iovec>, written: seq<Byte>, whole: seq<Byte>, done: nat)
    requires Consumed(all, next, batch, written, whole, done)
    ensures Stands(all, next, batch, written + whole[..done])
    ensures batch == [] ==> done == |whole|
  {
  }

  // ---- the loops ----

  /**
   The inner loop: c bytes of the batch, at least one, have been written. current is the batch's array
   and at the place in it; until copied is set it is the caller's array, which stays as it is. A cut
   uses up the count, so it is the last thing the loop does.
   */
  method Consume(ghost all: seq<Iovec>, ghost next: nat, ghost written: seq<Byte>,
                 current: array<Iovec>, at: nat, active: nat, copied: bool, c: nat)
    returns (current': array<Iovec>, at': nat, active': nat, copied': bool)
    requires at + active <= current.Length
    requires Stands(all, next, current[at..at + active], written)
    requires 0 < c <= |Gathered(current[at..at + active])|
    modifies if copied then {current} else {}
    ensures at' + active' <= current'.Length
    ensures if copied' && !copied then fresh(current') else current' == current && copied' == copied
    ensures var batch := old(current[at..at + active]);
            var batch' := current'[at'..at' + active'];
            Stands(all, next, batch', written + Gathered(batch)[..c])
  {
    hide Stands, Gathered, Consumed;
    ghost var batch := current[at..at + active];
    ghost var whole := Gathered(batch);
    var rest: nat;
    at', active', rest := SkipWritten(all, next, written, current, at, active, c);
    current', copied' := current, copied;
    batch := current[at'..at' + active'];
    if rest > 0 {
      current', at', copied' := CutFirst(current, at', active', copied, rest);
      ConsumePart(all, next, batch, written, whole, c - rest, rest);
      batch := batch[0 := batch[0][rest..]];
    }
    ConsumedAll(all, next, batch, written, whole, c);
  }

  /** The buffers that are written to their ends; rest bytes of the one after them are written too. */
  method SkipWritten(ghost all: seq<Iovec>, ghost next: nat, ghost written: seq<Byte>,
                     current: array<Iovec>, at: nat, active: nat, c: nat)
    returns (at': nat, active': nat, rest: nat)
    requires at + active <= current.Length
    requires Stands(all, next, current[at..at + active], written)
    requires 0 < c <= |Gathered(current[at..at + active])|
    ensures at' + active' == at + active && rest <= c
    ensures Consumed(all, next, current[at'..at' + active'], written, Gathered(current[at..at + active]), c - rest)
    ensures rest > 0 ==> active' > 0 && rest < |current[at']|
  {
    hide Stands, Gathered, Consumed;
    at', active', rest := at, active, c;
    ghost var batch := current[at..at + active];
    ghost var whole := Gathered(batch);
    ConsumeNone(all, next, batch, written, whole);
    while rest > 0 && active' > 0 && rest >= |current[at']|
      invariant at' + active' == at + active && batch == current[at'..at' + active']
      invariant rest <= c && Consumed(all, next, batch, written, whole, c - rest)
      decreases active'
    {
      ghost var done := c - rest;
      BatchHead(all, next, batch, written, whole, done);
      ConsumeOne(all, next, batch, written, whole, done);
      rest := rest - |current[at']|;
      at' := at' + 1;
      active' := active' - 1;
      batch := batch[1..];
    }
    ConsumedAll(all, next, batch, written, whole, c - rest);
  }

  /** The buffer at hand loses its first c bytes, in a private copy of the batch. */
  method CutFirst(current: array<Iovec>, at: nat, active: nat, copied: bool, c: nat)
    returns (current': array<Iovec>, at': nat, copied': bool)
    requires 0 < active && at + active <= current.Length && c <= |current[at]|
    modifies if copied then {current} else {}
    ensures at' + active <= current'.Length && copied'
    ensures if copied then current' == current else fresh(current')
    ensures var batch := old(current[at..at + active]); current'[at'..at' + active] == batch[0 := batch[0][c..]]
  {
    current', at', copied' := current, at, copied;
    if !copied {
      var copy := new Iovec[if active > STACK_IOV then active else STACK_IOV](_ => []);
      CopyInto(current, at, active, copy);
      current', at', copied' := copy, 0, true;
    }
    assert current'[at'..at' + active] == old(current[at..at + active]);
    current'[at'] := current'[at'][c..];
  }

  method CopyInto(from: array<Iovec>, at: nat, n: nat, to: array<Iovec>)
    requires at + n <= from.Length && n <= to.Length && from != to
    modifies to
    ensures to[..n] == from[at..at + n]
  {
    var k := 0;
    while k < n
      invariant 0 <= k <= n && to[..k] == from[at..at + k]
    {
      to[k] := from[at + k];
      k := k + 1;
    }
  }

  /** The active buffers of an array from a place in it on. */
  ghost function BatchOf(current: array<Iovec>, at: nat, active: nat): (r: seq<Iovec>)
    requires at + active <= current.Length
    reads current
    ensures |r| == active
  {
    current[at..at + active]
  }

  // ---- the script ----

  /** What a call reports at the front of the script; with nothing to write it reports 0 at once. */
  predicate Reports(e: WriteEvent, script: seq<WriteEvent>, empty: bool) {
    if empty then e == Room(0)
    else if script == [] then e == WriteWouldBlock
    else e == script[0] || (Takes(script[0]) && Takes(e) && e.n <= script[0].n)
  }

  predicate Takes(e: WriteEvent) {
    e.Room? && e.n > 0
  }

  function Behind(script: seq<WriteEvent>, empty: bool): seq<WriteEvent> {
    if empty || script == [] then script else script[1..]
  }

  /** How many calls take something before the first that does not, unless it is interrupted. */
  function TakersAhead(script: seq<WriteEvent>): nat {
    if script == [] then 0
    else if Takes(script[0]) then 1 + TakersAhead(script[1..])
    else if script[0].WriteInterrupted? then TakersAhead(script[1..])
    else 0
  }

  /** What is left of the script decides the rest; the calls made have taken a byte at least and their room at most. */
  ghost predicate Spent(script: seq<WriteEvent>, left: seq<WriteEvent>, total: nat) {
    && StopsAt(script) == StopsAt(left)
    && TakersAhead(script) <= total + TakersAhead(left)
    && total + RoomAhead(left) <= RoomAhead(script)
  }

  lemma {:induction false} SpentNothing(script: seq<WriteEvent>)
    ensures Spent(script, script, 0)
  {
  }

  lemma {:induction false} SpentOne(script: seq<WriteEvent>, left: seq<WriteEvent>, total: nat, e: WriteEvent, empty: bool)
    requires Spent(script, left, total) && Reports(e, left, empty) && (Takes(e) || e.WriteInterrupted?)
    ensures Spent(script, Behind(left, empty), total + if e.Room? then e.n else 0)
  {
  }

  /** The call that stops the loop is the first one of the script that takes nothing. */
  lemma {:induction false} SpentAll(script: seq<WriteEvent>, left: seq<WriteEvent>, total: nat, e: WriteEvent)
    requires Spent(script, left, total) && Reports(e, left, false) && !Takes(e) && !e.WriteInterrupted?
    ensures e == StopsAt(script) && TakersAhead(script) <= total
  {
  }

  /** One writev of the batch at hand, and the accounting for it when it wrote something. */
  method WriteOnce(sink: Sink, ghost was: seq<Byte>, ghost all: seq<Iovec>, ghost next: nat, ghost written: seq<Byte>,
                   current: array<Iovec>, at: nat, active: nat, copied: bool)
    returns (e: WriteEvent, current': array<Iovec>, at': nat, active': nat, copied': bool, ghost written': seq<Byte>)
    requires at + active <= current.Length
    requires Stands(all, next, BatchOf(current, at, active), written) && sink.accepted == was + written
    modifies sink, if copied then {current} else {}
    ensures at' + active' <= current'.Length
    ensures if copied' && !copied then fresh(current') else current' == current && copied' == copied
    ensures Stands(all, next, BatchOf(current', at', active'), written')
    ensures sink.accepted == was + written'
    ensures |written'| == |written| + if e.Room? then e.n else 0
    ensures |written'| == |written| ==> written' == written && BatchOf(current', at', active') == old(BatchOf(current, at, active))
    ensures var empty := old(Gathered(BatchOf(current, at, active))) == [];
            Reports(e, old(sink.script), empty) && sink.script == Behind(old(sink.script), empty)
  {
    hide Stands, Gathered, Consumed;
    ghost var batch := BatchOf(current, at, active);
    e := sink.SystemWrite(Gathered(current[at..at + active]));
    current', at', active', copied', written' := current, at, active, copied, written;
    if e.Room? && e.n > 0 {
      current', at', active', copied' := Consume(all, next, written, current, at, active, copied, e.n);
      written' := written + Gathered(batch)[..e.n];
    }
  }

  /** When the batch at hand is used up, the next one of the caller's array. */
  method Refill(ghost all: seq<Iovec>, next: nat, ghost written: seq<Byte>, rs: array<Iovec>,
                current: array<Iovec>, at: nat, active: nat, copied: bool)
    returns (current': array<Iovec>, at': nat, active': nat, next': nat, copied': bool)
    requires rs[..] == all && next <= rs.Length && (next < rs.Length || active > 0)
    requires at + active <= current.Length && Stands(all, next, BatchOf(current, at, active), written)
    requires if copied then current != rs else current == rs
    ensures 0 < active' && at' + active' <= current'.Length && next' <= rs.Length
    ensures Stands(all, next', BatchOf(current', at', active'), written)
    ensures if copied' then copied && current' == current else current' == rs
  {
    current', at', active', next', copied' := current, at, active, next, copied;
    if active == 0 {
      active' := if rs.Length - next <= IOV_MAX then rs.Length - next else IOV_MAX;
      assert BatchOf(current, at, 0) == [];
      NewBatch(all, next, written, active');
      current', at', next', copied' := rs, next, next + active', false;
      assert BatchOf(rs, next, active') == all[next..next'];
    }
  }

  lemma {:induction false} NothingDone(all: seq<Iovec>)
    ensures Stands(all, 0, [], [])
  {
  }

  lemma {:induction false} AllDone(all: seq<Iovec>, written: seq<Byte>)
    requires Stands(all, |all|, [], written) && all != []
    ensures written == Gathered(all) != []
  {
    assert all[..|all|] == all;
    if Gathered(all) == [] {
      AllEmpty(all);
    }
  }

  /** Whether a write can come to an end with the batch at hand empty, and more to come. */
  lemma {:induction false} WhatIsLeft(all: seq<Iovec>, next: nat, batch: seq<Iovec>, written: seq<Byte>)
    requires Stands(all, next, batch, written) && batch != []
    ensures Gathered(batch) != [] ==> |written| < |Gathered(all)|
    ensures Gathered(batch) == [] && next < |all| ==> EmptyEnd(all, next) && written == Gathered(all[..next])
    ensures next <= |all| && (Gathered(batch) == [] && next == |all| ==> written == Gathered(all))
  {
    if Gathered(batch) == [] {
      AllEmpty(batch);
      assert all[..|all|] == all;
    } else {
      GatheredUpTo(all, next);
    }
  }

  /** What is written lies within every batch that ends in an empty buffer. */
  lemma {:induction false} WithinEmptyEnds(all: seq<Iovec>, next: nat, batch: seq<Iovec>, written: seq<Byte>)
    requires Stands(all, next, batch, written)
    ensures |written| <= |Gathered(all)| && written == Gathered(all)[..|written|]
    ensures forall m: nat :: EmptyEnd(all, m) ==> |written| <= |Gathered(all[..m])|
  {
    GatheredUpTo(all, next);
    forall m: nat | EmptyEnd(all, m) ensures |written| <= |Gathered(all[..m])| {
      assert next <= m;
      GatheredUpTo(all[..m], next);
      assert all[..m][..next] == all[..next];
    }
  }

  /** All is written, or the batch at hand, but not the last one, is and ends in an empty buffer. */
  ghost predicate DeadEnd(all: seq<Iovec>, total: nat) {
    total == |Gathered(all)| || exists m: nat :: EmptyEnd(all, m) && total == |Gathered(all[..m])|
  }

  /**
   What a status and a count say. At a dead end nothing more can be written, and the status tells whether
   anything was; everywhere else the first call of the script that takes nothing decides the status, and
   every call before it has taken something.
   */
  ghost predicate Accounted(all: seq<Iovec>, script: seq<WriteEvent>, nonblock: bool, status: Option<IOStatus>, total: nat) {
    && total <= |Gathered(all)| && total <= RoomAhead(script)
    && (forall m: nat :: EmptyEnd(all, m) ==> total <= |Gathered(all[..m])|)
    && status == (if all == [] then Some(Ok)
                  else if DeadEnd(all, total) then Some(if total > 0 then Ok else TryAgain)
                  else StatusOf(StopsAt(script), nonblock, total))
    && (!DeadEnd(all, total) ==> TakersAhead(script) <= total)
  }

  /** Unless a write returns 0, Success means every byte exactly when nothing but empty buffers follows
      the first batch that ends in one. */
  lemma {:induction false} SuccessIsComplete(all: seq<Iovec>, script: seq<WriteEvent>, nonblock: bool, total: nat)
    requires Accounted(all, script, nonblock, Some(Ok), total) && StopsAt(script) != Room(0)
    ensures total == |Gathered(all)| <==> forall m: nat :: EmptyEnd(all, m) ==> Gathered(all[..m]) == Gathered(all)
  {
    NoneGathered();
    StopsAtNothing(script);
    hide Gathered, StopsAt, RoomAhead, TakersAhead;
    forall m: nat | EmptyEnd(all, m) && total == |Gathered(all)| ensures Gathered(all[..m]) == Gathered(all) {
      GatheredUpTo(all, m);
    }
  }

  lemma {:induction false} StopsAtNothing(script: seq<WriteEvent>)
    ensures StopsAt(script).Room? ==> StopsAt(script) == Room(0)
    decreases |script|
  {
    if script != [] {
      StopsAtNothing(script[1..]);
    }
  }

  lemma {:induction false} NoneGathered()
    ensures Gathered([]) == []
  {
  }

  /** With something left in the batch at hand, the count is at no dead end. */
  lemma {:induction false} NotDeadEnd(all: seq<Iovec>, next: nat, batch: seq<Iovec>, written: seq<Byte>)
    requires Stands(all, next, batch, written) && Gathered(batch) != []
    ensures !DeadEnd(all, |written|)
  {
    hide EmptyEnd;
    GatheredUpTo(all, next);
    forall m: nat | EmptyEnd(all, m) && m <= |all| ensures |written| < |Gathered(all[..m])| {
      assert next <= m;
      GatheredUpTo(all[..m], next);
      assert all[..m][..next] == all[..next];
    }
    EmptyEndIsInside(all);
  }

  lemma {:induction false} EmptyEndIsInside(all: seq<Iovec>)
    ensures forall m: nat :: EmptyEnd(all, m) ==> m < |all|
  {
  }

  lemma {:induction false} StopsAccounted(all: seq<Iovec>, next: nat, batch: seq<Iovec>, written: seq<Byte>,
                                          script: seq<WriteEvent>, left: seq<WriteEvent>, e: WriteEvent, nonblock: bool)
    requires Stands(all, next, batch, written) && batch != [] && all != []
    requires Spent(script, left, |written|) && Reports(e, left, Gathered(batch) == []) && !Takes(e) && !e.WriteInterrupted?
    ensures |written| <= |Gathered(all)| && written == Gathered(all)[..|written|]
    ensures Accounted(all, script, nonblock, StatusOf(e, nonblock, |written|), |written|)
  {
    hide Stands, Gathered, EmptyEnd, StopsAt, RoomAhead, TakersAhead;
    WithinEmptyEnds(all, next, batch, written);
    if Gathered(batch) == [] {
      WhatIsLeft(all, next, batch, written);
    } else {
      NotDeadEnd(all, next, batch, written);
      SpentAll(script, left, |written|, e);
    }
  }

  lemma {:induction false} FinishesAccounted(all: seq<Iovec>, written: seq<Byte>, script: seq<WriteEvent>, left: seq<WriteEvent>, nonblock: bool)
    requires Stands(all, |all|, [], written) && all != [] && Spent(script, left, |written|)
    ensures |written| <= |Gathered(all)| && written == Gathered(all)[..|written|]
    ensures Accounted(all, script, nonblock, Some(Ok), |written|)
  {
    hide Stands, Gathered, EmptyEnd, StopsAt, RoomAhead, TakersAhead;
    AllDone(all, written);
    WithinEmptyEnds(all, |all|, [], written);
  }

  /** What one write makes of the accounts: the loop goes on, or its status is accounted for. */
  lemma {:induction false} OneWrite(all: seq<Iovec>, next: nat, before: seq<Iovec>, after: seq<Iovec>, done: seq<Byte>, written: seq<Byte>,
                                    script: seq<WriteEvent>, left: seq<WriteEvent>, e: WriteEvent, nonblock: bool)
    requires Stands(all, next, before, done) && before != [] && all != [] && Spent(script, left, |done|)
    requires Reports(e, left, Gathered(before) == []) && Stands(all, next, after, written)
    requires |written| == |done| + (if e.Room? then e.n else 0) && (|written| == |done| ==> written == done)
    ensures |written| <= |Gathered(all)| && written == Gathered(all)[..|written|]
    ensures if Takes(e) || e.WriteInterrupted? then Spent(script, Behind(left, Gathered(before) == []), |written|)
            else Accounted(all, script, nonblock, StatusOf(e, nonblock, |written|), |written|)
  {
    hide Stands, Gathered, EmptyEnd, Spent, Accounted, Reports, Behind;
    WithinEmptyEnds(all, next, after, written);
    if Takes(e) || e.WriteInterrupted? {
      SpentOne(script, left, |done|, e, Gathered(before) == []);
    } else {
      StopsAccounted(all, next, before, done, script, left, e, nonblock);
    }
  }

  /**
   write_vecs. However the system splits the writes, the sink has accepted a beginning of the gathered
   bytes, as many as are reported. The caller's array is not in the frame.
   */
  method WriteVecs(sink: Sink, rs: array<Iovec>) returns (status: Option<IOStatus>, total: nat)
    modifies sink
    ensures Accounted(rs[..], old(sink.script), sink.nonblock, status, total)
    ensures sink.accepted == old(sink.accepted) + Gathered(rs[..])[..total]
  {
    ghost var all := rs[..];
    if rs.Length == 0 {
      assert all == [];
      return Some(Ok), 0;
    }
    ghost var written: seq<Byte> := [];
    var next: nat := 0;
    var current := rs;
    var at: nat, active: nat, copied := 0, 0, false;
    total := 0;
    NothingDone(all);
    SpentNothing(sink.script);
    hide EmptyEnd, Stands, Gathered, Accounted, BatchOf, Spent, StopsAt, RoomAhead, TakersAhead, StatusOf;
    while next < rs.Length || active > 0
      invariant rs[..] == all
      invariant at + active <= current.Length && next <= rs.Length
      invariant Stands(all, next, BatchOf(current, at, active), written)
      invariant total == |written| && sink.accepted == old(sink.accepted) + written
      invariant if copied then fresh(current) && current != rs else current == rs
      invariant Spent(old(sink.script), sink.script, total)
      decreases |Gathered(all)| - total, |sink.script|
    {
      current, at, active, next, copied := Refill(all, next, written, rs, current, at, active, copied);
      ghost var before, left, done := BatchOf(current, at, active), sink.script, written;
      var e;
      e, current, at, active, copied, written := WriteOnce(sink, old(sink.accepted), all, next, written, current, at, active, copied);
      OneWrite(all, next, before, BatchOf(current, at, active), done, written, old(sink.script), left, e, sink.nonblock);
      if e.Room? && e.n > 0 {
        total := total + e.n;
      } else if !e.WriteInterrupted? {
        return StatusOf(e, sink.nonblock, total), total;
      }
    }
    FinishesAccounted(all, written, old(sink.script), sink.script, sink.nonblock);
    status := Some(Ok);
  }
}
