/**
 The ring buffer of the I/O forwarder: a memory mapped twice in a row, so that every window of up to the
 capacity is contiguous, and two counters that only ever grow, modulo the word size.
 */
module RingBuffer {
  import opened Results
  import opened Words

  type Byte = b: nat | b < 256

  const MAX_CAP: nat := (WORD - 1) / 4

  /** The capacity for a request: the page size doubled until it suffices, or none if that gets too far. */
  method Capacity(requested: nat, page: nat, ghost p: nat) returns (r: Option<nat>, ghost k: nat)
    requires page == Pow2(p) && p <= 62
    ensures r == None <==> requested > Pow2(62)
    ensures r.Some? ==> k <= 62 && r.value == Pow2(k) && r.value >= requested && r.value >= page
    ensures r.Some? && r.value > page ==> r.value < 2 * requested
  {
    WordIsPow2();
    hide Pow2;
    var cap := page;
    k := p;
    while cap < requested
      invariant p <= k <= 62 && cap == Pow2(k) && cap >= page
      invariant cap > page ==> cap < 2 * requested
      decreases 62 - k
    {
      PowersGrow(k, 62);
      if cap > MAX_CAP {
        PowersAreFar(k);
        return None, k;
      }
      PowersAreFar(k);
      cap := cap * 2;
      k := k + 1;
    }
    PowersGrow(k, 62);
    r := Some(cap);
  }

  lemma {:induction false} PowersGrow(a: nat, b: nat)
    requires a <= b
    ensures Pow2(a) <= Pow2(b)
    decreases b
  {
    if a < b {
      PowersGrow(a, b - 1);
    }
  }

  /** MAX_CAP lies just below 2^62. */
  lemma {:induction false} PowersAreFar(k: nat)
    requires k <= 62
    ensures Pow2(k) > MAX_CAP <==> k == 62
    ensures Pow2(k + 1) == 2 * Pow2(k)
  {
    WordIsPow2();
    if k < 62 {
      PowersGrow(k, 61);
      Pow2Sum(1, 61);
    }
  }

  /** The difference of two counters, as size_t computes it. */
  function Minus(a: nat, b: nat): (r: nat)
    requires a < WORD && b < WORD
    ensures r < WORD
  {
    if a >= b then a - b else a - b + WORD
  }

  lemma {:induction false} Wrapped(x: nat)
    requires x < 2 * WORD
    ensures x % WORD == if x < WORD then x else x - WORD
  {
  }

  // ---- windows of a memory that is mapped twice ----

  /** The byte of the memory that the i-th address after another, or after a counter, falls on. */
  function Slot(from: nat, i: nat, cap: nat): (r: nat)
    requires cap > 0
    ensures r < cap
  {
    (from + i) % cap
  }

  /** n bytes from an address on, going round. */
  function Window(mem: seq<Byte>, from: nat, n: nat): (r: seq<Byte>)
    requires mem != []
    ensures |r| == n
  {
    seq(n, i requires 0 <= i < n => mem[Slot(from, i, |mem|)])
  }

  ghost predicate SameSlots(a: nat, b: nat, cap: nat)
    requires cap > 0
  {
    forall i: nat :: Slot(a, i, cap) == Slot(b, i, cap)
  }

  lemma {:induction false} SameWindow(mem: seq<Byte>, a: nat, b: nat, n: nat)
    requires mem != [] && SameSlots(a, b, |mem|)
    ensures Window(mem, a, n) == Window(mem, b, n)
  {
  }

  /** A pointer into the first mapping and the counter it was masked from see the same bytes. */
  lemma {:induction false} MaskedSlots(counter: nat, cap: nat)
    requires cap > 0
    ensures SameSlots(counter % cap, counter, cap)
  {
    forall i: nat ensures Slot(counter % cap, i, cap) == Slot(counter, i, cap) {
      ModAdd(counter, i, cap);
    }
  }

  /** A counter may wrap at the word size, which the capacity divides. */
  lemma {:induction false} WrappedSlots(counter: nat, k: nat)
    requires k <= 64
    ensures SameSlots(counter % WORD, counter, Pow2(k))
  {
    WordIsMultiple(k);
    forall i: nat ensures Slot(counter % WORD, i, Pow2(k)) == Slot(counter, i, Pow2(k)) {
      WrapKeepsPlace(counter, i, Pow2(k), WORD, Pow2(64 - k));
    }
  }

  lemma {:induction false} ShiftedSlot(from: nat, a: nat, i: nat, cap: nat)
    requires cap > 0
    ensures Slot(from, a + i, cap) == Slot(from + a, i, cap)
  {
  }

  lemma {:induction false} SplitWindow(mem: seq<Byte>, from: nat, a: nat, b: nat)
    requires mem != []
    ensures Window(mem, from, a + b) == Window(mem, from, a) + Window(mem, from + a, b)
  {
  }

  /** Writing just past a window shorter than the memory extends it. */
  lemma {:induction false} ExtendWindow(mem: seq<Byte>, from: nat, n: nat, x: Byte)
    requires n < |mem|
    ensures Window(mem[Slot(from, n, |mem|) := x], from, n + 1) == Window(mem, from, n) + [x]
  {
    var cap := |mem|;
    forall i: nat | i < n ensures Slot(from, i, cap) != Slot(from, n, cap) {
      ModDistinct(from + i, from + n, cap);
    }
    hide Slot;
  }

  class Ring {
    const mem: array<Byte>
    const mask: nat
    ghost const power: nat
    var head: nat
    var tail: nat

    constructor (cap: nat, ghost k: nat)
      requires cap == Pow2(k) && k <= 62
      ensures Valid() && fresh(mem) && mem.Length == cap && Contents() == []
    {
      mem := new Byte[cap](_ => 0);
      mask := cap - 1;
      power := k;
      head, tail := 0, 0;
    }

    ghost predicate Valid()
      reads this
    {
      && power <= 62 && mem.Length == Pow2(power) == mask + 1
      && head < WORD && tail < WORD && Size() <= mem.Length
    }

    function Size(): nat
      requires head < WORD && tail < WORD
      reads this
    {
      Minus(head, tail)
    }

    function FreeSpace(): (r: nat)
      requires Valid()
      reads this
      ensures r == mem.Length - Size()
    {
      mask + 1 - Minus(head, tail)
    }

    predicate Empty()
      requires Valid()
      reads this
      ensures Empty() <==> Size() == 0
    {
      head == tail
    }

    predicate Full()
      requires Valid()
      reads this
      ensures Full() <==> FreeSpace() == 0
    {
      Minus(head, tail) == mask + 1
    }

    /** The bytes written and not yet read, oldest first. */
    ghost function Contents(): (r: seq<Byte>)
      requires Valid()
      reads this, mem
      ensures |r| == Size()
    {
      Window(mem[..], tail, Size())
    }

    /** With the size, an address in the doubled mapping at which the contents are contiguous. */
    function ReadPtr(): (r: nat)
      requires Valid()
      reads this, mem
      ensures r + Size() <= 2 * mem.Length && Window(mem[..], r, Size()) == Contents()
    {
      MaskIsMod(tail, power);
      MaskedSlots(tail, mem.Length);
      SameWindow(mem[..], tail % mem.Length, tail, Size());
      BitAnd(tail, mask)
    }

    /** With the free space, a window of the mapping that lies just past the contents. */
    function WritePtr(): (r: nat)
      requires Valid()
      reads this
      ensures r + FreeSpace() <= 2 * mem.Length && SameSlots(r, tail + Size(), mem.Length)
    {
      MaskIsMod(head, power);
      HeadSlots();
      BitAnd(head, mask)
    }

    /** head stands Size() after tail, wrapped or not, masked or not. */
    lemma {:induction false} HeadSlots()
      requires Valid()
      ensures SameSlots(head % mem.Length, tail + Size(), mem.Length)
    {
      HeadIsWrapped();
      MaskedSlots(head, mem.Length);
      WrappedSlots(tail + Size(), power);
      hide Slot, Pow2;
    }

    lemma {:induction false} HeadIsWrapped()
      requires Valid()
      ensures head == (tail + Size()) % WORD
    {
    }

    /** What a read system call does to the window it is given: it fills the front. */
    method Fill(address: nat, bytes: seq<Byte>)
      requires Valid() && |bytes| <= FreeSpace() && address == WritePtr()
      modifies mem
      ensures Window(mem[..], tail, Size() + |bytes|) == old(Contents()) + bytes
      ensures Contents() == old(Contents())
    {
      hide Slot, Pow2, Window;
      var k := 0;
      while k < |bytes|
        invariant 0 <= k <= |bytes|
        invariant Window(mem[..], tail, Size() + k) == old(Contents()) + bytes[..k]
      {
        ghost var was := mem[..];
        ExtendWindow(was, tail, Size() + k, bytes[k]);
        ShiftedSlot(tail, Size(), k, mem.Length);
        mem[Slot(address, k, mem.Length)] := bytes[k];
        assert mem[..] == was[Slot(tail, Size() + k, |was|) := bytes[k]];
        k := k + 1;
      }
      SplitWindow(mem[..], tail, Size(), |bytes|);
      assert Window(mem[..], tail, Size() + |bytes|)[..Size()] == Contents();
    }

    method AdvanceHead(n: nat)
      requires Valid() && n <= FreeSpace()
      modifies this`head
      ensures Valid() && Contents() == Window(mem[..], tail, old(Size()) + n)
    {
      CapacityBelowWord();
      Wrapped(head + n);
      hide Pow2, Window;
      head := (head + n) % WORD;
    }

    lemma {:induction false} CapacityBelowWord()
      requires Valid()
      ensures mem.Length < WORD
    {
      WordIsPow2();
      PowersGrow(power, 62);
    }

    method AdvanceTail(n: nat)
      requires Valid() && n <= Size()
      modifies this`tail
      ensures Valid() && Contents() == old(Contents())[n..]
    {
      hide Pow2, Window;
      ghost var size := Size();
      SplitWindow(mem[..], tail, n, size - n);
      WrappedSlots(tail + n, power);
      SameWindow(mem[..], (tail + n) % WORD, tail + n, size - n);
      CapacityBelowWord();
      Wrapped(tail + n);
      tail := (tail + n) % WORD;
      assert Size() == size - n;
    }

    method Clear()
      requires Valid()
      modifies this`head, this`tail
      ensures Valid() && Contents() == []
    {
      head, tail := 0, 0;
    }
  }
}
