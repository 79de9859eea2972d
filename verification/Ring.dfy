/** The ring of a bufDequeue: one 64-bit word holding two wrapping 32-bit indices, and the slots. The
    operations are the single atomic accesses that pushHead and popTail make. */
module Ring {
  import opened Basics

  // A quarter of the index range, so that full and empty can be told apart.
  const DEQUEUE_LIMIT := TWO32 / 4

  /** `headTail` and `slots` are the object's fields. The rest is history: every value in the order its slot was
      reserved, how many slots were cleared, how many were given back by advancing the tail index, and which
      reservations have not been stored yet. */
  datatype Ring = Ring(headTail: u64, slots: seq<Option<nat>>,
                       vals: seq<nat>, taken: nat, freed: nat, owned: set<nat>)

  function Head(ptrs: u64): u32 {
    ptrs / TWO32
  }

  function Tail(ptrs: u64): u32 {
    ptrs % TWO32
  }

  function PackIndices(head: u32, tail: u32): u64 {
    head * TWO32 + tail
  }

  predicate Full(ptrs: u64, size: nat) {
    (Tail(ptrs) + size) % TWO32 == Head(ptrs)
  }

  predicate Empty(ptrs: u64) {
    Tail(ptrs) == Head(ptrs)
  }

  /** The slot of an index; SlotIsMasked says that masking with size - 1 finds it. */
  function SlotOf(r: Ring, index: nat): nat
    requires r.slots != []
  {
    index % |r.slots|
  }

  function Fresh(size: nat): Ring {
    Ring(0, seq(size, _ => None), [], 0, 0, {})
  }

  /** The head index is advanced by a compare-and-swap; the slot now belongs to the producer. */
  function Reserve(r: Ring, v: nat): Ring {
    r.(headTail := PackIndices((Head(r.headTail) + 1) % TWO32, Tail(r.headTail)),
       vals := r.vals + [v], owned := r.owned + {|r.vals|})
  }

  function Store(r: Ring, slot: nat, v: nat, at: nat): Ring
    requires slot < |r.slots|
  {
    r.(slots := r.slots[slot := Some(v)], owned := r.owned - {at})
  }

  function Clear(r: Ring, slot: nat): Ring
    requires slot < |r.slots|
  {
    r.(slots := r.slots[slot := None], taken := r.taken + 1)
  }

  /** The tail index is advanced by one 64-bit addition; at the top of its range the addend is chosen so that
      the carry leaves the head index as it was. */
  function Advance(r: Ring, tail: u32): Ring {
    r.(headTail := if tail < TWO32 - 1 then (r.headTail + 1) % TWO64 else (r.headTail + (TWO64 - TWO32 + 1)) % TWO64,
       freed := r.freed + 1)
  }

  // ---------- powers of two and wrapping indices ----------

  predicate PowerOfTwo(n: nat) {
    n == 1 || (n > 1 && n % 2 == 0 && PowerOfTwo(n / 2))
  }

  lemma {:induction false} PowersMultiply(m: nat, n: nat)
    requires PowerOfTwo(m) && PowerOfTwo(n)
    ensures PowerOfTwo(m * n)
    decreases m
  {
    if m > 1 {
      PowersMultiply(m / 2, n);
      assert m * n == 2 * (m / 2 * n);
    }
  }

  lemma {:induction false} PowersDivide(m: nat, n: nat) returns (k: nat)
    requires PowerOfTwo(m) && PowerOfTwo(n) && n <= m
    ensures m == n * k
    decreases m
  {
    if n == 1 {
      k := m;
    } else {
      k := PowersDivide(m / 2, n / 2);
    }
  }

  lemma RangeIsPowerOfTwo()
    ensures PowerOfTwo(TWO32)
  {
    PowersMultiply(2, 2);
    PowersMultiply(4, 4);
    PowersMultiply(16, 16);
    PowersMultiply(256, 256);
    PowersMultiply(65536, 65536);
  }

  /** A wrapped index selects the same slot as the unbounded one. */
  lemma WrapKeepsSlot(x: nat, n: nat)
    requires PowerOfTwo(n) && n <= DEQUEUE_LIMIT
    ensures x % TWO32 % n == x % n
  {
    RangeIsPowerOfTwo();
    var k := PowersDivide(TWO32, n);
    Regroup(x / TWO32, x % TWO32, n, k);
  }

  lemma Regroup(q: nat, r: nat, n: nat, k: nat)
    requires n > 0
    ensures (n * k * q + r) % n == r % n
  {
    var b := r % n;
    assert n * k * q + r == n * (k * q + r / n) + b by {
      assert n * k * q == n * (k * q);
      assert n * (k * q + r / n) == n * (k * q) + n * (r / n);
    }
    DivMod(k * q + r / n, n, b);
  }

  /** The bits that two numbers have in common. */
  function And(x: nat, y: nat): nat {
    if x == 0 || y == 0 then 0
    else (if x % 2 == 1 && y % 2 == 1 then 1 else 0) + 2 * And(x / 2, y / 2)
  }

  lemma HalvedRemainder(x: nat, h: nat)
    requires h > 0
    ensures x % (2 * h) == x % 2 + 2 * (x / 2 % h)
  {
    var y := x / 2;
    var q, r := y / h, y % h;
    assert y == h * q + r;
    assert (2 * h) * q == 2 * (h * q);
    DivMod(q, 2 * h, 2 * r + x % 2);
  }

  lemma {:induction false} MaskIsRemainder(x: nat, n: nat)
    requires PowerOfTwo(n)
    ensures And(x, n - 1) == x % n
    decreases n
  {
    if n == 1 {
      assert x % 1 == 0;
    } else {
      var h := n / 2;
      assert n == 2 * h && (n - 1) / 2 == h - 1 && (n - 1) % 2 == 1;
      MaskIsRemainder(x / 2, h);
      HalvedRemainder(x, h);
      assert And(x, n - 1) == x % 2 + 2 * And(x / 2, h - 1);
    }
  }

  /** The slots are addressed by the low bits of the wrapped index. */
  lemma SlotIsMasked(r: Ring, index: nat)
    requires Size(|r.slots|)
    ensures And(index % TWO32, |r.slots| - 1) == SlotOf(r, index)
  {
    WrapKeepsSlot(index, |r.slots|);
    MaskIsRemainder(index % TWO32, |r.slots|);
  }

  /** Two indices less than a ring apart have different slots. */
  lemma SlotsDiffer(i: nat, j: nat, n: nat)
    requires n > 0 && i < j < i + n
    ensures i % n != j % n
  {
    var k := j / n - i / n;
    assert j - i == n * k + (j % n - i % n);
    ProperMultiple(n, k, j - i);
  }

  lemma SameSlot(i: nat, n: nat)
    requires n > 0
    ensures (i + n) % n == i % n
  {
    DivMod(i / n + 1, n, i % n);
    assert n * (i / n + 1) == n * (i / n) + n;
  }

  // ---------- the invariant and what each access keeps ----------

  predicate Size(n: nat) {
    PowerOfTwo(n) && n <= DEQUEUE_LIMIT
  }

  /** The content of the slot of index `j`. */
  function At(r: Ring, j: nat): Option<nat>
    requires r.slots != []
  {
    r.slots[j % |r.slots|]
  }

  /** What the slot of index `j` should hold, for the `size` indices from `taken` on. */
  function Expected(r: Ring, j: nat): Option<nat> {
    if j < |r.vals| && j !in r.owned then Some(r.vals[j]) else None
  }

  ghost predicate RingInv(r: Ring) {
    && Size(|r.slots|)
    && r.freed <= r.taken <= |r.vals| <= r.freed + |r.slots|
    && r.headTail == PackIndices(|r.vals| % TWO32, r.freed % TWO32)
    && (forall at <- r.owned :: r.taken <= at < |r.vals|)
    && (forall j: nat {:trigger At(r, j)} :: r.taken <= j < r.taken + |r.slots| ==> At(r, j) == Expected(r, j))
  }

  lemma FreshInv(size: nat)
    requires Size(size)
    ensures RingInv(Fresh(size))
  {
  }

  /** The tests on the wrapped indices mean what they should, however often the indices wrapped. */
  lemma FullAndEmpty(r: Ring)
    requires RingInv(r)
    ensures Full(r.headTail, |r.slots|) <==> |r.vals| == r.freed + |r.slots|
    ensures Empty(r.headTail) <==> |r.vals| == r.freed
    ensures SlotOf(r, Head(r.headTail)) == SlotOf(r, |r.vals|)
    ensures SlotOf(r, Tail(r.headTail)) == SlotOf(r, r.freed)
  {
    var head, tail, n := |r.vals|, r.freed, |r.slots|;
    assert Head(r.headTail) == head % TWO32 && Tail(r.headTail) == tail % TWO32 by {
      Indices(r);
    }
    WrapKeepsSlot(head, n);
    WrapKeepsSlot(tail, n);
    WrapTests(head, tail, n);
  }

  lemma Indices(r: Ring)
    requires RingInv(r)
    ensures Head(r.headTail) == |r.vals| % TWO32 && Tail(r.headTail) == r.freed % TWO32
  {
    DivMod(|r.vals| % TWO32, TWO32, r.freed % TWO32);
  }

  lemma WrapTests(head: nat, tail: nat, n: nat)
    requires tail <= head <= tail + n && n <= DEQUEUE_LIMIT
    ensures (tail % TWO32 + n) % TWO32 == head % TWO32 <==> head == tail + n
    ensures tail % TWO32 == head % TWO32 <==> head == tail
  {
    WrapDistance(tail, head - tail);
    WrapDistance(tail, n);
  }

  lemma WrapDistance(x: nat, d: nat)
    requires d < TWO32
    ensures (x + d) % TWO32 == (x % TWO32 + d) % TWO32
    ensures (x + d) % TWO32 == if x % TWO32 + d < TWO32 then x % TWO32 + d else x % TWO32 + d - TWO32
  {
  }

  /** The slot a producer reserves is empty, and is its own. */
  lemma ReserveKeeps(r: Ring, v: nat)
    requires RingInv(r) && !Full(r.headTail, |r.slots|)
    ensures RingInv(Reserve(r, v))
    ensures At(r, |r.vals|) == None
  {
    FullAndEmpty(r);
    Indices(r);
    WrapDistance(|r.vals|, 1);
    var t := Reserve(r, v);
    assert At(r, |r.vals|) == Expected(r, |r.vals|);
    forall j: nat | t.taken <= j < t.taken + |t.slots|
      ensures At(t, j) == Expected(t, j)
    {
      assert At(t, j) == At(r, j);
    }
  }

  lemma StoreKeeps(r: Ring, v: nat, at: nat)
    requires RingInv(r) && at in r.owned && v == r.vals[at]
    ensures RingInv(Store(r, SlotOf(r, at), v, at))
  {
    var t := Store(r, SlotOf(r, at), v, at);
    forall j: nat | t.taken <= j < t.taken + |t.slots|
      ensures At(t, j) == Expected(t, j)
    {
      if j < at {
        SlotsDiffer(j, at, |r.slots|);
        assert At(t, j) == At(r, j);
      } else if j > at {
        SlotsDiffer(at, j, |r.slots|);
        assert At(t, j) == At(r, j);
      }
    }
  }

  /** The slot at the tail, once it is seen filled, holds the oldest value. */
  lemma OldestIsSeen(r: Ring, v: nat)
    requires RingInv(r) && r.taken == r.freed < |r.vals| && At(r, r.freed) == Some(v)
    ensures v == r.vals[r.taken] && r.taken !in r.owned
  {
  }

  lemma ClearKeeps(r: Ring)
    requires RingInv(r) && r.taken == r.freed < |r.vals| && r.taken !in r.owned
    ensures RingInv(Clear(r, SlotOf(r, r.freed)))
  {
    var t := Clear(r, SlotOf(r, r.freed));
    var n := |r.slots|;
    forall j: nat | t.taken <= j < t.taken + n
      ensures At(t, j) == Expected(t, j)
    {
      if j < r.taken + n {
        SlotsDiffer(r.taken, j, n);
        assert At(t, j) == At(r, j);
      } else {
        SameSlot(r.taken, n);
      }
    }
  }

  /** The addition moves the tail index on and carries nothing into the head index. */
  lemma AdvancedWord(r: Ring, head: u32, tail: u32)
    requires r.headTail == PackIndices(head, tail)
    ensures Advance(r, tail).headTail == PackIndices(head, (tail + 1) % TWO32)
  {
    if tail < TWO32 - 1 {
      assert r.headTail + 1 == head * TWO32 + (tail + 1) < TWO64;
    } else {
      assert r.headTail + (TWO64 - TWO32 + 1) == TWO64 * 1 + head * TWO32;
      DivMod(1, TWO64, head * TWO32);
    }
  }

  lemma AdvanceKeeps(r: Ring)
    requires RingInv(r) && r.taken == r.freed + 1
    ensures RingInv(Advance(r, r.freed % TWO32))
  {
    var t := Advance(r, r.freed % TWO32);
    assert t.headTail == PackIndices(|t.vals| % TWO32, t.freed % TWO32) by {
      AdvancedWord(r, |r.vals| % TWO32, r.freed % TWO32);
      WrapDistance(r.freed, 1);
    }
    forall j: nat | t.taken <= j < t.taken + |t.slots|
      ensures At(t, j) == Expected(t, j)
    {
      assert At(t, j) == At(r, j);
    }
  }
}
