/** The token bucket of lib/rate: one tick a second adds tokens, and a caller takes its size in one step once the
    surplus covers it. */
module TokenBucket {
  import opened Basics

  // ---------- the bucket as a value ----------

  datatype Bucket = Bucket(size: int, add: int, surplus: int)

  function Ticked(b: Bucket): Bucket {
    b.(surplus := if b.size - b.surplus < b.add then b.size else b.surplus + b.add)
  }

  function Ticks(b: Bucket, k: nat): Bucket {
    if k == 0 then b else Ticked(Ticks(b, k - 1))
  }

  function TickedAll(b: Bucket, ticks: seq<nat>): Bucket {
    if ticks == [] then b else Ticks(TickedAll(b, ticks[..|ticks| - 1]), ticks[|ticks| - 1])
  }

  predicate Covers(b: Bucket, n: nat) {
    b.surplus >= n
  }

  function Taken(b: Bucket, n: nat): Bucket {
    b.(surplus := b.surplus - n)
  }

  // ---------- the bucket object ----------

  class Rate {
    const bucketSize: int
    const bucketAddSize: int
    var bucketSurplusSize: int
    var nowRate: int

    constructor (addSize: int)
      ensures bucketSize == addSize * 2 && bucketAddSize == addSize && bucketSurplusSize == 0
    {
      bucketSize, bucketAddSize := addSize * 2, addSize;
      bucketSurplusSize, nowRate := 0, 0;
    }

    ghost function Value(): Bucket
      reads this
    {
      Bucket(bucketSize, bucketAddSize, bucketSurplusSize)
    }

    method Add(size: int)
      modifies `bucketSurplusSize
      ensures bucketSurplusSize ==
              if bucketSize - old(bucketSurplusSize) < bucketAddSize then bucketSize
              else old(bucketSurplusSize) + size
    {
      var res := bucketSize - bucketSurplusSize;
      if res < bucketAddSize {
        bucketSurplusSize := bucketSurplusSize + res;
        return;
      }
      bucketSurplusSize := bucketSurplusSize + size;
    }

    /** One pass of the session loop. */
    method Tick()
      modifies this
      ensures Value() == Ticked(old(Value()))
      ensures nowRate == if old(bucketSurplusSize) < bucketAddSize then bucketAddSize - old(bucketSurplusSize)
                         else bucketSize - old(bucketSurplusSize)
    {
      var rs := bucketAddSize - bucketSurplusSize;
      if rs > 0 {
        nowRate := rs;
      } else {
        nowRate := bucketSize - bucketSurplusSize;
      }
      Add(bucketAddSize);
    }

    /** Get, where the bytes `sizes` seen at its polls change by `ticks` ticks in between: it takes its size at the
        first poll at which the surplus covers it. It waits on if none of the polls does. */
    method Get(size: nat, ticks: seq<nat>) returns (served: bool, polls: nat)
      modifies this
      ensures polls <= |ticks|
      ensures forall i :: 0 <= i < polls ==> !Covers(TickedAll(old(Value()), ticks[..i]), size)
      ensures served ==> Covers(TickedAll(old(Value()), ticks[..polls]), size) &&
                         Value() == Taken(TickedAll(old(Value()), ticks[..polls]), size)
      ensures served ==> bucketSurplusSize == TickedAll(old(Value()), ticks[..polls]).surplus - size >= 0
      ensures !served ==> polls == |ticks| && Value() == TickedAll(old(Value()), ticks) && !Covers(Value(), size)
    {
      served, polls := false, 0;
      ghost var start := Value();
      while true
        invariant polls <= |ticks| && Value() == TickedAll(start, ticks[..polls])
        invariant forall i :: 0 <= i < polls ==> !Covers(TickedAll(start, ticks[..i]), size)
        decreases |ticks| - polls
      {
        if bucketSurplusSize >= size {
          bucketSurplusSize := bucketSurplusSize - size;
          served := true;
          return;
        }
        if polls == |ticks| {
          assert ticks[..polls] == ticks;
          return;
        }
        var k := 0;
        ghost var before := Value();
        while k < ticks[polls]
          invariant 0 <= k <= ticks[polls] && Value() == Ticks(before, k)
        {
          Tick();
          k := k + 1;
        }
        assert ticks[..polls + 1][..polls] == ticks[..polls];
        polls := polls + 1;
      }
    }
  }

  // ---------- runs of ticks and polls ----------

  predicate Inv(b: Bucket) {
    b.size == 2 * b.add && 0 <= b.surplus <= b.size
  }

  datatype Op = Tick | Poll(size: nat)

  /** The bytes granted by a run of ticks and polls, and the bucket after it. */
  function Run(b: Bucket, ops: seq<Op>): (nat, Bucket)
    decreases |ops|
  {
    if ops == [] then (0, b)
    else match ops[0]
      case Tick => Run(Ticked(b), ops[1..])
      case Poll(n) =>
        if Covers(b, n) then
          var (granted, end) := Run(Taken(b, n), ops[1..]);
          (n + granted, end)
        else Run(b, ops[1..])
  }

  function TickCount(ops: seq<Op>): nat {
    if ops == [] then 0 else (if ops[0].Tick? then 1 else 0) + TickCount(ops[1..])
  }

  /** Over any run the surplus stays between 0 and twice the rate, and what was granted and is left is at most
      what was there and was added: no interval with k ticks grants more than the bucket plus k rates. */
  lemma {:induction false} GrantsAreBounded(b: Bucket, ops: seq<Op>)
    requires Inv(b)
    ensures var (granted, end) := Run(b, ops);
            && Inv(end) && end.add == b.add
            && granted + end.surplus <= b.surplus + TickCount(ops) * b.add
            && granted <= b.size + TickCount(ops) * b.add
    decreases |ops|
  {
    if ops != [] {
      var k := TickCount(ops[1..]);
      match ops[0]
      case Tick =>
        GrantsAreBounded(Ticked(b), ops[1..]);
        assert TickCount(ops) == k + 1 && (k + 1) * b.add == b.add + k * b.add;
      case Poll(n) =>
        GrantsAreBounded(if Covers(b, n) then Taken(b, n) else b, ops[1..]);
        assert TickCount(ops) == k;
    }
  }

  /** Left alone, the bucket fills at its rate and then stays full. */
  lemma {:induction false} TicksFill(b: Bucket, k: nat)
    requires Inv(b)
    ensures Ticks(b, k) == b.(surplus := Min(b.size, b.surplus + k * b.add))
  {
    if k > 0 {
      TicksFill(b, k - 1);
      assert k * b.add == (k - 1) * b.add + b.add;
    }
  }

  function CeilingDiv(n: nat, d: nat): nat
    requires d > 0
  {
    (n + d - 1) / d
  }

  lemma CeilingCovers(n: nat, d: nat, k: nat)
    requires d > 0 && k >= CeilingDiv(n, d)
    ensures k * d >= n
  {
    var q := CeilingDiv(n, d);
    assert n + d - 1 == q * d + (n + d - 1) % d;
    assert (k - q) * d >= 0;
    assert k * d == q * d + (k - q) * d;
  }

  /** After `k` ticks a poll for `n` bytes succeeds only if the bucket holds that many, and then it does as soon
      as the ticks add up to `n`. */
  lemma CoversAfter(b: Bucket, n: nat, k: nat)
    requires Inv(b) && b.add > 0
    ensures Covers(Ticks(b, k), n) ==> n <= b.size
    ensures n <= b.size && k >= CeilingDiv(n, b.add) ==> Covers(Ticks(b, k), n)
  {
    TicksFill(b, k);
    if k >= CeilingDiv(n, b.add) {
      CeilingCovers(n, b.add, k);
    }
  }

  /** A poll for `n` bytes made after `k` ticks is served. */
  predicate ServedAfter(b: Bucket, n: nat, k: nat) {
    Covers(Ticks(b, k), n)
  }

  /** A caller alone with the ticks is served, at some time, exactly when it asks for no more than the bucket
      holds, and then within as many ticks as its size fills. */
  lemma LoneGetIsServed(b: Bucket, n: nat)
    requires Inv(b) && b.add > 0
    ensures (exists k: nat :: ServedAfter(b, n, k)) <==> n <= b.size
    ensures n <= b.size ==> forall k: nat | k >= CeilingDiv(n, b.add) :: ServedAfter(b, n, k)
  {
    forall k: nat
      ensures ServedAfter(b, n, k) ==> n <= b.size
      ensures n <= b.size && k >= CeilingDiv(n, b.add) ==> ServedAfter(b, n, k)
    {
      CoversAfter(b, n, k);
    }
    var enough: nat := CeilingDiv(n, b.add);
    assert n <= b.size ==> ServedAfter(b, n, enough);
  }
}
