/** getRandomPortArr: an in-place shuffle whose random index is always below the element it is swapped with, so
    that the permutation it makes is a single cycle. */
module PortShuffle {
  import opened Basics

  function Swap<T>(a: seq<T>, i: nat, j: nat): seq<T>
    requires i < |a| && j < |a|
  {
    a[i := a[j]][j := a[i]]
  }

  /** What the loop still does to `a` when it has reached index `i`; `rand(i)` is the random number drawn there. */
  function Shuffled<T>(a: seq<T>, rand: nat -> nat, i: nat): seq<T>
    requires i < |a|
    decreases i
  {
    if i == 0 then a else Shuffled(Swap(a, i, rand(i) % i), rand, i - 1)
  }

  /** The index from which the loop, started at `i`, fetches the final content of index `j`. */
  function Source(rand: nat -> nat, i: nat, j: nat): nat {
    if i == 0 then j
    else
      var s, r := Source(rand, i - 1, j), rand(i) % i;
      if s == i then r else if s == r then i else s
  }

  lemma {:induction false} SourceBounds(rand: nat -> nat, i: nat, j: nat)
    ensures j <= i ==> Source(rand, i, j) <= i
    ensures j > i ==> Source(rand, i, j) == j
  {
    if i > 0 {
      SourceBounds(rand, i - 1, j);
    }
  }

  lemma {:induction false} ShuffledBySource<T>(a: seq<T>, rand: nat -> nat, i: nat, j: nat)
    requires i < |a| && j < |a|
    ensures |Shuffled(a, rand, i)| == |a| && Source(rand, i, j) < |a|
    ensures Shuffled(a, rand, i)[j] == a[Source(rand, i, j)]
    decreases i
  {
    SourceBounds(rand, i, j);
    if i > 0 {
      ShuffledBySource(Swap(a, i, rand(i) % i), rand, i - 1, j);
    }
  }

  // ---------- a single cycle ----------

  predicate Permutation(c: seq<nat>) {
    && (forall m :: 0 <= m < |c| ==> c[m] < |c|)
    && (forall m, k :: 0 <= m < k < |c| ==> c[m] != c[k])
  }

  function After(m: nat, n: nat): nat {
    if m + 1 == n then 0 else m + 1
  }

  /** `c` lists the indices 0 to `i`, each once, so that Source leads from each to the one after it and from the
      last to the first: the loop's permutation is a single cycle. */
  predicate Cycle(c: seq<nat>, rand: nat -> nat, i: nat) {
    && |c| == i + 1
    && Permutation(c)
    && forall m :: 0 <= m < |c| ==> Source(rand, i, c[m]) == c[After(m, |c|)]
  }

  function Below(n: nat): set<nat> {
    if n == 0 then {} else Below(n - 1) + {n - 1}
  }

  lemma {:induction false} BelowCounts(n: nat)
    ensures |Below(n)| == n && forall x: nat :: x in Below(n) <==> x < n
  {
    if n > 0 {
      BelowCounts(n - 1);
    }
  }

  function Members(c: seq<nat>): set<nat> {
    if c == [] then {} else Members(c[..|c| - 1]) + {c[|c| - 1]}
  }

  lemma {:induction false} MembersAre(c: seq<nat>, x: nat)
    ensures x in Members(c) <==> x in c
  {
    if c != [] {
      MembersAre(c[..|c| - 1], x);
      assert c == c[..|c| - 1] + [c[|c| - 1]];
    }
  }

  lemma {:induction false} MembersCount(c: seq<nat>)
    requires forall m, k :: 0 <= m < k < |c| ==> c[m] != c[k]
    ensures |Members(c)| == |c|
  {
    if c != [] {
      MembersCount(c[..|c| - 1]);
      MembersAre(c[..|c| - 1], c[|c| - 1]);
    }
  }

  lemma {:induction false} SubsetSize(a: set<nat>, b: set<nat>)
    requires a <= b
    ensures |a| <= |b|
  {
    if a != {} {
      var x :| x in a;
      SubsetSize(a - {x}, b - {x});
    }
  }

  /** Distinct numbers below their count are all there. */
  lemma AllThere(c: seq<nat>, x: nat)
    requires Permutation(c) && x < |c|
    ensures x in c
  {
    MembersCount(c);
    BelowCounts(|c|);
    if x !in c {
      forall y | y in Members(c)
        ensures y in Below(|c|) - {x}
      {
        MembersAre(c, y);
      }
      SubsetSize(Members(c), Below(|c|) - {x});
    }
  }

  function Insert(c: seq<nat>, m: nat, x: nat): seq<nat>
    requires m <= |c|
  {
    c[..m] + [x] + c[m..]
  }

  lemma InsertAt(c: seq<nat>, m: nat, x: nat, k: nat)
    requires m <= |c| && k <= |c|
    ensures Insert(c, m, x)[k] == if k < m then c[k] else if k == m then x else c[k - 1]
  {
  }

  /** Each pass of the loop threads one more index into the cycle, just before the one it is swapped with. */
  lemma {:induction false} LoopMakesCycle(rand: nat -> nat, i: nat) returns (c: seq<nat>)
    ensures Cycle(c, rand, i)
  {
    if i == 0 {
      c := [0];
    } else {
      var before := LoopMakesCycle(rand, i - 1);
      var r := rand(i) % i;
      AllThere(before, r);
      var m :| 0 <= m < i && before[m] == r;
      c := Insert(before, m, i);
      InsertedPermutes(before, m);
      forall k | 0 <= k < |c|
        ensures Source(rand, i, c[k]) == c[After(k, |c|)]
      {
        InsertedFollows(rand, i, before, m, k);
      }
    }
  }

  lemma InsertedPermutes(before: seq<nat>, m: nat)
    requires Permutation(before) && m < |before|
    ensures Permutation(Insert(before, m, |before|))
  {
    var c := Insert(before, m, |before|);
    forall k | 0 <= k < |c|
      ensures c[k] < |c|
    {
      InsertAt(before, m, |before|, k);
    }
    forall k, l | 0 <= k < l < |c|
      ensures c[k] != c[l]
    {
      InsertAt(before, m, |before|, k);
      InsertAt(before, m, |before|, l);
    }
  }

  lemma InsertedFollows(rand: nat -> nat, i: nat, before: seq<nat>, m: nat, k: nat)
    requires i > 0 && Cycle(before, rand, i - 1) && m < i && before[m] == rand(i) % i && k <= i
    ensures var c := Insert(before, m, i); Source(rand, i, c[k]) == c[After(k, |c|)]
  {
    InsertAt(before, m, i, k);
    InsertAt(before, m, i, After(k, i + 1));
    SourceBounds(rand, i - 1, i);
    if k != m {
      var l := if k < m then k else k - 1;
      assert Source(rand, i - 1, before[l]) == before[After(l, i)];
      assert before[After(l, i)] == before[m] <==> After(l, i) == m;
    }
  }

  /** In a single cycle of two or more no index stays in place, and no two share a source. */
  lemma CycleMovesEverything(c: seq<nat>, rand: nat -> nat, i: nat, j: nat, k: nat)
    requires Cycle(c, rand, i) && j <= i && k <= i
    ensures i > 0 ==> Source(rand, i, j) != j
    ensures j != k ==> Source(rand, i, j) != Source(rand, i, k)
  {
    AllThere(c, j);
    AllThere(c, k);
    var m :| 0 <= m < |c| && c[m] == j;
    var l :| 0 <= l < |c| && c[l] == k;
    assert m != l ==> After(m, |c|) != After(l, |c|);
    assert i > 0 ==> After(m, |c|) != m;
  }

  // ---------- every choice of random numbers counts ----------

  ghost predicate SameDraws(rand: nat -> nat, rand': nat -> nat, n: nat) {
    forall i: nat :: 1 <= i <= n ==> rand(i) % i == rand'(i) % i
  }

  ghost predicate SameOrder(rand: nat -> nat, rand': nat -> nat, n: nat) {
    forall j: nat :: j <= n ==> Source(rand, n, j) == Source(rand', n, j)
  }

  /** Two choices of random numbers give the same order exactly when they swap the same places throughout: the n! ways
      to draw give n! different single cycles, so none is more likely than another. */
  lemma {:induction false} DrawsDecideTheOrder(rand: nat -> nat, rand': nat -> nat, n: nat)
    ensures SameOrder(rand, rand', n) <==> SameDraws(rand, rand', n)
  {
    if n > 0 {
      DrawsDecideTheOrder(rand, rand', n - 1);
      LastDraw(rand, rand', n, rand(n) % n, rand'(n) % n);
      assert SameDraws(rand, rand', n) <==> SameDraws(rand, rand', n - 1) && rand(n) % n == rand'(n) % n;
    }
  }

  /** What the pass at index `n` makes of the sources up to then, `r` being the index it draws. */
  lemma LastPass(rand: nat -> nat, n: nat, r: nat, j: nat)
    requires n > 0 && r == rand(n) % n && j <= n
    ensures r < n && Source(rand, n, n) == r
    ensures j < n ==> Source(rand, n - 1, j) < n
    ensures j < n ==> Source(rand, n, j) == if Source(rand, n - 1, j) == r then n else Source(rand, n - 1, j)
  {
    SourceBounds(rand, n - 1, n);
    SourceBounds(rand, n - 1, j);
  }

  lemma LastDraw(rand: nat -> nat, rand': nat -> nat, n: nat, r: nat, r': nat)
    requires n > 0 && r == rand(n) % n && r' == rand'(n) % n
    ensures SameOrder(rand, rand', n) <==> SameOrder(rand, rand', n - 1) && r == r'
  {
    var m := n - 1;
    LastPass(rand, n, r, n);
    LastPass(rand', n, r', n);
    if SameOrder(rand, rand', n) {
      assert Source(rand, n, n) == Source(rand', n, n);
      forall j: nat | j <= m
        ensures Source(rand, m, j) == Source(rand', m, j)
      {
        LastPass(rand, n, r, j);
        LastPass(rand', n, r', j);
        assert Source(rand, n, j) == Source(rand', n, j);
      }
    }
    if SameOrder(rand, rand', n - 1) && r == r' {
      forall j: nat | j <= n
        ensures Source(rand, n, j) == Source(rand', n, j)
      {
        LastPass(rand, n, r, j);
        LastPass(rand', n, r', j);
        assert j < n ==> Source(rand, m, j) == Source(rand', m, j);
      }
    }
  }

  // ---------- the function ----------

  ghost predicate SingleCycle(rand: nat -> nat, i: nat) {
    exists c :: Cycle(c, rand, i)
  }

  /** The ports from `lo` to `hi`, each once; with two or more none is where the descending order puts it. */
  predicate PortsShuffled(a: seq<int>, lo: int, hi: int) {
    && |a| == hi - lo + 1
    && (forall j :: 0 <= j < |a| ==> lo <= a[j] <= hi)
    && (forall j, k :: 0 <= j < k < |a| ==> a[j] != a[k])
    && (lo < hi ==> forall j :: 0 <= j < |a| ==> a[j] != hi - j)
  }

  /** The first loop: the ports from the last to the first. */
  method Descending(lo: int, hi: int) returns (arr: array<int>)
    requires lo <= hi
    ensures fresh(arr) && arr.Length == hi - lo + 1 && forall j :: 0 <= j < arr.Length ==> arr[j] == hi - j
  {
    arr := new int[hi - lo + 1];
    var i := lo;
    while i <= hi
      invariant lo <= i <= hi + 1
      invariant forall j :: hi - i < j < arr.Length ==> arr[j] == hi - j
    {
      arr[hi - i] := i;
      i := i + 1;
    }
  }

  /** The second loop. */
  method Shuffle(arr: array<int>, rand: nat -> nat)
    requires arr.Length > 0
    modifies arr
    ensures arr[..] == Shuffled(old(arr[..]), rand, arr.Length - 1)
  {
    var i := arr.Length - 1;
    while i > 0
      invariant 0 <= i < arr.Length
      invariant Shuffled(arr[..], rand, i) == Shuffled(old(arr[..]), rand, arr.Length - 1)
    {
      var r := rand(i) % i;
      ghost var before := arr[..];
      arr[i], arr[r] := arr[r], arr[i];
      assert arr[..] == Swap(before, i, r);
      i := i - 1;
    }
  }

  /** For every choice of random numbers the result is such a shuffle, and the permutation made of the initial
      descending order is a single cycle. */
  method GetRandomPortArr(min: int, max: int, rand: nat -> nat) returns (arr: array<int>)
    ensures PortsShuffled(arr[..], Min(min, max), Max(min, max))
    ensures SingleCycle(rand, Max(min, max) - Min(min, max))
    ensures forall j: nat | j < arr.Length ::
              arr[..][j] == Max(min, max) - Source(rand, Max(min, max) - Min(min, max), j)
  {
    var lo, hi := min, max;
    if lo > hi {
      lo, hi := hi, lo;
    }
    arr := Descending(lo, hi);
    ghost var initial := arr[..];
    Shuffle(arr, rand);
    Permutes(initial, arr[..], rand, lo, hi);
  }

  lemma Permutes(initial: seq<int>, final: seq<int>, rand: nat -> nat, lo: int, hi: int)
    requires lo <= hi && |initial| == hi - lo + 1 && (forall j :: 0 <= j < |initial| ==> initial[j] == hi - j)
    requires final == Shuffled(initial, rand, hi - lo)
    ensures PortsShuffled(final, lo, hi) && SingleCycle(rand, hi - lo)
    ensures forall j: nat | j < |final| :: final[j] == hi - Source(rand, hi - lo, j)
  {
    var n := hi - lo;
    ShuffledBySource(initial, rand, n, 0);
    var c := LoopMakesCycle(rand, n);
    forall j: nat | j <= n
      ensures 0 <= Source(rand, n, j) <= n && final[j] == hi - Source(rand, n, j)
    {
      ShuffledBySource(initial, rand, n, j);
      SourceBounds(rand, n, j);
    }
    forall j: nat, k: nat | j <= n && k <= n
      ensures n > 0 ==> Source(rand, n, j) != j
      ensures j != k ==> Source(rand, n, j) != Source(rand, n, k)
    {
      CycleMovesEverything(c, rand, n, j, k);
    }
  }

  /** The part of sendP2PTestMsg that picks ports to try: the first 51 of a shuffle of the ports from `port` to
      `port + interval * 50`, when the interval is not zero. */
  method PortsToTry(port: int, interval: int, rand: nat -> nat) returns (tried: seq<int>)
    ensures |tried| == if interval != 0 then 51 else 0
    ensures forall p <- tried :: Min(port, port + interval * 50) <= p <= Max(port, port + interval * 50)
    ensures forall j, k :: 0 <= j < k < |tried| ==> tried[j] != tried[k]
    ensures forall j: nat | j < |tried| ::
              tried[j] == Max(port, port + interval * 50) - Source(rand, Max(interval, -interval) * 50, j)
    ensures forall j: nat | j < |tried| :: tried[j] != Max(port, port + interval * 50) - j
  {
    tried := [];
    if interval != 0 {
      var ports := GetRandomPortArr(port, port + interval * 50, rand);
      ghost var all := ports[..];
      for i := 0 to 51
        invariant ports[..] == all && tried == all[..i]
      {
        tried := tried + [ports[i]];
      }
    }
  }
}
