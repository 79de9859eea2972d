/** The LRU cache: a list of entries, most recently used first, and a map from keys to the same entries. */
module Lru {
  import opened Basics

  // ---------- the cache as a list of pairs ----------

  function Without<K(==), V>(s: seq<(K, V)>, k: K): seq<(K, V)> {
    if s == [] then []
    else if s[0].0 == k then Without(s[1..], k) else [s[0]] + Without(s[1..], k)
  }

  function Has<K(==), V>(s: seq<(K, V)>, k: K): bool {
    s != [] && (s[0].0 == k || Has(s[1..], k))
  }

  function Lookup<K(==), V>(s: seq<(K, V)>, k: K): V
    requires Has(s, k)
  {
    if s[0].0 == k then s[0].1 else Lookup(s[1..], k)
  }

  function Take<T>(s: seq<T>, n: nat): seq<T> {
    if |s| <= n then s else s[..n]
  }

  /** A limit of 0 means none; a negative limit keeps nothing. */
  function Limited<T>(s: seq<T>, max: int): seq<T> {
    if max == 0 then s else Take(s, Max(max, 0))
  }

  function Added<K(==), V>(s: seq<(K, V)>, k: K, v: V, max: int): seq<(K, V)> {
    if Has(s, k) then [(k, v)] + Without(s, k) else Limited([(k, v)] + s, max)
  }

  function Touched<K(==), V>(s: seq<(K, V)>, k: K): seq<(K, V)> {
    if Has(s, k) then [(k, Lookup(s, k))] + Without(s, k) else s
  }

  predicate Distinct<K(==), V>(s: seq<(K, V)>) {
    forall i, j :: 0 <= i < j < |s| ==> s[i].0 != s[j].0
  }

  lemma {:induction false} HasIffSome<K, V>(s: seq<(K, V)>, k: K)
    ensures Has(s, k) <==> exists i :: 0 <= i < |s| && s[i].0 == k
  {
    if s != [] {
      HasIffSome(s[1..], k);
      if exists i :: 0 <= i < |s| && s[i].0 == k {
        var i :| 0 <= i < |s| && s[i].0 == k;
        assert i > 0 ==> s[1..][i - 1] == s[i];
      }
    }
  }

  lemma {:induction false} WithoutAbsent<K, V>(s: seq<(K, V)>, k: K)
    requires !Has(s, k)
    ensures Without(s, k) == s
  {
    if s != [] {
      WithoutAbsent(s[1..], k);
    }
  }

  lemma {:induction false} WithoutAt<K, V>(s: seq<(K, V)>, i: nat)
    requires Distinct(s) && i < |s|
    ensures Has(s, s[i].0) && Lookup(s, s[i].0) == s[i].1 && Without(s, s[i].0) == s[..i] + s[i + 1..]
  {
    var k := s[i].0;
    assert Distinct(s[1..]) by {
      assert forall a, b :: 0 <= a < b < |s[1..]| ==> s[1..][a] == s[a + 1] && s[1..][b] == s[b + 1];
    }
    if i == 0 {
      HasIffSome(s[1..], k);
      WithoutAbsent(s[1..], k);
    } else {
      WithoutAt(s[1..], i - 1);
      assert s[1..][i - 1] == s[i];
      assert s[..i] == [s[0]] + s[1..][..i - 1];
      assert s[i + 1..] == s[1..][i..];
    }
  }

  // ---------- the cache object ----------

  class Entry<K, V> {
    const key: K
    var value: V

    constructor (key: K, value: V)
      ensures this.key == key && this.value == value
    {
      this.key, this.value := key, value;
    }
  }

  ghost predicate DistinctKeys<K, V>(es: seq<Entry<K, V>>) {
    forall i, j :: 0 <= i < j < |es| ==> es[i].key != es[j].key
  }

  function CutAt<T>(s: seq<T>, i: nat): seq<T>
    requires i < |s|
  {
    s[..i] + s[i + 1..]
  }

  lemma CutFacts<K, V>(es: seq<Entry<K, V>>, i: nat)
    requires DistinctKeys(es) && i < |es|
    ensures var t := CutAt(es, i);
            DistinctKeys(t) && DistinctKeys([es[i]] + t) && forall x :: x in t <==> x in es && x != es[i]
  {
    var t := CutAt(es, i);
    forall x
      ensures x in t <==> x in es && x != es[i]
    {
      if x in es && x != es[i] {
        var j :| 0 <= j < |es| && es[j] == x;
        assert t[if j < i then j else j - 1] == x;
      }
    }
  }

  ghost function ContentsOf<K, V>(es: seq<Entry<K, V>>): seq<(K, V)>
    reads es
  {
    seq(|es|, (i: nat) requires i < |es| reads es => (es[i].key, es[i].value))
  }

  /** Removing an entry from the list, or moving it to the front, does the same to the contents. */
  lemma CutContents<K, V>(es: seq<Entry<K, V>>, i: nat)
    requires DistinctKeys(es) && i < |es|
    ensures var k, s := es[i].key, ContentsOf(es);
            && Has(s, k) && Lookup(s, k) == es[i].value
            && Without(s, k) == ContentsOf(CutAt(es, i))
            && Touched(s, k) == ContentsOf([es[i]] + CutAt(es, i))
  {
    var s := ContentsOf(es);
    assert s[i] == (es[i].key, es[i].value);
    WithoutAt(s, i);
    assert CutAt(s, i) == ContentsOf(CutAt(es, i));
    assert [s[i]] + CutAt(s, i) == ContentsOf([es[i]] + CutAt(es, i));
  }

  /** The list and the map hold the same entries, one for a key. */
  ghost predicate Bijection<K, V>(es: seq<Entry<K, V>>, cache: map<K, Entry<K, V>>) {
    && DistinctKeys(es)
    && (forall e <- es :: e.key in cache && cache[e.key] == e)
    && (forall k <- cache :: cache[k] in es && cache[k].key == k)
  }

  lemma MovedBijection<K, V>(es: seq<Entry<K, V>>, i: nat, cache: map<K, Entry<K, V>>)
    requires Bijection(es, cache) && i < |es|
    ensures var moved := [es[i]] + CutAt(es, i);
            Bijection(moved, cache) && |moved| == |es| && forall x :: x in moved <==> x in es
  {
    var moved := [es[i]] + CutAt(es, i);
    CutFacts(es, i);
    forall x
      ensures x in moved <==> x in es
    {
      assert x in moved <==> x == es[i] || x in CutAt(es, i);
    }
  }

  class Cache<K(==), V> {
    const maxEntries: int
    var ll: seq<Entry<K, V>>          // front first
    var cache: map<K, Entry<K, V>>
    var evicted: seq<(K, V)>          // the calls made to OnEvicted

    ghost predicate Linked()
      reads this
    {
      Bijection(ll, cache)
    }

    ghost predicate Valid()
      reads this
    {
      Linked() && (maxEntries != 0 ==> |ll| <= Max(maxEntries, 0))
    }

    ghost function Contents(): seq<(K, V)>
      reads this, ll
    {
      ContentsOf(ll)
    }

    constructor (maxEntries: int)
      ensures Valid() && Contents() == [] && this.maxEntries == maxEntries && evicted == []
    {
      this.maxEntries := maxEntries;
      ll, cache, evicted := [], map[], [];
    }

    lemma Present(k: K)
      requires Linked()
      ensures Distinct(Contents())
      ensures Has(Contents(), k) <==> k in cache
    {
      HasIffSome(Contents(), k);
      if k in cache {
        var i :| 0 <= i < |ll| && ll[i] == cache[k];
        assert Contents()[i].0 == k;
      }
    }

    /** list.MoveToFront: relinks the element, leaving it and the others as they are. */
    method MoveToFront(e: Entry<K, V>)
      requires Valid() && e in ll
      modifies `ll
      ensures Valid() && ll != [] && ll[0] == e
      ensures Contents() == Touched(old(Contents()), e.key)
      ensures forall x :: x in ll <==> x in old(ll)
    {
      var i :| 0 <= i < |ll| && ll[i] == e;
      CutContents(ll, i);
      MovedBijection(ll, i, cache);
      ll := [e] + CutAt(ll, i);
    }

    method RemoveElement(e: Entry<K, V>)
      requires Linked() && e in ll
      modifies `ll, `cache, `evicted
      ensures Linked() && |ll| == |old(ll)| - 1 && (forall x <- ll :: x in old(ll))
      ensures Contents() == Without(old(Contents()), e.key)
      ensures evicted == old(evicted) + [(e.key, e.value)]
    {
      var i :| 0 <= i < |ll| && ll[i] == e;
      CutContents(ll, i);
      CutFacts(ll, i);
      ll := CutAt(ll, i);
      cache := cache - {e.key};
      evicted := evicted + [(e.key, e.value)];
    }

    method RemoveOldest()
      requires Linked()
      modifies `ll, `cache, `evicted
      ensures Linked() && (forall x <- ll :: x in old(ll))
      ensures var was := old(Contents());
              if was == [] then Contents() == [] && evicted == old(evicted)
              else Contents() == was[..|was| - 1] && evicted == old(evicted) + [was[|was| - 1]]
    {
      if ll != [] {
        var ele := ll[|ll| - 1];
        CutContents(ll, |ll| - 1);
        assert CutAt(ll, |ll| - 1) == ll[..|ll| - 1];
        RemoveElement(ele);
      }
    }

    method Remove(key: K)
      requires Valid()
      modifies `ll, `cache, `evicted
      ensures Valid() && Contents() == Without(old(Contents()), key)
      ensures evicted == old(evicted) +
                if Has(old(Contents()), key) then [(key, Lookup(old(Contents()), key))] else []
    {
      Present(key);
      if key in cache {
        ghost var i :| 0 <= i < |ll| && ll[i] == cache[key];
        CutContents(ll, i);
        RemoveElement(cache[key]);
      } else {
        WithoutAbsent(Contents(), key);
      }
    }

    method Len() returns (n: nat)
      requires Valid()
      ensures n == |Contents()|
      ensures maxEntries > 0 ==> n <= maxEntries
    {
      n := |ll|;
    }

    /** The value of the entry at the front. */
    method SetFirst(e: Entry<K, V>, value: V)
      requires Valid() && ll != [] && ll[0] == e
      modifies e`value
      ensures Valid()
      ensures Contents() == [(ll[0].key, value)] + old(Contents())[1..]
    {
      assert forall i | 1 <= i < |ll| :: ll[i] != e;
      e.value := value;
    }

    method PushFront(key: K, value: V)
      requires Linked() && key !in cache
      modifies `ll, `cache
      ensures Linked() && |ll| == |old(ll)| + 1 && fresh(ll[0]) && ll[1..] == old(ll)
      ensures Contents() == [(key, value)] + old(Contents())
    {
      var ele := new Entry(key, value);
      ghost var contents := Contents();
      ll := [ele] + ll;
      cache := cache[key := ele];
      assert Contents() == [(key, value)] + contents;
    }

    /** An Add evicts the oldest entry exactly when the key is new and the limit is exceeded. */
    method Add(key: K, value: V)
      requires Valid()
      modifies this, ll
      ensures Valid()
      ensures Contents() == Added(old(Contents()), key, value, maxEntries)
      ensures var all := [(key, value)] + old(Contents());
              evicted == old(evicted) + if Has(old(Contents()), key) then [] else all[|Limited(all, maxEntries)|..]
      ensures var was, max := old(Contents()), maxEntries;
              evicted == old(evicted) +
                if !Has(was, key) && max != 0 && |was| + 1 > max then [([(key, value)] + was)[|was|]] else []
      ensures forall e <- ll :: e in old(ll) || fresh(e)
    {
      Present(key);
      if key in cache {
        var ee := cache[key];
        MoveToFront(ee);
        SetFirst(ee, value);
        return;
      }
      Insert(key, value);
    }

    /** The rest of Add, for a key that is not there. */
    method Insert(key: K, value: V)
      requires Valid() && key !in cache
      modifies `ll, `cache, `evicted
      ensures Valid()
      ensures var all := [(key, value)] + old(Contents());
              && Contents() == Limited(all, maxEntries)
              && evicted == old(evicted) + all[|Limited(all, maxEntries)|..]
      ensures forall e <- ll :: e in old(ll) || fresh(e)
    {
      ghost var all := [(key, value)] + Contents();
      PushFront(key, value);
      assert forall e <- ll :: e == ll[0] || e in ll[1..];
      assert Contents() == all;
      if maxEntries != 0 && |ll| > maxEntries {
        assert |all| == Max(maxEntries, 0) + 1;
        assert all[|all| - 1..] == [all[|all| - 1]];
        RemoveOldest();
      } else {
        assert Limited(all, maxEntries) == all;
      }
    }

    method Get(key: K) returns (value: Option<V>)
      requires Valid()
      modifies `ll
      ensures Valid()
      ensures value == if Has(old(Contents()), key) then Some(Lookup(old(Contents()), key)) else None
      ensures Contents() == Touched(old(Contents()), key)
    {
      Present(key);
      if key !in cache {
        return None;
      }
      var ele := cache[key];
      MoveToFront(ele);
      assert Contents()[0] == (key, ele.value);
      return Some(ele.value);
    }
  }

  // ---------- bounded and unbounded caches ----------

  function Keys<K, V>(s: seq<(K, V)>): seq<K> {
    seq(|s|, (i: nat) requires i < |s| => s[i].0)
  }

  lemma {:induction false} WithoutKeeps<K, V>(s: seq<(K, V)>, k: K)
    requires Distinct(s)
    ensures Distinct(Without(s, k)) && !Has(Without(s, k), k)
    ensures |Without(s, k)| == |s| - if Has(s, k) then 1 else 0
  {
    HasIffSome(s, k);
    if Has(s, k) {
      var i :| 0 <= i < |s| && s[i].0 == k;
      WithoutAt(s, i);
      var w := Without(s, k);
      HasIffSome(w, k);
      forall a, b | 0 <= a < b < |w|
        ensures w[a].0 != w[b].0
      {
        assert w[a] == s[if a < i then a else a + 1] && w[b] == s[if b < i then b else b + 1];
      }
    } else {
      WithoutAbsent(s, k);
    }
  }

  lemma CutAndDrop<T>(s: seq<T>, i: nat, n: nat)
    requires i < |Take(s, n)|
    ensures var t := Take(s, n); Take(t[..i] + t[i + 1..], n - 1) == Take(s[..i] + s[i + 1..], n - 1)
  {
  }

  lemma CutBefore<T>(s: seq<T>, i: nat, n: nat)
    requires n > 0 && |Take(s, n)| <= i < |s|
    ensures Take(Take(s, n), n - 1) == Take(s[..i] + s[i + 1..], n - 1)
  {
  }

  /** Removing a key and cutting to length commute, up to the one place the removal frees. */
  lemma WithoutTaken<K, V>(s: seq<(K, V)>, k: K, n: nat)
    requires Distinct(s) && n > 0
    ensures Take(Without(Take(s, n), k), n - 1) == Take(Without(s, k), n - 1)
    ensures Has(Take(s, n), k) ==> |Without(s, k)| >= |Without(Take(s, n), k)| && Has(s, k)
  {
    var t := Take(s, n);
    HasIffSome(s, k);
    HasIffSome(t, k);
    if Has(s, k) {
      var i :| 0 <= i < |s| && s[i].0 == k;
      WithoutAt(s, i);
      if i < |t| {
        assert t[i] == s[i] && Distinct(t);
        WithoutAt(t, i);
        CutAndDrop(s, i, n);
      } else {
        assert !Has(t, k);
        WithoutAbsent(t, k);
        CutBefore(s, i, n);
      }
    } else {
      WithoutAbsent(s, k);
      assert !Has(t, k);
      WithoutAbsent(t, k);
    }
  }

  /** An Add puts the key before the rest, cut to the bound if the key is new. */
  lemma AddedIsRest<K, V>(s: seq<(K, V)>, k: K, v: V, max: int)
    ensures Added(s, k, v, max) == if Has(s, k) then [(k, v)] + Without(s, k)
                                   else Limited([(k, v)] + Without(s, k), max)
  {
    if !Has(s, k) {
      WithoutAbsent(s, k);
    }
  }

  lemma FrontIsDistinct<K, V>(e: (K, V), rest: seq<(K, V)>)
    requires Distinct(rest) && !Has(rest, e.0)
    ensures Distinct([e] + rest)
  {
    HasIffSome(rest, e.0);
  }

  lemma TakeFront<T>(x: T, rest: seq<T>, n: nat)
    requires n > 0
    ensures Take([x] + rest, n) == [x] + Take(rest, n - 1)
  {
  }

  /** A call of Add on a cache of bound `n` that holds the first entries of an unbounded one keeps it so. */
  lemma AddKeepsInclusion<K, V>(u: seq<(K, V)>, k: K, v: V, n: nat)
    requires n > 0 && Distinct(u)
    ensures Distinct(Added(u, k, v, 0))
    ensures Added(Take(u, n), k, v, n) == Take(Added(u, k, v, 0), n)
  {
    var b, rest := Take(u, n), Without(u, k);
    WithoutTaken(u, k, n);
    AddedIsRest(u, k, v, 0);
    AddedIsRest(b, k, v, n);
    WithoutKeeps(u, k);
    WithoutKeeps(b, k);
    FrontIsDistinct((k, v), rest);
    TakeFront((k, v), rest, n);
    TakeFront((k, v), Without(b, k), n);
  }

  datatype Store<K, V> = Store(key: K, value: V)

  function AddAll<K(==), V>(s: seq<(K, V)>, ops: seq<Store<K, V>>, max: int): seq<(K, V)>
    decreases |ops|
  {
    if ops == [] then s else AddAll(Added(s, ops[0].key, ops[0].value, max), ops[1..], max)
  }

  /** For every sequence of Adds a cache of bound n holds exactly the n most recent entries, keys and values, of
      an unbounded cache. */
  lemma {:induction false} AddsOnlyInclusion<K, V>(u: seq<(K, V)>, ops: seq<Store<K, V>>, n: nat)
    requires n > 0 && Distinct(u)
    ensures AddAll(Take(u, n), ops, n) == Take(AddAll(u, ops, 0), n)
    decreases |ops|
  {
    if ops != [] {
      AddKeepsInclusion(u, ops[0].key, ops[0].value, n);
      AddsOnlyInclusion(Added(u, ops[0].key, ops[0].value, 0), ops[1..], n);
    }
  }

  /** The usual access: Get, then Add on a miss. */
  function Accessed<K(==), V>(s: seq<(K, V)>, k: K, v: V, max: int): seq<(K, V)> {
    if Has(s, k) then Touched(s, k) else Added(s, k, v, max)
  }

  function AccessAll<K(==), V>(s: seq<(K, V)>, ops: seq<Store<K, V>>, max: int): seq<(K, V)>
    decreases |ops|
  {
    if ops == [] then s else AccessAll(Accessed(s, ops[0].key, ops[0].value, max), ops[1..], max)
  }

  /** Keys move the same way whether an access hits or misses. */
  lemma AccessMovesKeys<K, V>(s: seq<(K, V)>, k: K, v: V, max: int)
    ensures Keys(Accessed(s, k, v, max)) == Keys(Added(s, k, v, max))
  {
  }

  lemma {:induction false} WithoutByKeys<K, V>(s: seq<(K, V)>, t: seq<(K, V)>, k: K)
    requires Keys(s) == Keys(t)
    ensures Keys(Without(s, k)) == Keys(Without(t, k)) && (Has(s, k) <==> Has(t, k))
    decreases |s|
  {
    assert |s| == |Keys(s)| == |Keys(t)| == |t|;
    if s != [] {
      assert Keys(s)[0] == Keys(t)[0];
      assert Keys(s)[1..] == Keys(s[1..]) && Keys(t)[1..] == Keys(t[1..]);
      WithoutByKeys(s[1..], t[1..], k);
      if s[0].0 != k {
        assert Keys(Without(s, k)) == [s[0].0] + Keys(Without(s[1..], k));
        assert Keys(Without(t, k)) == [t[0].0] + Keys(Without(t[1..], k));
      }
    }
  }

  lemma AddedByKeys<K, V>(s: seq<(K, V)>, t: seq<(K, V)>, k: K, v: V, max: int)
    requires Keys(s) == Keys(t)
    ensures Keys(Added(s, k, v, max)) == Keys(Added(t, k, v, max))
  {
    WithoutByKeys(s, t, k);
    assert |s| == |Keys(s)| == |Keys(t)| == |t|;
    assert Keys([(k, v)] + s) == [k] + Keys(s) && Keys([(k, v)] + t) == [k] + Keys(t);
    assert Keys([(k, v)] + Without(s, k)) == [k] + Keys(Without(s, k));
    assert Keys([(k, v)] + Without(t, k)) == [k] + Keys(Without(t, k));
    forall i | 0 <= i < |Added(s, k, v, max)|
      ensures Keys(Added(s, k, v, max))[i] == Keys(Added(t, k, v, max))[i]
    {
      if !Has(s, k) {
        assert Keys([(k, v)] + s)[i] == Keys([(k, v)] + t)[i];
      }
    }
  }

  /** For every sequence of accesses the keys of a cache of bound n are, in order, the first n keys of an
      unbounded cache. */
  lemma {:induction false} AccessInclusion<K, V>(b: seq<(K, V)>, u: seq<(K, V)>, ops: seq<Store<K, V>>, n: nat)
    requires n > 0 && Distinct(u) && Keys(b) == Take(Keys(u), n)
    ensures Keys(AccessAll(b, ops, n)) == Take(Keys(AccessAll(u, ops, 0)), n)
    decreases |ops|
  {
    if ops != [] {
      var k, v := ops[0].key, ops[0].value;
      var b', u' := Accessed(b, k, v, n), Accessed(u, k, v, 0);
      AccessMovesKeys(b, k, v, n);
      AccessMovesKeys(u, k, v, 0);
      assert Keys(b) == Keys(Take(u, n));
      AddedByKeys(b, Take(u, n), k, v, n);
      AddKeepsInclusion(u, k, v, n);
      assert Keys(Take(Added(u, k, v, 0), n)) == Take(Keys(Added(u, k, v, 0)), n);
      DistinctByKeys(Added(u, k, v, 0), u');
      AccessInclusion(b', u', ops[1..], n);
    }
  }

  lemma DistinctByKeys<K, V>(s: seq<(K, V)>, t: seq<(K, V)>)
    requires Keys(s) == Keys(t) && Distinct(s)
    ensures Distinct(t)
  {
    assert |s| == |Keys(s)| == |Keys(t)| == |t|;
    forall i, j | 0 <= i < j < |t|
      ensures t[i].0 != t[j].0
    {
      assert Keys(t)[i] == Keys(s)[i] && Keys(t)[j] == Keys(s)[j];
    }
  }

  /** The access finds the key in the unbounded cache only, where it has another value than the one loaded anew. */
  predicate Reloads<K(==), V(==)>(u: seq<(K, V)>, k: K, v: V, n: nat) {
    Has(u, k) && !Has(Take(u, n), k) && Lookup(u, k) != v
  }

  lemma TouchedIsAdded<K, V>(s: seq<(K, V)>, k: K, max: int)
    requires Has(s, k)
    ensures Touched(s, k) == Added(s, k, Lookup(s, k), max)
  {
  }

  lemma LookupTaken<K, V>(u: seq<(K, V)>, k: K, n: nat)
    requires Distinct(u) && Has(Take(u, n), k)
    ensures Has(u, k) && Lookup(Take(u, n), k) == Lookup(u, k)
  {
    var b := Take(u, n);
    HasIffSome(b, k);
    var i :| 0 <= i < |b| && b[i].0 == k;
    assert Distinct(b) && b[i] == u[i];
    WithoutAt(b, i);
    WithoutAt(u, i);
  }

  /** An access keeps a cache of bound `n` equal to the first entries of the unbounded one, values included, exactly
      when it does not reload an evicted key with another value. */
  lemma AccessKeepsEntriesIff<K, V>(u: seq<(K, V)>, k: K, v: V, n: nat)
    requires n > 0 && Distinct(u)
    ensures Accessed(Take(u, n), k, v, n) == Take(Accessed(u, k, v, 0), n) <==> !Reloads(u, k, v, n)
    ensures Distinct(Accessed(u, k, v, 0))
  {
    var b := Take(u, n);
    AddKeepsInclusion(u, k, v, n);
    if Has(b, k) {
      LookupTaken(u, k, n);
      TouchedIsAdded(b, k, n);
      TouchedIsAdded(u, k, 0);
      AddKeepsInclusion(u, k, Lookup(u, k), n);
    } else if Has(u, k) {
      TouchedIsAdded(u, k, 0);
      AddKeepsInclusion(u, k, Lookup(u, k), n);
      TakeFront((k, v), Without(u, k), n);
      TakeFront((k, Lookup(u, k)), Without(u, k), n);
      assert Take(Added(u, k, v, 0), n)[0] == (k, v);
      assert Take(Touched(u, k), n)[0] == (k, Lookup(u, k));
    }
  }

  /** No access of the sequence reloads an evicted key with another value; only the unbounded cache is asked. */
  predicate SameOnReload<K(==), V(==)>(u: seq<(K, V)>, ops: seq<Store<K, V>>, n: nat)
    decreases |ops|
  {
    ops == [] ||
    (!Reloads(u, ops[0].key, ops[0].value, n) &&
     SameOnReload(Accessed(u, ops[0].key, ops[0].value, 0), ops[1..], n))
  }

  ghost predicate AgreeAfter<K, V>(u: seq<(K, V)>, ops: seq<Store<K, V>>, n: nat, j: nat)
    requires j <= |ops|
  {
    AccessAll(Take(u, n), ops[..j], n) == Take(AccessAll(u, ops[..j], 0), n)
  }

  lemma AgreeAfterFirst<K, V>(u: seq<(K, V)>, ops: seq<Store<K, V>>, n: nat, j: nat)
    requires j < |ops|
    requires var k, v := ops[0].key, ops[0].value; Accessed(Take(u, n), k, v, n) == Take(Accessed(u, k, v, 0), n)
    ensures AgreeAfter(u, ops, n, j + 1) <==> AgreeAfter(Accessed(u, ops[0].key, ops[0].value, 0), ops[1..], n, j)
  {
    assert ops[..j + 1][1..] == ops[1..][..j];
  }

  /** For every sequence of accesses: the two caches agree in keys and values after every one of them if and only if
      every access that misses in the bounded cache and hits in the unbounded one stores the value found there. */
  lemma {:induction false} AccessEntriesAgreeIff<K, V>(u: seq<(K, V)>, ops: seq<Store<K, V>>, n: nat)
    requires n > 0 && Distinct(u)
    ensures (forall j: nat | j <= |ops| :: AgreeAfter(u, ops, n, j)) <==> SameOnReload(u, ops, n)
    decreases |ops|
  {
    if ops == [] {
      assert AgreeAfter(u, ops, n, 0);
    } else {
      var k, v, rest := ops[0].key, ops[0].value, ops[1..];
      var u' := Accessed(u, k, v, 0);
      AccessKeepsEntriesIff(u, k, v, n);
      assert AgreeAfter(u, ops, n, 0);
      if Reloads(u, k, v, n) {
        assert ops[..1] == [ops[0]] && [ops[0]][1..] == [];
        assert AccessAll(Take(u, n), [ops[0]], n) == Accessed(Take(u, n), k, v, n);
        assert AccessAll(u, [ops[0]], 0) == u';
        assert !AgreeAfter(u, ops, n, 1);
      } else {
        AccessEntriesAgreeIff(u', rest, n);
        forall j: nat | j < |ops|
          ensures AgreeAfter(u, ops, n, j + 1) <==> AgreeAfter(u', rest, n, j)
        {
          AgreeAfterFirst(u, ops, n, j);
        }
        AgreeShift(u, u', ops, n);
      }
    }
  }

  lemma AgreeShift<K, V>(u: seq<(K, V)>, u': seq<(K, V)>, ops: seq<Store<K, V>>, n: nat)
    requires ops != [] && AgreeAfter(u, ops, n, 0)
    requires forall j: nat | j < |ops| :: AgreeAfter(u, ops, n, j + 1) <==> AgreeAfter(u', ops[1..], n, j)
    ensures (forall j: nat | j <= |ops| :: AgreeAfter(u, ops, n, j)) <==>
            forall j: nat | j <= |ops[1..]| :: AgreeAfter(u', ops[1..], n, j)
  {
    if forall j: nat | j <= |ops| :: AgreeAfter(u, ops, n, j) {
      forall j: nat | j <= |ops[1..]|
        ensures AgreeAfter(u', ops[1..], n, j)
      {
        assert AgreeAfter(u, ops, n, j + 1);
      }
    }
    if forall j: nat | j <= |ops[1..]| :: AgreeAfter(u', ops[1..], n, j) {
      forall j: nat | j <= |ops|
        ensures AgreeAfter(u, ops, n, j)
      {
        if j > 0 {
          assert AgreeAfter(u', ops[1..], n, j - 1);
          assert AgreeAfter(u, ops, n, (j - 1) + 1);
        }
      }
    }
  }

  /** The condition fails at this input: after a reload the bounded cache holds a newer value than the unbounded one. */
  lemma AccessValuesMayDiffer()
    ensures var ops := [Store(1, 10), Store(2, 20), Store(1, 11)];
            AccessAll([], ops, 1) == [(1, 11)] && Take(AccessAll([], ops, 0), 1) == [(1, 10)]
  {
    var ops := [Store(1, 10), Store(2, 20), Store(1, 11)];
    var s: seq<(int, int)> := [];
    assert ops[1..] == [Store(2, 20), Store(1, 11)] && ops[1..][1..] == [Store(1, 11)];
    assert Accessed(s, 1, 10, 1) == [(1, 10)] && Accessed(s, 1, 10, 0) == [(1, 10)];
    assert Accessed([(1, 10)], 2, 20, 1) == [(2, 20)] && Accessed([(1, 10)], 2, 20, 0) == [(2, 20), (1, 10)];
    assert Accessed([(2, 20)], 1, 11, 1) == [(1, 11)];
    assert Accessed([(2, 20), (1, 10)], 1, 11, 0) == [(1, 10), (2, 20)];
  }

  /** A bare Get keeps the inclusion exactly when it hits in the bounded cache or misses in the unbounded one; in
      between, only the unbounded cache moves the key up. */
  lemma BareGetInclusion<K, V>(u: seq<(K, V)>, k: K, n: nat)
    requires n > 0 && Distinct(u)
    ensures Keys(Touched(Take(u, n), k)) == Take(Keys(Touched(u, k)), n) <==> Has(Take(u, n), k) || !Has(u, k)
  {
    var b := Take(u, n);
    KeysTaken(u, n);
    KeysTaken(Touched(u, k), n);
    if Has(b, k) {
      LookupTaken(u, k, n);
      AccessKeepsEntriesIff(u, k, Lookup(u, k), n);
    } else if Has(u, k) {
      assert u != [] && b[0] == u[0];
      assert Keys(Touched(u, k))[0] == k && Keys(b)[0] == b[0].0 != k;
    }
  }

  lemma KeysTaken<K, V>(s: seq<(K, V)>, n: nat)
    ensures Keys(Take(s, n)) == Take(Keys(s), n)
  {
  }
}
