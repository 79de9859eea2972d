/** bufChain with one producer and one consumer: a growing list of dequeues. The producer links a new dequeue of
    twice the size when the last one is full; the consumer leaves a dequeue behind once it is empty and has a
    successor. Every atomic access is one step. */
module Chain {
  import opened Basics
  import opened Ring

  /** `next` is the link to the successor; nodes are numbered in the order they were allocated. */
  datatype Node = Node(ring: Ring, next: Option<nat>)

  /** bufChain.pushHead, on dequeue `d`. */
  datatype ProducerPc =
    | PIdle
    | PTry(v: nat)
    | PAt(v: nat, d: nat)
    | PLoaded(v: nat, d: nat, ptrs: u64)
    | POwn(v: nat, d: nat, slot: nat, at: nat)
    | PGrow(v: nat, d: nat)               // dequeue `d` was full
    | PNewHead(v: nat, d: nat, d2: nat)   // `d2` allocated and filled, head not yet stored
    | PLink(v: nat, d: nat, d2: nat)      // head stored, link not yet stored

  /** bufChain.popTail. `seen` is how many values had been pushed when the link was loaded (history). */
  datatype ConsumerPc =
    | CIdle
    | CAt(d: nat)
    | CNext(d: nat, d2: Option<nat>, seen: nat)
    | CLoaded(d: nat, d2: Option<nat>, seen: nat, tail: u32)
    | CSeen(d: nat, d2: Option<nat>, seen: nat, tail: u32, v: nat)
    | CCleared(d: nat, tail: u32, v: nat)
    | CDrop(d: nat, to: nat)

  /** `head` and `tail` are the chain's pointers. `pushed` grows when a value becomes reachable for the consumer,
      `popped` when its slot is cleared. */
  datatype State = State(nodes: seq<Node>, head: nat, tail: nat, producer: ProducerPc, consumer: ConsumerPc,
                         pushed: seq<nat>, popped: seq<nat>)

  datatype Step =
    | Push(v: nat) | LoadChainHead | LoadHead | ReserveSlot | StoreValue | Allocate | StoreHead | StoreNext
    | Pop | LoadNext | LoadTail | LoadSlot | ClearSlot | AdvanceTail | DropNode

  function Init(size: nat): State {
    State([Node(Fresh(size), None)], 0, 0, PIdle, CIdle, [], [])
  }

  function Grown(size: nat): nat {
    Min(2 * size, DEQUEUE_LIMIT)
  }

  /** A new ring with one value pushed. */
  function Filled(size: nat, v: nat): Ring
    requires size > 0
  {
    Store(Reserve(Fresh(size), v), 0, v, 0)
  }

  function With(s: State, d: nat, r: Ring): State
    requires d < |s.nodes|
  {
    s.(nodes := s.nodes[d := s.nodes[d].(ring := r)])
  }

  predicate ProducerEnabled(s: State, a: Step) {
    var p := s.producer;
    match a
    case Push(_) => p.PIdle?
    case LoadChainHead => p.PTry? && s.head < |s.nodes|
    case LoadHead => p.PAt? && p.d < |s.nodes|
    case ReserveSlot => p.PLoaded? && p.d < |s.nodes| && s.nodes[p.d].ring.slots != []
    case StoreValue => p.POwn? && p.d < |s.nodes| && p.slot < |s.nodes[p.d].ring.slots|
    case Allocate => p.PGrow? && p.d < |s.nodes| && s.nodes[p.d].ring.slots != []
    case StoreHead => p.PNewHead?
    case StoreNext => p.PLink? && p.d < |s.nodes|
    case _ => false
  }

  function ProducerNext(s: State, a: Step): State
    requires ProducerEnabled(s, a)
  {
    var p := s.producer;
    match a
    case Push(v) => s.(producer := PTry(v))
    case LoadChainHead => s.(producer := PAt(p.v, s.head))
    case LoadHead =>
      var r := s.nodes[p.d].ring;
      s.(producer := if Full(r.headTail, |r.slots|) then PGrow(p.v, p.d) else PLoaded(p.v, p.d, r.headTail))
    case ReserveSlot =>
      var r := s.nodes[p.d].ring;
      if r.headTail == p.ptrs then
        With(s, p.d, Reserve(r, p.v)).(producer := POwn(p.v, p.d, SlotOf(r, Head(p.ptrs)), |r.vals|))
      else
        s.(producer := PAt(p.v, p.d))
    case StoreValue =>
      With(s, p.d, Store(s.nodes[p.d].ring, p.slot, p.v, p.at)).(producer := PIdle, pushed := s.pushed + [p.v])
    case Allocate =>   // nobody else sees the new dequeue yet, so its first value is stored at once
      s.(nodes := s.nodes + [Node(Filled(Grown(|s.nodes[p.d].ring.slots|), p.v), None)],
         producer := PNewHead(p.v, p.d, |s.nodes|))
    case StoreHead => s.(head := p.d2, producer := PLink(p.v, p.d, p.d2))
    case StoreNext =>
      s.(nodes := s.nodes[p.d := s.nodes[p.d].(next := Some(p.d2))], producer := PIdle, pushed := s.pushed + [p.v])
  }

  predicate ConsumerEnabled(s: State, a: Step) {
    var c := s.consumer;
    match a
    case Pop => c.CIdle?
    case LoadNext => c.CAt? && c.d < |s.nodes|
    case LoadTail => c.CNext? && c.d < |s.nodes|
    case LoadSlot => c.CLoaded? && c.d < |s.nodes| && s.nodes[c.d].ring.slots != []
    case ClearSlot => c.CSeen? && c.d < |s.nodes| && s.nodes[c.d].ring.slots != []
    case AdvanceTail => c.CCleared? && c.d < |s.nodes|
    case DropNode => c.CDrop?
    case _ => false
  }

  function ConsumerNext(s: State, a: Step): State
    requires ConsumerEnabled(s, a)
  {
    var c := s.consumer;
    match a
    case Pop => s.(consumer := CAt(s.tail))
    case LoadNext => s.(consumer := CNext(c.d, s.nodes[c.d].next, |s.pushed|))
    case LoadTail =>   // an empty dequeue: without a successor the call returns "empty"
      var r := s.nodes[c.d].ring;
      s.(consumer := if !Empty(r.headTail) then CLoaded(c.d, c.d2, c.seen, Tail(r.headTail))
                     else if c.d2.None? then CIdle else CDrop(c.d, c.d2.value))
    case LoadSlot =>
      var val := At(s.nodes[c.d].ring, c.tail);
      s.(consumer := if val.Some? then CSeen(c.d, c.d2, c.seen, c.tail, val.value) else CNext(c.d, c.d2, c.seen))
    case ClearSlot =>
      var r := s.nodes[c.d].ring;
      if At(r, c.tail) == Some(c.v) then
        With(s, c.d, Clear(r, SlotOf(r, c.tail))).(consumer := CCleared(c.d, c.tail, c.v), popped := s.popped + [c.v])
      else
        s.(consumer := CNext(c.d, c.d2, c.seen))
    case AdvanceTail => With(s, c.d, Advance(s.nodes[c.d].ring, c.tail)).(consumer := CIdle)
    case DropNode => s.(tail := if s.tail == c.d then c.to else s.tail, consumer := CAt(c.to))
  }

  predicate Enabled(s: State, a: Step) {
    ProducerEnabled(s, a) || ConsumerEnabled(s, a)
  }

  function Next(s: State, a: Step): State
    requires Enabled(s, a)
  {
    if ProducerEnabled(s, a) then ProducerNext(s, a) else ConsumerNext(s, a)
  }

  ghost predicate Run(s: State, run: seq<Step>, t: State)
    decreases |run|
  {
    if run == [] then s == t else Enabled(s, run[0]) && Run(Next(s, run[0]), run[1..], t)
  }

  // ---------- the invariant ----------

  /** All values ever reserved in the first `k` dequeues, in order. */
  function Flat(nodes: seq<Node>, k: nat): seq<nat>
    requires k <= |nodes|
  {
    if k == 0 then [] else Flat(nodes, k - 1) + nodes[k - 1].ring.vals
  }

  lemma {:induction false} FlatFrame(nodes: seq<Node>, nodes': seq<Node>, k: nat)
    requires k <= |nodes| && k <= |nodes'|
    requires forall i :: 0 <= i < k ==> nodes[i].ring.vals == nodes'[i].ring.vals
    ensures Flat(nodes, k) == Flat(nodes', k)
  {
    if k > 0 {
      FlatFrame(nodes, nodes', k - 1);
    }
  }

  /** The value the producer has put where the consumer cannot take it yet. */
  function Hidden(p: ProducerPc): seq<nat> {
    if p.POwn? || p.PNewHead? || p.PLink? then [p.v] else []
  }

  /** The dequeue that the producer is about to link, if any, is not reachable yet. */
  predicate Unlinked(p: ProducerPc, d: int) {
    (p.PNewHead? || p.PLink?) && p.d == d
  }

  predicate Links(s: State) {
    && s.nodes != []
    && (forall i :: 0 <= i < |s.nodes| ==>
          s.nodes[i].next == if i == |s.nodes| - 1 || Unlinked(s.producer, i) then None else Some(i + 1))
    && (forall i :: 0 <= i < |s.nodes| - 1 ==> |s.nodes[i + 1].ring.slots| == Grown(|s.nodes[i].ring.slots|))
  }

  predicate ProducerShape(s: State) {
    var p, last := s.producer, |s.nodes| - 1;
    && s.nodes != []
    && s.head == (if p.PNewHead? then last - 1 else last)
    && (p.PAt? || p.PLoaded? || p.POwn? || p.PGrow? ==> p.d == last)
    && (p.PLoaded? ==> !Full(p.ptrs, |s.nodes[last].ring.slots|))
    && (p.POwn? ==> var r := s.nodes[last].ring;
                    r.vals != [] && p.at == |r.vals| - 1 && p.v == r.vals[p.at] && r.slots != [] &&
                    p.slot == SlotOf(r, p.at))
    && (p.PNewHead? || p.PLink? ==> last >= 1 && p.d == last - 1 && p.d2 == last && s.nodes[last].ring.vals == [p.v])
  }

  predicate Structure(s: State) {
    && Links(s)
    && ProducerShape(s)
    && s.tail < |s.nodes|
    && !Unlinked(s.producer, s.tail - 1)
  }

  /** Who holds which slot, and how far each dequeue has been emptied. */
  predicate Counts(s: State) {
    forall i :: 0 <= i < |s.nodes| ==>
      && s.nodes[i].ring.owned == (if s.producer.POwn? && i == s.producer.d then {s.producer.at} else {})
      && s.nodes[i].ring.taken == s.nodes[i].ring.freed + (if s.consumer.CCleared? && s.consumer.d == i then 1 else 0)
      && (i < s.tail ==> s.nodes[i].ring.taken == |s.nodes[i].ring.vals|)
      && (i > s.tail ==> s.nodes[i].ring.taken == 0)
  }

  ghost predicate Rings(nodes: seq<Node>) {
    forall i :: 0 <= i < |nodes| ==> RingInv(nodes[i].ring)
  }

  predicate ConsumerShape(s: State)
    requires s.tail < |s.nodes|
  {
    var c, r := s.consumer, s.nodes[s.tail].ring;
    && (!c.CIdle? ==> c.d == s.tail)
    && ((c.CNext? || c.CLoaded? || c.CSeen?) && c.d2.Some? ==> s.nodes[s.tail].next == c.d2)
    && (c.CLoaded? || c.CSeen? || c.CCleared? ==> c.tail == r.freed % TWO32 && r.freed < |r.vals|)
    && (c.CSeen? ==> r.slots != [] && At(r, r.freed) == Some(c.v))
    && (c.CDrop? ==> s.nodes[s.tail].next == Some(c.to) && r.taken == |r.vals|)
  }

  /** What was pushed before the consumer loaded a missing link is in the dequeues up to its own. */
  predicate SeenIsReachable(s: State)
    requires s.tail < |s.nodes|
  {
    var c := s.consumer;
    c.CNext? || c.CLoaded? || c.CSeen? ==>
      && |s.popped| <= c.seen
      && (c.d2.None? ==> c.seen + (if s.producer.POwn? && s.producer.d == s.tail then 1 else 0) <=
                         |Flat(s.nodes, s.tail + 1)|)
  }

  predicate Streams(s: State)
    requires s.tail < |s.nodes|
  {
    && Flat(s.nodes, |s.nodes|) == s.pushed + Hidden(s.producer)
    && s.nodes[s.tail].ring.taken <= |s.nodes[s.tail].ring.vals|
    && s.popped == Flat(s.nodes, s.tail) + s.nodes[s.tail].ring.vals[..s.nodes[s.tail].ring.taken]
  }

  ghost predicate Inv(s: State) {
    && Structure(s)
    && Counts(s)
    && Rings(s.nodes)
    && ConsumerShape(s)
    && SeenIsReachable(s)
    && Streams(s)
  }

  lemma InitInv(size: nat)
    requires Size(size)
    ensures Inv(Init(size))
  {
    FreshInv(size);
    var s := Init(size);
    assert Flat(s.nodes, 1) == Flat(s.nodes, 0) + [];
  }

  lemma {:induction false} FlatGrows(nodes: seq<Node>, k: nat, m: nat)
    requires k <= m <= |nodes|
    ensures Flat(nodes, k) <= Flat(nodes, m)
    decreases m
  {
    if k < m {
      FlatGrows(nodes, k, m - 1);
    }
  }

  lemma CancelLast(x: seq<nat>, y: seq<nat>, v: nat)
    requires x + [v] == y + [v]
    ensures x == y
  {
    assert x == (x + [v])[..|x|] && y == (y + [v])[..|y|];
  }

  /** The consumer never takes the value that is not yet published. */
  lemma PoppedWasPushed(s: State)
    requires Structure(s) && Streams(s) && (s.producer.POwn? ==> s.nodes[|s.nodes| - 1].ring.taken <= s.producer.at)
    ensures s.popped <= s.pushed
  {
    var n, p := |s.nodes|, s.producer;
    if p.PNewHead? || p.PLink? {
      PoppedIsReached(s, n - 1);
      assert Flat(s.nodes, n) == Flat(s.nodes, n - 1) + [p.v];
      CancelLast(Flat(s.nodes, n - 1), s.pushed, p.v);
    } else {
      PoppedIsReached(s, n);
      if p.POwn? {
        PoppedBeforeOwned(s);
      }
    }
  }

  lemma PoppedIsReached(s: State, reach: nat)
    requires s.tail < reach <= |s.nodes| && Streams(s)
    ensures s.popped <= Flat(s.nodes, reach)
  {
    var r := s.nodes[s.tail].ring;
    FlatGrows(s.nodes, s.tail + 1, reach);
    assert Flat(s.nodes, s.tail + 1) == Flat(s.nodes, s.tail) + r.vals;
    assert s.popped <= Flat(s.nodes, s.tail) + r.vals;
  }

  lemma PoppedBeforeOwned(s: State)
    requires Structure(s) && Streams(s) && s.producer.POwn? && s.nodes[|s.nodes| - 1].ring.taken <= s.producer.at
    ensures |s.popped| < |Flat(s.nodes, |s.nodes|)|
  {
    if s.tail < |s.nodes| - 1 {
      PoppedIsReached(s, |s.nodes| - 1);
    }
  }

  // ---------- producer steps ----------

  lemma LimitSize()
    ensures Size(DEQUEUE_LIMIT)
  {
    RangeIsPowerOfTwo();
    assert PowerOfTwo(TWO32 / 2);
  }

  lemma GrownSize(n: nat)
    requires Size(n)
    ensures Size(Grown(n))
  {
    LimitSize();
  }

  lemma FilledInv(size: nat, v: nat)
    requires Size(size)
    ensures RingInv(Filled(size, v))
  {
    FreshInv(size);
    ReserveKeeps(Fresh(size), v);
    StoreKeeps(Reserve(Fresh(size), v), v, 0);
  }

  lemma ProducerStructure(s: State, a: Step)
    requires Structure(s) && ProducerEnabled(s, a)
    requires a.ReserveSlot? ==>
               var r := s.nodes[s.producer.d].ring;
               s.producer.ptrs == r.headTail ==> SlotOf(r, Head(r.headTail)) == SlotOf(r, |r.vals|)
    ensures Structure(ProducerNext(s, a))
  {
  }

  lemma ProducerCounts(s: State, a: Step)
    requires Structure(s) && Counts(s) && ConsumerShape(s) && ProducerEnabled(s, a)
    ensures Counts(ProducerNext(s, a))
  {
    assert a.Allocate? ==> ProducerNext(s, a).nodes[|s.nodes|].ring.owned == {};
  }

  lemma ProducerRings(s: State, a: Step)
    requires Structure(s) && Counts(s) && Rings(s.nodes) && ProducerEnabled(s, a)
    ensures Rings(ProducerNext(s, a).nodes)
  {
    var t, p := ProducerNext(s, a), s.producer;
    if a.ReserveSlot? {
      if s.nodes[p.d].ring.headTail == p.ptrs {
        ReserveKeeps(s.nodes[p.d].ring, p.v);
      }
    } else if a.StoreValue? {
      assert p.at in s.nodes[p.d].ring.owned;
      StoreKeeps(s.nodes[p.d].ring, p.v, p.at);
    } else if a.Allocate? {
      GrownSize(|s.nodes[p.d].ring.slots|);
      FilledInv(Grown(|s.nodes[p.d].ring.slots|), p.v);
    }
    forall i | 0 <= i < |t.nodes|
      ensures RingInv(t.nodes[i].ring)
    {
      if i < |s.nodes| && i != |s.nodes| - 1 {
        assert t.nodes[i].ring == s.nodes[i].ring;
      }
    }
  }

  /** At the tail, the slot a producer stores into is not the one the consumer looks at. */
  lemma ProducerLeavesTailSlot(s: State, a: Step)
    requires Structure(s) && Counts(s) && RingInv(s.nodes[s.tail].ring) && ConsumerShape(s) && ProducerEnabled(s, a)
    ensures ConsumerShape(ProducerNext(s, a))
  {
    var t, r := ProducerNext(s, a), s.nodes[s.tail].ring;
    var r' := t.nodes[s.tail].ring;
    assert t.consumer == s.consumer && t.tail == s.tail;
    assert s.nodes[s.tail].next.Some? ==> t.nodes[s.tail].next == s.nodes[s.tail].next;
    assert r'.freed == r.freed && r'.taken == r.taken && r.vals <= r'.vals && |r'.slots| == |r.slots|;
    assert s.nodes[s.tail].next.Some? ==> r'.vals == r.vals;
    if s.consumer.CSeen? {
      assert At(r', r.freed) == At(r, r.freed) by {
        if a.StoreValue? && s.tail == s.producer.d {
          assert s.producer.at in r.owned;
          assert At(r, r.freed) == Expected(r, r.freed);
          SlotsDiffer(r.freed, s.producer.at, |r.slots|);
        }
      }
    }
  }

  lemma ReservingFlat(s: State)
    requires Structure(s) && ProducerEnabled(s, ReserveSlot)
    requires s.nodes[s.producer.d].ring.headTail == s.producer.ptrs
    ensures var t, n := ProducerNext(s, ReserveSlot), |s.nodes|;
            && |t.nodes| == n && t.tail == s.tail && t.consumer == s.consumer
            && Flat(t.nodes, s.tail) == Flat(s.nodes, s.tail)
            && Flat(t.nodes, n) == Flat(s.nodes, n) + [s.producer.v]
            && |Flat(t.nodes, s.tail + 1)| == |Flat(s.nodes, s.tail + 1)| + (if s.tail == n - 1 then 1 else 0)
  {
    var t, n := ProducerNext(s, ReserveSlot), |s.nodes|;
    FlatFrame(t.nodes, s.nodes, n - 1);
    FlatFrame(t.nodes, s.nodes, s.tail);
    assert t.nodes[n - 1].ring.vals == s.nodes[n - 1].ring.vals + [s.producer.v];
  }

  lemma ReservingStreams(s: State)
    requires Structure(s) && Streams(s) && SeenIsReachable(s) && ProducerEnabled(s, ReserveSlot)
    requires s.nodes[s.producer.d].ring.headTail == s.producer.ptrs
    ensures Streams(ProducerNext(s, ReserveSlot)) && SeenIsReachable(ProducerNext(s, ReserveSlot))
  {
    var t, taken := ProducerNext(s, ReserveSlot), s.nodes[s.tail].ring.taken;
    ReservingFlat(s);
    assert t.nodes[s.tail].ring.taken == taken;
    assert t.nodes[s.tail].ring.vals[..taken] == s.nodes[s.tail].ring.vals[..taken];
  }

  lemma AllocatingStreams(s: State)
    requires Structure(s) && Streams(s) && SeenIsReachable(s) && ProducerEnabled(s, Allocate)
    ensures Streams(ProducerNext(s, Allocate)) && SeenIsReachable(ProducerNext(s, Allocate))
  {
    var t, n := ProducerNext(s, Allocate), |s.nodes|;
    FlatFrame(t.nodes, s.nodes, n);
    FlatFrame(t.nodes, s.nodes, s.tail);
    FlatFrame(t.nodes, s.nodes, s.tail + 1);
    assert t.nodes[n].ring.vals == [s.producer.v];
    assert Flat(t.nodes, n + 1) == Flat(s.nodes, n) + [s.producer.v];
  }

  lemma ProducerStreams(s: State, a: Step)
    requires Structure(s) && Streams(s) && SeenIsReachable(s) && ProducerEnabled(s, a)
    ensures Streams(ProducerNext(s, a)) && SeenIsReachable(ProducerNext(s, a))
  {
    if a.ReserveSlot? && s.nodes[s.producer.d].ring.headTail == s.producer.ptrs {
      ReservingStreams(s);
    } else if a.Allocate? {
      AllocatingStreams(s);
    } else {
      var t, n := ProducerNext(s, a), |s.nodes|;
      FlatFrame(t.nodes, s.nodes, n);
      FlatFrame(t.nodes, s.nodes, s.tail);
      FlatFrame(t.nodes, s.nodes, s.tail + 1);
    }
  }

  lemma ProducerKeeps(s: State, a: Step)
    requires Inv(s) && ProducerEnabled(s, a)
    ensures Inv(ProducerNext(s, a))
  {
    if a.ReserveSlot? {
      FullAndEmpty(s.nodes[s.producer.d].ring);
    }
    ProducerStructure(s, a);
    ProducerCounts(s, a);
    ProducerRings(s, a);
    ProducerLeavesTailSlot(s, a);
    ProducerStreams(s, a);
  }

  // ---------- consumer steps ----------

  /** What the consumer's next step needs to know about the ring it looks at. */
  predicate TailRingFacts(s: State)
    requires s.tail < |s.nodes|
  {
    var c, r := s.consumer, s.nodes[s.tail].ring;
    && r.slots != []
    && (Empty(r.headTail) <==> |r.vals| == r.freed)
    && r.freed <= |r.vals|
    && Tail(r.headTail) == r.freed % TWO32
    && SlotOf(r, r.freed % TWO32) == SlotOf(r, r.freed)
    && (c.CSeen? ==> r.taken < |r.vals| && c.v == r.vals[r.taken])
  }

  lemma TailRing(s: State)
    requires Structure(s) && Counts(s) && Rings(s.nodes) && ConsumerShape(s)
    ensures TailRingFacts(s)
    ensures s.consumer.CSeen? ==> RingInv(Clear(s.nodes[s.tail].ring, SlotOf(s.nodes[s.tail].ring, s.consumer.tail)))
    ensures s.consumer.CCleared? ==> RingInv(Advance(s.nodes[s.tail].ring, s.consumer.tail))
  {
    var r := s.nodes[s.tail].ring;
    FullAndEmpty(r);
    Indices(r);
    WrapKeepsSlot(r.freed, |r.slots|);
    if s.consumer.CSeen? {
      OldestIsSeen(r, s.consumer.v);
      ClearKeeps(r);
    } else if s.consumer.CCleared? {
      AdvanceKeeps(r);
    }
  }

  /** What of a dequeue the consumer leaves alone. */
  predicate SameShape(m: Node, n: Node) {
    n.next == m.next && |n.ring.slots| == |m.ring.slots| && n.ring.vals == m.ring.vals
  }

  lemma ConsumerLeaves(s: State, a: Step)
    requires s.tail < |s.nodes| && ConsumerShape(s) && ConsumerEnabled(s, a)
    ensures var t := ConsumerNext(s, a);
            && |t.nodes| == |s.nodes| && (forall i :: 0 <= i < |s.nodes| ==> SameShape(s.nodes[i], t.nodes[i]))
            && t.head == s.head && t.producer == s.producer
            && (t.tail == s.tail || s.nodes[s.tail].next == Some(t.tail))
  {
  }

  lemma ConsumerStructure(s: State, a: Step)
    requires Structure(s) && ConsumerShape(s) && ConsumerEnabled(s, a)
    ensures Structure(ConsumerNext(s, a))
  {
    ConsumerLeaves(s, a);
    SameShapeSameStructure(s, ConsumerNext(s, a));
  }

  lemma SameShapeSameStructure(s: State, t: State)
    requires Structure(s)
    requires |t.nodes| == |s.nodes| && (forall i :: 0 <= i < |s.nodes| ==> SameShape(s.nodes[i], t.nodes[i]))
    requires t.head == s.head && t.producer == s.producer
    requires t.tail == s.tail || s.nodes[s.tail].next == Some(t.tail)
    ensures Structure(t)
  {
    var last := |s.nodes| - 1;
    assert SameShape(s.nodes[last], t.nodes[last]);
  }

  lemma ConsumerKeepsShape(s: State, a: Step)
    requires Structure(s) && Counts(s) && ConsumerShape(s) && TailRingFacts(s) && ConsumerEnabled(s, a)
    requires ConsumerNext(s, a).tail < |s.nodes| == |ConsumerNext(s, a).nodes|
    ensures ConsumerShape(ConsumerNext(s, a))
  {
  }

  lemma ConsumerCounts(s: State, a: Step)
    requires Structure(s) && Counts(s) && ConsumerShape(s) && TailRingFacts(s) && ConsumerEnabled(s, a)
    ensures Counts(ConsumerNext(s, a))
  {
  }

  lemma LoadingNextStreams(s: State)
    requires Structure(s) && ConsumerShape(s) && Streams(s) && s.popped <= s.pushed && ConsumerEnabled(s, LoadNext)
    ensures SeenIsReachable(ConsumerNext(s, LoadNext))
  {
    var n, d := |s.nodes|, s.tail;
    if Unlinked(s.producer, d) {
      assert Flat(s.nodes, n) == Flat(s.nodes, n - 1) + [s.producer.v];
      CancelLast(Flat(s.nodes, d + 1), s.pushed, s.producer.v);
    }
  }

  lemma DroppingStreams(s: State)
    requires Structure(s) && Counts(s) && ConsumerShape(s) && Streams(s) && ConsumerEnabled(s, DropNode)
    ensures var t := ConsumerNext(s, DropNode); t.tail < |t.nodes| && Streams(t)
  {
    var d, r := s.tail, s.nodes[s.tail].ring;
    assert Flat(s.nodes, d + 1) == Flat(s.nodes, d) + r.vals;
    assert r.vals[..r.taken] == r.vals && s.nodes[d + 1].ring.vals[..0] == [];
  }

  lemma ClearingStreams(s: State)
    requires Structure(s) && Counts(s) && ConsumerShape(s) && TailRingFacts(s) && Streams(s) && SeenIsReachable(s)
    requires ConsumerEnabled(s, ClearSlot)
    ensures var t := ConsumerNext(s, ClearSlot); t.tail < |t.nodes| && Streams(t) && SeenIsReachable(t)
  {
    var t, r := ConsumerNext(s, ClearSlot), s.nodes[s.tail].ring;
    FlatFrame(t.nodes, s.nodes, |s.nodes|);
    FlatFrame(t.nodes, s.nodes, s.tail);
    FlatFrame(t.nodes, s.nodes, s.tail + 1);
    assert r.vals[..r.taken + 1] == r.vals[..r.taken] + [s.consumer.v];
  }

  lemma ConsumerStreams(s: State, a: Step)
    requires Structure(s) && Counts(s) && ConsumerShape(s) && TailRingFacts(s) && Streams(s) && SeenIsReachable(s)
    requires s.popped <= s.pushed
    requires ConsumerEnabled(s, a)
    ensures var t := ConsumerNext(s, a); t.tail < |t.nodes| && Streams(t) && SeenIsReachable(t)
  {
    var t, r := ConsumerNext(s, a), s.nodes[s.tail].ring;
    if a.LoadNext? {
      LoadingNextStreams(s);
    } else if a.DropNode? {
      DroppingStreams(s);
    } else if a.ClearSlot? {
      ClearingStreams(s);
    } else {
      FlatFrame(t.nodes, s.nodes, |s.nodes|);
      FlatFrame(t.nodes, s.nodes, s.tail);
      FlatFrame(t.nodes, s.nodes, s.tail + 1);
    }
  }

  lemma ConsumerKeeps(s: State, a: Step)
    requires Inv(s) && ConsumerEnabled(s, a)
    ensures Inv(ConsumerNext(s, a))
  {
    var t := ConsumerNext(s, a);
    TailRing(s);
    ConsumerStructure(s, a);
    ConsumerKeepsShape(s, a);
    ConsumerCounts(s, a);
    assert Rings(t.nodes);
    assert s.producer.POwn? ==> s.producer.at in s.nodes[s.producer.d].ring.owned;
    PoppedWasPushed(s);
    ConsumerStreams(s, a);
  }

  lemma StepKeeps(s: State, a: Step)
    requires Inv(s) && Enabled(s, a)
    ensures Inv(Next(s, a))
  {
    if ProducerEnabled(s, a) {
      ProducerKeeps(s, a);
    } else {
      ConsumerKeeps(s, a);
    }
  }

  lemma {:induction false} RunKeeps(s: State, run: seq<Step>, t: State)
    requires Inv(s) && Run(s, run, t)
    ensures Inv(t)
    decreases |run|
  {
    if run != [] {
      StepKeeps(s, run[0]);
      RunKeeps(Next(s, run[0]), run[1..], t);
    }
  }

  // ---------- what the chain guarantees ----------

  lemma InvIsFifo(s: State)
    requires Inv(s)
    ensures s.popped <= s.pushed
  {
    assert s.producer.POwn? ==> s.producer.at in s.nodes[s.producer.d].ring.owned;
    PoppedWasPushed(s);
  }

  ghost predicate Reachable(size: nat, t: State) {
    exists run :: Run(Init(size), run, t)
  }

  lemma ReachableInv(size: nat, t: State)
    requires Size(size) && Reachable(size, t)
    ensures Inv(t) && t.popped <= t.pushed
  {
    var run :| Run(Init(size), run, t);
    InitInv(size);
    RunKeeps(Init(size), run, t);
    InvIsFifo(t);
  }

  /** What the chain holds as a queue. */
  function Content(s: State): seq<nat>
    requires s.popped <= s.pushed
  {
    s.pushed[|s.popped|..]
  }

  /** What a step does to an unbounded FIFO. */
  datatype Effect = Nothing | Appends(v: nat) | TakesHead

  function EffectOf(s: State, a: Step): Effect
    requires Enabled(s, a)
  {
    match a
    case StoreValue => Appends(s.producer.v)
    case StoreNext => Appends(s.producer.v)
    case ClearSlot => if Next(s, a).consumer.CCleared? then TakesHead else Nothing
    case _ => Nothing
  }

  /** How a step adds to the two histories. */
  lemma StepHistory(s: State, a: Step)
    requires Enabled(s, a)
    ensures var t := Next(s, a);
            match EffectOf(s, a)
            case Nothing => t.pushed == s.pushed && t.popped == s.popped
            case Appends(v) => t.pushed == s.pushed + [v] && t.popped == s.popped
            case TakesHead => t.pushed == s.pushed && t.popped == s.popped + [t.consumer.v]
  {
  }

  lemma HeadTaken(pushed: seq<nat>, popped: seq<nat>, v: nat)
    requires popped + [v] <= pushed
    ensures popped <= pushed && pushed[|popped|..] == [v] + pushed[|popped| + 1..]
  {
    assert pushed[|popped|] == (popped + [v])[|popped|];
    assert pushed[..|popped|] == (popped + [v])[..|popped|];
  }

  /** Every access is a step of an unbounded FIFO, or none: the store of a value or of the link to a new dequeue appends
      the value being pushed, the clearing of a slot takes the oldest value, which is the one the call returns, and
      everything else leaves the content alone. */
  lemma StepRefinesFifo(s: State, a: Step)
    requires Inv(s) && Enabled(s, a)
    ensures Inv(Next(s, a)) && s.popped <= s.pushed && Next(s, a).popped <= Next(s, a).pushed
    ensures match EffectOf(s, a)
            case Nothing => Content(Next(s, a)) == Content(s)
            case Appends(v) => Content(Next(s, a)) == Content(s) + [v]
            case TakesHead => Content(s) == [Next(s, a).consumer.v] + Content(Next(s, a))
  {
    var t := Next(s, a);
    StepKeeps(s, a);
    InvIsFifo(s);
    InvIsFifo(t);
    StepHistory(s, a);
    if EffectOf(s, a).TakesHead? {
      HeadTaken(s.pushed, s.popped, t.consumer.v);
    }
  }

  /** Refines an unbounded FIFO: what was popped is a prefix of what was pushed, however the chain grew. */
  lemma ChainIsFifo(size: nat, t: State)
    requires Size(size) && Reachable(size, t)
    ensures t.popped <= t.pushed
  {
    ReachableInv(size, t);
  }

  /** Nothing is lost: the values pushed and not popped are, in order, in the dequeues from the tail on. */
  lemma ChainHoldsTheRest(size: nat, t: State)
    requires Size(size) && Reachable(size, t)
    ensures t.tail < |t.nodes| && t.nodes[t.tail].ring.taken <= |t.nodes[t.tail].ring.vals|
    ensures t.popped == Flat(t.nodes, t.tail) + t.nodes[t.tail].ring.vals[..t.nodes[t.tail].ring.taken]
    ensures t.pushed + Hidden(t.producer) == Flat(t.nodes, |t.nodes|)
  {
    ReachableInv(size, t);
  }

  /** "Empty" is returned only if, when the call loaded the link of its dequeue, every value pushed so far had
      been popped: it popped nothing since. */
  lemma EmptyWasTrue(size: nat, t: State)
    requires Size(size) && Reachable(size, t)
    requires ConsumerEnabled(t, LoadTail) && ConsumerNext(t, LoadTail).consumer.CIdle?
    ensures t.consumer.seen <= |t.pushed| && t.popped == t.pushed[..t.consumer.seen]
  {
    ReachableInv(size, t);
    var d := t.tail;
    var r := t.nodes[d].ring;
    FullAndEmpty(r);
    assert r.vals[..r.taken] == r.vals;
    assert Flat(t.nodes, d + 1) == t.popped;
  }

  /** A dequeue the tail has passed stays drained: its values are all popped, the producer is past it, and no
      step adds to it. Sizes are powers of two and double up to the limit. */
  lemma PassedDequeuesStayEmpty(size: nat, t: State, a: Step, i: nat)
    requires Size(size) && Reachable(size, t) && Enabled(t, a) && i < t.tail
    ensures i + 1 < |t.nodes| && t.nodes[i].ring.taken == |t.nodes[i].ring.vals|
    ensures Next(t, a).tail >= t.tail && i < |Next(t, a).nodes| && Next(t, a).nodes[i].ring == t.nodes[i].ring
    ensures var n, next := |t.nodes[i].ring.slots|, |t.nodes[i + 1].ring.slots|;
            Size(n) && next == if 2 * n <= 0x4000_0000 then 2 * n else 0x4000_0000
  {
    ReachableInv(size, t);
  }

  /** pushHead leaves the last dequeue for a new one exactly when that is full: it holds as many values, or slots not
      yet given back, as it has slots. */
  lemma GrowsWhenFull(size: nat, t: State)
    requires Size(size) && Reachable(size, t) && ProducerEnabled(t, LoadHead)
    ensures t.producer.d == |t.nodes| - 1
    ensures var r := t.nodes[|t.nodes| - 1].ring;
            ProducerNext(t, LoadHead).producer.PGrow? <==> |r.vals| - r.freed == |r.slots|
  {
    ReachableInv(size, t);
    FullAndEmpty(t.nodes[|t.nodes| - 1].ring);
  }
}
