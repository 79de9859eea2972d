/** What overlapping calls of popTail can do to a bufDequeue, and exactly how far it stays a queue. */
module DequeueOverlap {
  import opened Basics
  import opened Ring
  import opened Dequeue

  // ---------- overlapping calls of popTail ----------

  /** The state in which consumer 0 has loaded the tail index of value 0 and stopped, consumer 1 has popped
      value 0, and values 1 to `k` have been pushed since. */
  function Stalled(n: nat, producers: nat, consumers: nat, k: nat): State
    requires k <= n && k + 1 < TWO32 && consumers >= 2
  {
    State(Ring(PackIndices(k + 1, 1),
               seq(n, (i: nat) => if i == 0 then (if k == n then Some(n) else None)
                                  else if i <= k then Some(i) else None),
               seq(k + 1, i => i), 1, 1, {}),
          seq(producers, _ => PIdle), seq(consumers, _ => CIdle)[0 := CLoaded(0, 0)], map[], [0])
  }

  /** One undisturbed call of pushHead. */
  lemma PushRuns(s: State, v: nat) returns (t: State)
    requires s.ring.slots != [] && 1 <= |s.producers| && s.producers[0].PIdle?
    requires !Full(s.ring.headTail, |s.ring.slots|) && |s.ring.vals| !in s.ring.owned && |s.ring.vals| !in s.owner
    ensures Run(s, [Push(0, v), LoadHead(0), ReserveSlot(0), StoreValue(0)], t, Any)
    ensures var slot := SlotOf(s.ring, Head(s.ring.headTail));
            t == s.(ring := s.ring.(headTail := PackIndices((Head(s.ring.headTail) + 1) % TWO32, Tail(s.ring.headTail)),
                                    vals := s.ring.vals + [v], slots := s.ring.slots[slot := Some(v)]))
  {
    var s1 := Next(s, Push(0, v));
    var s2 := Next(s1, LoadHead(0));
    var s3 := Next(s2, ReserveSlot(0));
    t := Next(s3, StoreValue(0));
    assert t.producers == s.producers && t.owner == s.owner && t.ring.owned == s.ring.owned;
    assert Run(t, [], t, Any);
    assert Run(s3, [StoreValue(0)], t, Any);
    assert Run(s2, [ReserveSlot(0), StoreValue(0)], t, Any);
    assert Run(s1, [LoadHead(0), ReserveSlot(0), StoreValue(0)], t, Any);
  }

  lemma {:induction false} RunsCompose(s: State, run1: seq<Step>, m: State, run2: seq<Step>, t: State, d: Discipline)
    requires Run(s, run1, m, d) && Run(m, run2, t, d)
    ensures Run(s, run1 + run2, t, d)
    decreases |run1|
  {
    if run1 == [] {
      assert run1 + run2 == run2;
    } else {
      RunsCompose(Next(s, run1[0]), run1[1..], m, run2, t, d);
      assert (run1 + run2)[1..] == run1[1..] + run2;
    }
  }

  lemma {:induction false} StalledIsReached(n: nat, producers: nat, consumers: nat, k: nat) returns (run: seq<Step>)
    requires 2 <= n && Size(n) && k <= n && producers >= 1 && consumers >= 2
    ensures Run(Init(n, producers, consumers), run, Stalled(n, producers, consumers, k), Any)
  {
    if k == 0 {
      run := StallBegins(n, producers, consumers);
    } else {
      var before := StalledIsReached(n, producers, consumers, k - 1);
      var push := StallContinues(n, producers, consumers, k);
      RunsCompose(Init(n, producers, consumers), before, Stalled(n, producers, consumers, k - 1), push,
                  Stalled(n, producers, consumers, k), Any);
      run := before + push;
    }
  }

  lemma StallContinues(n: nat, producers: nat, consumers: nat, k: nat) returns (run: seq<Step>)
    requires 2 <= n && Size(n) && 1 <= k <= n && producers >= 1 && consumers >= 2
    ensures Run(Stalled(n, producers, consumers, k - 1), run, Stalled(n, producers, consumers, k), Any)
  {
    var s, goal := Stalled(n, producers, consumers, k - 1), Stalled(n, producers, consumers, k);
    IndicesOf(k, 1);
    SmallMod(k, n);
    var t := PushRuns(s, k);
    SlotsGrow(n, producers, consumers, k);
    assert t.ring == goal.ring;
    run := [Push(0, k), LoadHead(0), ReserveSlot(0), StoreValue(0)];
  }

  lemma IndicesOf(head: u32, tail: u32)
    ensures Head(PackIndices(head, tail)) == head && Tail(PackIndices(head, tail)) == tail
  {
  }

  lemma SmallMod(k: nat, n: nat)
    requires 1 <= k <= n
    ensures k % n == if k == n then 0 else k
  {
  }

  lemma SlotsGrow(n: nat, producers: nat, consumers: nat, k: nat)
    requires 2 <= n && Size(n) && 1 <= k <= n && consumers >= 2
    ensures var before, after := Stalled(n, producers, consumers, k - 1).ring, Stalled(n, producers, consumers, k).ring;
            && after.slots == before.slots[(if k == n then 0 else k) := Some(k)]
            && after.vals == before.vals + [k]
  {
  }

  /** Value 0 is pushed and consumer 0 stops after loading its index. */
  lemma StallIsSetUp(s: State) returns (run: seq<Step>, t: State)
    requires s.ring.slots != [] && 1 <= |s.producers| && s.producers[0].PIdle?
    requires |s.consumers| >= 2 && s.consumers[0].CIdle?
    requires s.ring.headTail == 0 && |s.ring.slots| < TWO32 && s.ring.vals == [] && s.ring.freed == 0
    requires s.ring.owned == {} && s.owner == map[]
    ensures Run(s, run, t, Any)
    ensures t == s.(ring := s.ring.(headTail := PackIndices(1, 0), vals := [0], slots := s.ring.slots[0 := Some(0)]),
                    consumers := s.consumers[0 := CLoaded(0, 0)])
  {
    assert Head(0) == 0 && Tail(0) == 0 && !Full(0, |s.ring.slots|);
    var m := PushRuns(s, 0);
    t := FirstConsumerStalls(m);
    var push := [Push(0, 0), LoadHead(0), ReserveSlot(0), StoreValue(0)];
    RunsCompose(s, push, m, [Pop(0), LoadTail(0)], t, Any);
    run := push + [Pop(0), LoadTail(0)];
  }

  lemma StallBegins(n: nat, producers: nat, consumers: nat) returns (run: seq<Step>)
    requires 2 <= n && Size(n) && producers >= 1 && consumers >= 2
    ensures Run(Init(n, producers, consumers), run, Stalled(n, producers, consumers, 0), Any)
  {
    var goal := Stalled(n, producers, consumers, 0);
    var before, m := StallIsSetUp(Init(n, producers, consumers));
    var t := SecondConsumerPops(m);
    assert t.ring.slots == goal.ring.slots && t.ring.vals == goal.ring.vals;
    assert t.popped == goal.popped && t.consumers == goal.consumers;
    var pop := [Pop(1), LoadTail(1), LoadSlot(1), ClearSlot(1), AdvanceTail(1)];
    RunsCompose(Init(n, producers, consumers), before, m, pop, t, Any);
    run := before + pop;
  }

  /** Consumer 0 stops after loading the tail index. */
  lemma FirstConsumerStalls(s: State) returns (t: State)
    requires s.ring.slots != [] && |s.consumers| >= 2 && s.consumers[0].CIdle?
    requires s.ring.headTail == PackIndices(1, 0) && s.ring.freed == 0
    ensures Run(s, [Pop(0), LoadTail(0)], t, Any)
    ensures t == s.(consumers := s.consumers[0 := CLoaded(0, 0)])
  {
    var s1 := Next(s, Pop(0));
    t := Next(s1, LoadTail(0));
    assert t.consumers == s.consumers[0 := CLoaded(0, 0)];
    assert Run(t, [], t, Any);
    assert Run(s1, [LoadTail(0)], t, Any);
  }

  /** Consumer 1 sees the value at the tail, */
  lemma SecondConsumerSees(s: State) returns (t: State)
    requires s.ring.slots != [] && |s.consumers| >= 2 && s.consumers[1].CIdle?
    requires s.ring.headTail == PackIndices(1, 0) && s.ring.slots[0] == Some(0) && s.ring.freed == 0
    ensures Run(s, [Pop(1), LoadTail(1), LoadSlot(1)], t, Any)
    ensures t == s.(consumers := s.consumers[1 := CSeen(0, 0, 0)])
  {
    var s1 := Next(s, Pop(1));
    var s2 := Next(s1, LoadTail(1));
    t := Next(s2, LoadSlot(1));
    assert t.consumers == s.consumers[1 := CSeen(0, 0, 0)];
    assert Run(t, [], t, Any);
    assert Run(s2, [LoadSlot(1)], t, Any);
    assert Run(s1, [LoadTail(1), LoadSlot(1)], t, Any);
  }

  /** and takes it. */
  lemma SecondConsumerTakes(s: State) returns (t: State)
    requires s.ring.slots != [] && |s.consumers| >= 2 && s.consumers[1] == CSeen(0, 0, 0)
    requires s.ring.headTail == PackIndices(1, 0) && s.ring.slots[0] == Some(0)
    ensures Run(s, [ClearSlot(1), AdvanceTail(1)], t, Any)
    ensures t == s.(ring := s.ring.(headTail := PackIndices(1, 1), slots := s.ring.slots[0 := None],
                                    taken := s.ring.taken + 1, freed := s.ring.freed + 1),
                    popped := s.popped + [0], consumers := s.consumers[1 := CIdle])
  {
    var s1 := Next(s, ClearSlot(1));
    assert s1.consumers == s.consumers[1 := CCleared(0, 0, 0)] && s1.ring == Clear(s.ring, 0);
    t := Next(s1, AdvanceTail(1));
    assert t.consumers == s.consumers[1 := CIdle];
    assert Run(t, [], t, Any);
    assert Run(s1, [AdvanceTail(1)], t, Any);
  }

  /** Consumer 1 completes a call. */
  lemma SecondConsumerPops(s: State) returns (t: State)
    requires s.ring.slots != [] && |s.consumers| >= 2 && s.consumers[1].CIdle?
    requires s.ring.headTail == PackIndices(1, 0) && s.ring.slots[0] == Some(0) && s.ring.freed == 0
    ensures Run(s, [Pop(1), LoadTail(1), LoadSlot(1), ClearSlot(1), AdvanceTail(1)], t, Any)
    ensures t == s.(ring := s.ring.(headTail := PackIndices(1, 1), slots := s.ring.slots[0 := None],
                                    taken := s.ring.taken + 1, freed := s.ring.freed + 1),
                    popped := s.popped + [0])
  {
    var m := SecondConsumerSees(s);
    t := SecondConsumerTakes(m);
    RunsCompose(s, [Pop(1), LoadTail(1), LoadSlot(1)], m, [ClearSlot(1), AdvanceTail(1)], t, Any);
    assert [Pop(1), LoadTail(1), LoadSlot(1)] + [ClearSlot(1), AdvanceTail(1)] ==
           [Pop(1), LoadTail(1), LoadSlot(1), ClearSlot(1), AdvanceTail(1)];
    assert t.consumers == s.consumers;
  }

  /** Two overlapping calls of popTail can take the newest value before the oldest: the stalled consumer finds
      its old slot reused. */
  lemma OverlapBreaksFifo(n: nat, producers: nat, consumers: nat) returns (run: seq<Step>, t: State)
    requires 2 <= n && Size(n) && producers >= 1 && consumers >= 2
    ensures Run(Init(n, producers, consumers), run, t, Any)
    ensures !Fifo(t) && t.popped == [0, n] && [0, 1] <= t.ring.vals && |t.ring.vals| == n + 1
    ensures var s := Stalled(n, producers, consumers, n);
            t == s.(ring := Clear(s.ring, 0), popped := [0, n], consumers := s.consumers[0 := CCleared(0, 0, n)])
  {
    var before := StalledIsReached(n, producers, consumers, n);
    var s := Stalled(n, producers, consumers, n);
    var s1 := Next(s, LoadSlot(0));
    t := Next(s1, ClearSlot(0));
    assert Run(t, [], t, Any);
    assert Run(s1, [ClearSlot(0)], t, Any);
    assert Run(s, [LoadSlot(0), ClearSlot(0)], t, Any);
    RunsCompose(Init(n, producers, consumers), before, s, [LoadSlot(0), ClearSlot(0)], t, Any);
    run := before + [LoadSlot(0), ClearSlot(0)];
    assert t.ring.vals[1] == 1 && t.popped[1] == n;
    assert t.consumers == s.consumers[0 := CCleared(0, 0, n)];
  }

  /** The late consumer moves the tail past the overtaken value. */
  lemma LateConsumerAdvances(n: nat, producers: nat, consumers: nat) returns (run: seq<Step>, t: State)
    requires 2 <= n && Size(n) && producers >= 1 && consumers >= 2
    ensures Run(Init(n, producers, consumers), run, t, Any)
    ensures t.ring.headTail == PackIndices(n + 1, 2) && t.ring.slots != [] && |t.ring.slots| == n
    ensures |t.ring.vals| == n + 1 && t.ring.vals[1] == 1 && t.ring.owned == {} && t.owner == map[]
    ensures forall i | 0 <= i < n :: i != 1 ==> t.ring.slots[i] != Some(1)
    ensures t.popped == [0, n] && AllIdle(t.consumers) && |t.producers| == producers && t.producers[0].PIdle?
  {
    var before, s := OverlapBreaksFifo(n, producers, consumers);
    t := Next(s, AdvanceTail(0));
    assert Run(t, [], t, Any);
    assert Run(s, [AdvanceTail(0)], t, Any);
    RunsCompose(Init(n, producers, consumers), before, s, [AdvanceTail(0)], t, Any);
    run := before + [AdvanceTail(0)];
    IndicesOf(n + 1, 1);
    assert t.consumers == seq(consumers, _ => CIdle);
  }

  /** The overtaken value is then lost: the next push overwrites it. */
  lemma OverlapLosesValue(n: nat, producers: nat, consumers: nat) returns (run: seq<Step>, t: State)
    requires 2 <= n && Size(n) && producers >= 1 && consumers >= 2
    ensures Run(Init(n, producers, consumers), run, t, Any)
    ensures !Accounted(t) && AllIdle(t.consumers) && |t.ring.vals| == n + 2
  {
    var before, m := LateConsumerAdvances(n, producers, consumers);
    IndicesOf(n + 1, 2);
    var push := [Push(0, n + 1), LoadHead(0), ReserveSlot(0), StoreValue(0)];
    t := PushRuns(m, n + 1);
    RunsCompose(Init(n, producers, consumers), before, m, push, t, Any);
    run := before + push;
    NextSlot(n);
    assert t.ring.slots == m.ring.slots[1 := Some(n + 1)] && t.ring.vals[1] == 1;
    forall i | 0 <= i < n
      ensures t.ring.slots[i] != Some(1)
    {
    }
  }

  lemma NextSlot(n: nat)
    requires n >= 2
    ensures (n + 1) % n == 1
  {
    DivMod(1, n, 1);
  }


  // ---------- a value taken out of place ----------

  /** The number from `from` on, less than `n` ahead, that has slot `slot` of `n`. */
  lemma IndexOfSlot(from: nat, slot: nat, n: nat) returns (j: nat)
    requires slot < n
    ensures from <= j < from + n && j % n == slot
  {
    var q, r := from / n, from % n;
    assert from == n * q + r;
    if r <= slot {
      j := from + slot - r;
      DivMod(q, n, slot);
    } else {
      j := from + n + slot - r;
      DivMod(q + 1, n, slot);
      assert n * (q + 1) == n * q + n;
    }
  }

  /** From a state of the invariant, with all values different, a compare-and-swap of popTail that succeeds keeps the
      order if and only if the slot it loaded is the one whose turn it is, wherever the tail has gone meanwhile. */
  lemma TakeKeepsFifoIff(s: State, a: Step)
    requires Inv(s) && Takes(s, a)
    requires forall i, j :: 0 <= i < j < |s.ring.vals| ==> s.ring.vals[i] != s.ring.vals[j]
    ensures Fifo(Next(s, a)) <==> SlotOf(s.ring, s.consumers[a.c].tail) == SlotOf(s.ring, s.ring.taken)
  {
    var r, pc, t := s.ring, s.consumers[a.c], Next(s, a);
    var j := IndexOfSlot(r.taken, SlotOf(r, pc.tail), |r.slots|);
    assert At(r, pc.tail) == At(r, j) == Expected(r, j);
    if j == r.taken {
      assert t.popped == r.vals[..r.taken + 1];
    } else {
      SlotsDiffer(r.taken, j, |r.slots|);
      assert t.popped[r.taken] == r.vals[j];
    }
  }

  // ---------- how many reservations are safe ----------

  /** Ring of `n` slots with `n + 1` reservations: the first value is popped, and the others have a slot each. */
  ghost predicate SecondRound(s: State) {
    && s.ring.slots != [] && |s.ring.vals| == |s.ring.slots| + 1
    && ProducersOwn(s)
    && s.ring.vals[0] in s.popped
    && 0 !in s.ring.owned
    && forall j: nat {:trigger At(s.ring, j)} :: 1 <= j <= |s.ring.slots| ==>
         if j in s.ring.owned then At(s.ring, j) == None
         else At(s.ring, j) == Some(s.ring.vals[j]) || (At(s.ring, j) == None && s.ring.vals[j] in s.popped)
  }

  lemma SecondRoundAccounts(s: State)
    requires SecondRound(s)
    ensures Accounted(s)
  {
    forall j: nat | j < |s.ring.vals|
      ensures s.ring.vals[j] in s.popped || Some(s.ring.vals[j]) in s.ring.slots || j in s.ring.owned
    {
      if j > 0 {
        assert At(s.ring, j) == s.ring.slots[j % |s.ring.slots|];
      }
    }
  }

  lemma SecondRoundBegins(s: State, a: Step)
    requires Inv(s) && Reserves(s, a) && |s.ring.vals| == |s.ring.slots|
    ensures SecondRound(Next(s, a))
  {
    var r, t := s.ring, Next(s, a);
    FullAndEmpty(r);
    ReserveKeeps(r, s.producers[a.p].v);
    OwnersKept(s, a);
    assert s.popped[0] == r.vals[0];
    forall j: nat | 1 <= j <= |r.slots|
      ensures At(t.ring, j) == At(r, j)
      ensures if j in t.ring.owned then At(r, j) == None
              else At(r, j) == Some(t.ring.vals[j]) || (At(r, j) == None && t.ring.vals[j] in t.popped)
    {
      if j < r.taken {
        PassedSlotIsEmpty(r, j);
        assert s.popped[j] == r.vals[j];
      } else if j < |r.slots| {
        assert At(r, j) == Expected(r, j);
      }
    }
  }

  lemma SecondRoundStores(s: State, a: Step)
    requires SecondRound(s) && Enabled(s, a) && a.StoreValue?
    ensures SecondRound(Next(s, a))
  {
    var n, t, at := |s.ring.slots|, Next(s, a), s.producers[a.p].at;
    OwnersKept(s, a);
    assert at in s.owner && 1 <= at <= n;
    forall j: nat | 1 <= j <= n
      ensures At(t.ring, j) == if j == at then Some(s.ring.vals[at]) else At(s.ring, j)
    {
      if j < at {
        SlotsDiffer(j, at, n);
      } else if at < j {
        SlotsDiffer(at, j, n);
      }
    }
  }

  lemma SecondRoundTakes(s: State, a: Step)
    requires SecondRound(s) && Takes(s, a)
    ensures SecondRound(Next(s, a))
  {
    var n, t, pc := |s.ring.slots|, Next(s, a), s.consumers[a.c];
    ConsumerLeavesProducers(s, a);
    var i := IndexOfSlot(1, SlotOf(s.ring, pc.tail), n);
    assert At(s.ring, i) == At(s.ring, pc.tail) == Some(pc.v);
    assert pc.v == s.ring.vals[i] && pc.v in t.popped;
    forall j: nat | 1 <= j <= n
      ensures At(t.ring, j) == if j == i then None else At(s.ring, j)
    {
      if j < i {
        SlotsDiffer(j, i, n);
      } else if i < j {
        SlotsDiffer(i, j, n);
      }
    }
    assert forall v <- s.popped :: v in t.popped;
  }

  lemma SecondRoundKeeps(s: State, a: Step)
    requires SecondRound(s) && Enabled(s, a) && !Reserves(s, a)
    ensures SecondRound(Next(s, a))
  {
    if a.StoreValue? {
      SecondRoundStores(s, a);
    } else if Takes(s, a) {
      SecondRoundTakes(s, a);
    } else {
      var t := Next(s, a);
      if ProducerStep(a) {
        OwnersKept(s, a);
      } else {
        ConsumerLeavesProducers(s, a);
      }
      assert t.ring.slots == s.ring.slots && t.ring.vals == s.ring.vals && t.ring.owned == s.ring.owned;
      assert forall j: nat :: At(t.ring, j) == At(s.ring, j);
    }
  }

  /** States with at most one reservation more than slots. */
  ghost predicate Safe(s: State) {
    (Inv(s) && NotLapped(s) && |s.ring.vals| <= |s.ring.slots|) || SecondRound(s)
  }

  lemma SafeStep(s: State, a: Step)
    requires Safe(s) && Enabled(s, a) && |Next(s, a).ring.vals| <= |s.ring.slots| + 1
    ensures Safe(Next(s, a)) && |Next(s, a).ring.slots| == |s.ring.slots|
  {
    if SecondRound(s) {
      SecondRoundKeeps(s, a);
    } else if Reserves(s, a) && |s.ring.vals| == |s.ring.slots| {
      SecondRoundBegins(s, a);
    } else {
      UnlappedStep(s, a);
    }
  }

  lemma {:induction false} FewReservationsAccount(s: State, run: seq<Step>, t: State)
    requires Safe(s) && Run(s, run, t, Any) && |t.ring.vals| <= |s.ring.slots| + 1
    ensures Accounted(t)
    decreases |run|
  {
    if run != [] {
      ReservationsGrow(Next(s, run[0]), run[1..], t);
      SafeStep(s, run[0]);
      FewReservationsAccount(Next(s, run[0]), run[1..], t);
    } else if SecondRound(s) {
      SecondRoundAccounts(s);
    } else {
      InvAccounts(s);
    }
  }

  ghost predicate AlwaysFifo(n: nat, producers: nat, consumers: nat, d: Discipline, m: nat) {
    forall t :: Reached(n, producers, consumers, t, d) && |t.ring.vals| <= m ==> Fifo(t)
  }

  ghost predicate AlwaysAccounted(n: nat, producers: nat, consumers: nat, d: Discipline, m: nat) {
    forall t :: Reached(n, producers, consumers, t, d) && |t.ring.vals| <= m ==> Accounted(t)
  }

  lemma LoneConsumerReaches(n: nat, producers: nat, consumers: nat, t: State)
    requires consumers <= 1 && Reached(n, producers, consumers, t, Any)
    ensures Reached(n, producers, consumers, t, Apart)
  {
    var run :| Run(Init(n, producers, consumers), run, t, Any);
    LoneConsumerIsApart(Init(n, producers, consumers), run, t);
  }

  /** Every state with at most `m` reservations, of a ring of two or more slots, is in order if and only if some
      discipline is kept, or there is at most one consumer, or `m` does not exceed the number of slots. */
  lemma FifoIff(n: nat, producers: nat, consumers: nat, d: Discipline, m: nat)
    requires 2 <= n && Size(n) && producers >= 1
    ensures AlwaysFifo(n, producers, consumers, d, m) <==> d != Any || consumers <= 1 || m <= n
  {
    if d != Any || consumers <= 1 || m <= n {
      forall t | Reached(n, producers, consumers, t, d) && |t.ring.vals| <= m
        ensures Fifo(t)
      {
        if d != Any {
          DisciplineGivesInv(n, producers, consumers, t, d);
        } else if consumers <= 1 {
          LoneConsumerReaches(n, producers, consumers, t);
          DisciplineGivesInv(n, producers, consumers, t, Apart);
        } else {
          FewReservationsGiveInv(n, producers, consumers, t);
        }
      }
    } else {
      var run, t := OverlapBreaksFifo(n, producers, consumers);
      assert Reached(n, producers, consumers, t, d);
    }
  }

  /** The same for keeping every value, with room for one reservation more. */
  lemma NothingLostIff(n: nat, producers: nat, consumers: nat, d: Discipline, m: nat)
    requires 2 <= n && Size(n) && producers >= 1
    ensures AlwaysAccounted(n, producers, consumers, d, m) <==> d != Any || consumers <= 1 || m <= n + 1
  {
    if d != Any || consumers <= 1 || m <= n + 1 {
      forall t | Reached(n, producers, consumers, t, d) && |t.ring.vals| <= m
        ensures Accounted(t)
      {
        if d != Any {
          DisciplineGivesInv(n, producers, consumers, t, d);
          InvAccounts(t);
        } else if consumers <= 1 {
          LoneConsumerReaches(n, producers, consumers, t);
          DisciplineGivesInv(n, producers, consumers, t, Apart);
          InvAccounts(t);
        } else {
          var run :| Run(Init(n, producers, consumers), run, t, Any);
          InitInv(n, producers, consumers);
          FewReservationsAccount(Init(n, producers, consumers), run, t);
        }
      }
    } else {
      var run, t := OverlapLosesValue(n, producers, consumers);
      assert Reached(n, producers, consumers, t, d);
    }
  }

  // ---------- what holds in every run ----------

  function Times(seen: bool): nat {
    if seen then 1 else 0
  }

  /** How many slots hold value `v`, and how many producers are about to store it. */
  function Stored(slots: seq<Option<nat>>, v: nat): nat {
    if slots == [] then 0 else Times(slots[0] == Some(v)) + Stored(slots[1..], v)
  }

  predicate InHand(pc: ProducerPc, v: nat) {
    pc.POwn? && pc.v == v
  }

  function Held(producers: seq<ProducerPc>, v: nat): nat {
    if producers == [] then 0 else Times(InHand(producers[0], v)) + Held(producers[1..], v)
  }

  lemma {:induction false} StoredUpdate(slots: seq<Option<nat>>, i: nat, o: Option<nat>, v: nat)
    requires i < |slots|
    ensures Stored(slots[i := o], v) + Times(slots[i] == Some(v)) == Stored(slots, v) + Times(o == Some(v))
  {
    if i == 0 {
      assert slots[i := o][1..] == slots[1..];
    } else {
      StoredUpdate(slots[1..], i - 1, o, v);
      assert slots[i := o][0] == slots[0] && slots[i := o][1..] == slots[1..][i - 1 := o];
    }
  }

  lemma {:induction false} HeldUpdate(producers: seq<ProducerPc>, p: nat, pc: ProducerPc, v: nat)
    requires p < |producers|
    ensures Held(producers[p := pc], v) + Times(InHand(producers[p], v)) ==
            Held(producers, v) + Times(InHand(pc, v))
  {
    if p == 0 {
      assert producers[p := pc][1..] == producers[1..];
    } else {
      HeldUpdate(producers[1..], p - 1, pc, v);
      assert producers[p := pc][0] == producers[0] && producers[p := pc][1..] == producers[1..][p - 1 := pc];
    }
  }

  /** How often value `v` was popped, is in a slot, or is in a producer's hands. */
  function Copies(s: State, v: nat): nat {
    multiset(s.popped)[v] + Stored(s.ring.slots, v) + Held(s.producers, v)
  }

  /** That is no more often than it was reserved. */
  predicate Counted(s: State, v: nat) {
    Copies(s, v) <= multiset(s.ring.vals)[v]
  }

  lemma ProducerCounts(s: State, a: Step, v: nat)
    requires Counted(s, v) && Enabled(s, a) && ProducerStep(a)
    ensures Counted(Next(s, a), v)
  {
    var t := Next(s, a);
    HeldUpdate(s.producers, a.p, t.producers[a.p], v);
    assert t.producers == s.producers[a.p := t.producers[a.p]] && t.popped == s.popped;
    if a.StoreValue? {
      StoredUpdate(s.ring.slots, s.producers[a.p].slot, Some(s.producers[a.p].v), v);
    }
  }

  lemma ConsumerCounts(s: State, a: Step, v: nat)
    requires Counted(s, v) && Enabled(s, a) && !ProducerStep(a)
    ensures Counted(Next(s, a), v)
  {
    if Takes(s, a) {
      StoredUpdate(s.ring.slots, SlotOf(s.ring, s.consumers[a.c].tail), None, v);
    }
  }

  lemma {:induction false} NothingStored(slots: seq<Option<nat>>, v: nat)
    requires forall i :: 0 <= i < |slots| ==> slots[i] == None
    ensures Stored(slots, v) == 0
  {
    if slots != [] {
      NothingStored(slots[1..], v);
    }
  }

  lemma {:induction false} NothingHeld(producers: seq<ProducerPc>, v: nat)
    requires forall i :: 0 <= i < |producers| ==> producers[i] == PIdle
    ensures Held(producers, v) == 0
  {
    if producers != [] {
      NothingHeld(producers[1..], v);
    }
  }

  lemma {:induction false} RunCounts(s: State, run: seq<Step>, t: State, d: Discipline, v: nat)
    requires Counted(s, v) && Run(s, run, t, d)
    ensures Counted(t, v)
    decreases |run|
  {
    if run != [] {
      if ProducerStep(run[0]) {
        ProducerCounts(s, run[0], v);
      } else {
        ConsumerCounts(s, run[0], v);
      }
      RunCounts(Next(s, run[0]), run[1..], t, d, v);
    }
  }

  /** However calls overlap, a value is popped, in a slot or about to be stored no more often, taken together, than a
      slot was reserved for it: nothing is popped twice, and nothing popped is still there. */
  lemma NothingPoppedTwice(size: nat, producers: nat, consumers: nat, t: State, d: Discipline, v: nat)
    requires Reached(size, producers, consumers, t, d)
    ensures multiset(t.popped)[v] + Stored(t.ring.slots, v) + Held(t.producers, v) <= multiset(t.ring.vals)[v]
  {
    var s := Init(size, producers, consumers);
    var run :| Run(s, run, t, d);
    NothingStored(s.ring.slots, v);
    NothingHeld(s.producers, v);
    RunCounts(s, run, t, d, v);
  }
}
