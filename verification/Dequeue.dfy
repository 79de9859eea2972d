/** bufDequeue shared by any number of producers and consumers, one atomic access to a step. Calls of popTail may
    overlap; what decides whether the queue is a FIFO is whether a call that loaded the tail index is still running
    when the slot of that index is reserved again. */
module Dequeue {
  import opened Basics
  import opened Ring

  /** pushHead. `at` is the reservation number of the slot (history). */
  datatype ProducerPc = PIdle | PTry(v: nat) | PLoaded(v: nat, ptrs: u64) | POwn(v: nat, slot: nat, at: nat)

  /** popTail. `at` is the reservation number that the loaded tail index stands for (history). */
  datatype ConsumerPc =
    | CIdle
    | CTry
    | CLoaded(tail: u32, at: nat)
    | CSeen(tail: u32, at: nat, v: nat)
    | CCleared(tail: u32, at: nat, v: nat)

  /** `owner` maps a reservation that is not stored yet to its producer; `popped` lists the values in the order
      their slots were cleared. Both are history. */
  datatype State = State(ring: Ring, producers: seq<ProducerPc>, consumers: seq<ConsumerPc>,
                         owner: map<nat, nat>, popped: seq<nat>)

  datatype Step =
    | Push(p: nat, v: nat) | LoadHead(p: nat) | ReserveSlot(p: nat) | StoreValue(p: nat)
    | Pop(c: nat) | LoadTail(c: nat) | LoadSlot(c: nat) | ClearSlot(c: nat) | AdvanceTail(c: nat)

  function Init(size: nat, producers: nat, consumers: nat): State {
    State(Fresh(size), seq(producers, _ => PIdle), seq(consumers, _ => CIdle), map[], [])
  }

  predicate Enabled(s: State, a: Step) {
    && s.ring.slots != []
    && match a
       case Push(p, _) => p < |s.producers| && s.producers[p].PIdle?
       case LoadHead(p) => p < |s.producers| && s.producers[p].PTry?
       case ReserveSlot(p) => p < |s.producers| && s.producers[p].PLoaded?
       case StoreValue(p) => p < |s.producers| && s.producers[p].POwn? && s.producers[p].slot < |s.ring.slots|
       case Pop(c) => c < |s.consumers| && s.consumers[c].CIdle?
       case LoadTail(c) => c < |s.consumers| && s.consumers[c].CTry?
       case LoadSlot(c) => c < |s.consumers| && s.consumers[c].CLoaded?
       case ClearSlot(c) => c < |s.consumers| && s.consumers[c].CSeen?
       case AdvanceTail(c) => c < |s.consumers| && s.consumers[c].CCleared?
  }

  /** The compare-and-swap of pushHead succeeds. */
  predicate Reserves(s: State, a: Step) {
    a.ReserveSlot? && Enabled(s, a) && s.ring.headTail == s.producers[a.p].ptrs
  }

  /** The compare-and-swap of popTail succeeds. */
  predicate Takes(s: State, a: Step) {
    a.ClearSlot? && Enabled(s, a) && At(s.ring, s.consumers[a.c].tail) == Some(s.consumers[a.c].v)
  }

  function Next(s: State, a: Step): State
    requires Enabled(s, a)
  {
    var r := s.ring;
    match a
    case Push(p, v) => s.(producers := s.producers[p := PTry(v)])
    case LoadHead(p) =>   // a full ring ends the call
      s.(producers := s.producers[p := if Full(r.headTail, |r.slots|) then PIdle
                                       else PLoaded(s.producers[p].v, r.headTail)])
    case ReserveSlot(p) =>
      var pc := s.producers[p];
      if Reserves(s, a) then
        s.(ring := Reserve(r, pc.v), owner := s.owner[|r.vals| := p],
           producers := s.producers[p := POwn(pc.v, SlotOf(r, Head(pc.ptrs)), |r.vals|)])
      else
        s.(producers := s.producers[p := PTry(pc.v)])
    case StoreValue(p) =>
      var pc := s.producers[p];
      s.(ring := Store(r, pc.slot, pc.v, pc.at), owner := s.owner - {pc.at},
         producers := s.producers[p := PIdle])
    case Pop(c) => s.(consumers := s.consumers[c := CTry])
    case LoadTail(c) =>   // an empty ring ends the call
      s.(consumers := s.consumers[c := if Empty(r.headTail) then CIdle else CLoaded(Tail(r.headTail), r.freed)])
    case LoadSlot(c) =>
      var pc := s.consumers[c];
      var val := At(r, pc.tail);
      s.(consumers := s.consumers[c := if val.Some? then CSeen(pc.tail, pc.at, val.value) else CTry])
    case ClearSlot(c) =>
      var pc := s.consumers[c];
      if Takes(s, a) then
        s.(ring := Clear(r, SlotOf(r, pc.tail)), popped := s.popped + [pc.v],
           consumers := s.consumers[c := CCleared(pc.tail, pc.at, pc.v)])
      else
        s.(consumers := s.consumers[c := CTry])
    case AdvanceTail(c) =>
      s.(ring := Advance(r, s.consumers[c].tail), consumers := s.consumers[c := CIdle])
  }

  // ---------- runs ----------

  /** What is asked of a run: nothing; that a slot is taken only while the tail is where the taker loaded it; that no
      slot is reserved while a call of popTail runs that loaded the slot's previous index; that calls of popTail do
      not overlap. */
  datatype Discipline = Any | InPlace | Unlapped | Apart

  predicate AllIdle(consumers: seq<ConsumerPc>) {
    forall c <- consumers :: c == CIdle
  }

  predicate HoldsIndex(pc: ConsumerPc) {
    pc.CLoaded? || pc.CSeen?
  }

  predicate Obeys(s: State, a: Step, d: Discipline) {
    match d
    case Any => true
    case InPlace => Takes(s, a) ==> s.consumers[a.c].at == s.ring.freed
    case Unlapped =>
      Reserves(s, a) ==> forall c <- s.consumers | HoldsIndex(c) :: |s.ring.vals| < c.at + |s.ring.slots|
    case Apart => a.Pop? ==> AllIdle(s.consumers)
  }

  ghost predicate Run(s: State, run: seq<Step>, t: State, d: Discipline)
    decreases |run|
  {
    if run == [] then s == t
    else Enabled(s, run[0]) && Obeys(s, run[0], d) && Run(Next(s, run[0]), run[1..], t, d)
  }

  ghost predicate Reached(size: nat, producers: nat, consumers: nat, t: State, d: Discipline) {
    exists run :: Run(Init(size, producers, consumers), run, t, d)
  }

  /** Values come out in the order in which slots were reserved for them. */
  predicate Fifo(s: State) {
    s.popped <= s.ring.vals
  }

  /** Every reserved value was popped, or is in a slot, or is about to be stored by its producer. */
  ghost predicate Accounted(s: State) {
    forall j: nat | j < |s.ring.vals| ::
      s.ring.vals[j] in s.popped || Some(s.ring.vals[j]) in s.ring.slots || j in s.ring.owned
  }

  // ---------- the invariant ----------

  /** What a consumer in the middle of popTail knows. */
  predicate ConsumerKnows(r: Ring, pc: ConsumerPc) {
    match pc
    case CIdle => true
    case CTry => true
    case CLoaded(tail, at) => at <= r.freed && tail == at % TWO32
    case CSeen(tail, at, _) => at <= r.freed && tail == at % TWO32
    case CCleared(tail, at, v) =>
      at == r.freed < |r.vals| && r.taken == r.freed + 1 && tail == at % TWO32 && v == r.vals[at]
  }

  /** At most one consumer is between clearing a slot and advancing the tail. */
  predicate OneTaker(consumers: seq<ConsumerPc>) {
    forall c, d :: 0 <= c < d < |consumers| ==> !(consumers[c].CCleared? && consumers[d].CCleared?)
  }

  predicate NoTaker(consumers: seq<ConsumerPc>) {
    forall c <- consumers :: !c.CCleared?
  }

  predicate ProducersOwn(s: State)
    requires s.ring.slots != []
  {
    && s.owner.Keys == s.ring.owned
    && (forall at <- s.owner :: at < |s.ring.vals| && s.owner[at] < |s.producers| &&
          s.producers[s.owner[at]] == POwn(s.ring.vals[at], at % |s.ring.slots|, at))
    && (forall p | 0 <= p < |s.producers| && s.producers[p].POwn? ::
          s.producers[p].at in s.owner && s.owner[s.producers[p].at] == p)
    && (forall p | 0 <= p < |s.producers| && s.producers[p].PLoaded? ::
          !Full(s.producers[p].ptrs, |s.ring.slots|))
  }

  ghost predicate Inv(s: State) {
    && RingInv(s.ring)
    && ProducersOwn(s)
    && OneTaker(s.consumers)
    && (forall c <- s.consumers :: ConsumerKnows(s.ring, c))
    && (NoTaker(s.consumers) ==> s.ring.taken == s.ring.freed)
    && s.popped == s.ring.vals[..s.ring.taken]
  }

  lemma InitInv(size: nat, producers: nat, consumers: nat)
    requires Size(size)
    ensures Inv(Init(size, producers, consumers)) && NotLapped(Init(size, producers, consumers))
  {
    FreshInv(size);
  }

  predicate ProducerStep(a: Step) {
    a.Push? || a.LoadHead? || a.ReserveSlot? || a.StoreValue?
  }

  lemma OwnersKept(s: State, a: Step)
    requires s.ring.slots != [] && ProducersOwn(s) && Enabled(s, a) && ProducerStep(a)
    requires Reserves(s, a) ==> Head(s.ring.headTail) % |s.ring.slots| == |s.ring.vals| % |s.ring.slots|
    ensures Next(s, a).ring.slots != [] && ProducersOwn(Next(s, a))
  {
    var t := Next(s, a);
    assert |t.ring.slots| == |s.ring.slots|;
    if a.StoreValue? {
      assert s.producers[a.p].at in s.owner;
    }
  }

  lemma ProducerKeeps(s: State, a: Step)
    requires Inv(s) && Enabled(s, a) && ProducerStep(a)
    ensures Inv(Next(s, a))
  {
    var t := Next(s, a);
    FullAndEmpty(s.ring);
    assert RingInv(t.ring) by {
      if Reserves(s, a) {
        ReserveKeeps(s.ring, s.producers[a.p].v);
      } else if a.StoreValue? {
        StoreKeeps(s.ring, s.producers[a.p].v, s.producers[a.p].at);
      }
    }
    OwnersKept(s, a);
    assert t.ring.taken == s.ring.taken && t.ring.freed == s.ring.freed && s.ring.vals <= t.ring.vals;
    assert t.popped == t.ring.vals[..t.ring.taken];
  }

  /** The slot of an index that was taken and not reserved again is empty. */
  lemma PassedSlotIsEmpty(r: Ring, at: nat)
    requires RingInv(r) && at < r.taken && |r.vals| <= at + |r.slots|
    ensures At(r, at) == None
  {
    SameSlot(at, |r.slots|);
    assert At(r, at + |r.slots|) == Expected(r, at + |r.slots|);
  }

  /** A slot taken where the tail is held the oldest value, and nobody else is about to advance. */
  lemma TakenInPlace(r: Ring, tail: u32, v: nat)
    requires RingInv(r) && tail == r.freed % TWO32 && At(r, tail) == Some(v)
    ensures r.taken == r.freed < |r.vals| && v == r.vals[r.taken] && r.taken !in r.owned
    ensures SlotOf(r, tail) == SlotOf(r, r.freed) && RingInv(Clear(r, SlotOf(r, tail)))
  {
    WrapKeepsSlot(r.freed, |r.slots|);
    if r.freed < r.taken {
      PassedSlotIsEmpty(r, r.freed);
    } else {
      assert At(r, r.freed) == Expected(r, r.freed);
      ClearKeeps(r);
    }
  }

  lemma ConsumerLeavesProducers(s: State, a: Step)
    requires s.ring.slots != [] && ProducersOwn(s) && Enabled(s, a) && !ProducerStep(a)
    ensures Next(s, a).ring.slots != [] && ProducersOwn(Next(s, a))
  {
    var t := Next(s, a);
    assert t.producers == s.producers && t.owner == s.owner && t.ring.vals == s.ring.vals;
    assert t.ring.owned == s.ring.owned && |t.ring.slots| == |s.ring.slots|;
  }

  /** The steps of popTail that only look. */
  lemma LookingKeeps(s: State, a: Step)
    requires Inv(s) && Enabled(s, a) && !ProducerStep(a) && !a.AdvanceTail? && !Takes(s, a)
    ensures Inv(Next(s, a))
  {
    var t := Next(s, a);
    Indices(s.ring);
    ConsumerLeavesProducers(s, a);
    assert t.ring == s.ring && t.popped == s.popped;
    assert s.consumers[a.c] in s.consumers && !s.consumers[a.c].CCleared? && !t.consumers[a.c].CCleared?;
    forall d | 0 <= d < |t.consumers|
      ensures ConsumerKnows(t.ring, t.consumers[d]) && (t.consumers[d].CCleared? <==> s.consumers[d].CCleared?)
    {
      assert s.consumers[d] in s.consumers;
    }
    assert NoTaker(t.consumers) ==> NoTaker(s.consumers);
  }

  lemma TakingKeeps(s: State, a: Step)
    requires Inv(s) && Takes(s, a) && Obeys(s, a, InPlace)
    ensures Inv(Next(s, a))
  {
    var t, r, pc := Next(s, a), s.ring, s.consumers[a.c];
    assert pc in s.consumers;
    TakenInPlace(r, pc.tail, pc.v);
    ConsumerLeavesProducers(s, a);
    forall d | 0 <= d < |t.consumers|
      ensures ConsumerKnows(t.ring, t.consumers[d]) && (t.consumers[d].CCleared? <==> d == a.c)
    {
      assert s.consumers[d] in s.consumers;
    }
    assert r.vals[..r.taken + 1] == r.vals[..r.taken] + [pc.v];
    assert t.consumers[a.c] in t.consumers;
  }

  lemma AdvancingKeeps(s: State, a: Step)
    requires Inv(s) && Enabled(s, a) && a.AdvanceTail?
    ensures Inv(Next(s, a))
  {
    var t, pc := Next(s, a), s.consumers[a.c];
    assert pc in s.consumers;
    AdvanceKeeps(s.ring);
    ConsumerLeavesProducers(s, a);
    forall d | 0 <= d < |t.consumers|
      ensures ConsumerKnows(t.ring, t.consumers[d]) && !t.consumers[d].CCleared?
    {
      assert s.consumers[d] in s.consumers;
    }
  }

  lemma StepKeeps(s: State, a: Step)
    requires Inv(s) && Enabled(s, a) && Obeys(s, a, InPlace)
    ensures Inv(Next(s, a))
  {
    if ProducerStep(a) {
      ProducerKeeps(s, a);
    } else if a.AdvanceTail? {
      AdvancingKeeps(s, a);
    } else if Takes(s, a) {
      TakingKeeps(s, a);
    } else {
      LookingKeeps(s, a);
    }
  }

  lemma {:induction false} InPlaceKeeps(s: State, run: seq<Step>, t: State)
    requires Inv(s) && Run(s, run, t, InPlace)
    ensures Inv(t)
    decreases |run|
  {
    if run != [] {
      StepKeeps(s, run[0]);
      InPlaceKeeps(Next(s, run[0]), run[1..], t);
    }
  }

  // ---------- which runs take slots in place ----------

  /** The slot of an index that a consumer holds was not reserved again. */
  predicate NotLapped(s: State) {
    forall c <- s.consumers | HoldsIndex(c) :: |s.ring.vals| <= c.at + |s.ring.slots|
  }

  lemma UnlappedTake(s: State, a: Step)
    requires Inv(s) && NotLapped(s) && Takes(s, a)
    ensures s.consumers[a.c].at == s.ring.freed
  {
    var pc, r := s.consumers[a.c], s.ring;
    assert pc in s.consumers;
    WrapKeepsSlot(pc.at, |r.slots|);
    if pc.at < r.freed {
      PassedSlotIsEmpty(r, pc.at);
    }
  }

  lemma UnlappedStep(s: State, a: Step)
    requires Inv(s) && NotLapped(s) && Enabled(s, a) && Obeys(s, a, Unlapped)
    ensures Obeys(s, a, InPlace) && Inv(Next(s, a)) && NotLapped(Next(s, a))
  {
    if Takes(s, a) {
      UnlappedTake(s, a);
    }
    StepKeeps(s, a);
    var t := Next(s, a);
    forall d | 0 <= d < |t.consumers| && HoldsIndex(t.consumers[d])
      ensures |t.ring.vals| <= t.consumers[d].at + |t.ring.slots|
    {
      assert s.consumers[d] in s.consumers;
    }
  }

  lemma {:induction false} UnlappedIsInPlace(s: State, run: seq<Step>, t: State)
    requires Inv(s) && NotLapped(s) && Run(s, run, t, Unlapped)
    ensures Run(s, run, t, InPlace) && NotLapped(t)
    decreases |run|
  {
    if run != [] {
      UnlappedStep(s, run[0]);
      UnlappedIsInPlace(Next(s, run[0]), run[1..], t);
    }
  }

  /** With calls of popTail kept apart, a running one holds the current tail index. */
  predicate HeldApart(s: State) {
    && (forall c, d :: 0 <= c < d < |s.consumers| ==> s.consumers[c].CIdle? || s.consumers[d].CIdle?)
    && (forall c <- s.consumers | HoldsIndex(c) :: c.at == s.ring.freed)
  }

  lemma ApartStep(s: State, a: Step)
    requires Inv(s) && NotLapped(s) && HeldApart(s) && Enabled(s, a) && Obeys(s, a, Apart)
    ensures Obeys(s, a, Unlapped) && HeldApart(Next(s, a))
  {
    var t := Next(s, a);
    if Reserves(s, a) {
      FullAndEmpty(s.ring);
    }
    if !ProducerStep(a) {
      assert s.consumers[a.c] in s.consumers;
      forall d | 0 <= d < |s.consumers| && d != a.c
        ensures t.consumers[d].CIdle?
      {
        assert s.consumers[d] in s.consumers;
      }
    }
    forall d | 0 <= d < |t.consumers| && HoldsIndex(t.consumers[d])
      ensures t.consumers[d].at == t.ring.freed
    {
      assert s.consumers[d] in s.consumers;
    }
  }

  lemma {:induction false} ApartIsUnlapped(s: State, run: seq<Step>, t: State)
    requires Inv(s) && NotLapped(s) && HeldApart(s) && Run(s, run, t, Apart)
    ensures Run(s, run, t, Unlapped)
    decreases |run|
  {
    if run != [] {
      ApartStep(s, run[0]);
      UnlappedStep(s, run[0]);
      ApartIsUnlapped(Next(s, run[0]), run[1..], t);
    }
  }

  lemma {:induction false} LoneConsumerIsApart(s: State, run: seq<Step>, t: State)
    requires |s.consumers| <= 1 && Run(s, run, t, Any)
    ensures Run(s, run, t, Apart)
    decreases |run|
  {
    if run != [] {
      LoneConsumerIsApart(Next(s, run[0]), run[1..], t);
    }
  }

  lemma {:induction false} ReservationsGrow(s: State, run: seq<Step>, t: State)
    requires Run(s, run, t, Any)
    ensures |s.ring.vals| <= |t.ring.vals|
    decreases |run|
  {
    if run != [] {
      ReservationsGrow(Next(s, run[0]), run[1..], t);
    }
  }

  /** A ring that was never filled twice over laps nobody. */
  lemma {:induction false} FewReservationsAreUnlapped(s: State, run: seq<Step>, t: State)
    requires Run(s, run, t, Any) && |t.ring.vals| <= |s.ring.slots|
    ensures Run(s, run, t, Unlapped)
    decreases |run|
  {
    if run != [] {
      ReservationsGrow(Next(s, run[0]), run[1..], t);
      FewReservationsAreUnlapped(Next(s, run[0]), run[1..], t);
    }
  }

  /** Every discipline leads to states of the invariant. */
  lemma DisciplineGivesInv(size: nat, producers: nat, consumers: nat, t: State, d: Discipline)
    requires Size(size) && d != Any && Reached(size, producers, consumers, t, d)
    ensures Inv(t)
  {
    var init := Init(size, producers, consumers);
    var run :| Run(init, run, t, d);
    InitInv(size, producers, consumers);
    if d == Apart {
      ApartIsUnlapped(init, run, t);
    }
    if d == Apart || d == Unlapped {
      UnlappedIsInPlace(init, run, t);
    }
    InPlaceKeeps(init, run, t);
  }

  lemma FewReservationsGiveInv(size: nat, producers: nat, consumers: nat, t: State)
    requires Size(size) && Reached(size, producers, consumers, t, Any) && |t.ring.vals| <= size
    ensures Inv(t)
  {
    var init := Init(size, producers, consumers);
    var run :| Run(init, run, t, Any);
    FewReservationsAreUnlapped(init, run, t);
    DisciplineGivesInv(size, producers, consumers, t, Unlapped);
  }

  // ---------- what disciplined runs guarantee ----------

  /** Any number of producers and consumers, calls of popTail overlapping freely: as long as no slot is reserved again
      under a running call that loaded its index, values leave in reservation order, and at most one consumer is
      between clearing a slot and advancing the tail. */
  lemma DisciplinedIsFifo(size: nat, producers: nat, consumers: nat, t: State, d: Discipline)
    requires Size(size) && d != Any && Reached(size, producers, consumers, t, d)
    ensures Fifo(t) && OneTaker(t.consumers)
    ensures forall c <- t.consumers | c.CCleared? :: c.at < |t.ring.vals| && t.popped == t.ring.vals[..c.at + 1]
  {
    DisciplineGivesInv(size, producers, consumers, t, d);
  }

  /** No value is lost: one that was reserved and not yet popped is in its slot, or its slot is empty and the
      producer that reserved it is about to store it there. */
  lemma DisciplinedKeepsValues(size: nat, producers: nat, consumers: nat, t: State, d: Discipline, j: nat)
    requires Size(size) && d != Any && Reached(size, producers, consumers, t, d)
    requires |t.popped| <= j < |t.ring.vals|
    ensures t.ring.slots != []
    ensures At(t.ring, j) == Some(t.ring.vals[j]) ||
            (&& At(t.ring, j) == None && j in t.owner && t.owner[j] < |t.producers|
             && t.producers[t.owner[j]] == POwn(t.ring.vals[j], SlotOf(t.ring, j), j))
  {
    DisciplineGivesInv(size, producers, consumers, t, d);
    assert At(t.ring, j) == Expected(t.ring, j);
  }

  /** A reserved slot is empty, and no two producers hold the same one. */
  lemma DisciplinedSlotsAreOwned(size: nat, producers: nat, consumers: nat, t: State, d: Discipline, p: nat, q: nat)
    requires Size(size) && d != Any && Reached(size, producers, consumers, t, d)
    requires p < |t.producers| && t.producers[p].POwn?
    ensures t.ring.slots != []
    ensures At(t.ring, t.producers[p].at) == None && t.producers[p].slot == SlotOf(t.ring, t.producers[p].at)
    ensures q < |t.producers| && q != p && t.producers[q].POwn? ==> t.producers[q].slot != t.producers[p].slot
  {
    DisciplineGivesInv(size, producers, consumers, t, d);
    var i := t.producers[p].at;
    assert i in t.owner && At(t.ring, i) == Expected(t.ring, i);
    if q < |t.producers| && q != p && t.producers[q].POwn? {
      var j := t.producers[q].at;
      assert i in t.ring.owned && j in t.ring.owned && i != j;
      if i < j {
        SlotsDiffer(i, j, |t.ring.slots|);
      } else {
        SlotsDiffer(j, i, |t.ring.slots|);
      }
    }
  }

  /** popTail reports "empty" exactly when every value reserved so far was popped and the tail moved past it, and
      pushHead reports "full" exactly when the ring holds as many values as it has slots. */
  lemma DisciplinedReportsTruly(size: nat, producers: nat, consumers: nat, t: State, d: Discipline, i: nat)
    requires Size(size) && d != Any && Reached(size, producers, consumers, t, d)
    ensures Enabled(t, LoadTail(i)) ==>
              (Next(t, LoadTail(i)).consumers[i].CIdle? <==> t.popped == t.ring.vals && NoTaker(t.consumers))
    ensures Enabled(t, LoadHead(i)) ==>
              (Next(t, LoadHead(i)).producers[i].PIdle? <==> |t.ring.vals| == t.ring.freed + |t.ring.slots|)
  {
    DisciplineGivesInv(size, producers, consumers, t, d);
    FullAndEmpty(t.ring);
    assert |t.popped| == t.ring.taken;
    assert t.ring.taken == |t.ring.vals| ==> t.popped == t.ring.vals;
  }

  lemma InvAccounts(t: State)
    requires Inv(t)
    ensures Accounted(t)
  {
    forall j: nat | j < |t.ring.vals|
      ensures t.ring.vals[j] in t.popped || Some(t.ring.vals[j]) in t.ring.slots || j in t.ring.owned
    {
      if j < |t.popped| {
        assert t.popped[j] == t.ring.vals[j];
      } else {
        assert At(t.ring, j) == Expected(t.ring, j);
      }
    }
  }
}
