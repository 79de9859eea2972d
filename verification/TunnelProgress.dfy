/** Progress on the wire, for every schedule and any other traffic: a parked writer is released and a closed stream is
    read to its end. */
module TunnelProgress {
  import opened Basics
  import opened Window
  import opened Packager
  import opened Scheduler
  import opened Link
  import opened Tunnel
  import P = Protocol
  import T = Transport
  import Theorems = ProtocolTheorems

  // ---------- how much work a direction of the tunnel has left ----------

  /** A queued packet has to be written, arrive byte by byte, and be read. */
  function Weight(p: Packet): nat {
    if Fits(p) then |Packager.Encode(p)| + 2 else 0
  }

  function Weights(ps: seq<Packet>): nat {
    if ps == [] then 0 else Weight(ps[0]) + Weights(ps[1..])
  }

  function Work(t: T.State): nat {
    Weights(t.queues.high) + Weights(t.queues.middle) + Weights(t.queues.low) + |t.network| + |t.flight|
  }

  lemma {:induction false} WeightsAppend(ps: seq<Packet>, p: Packet)
    ensures Weights(ps + [p]) == Weights(ps) + Weight(p)
  {
    if ps == [] {
      assert ps + [p] == [p] && Weights([p]) == Weight(p) + Weights([]);
    } else {
      assert (ps + [p])[0] == ps[0] && (ps + [p])[1..] == ps[1..] + [p];
      WeightsAppend(ps[1..], p);
    }
  }

  lemma SendAddsWork(t: T.State, p: Packet)
    requires Fits(p)
    ensures Work(T.Next(t, T.SendInfo(p))) == Work(t) + Weight(p)
  {
    WeightsAppend(t.queues.high, p);
    WeightsAppend(t.queues.middle, p);
    WeightsAppend(t.queues.low, p);
  }

  /** The steps a direction takes by itself: not the arrival of no bytes at all. */
  predicate Own(st: T.Step) {
    st.WriteNext? || st.ReadNext? || (st.Arrive? && st.k > 0)
  }

  lemma PopTakesWeight(q: Queues)
    requires Popped(q).0.Some?
    ensures var (p, q') := Popped(q);
            Weights(q.high) + Weights(q.middle) + Weights(q.low) ==
            Weight(p.value) + Weights(q'.high) + Weights(q'.middle) + Weights(q'.low)
  {
  }

  lemma OwnStepLowersWork(t: T.State, st: T.Step)
    requires T.Inv(t) && T.Enabled(t, st) && Own(st)
    ensures Work(T.Next(t, st)) < Work(t)
  {
    match st
    case WriteNext => PopTakesWeight(t.queues);
    case Arrive(_) =>
    case ReadNext => T.ReaderSeesOldest(t);
  }

  // ---------- the measure on the wire ----------

  /** Any step but the writer's, and but the arrival of nothing; what else is sent through the tunnel included. */
  predicate Silent(a: Step) {
    match a
    case Local(x) => !x.Writer?
    case Out(st) => Own(st) || st.SendInfo?
    case Back(st) => Own(st) || st.SendInfo?
  }

  /** Those of them that are not other traffic being sent. */
  predicate Quiet(a: Step) {
    match a
    case Local(x) => !x.Writer?
    case Out(st) => Own(st)
    case Back(st) => Own(st)
  }

  /** The packets of other traffic that a run sends, weighed. */
  function Load(a: Step): nat {
    match a
    case Out(SendInfo(p)) => Weight(p) + 1
    case Back(SendInfo(p)) => Weight(p) + 1
    case _ => 0
  }

  function Traffic(run: seq<Step>): nat {
    if run == [] then 0 else Load(run[0]) + Traffic(run[1..])
  }

  /** A step of Protocol weighs more than the packet it may send, which is a credit. */
  function WireMeasure(s: State, id: i32): nat
    requires s.rcv.off <= |s.rcv.elem.bytes|
  {
    16 * Theorems.Measure(Abs(s, id)) + Work(s.out) + Work(s.back)
  }

  ghost predicate Sound(s: State, id: i32) {
    Inv(s) && P.Inv(Abs(s, id))
  }

  lemma CreditWeighs(acks: seq<Ack>, id: i32)
    requires |acks| == 1
    ensures var p := ToPacket(CreditMessages(acks)[0], id); Fits(p) && Weight(p) == 15
  {
    MessageRoundTrip(CreditMessage(acks[0]), id);
  }

  lemma CreditSent(t: T.State, acks: seq<Ack>, id: i32)
    requires |acks| <= 1 && Sendable(CreditMessages(acks))
    ensures Work(Send(t, CreditMessages(acks), id)) <= Work(t) + 15
  {
    if acks != [] {
      CreditWeighs(acks, id);
      SendAddsWork(t, ToPacket(CreditMessages(acks)[0], id));
    }
  }

  /** What a step of the connection other than the writer's costs the tunnel. */
  lemma LocalWork(s: State, x: P.Action, id: i32)
    requires Inv(s) && LocalEnabled(s, x, id) && !x.Writer?
    ensures var t := LocalNext(s, x, id); Work(t.out) + Work(t.back) <= Work(s.out) + Work(s.back) + 15
  {
    match x
    case Acker(k) =>
      if k.TakeAck? {
        ArrivedLeads(s.back, id);
        OwnStepLowersWork(s.back, T.ReadNext);
      }
    case Deliverer(d) =>
      CreditSent(s.back, P.DelivererEmits(s.rcv, Frames(Arrived(s.out, id)), d), id);
      if d.TakeFrame? {
        ArrivedLeads(s.out, id);
        OwnStepLowersWork(s.out, T.ReadNext);
      }
    case Reader(r) =>
      CreditSent(s.back, P.ReaderEmits(s.rcv, r), id);
  }

  lemma SilentStep(s: State, a: Step, id: i32)
    requires Sound(s, id) && Enabled(s, a, id) && Silent(a)
    ensures Sound(Next(s, a, id), id)
    ensures WireMeasure(Next(s, a, id), id) < WireMeasure(s, id) + Load(a)
  {
    StepSimulates(s, a, id);
    match a
    case Local(x) =>
      Theorems.MeasureFalls(Abs(s, id), x);
      LocalWork(s, x, id);
    case Out(st) =>
      if st.SendInfo? {
        SendAddsWork(s.out, st.p);
      } else {
        OwnStepLowersWork(s.out, st);
      }
    case Back(st) =>
      if st.SendInfo? {
        SendAddsWork(s.back, st.p);
      } else {
        OwnStepLowersWork(s.back, st);
      }
  }

  ghost predicate AllSilent(run: seq<Step>) {
    forall a <- run :: Silent(a)
  }

  /** Without steps of the writer a run is no longer than the measure and the other traffic it sends allow. */
  lemma {:induction false} SilentRunsAreBounded(s: State, run: seq<Step>, t: State, id: i32)
    requires Sound(s, id) && Tunnel.Run(s, run, t, id) && AllSilent(run)
    ensures Sound(t, id) && |run| + WireMeasure(t, id) <= WireMeasure(s, id) + Traffic(run)
    decreases |run|
  {
    if run != [] {
      SilentStep(s, run[0], id);
      SilentRunsAreBounded(Next(s, run[0], id), run[1..], t, id);
    }
  }

  // ---------- there is always a step to take ----------

  /** A step by which a direction moves on, if it holds anything. */
  function Mover(t: T.State): T.Step {
    if Popped(t.queues).0.Some? then T.WriteNext
    else if t.network != [] then T.Arrive(|t.network|)
    else T.ReadNext
  }

  /** A direction that holds a message can move on by itself, or has what leads it at the reader. */
  lemma HoldsMeansMoves(t: T.State, id: i32)
    requires T.Inv(t) && Channel(t, id) != []
    ensures T.Enabled(t, Mover(t)) && Own(Mover(t))
  {
    if Popped(t.queues).0.Some? {
      T.PoppedFits(t.queues);
    } else if t.network == [] {
      PoppedTakesAHead(t.queues);
      assert t.flight != [];
      var first, rest := t.flight[0], EncodeAll(t.flight[1..]);
      assert t.arrived == t.arrived + t.network == Packager.Encode(first) + rest;
      DecodeEncode(first, rest);
    }
  }

  /** The step of a direction, taken by the connection if what arrives is its own. */
  function OutMove(s: State, id: i32): Step {
    if Mover(s.out).ReadNext? && Frames(Arrived(s.out, id)) != [] then Local(P.Deliverer(P.TakeFrame))
    else Out(Mover(s.out))
  }

  function BackMove(s: State, id: i32): Step {
    if Mover(s.back).ReadNext? && Credits(Arrived(s.back, id)) != [] then Local(P.Acker(P.TakeAck))
    else Back(Mover(s.back))
  }

  /** A step that can be taken now and is not the writer's. */
  function WirePick(s: State, id: i32): Step {
    var a := Theorems.Pick(Abs(s, id));
    if a == P.Acker(P.TakeAck) then BackMove(s, id)
    else if a == P.Deliverer(P.TakeFrame) then OutMove(s, id)
    else Local(a)
  }

  lemma KindsNeedMessages(ms: seq<Message>)
    ensures Frames(ms) != [] || Credits(ms) != [] ==> ms != []
  {
  }

  lemma SomeWireStepEnabled(s: State, id: i32)
    requires Sound(s, id)
    requires s.snd.writer.WPark? || (s.snd.writer.WClosed? && !s.rcv.reader.REof?)
    ensures Enabled(s, WirePick(s, id), id) && Quiet(WirePick(s, id))
  {
    var a := Theorems.Pick(Abs(s, id));
    assert P.SenderInv(s.snd) && P.Enabled(Abs(s, id), a) && !a.Writer? by {
      Theorems.SomeStepEnabled(Abs(s, id));
    }
    PickedIsEnabled(s, a, id);
  }

  lemma PickedIsEnabled(s: State, a: P.Action, id: i32)
    requires Inv(s) && P.SenderInv(s.snd)
    requires a == Theorems.Pick(Abs(s, id)) && P.Enabled(Abs(s, id), a) && !a.Writer?
    ensures Enabled(s, WirePick(s, id), id) && Quiet(WirePick(s, id))
  {
    if a == P.Acker(P.TakeAck) {
      KindsNeedMessages(Channel(s.back, id));
      HoldsMeansMoves(s.back, id);
    } else if a == P.Deliverer(P.TakeFrame) {
      KindsNeedMessages(Channel(s.out, id));
      HoldsMeansMoves(s.out, id);
    } else {
      NothingIsRefused(s, a, id);
    }
  }

  // ---------- the two theorems ----------

  /** What no step but the writer's changes. */
  predicate Stays(s: State, t: State) {
    && t.written == s.written
    && (s.snd.writer.WClosed? ==> t.snd.writer.WClosed?)
    && (s.snd.writer.WPark? || s.snd.writer.WStart? ==> t.snd.writer.WPark? || t.snd.writer.WStart?)
  }

  lemma StepStays(s: State, a: Step, id: i32)
    requires Enabled(s, a, id) && Silent(a)
    ensures Stays(s, Next(s, a, id))
  {
  }

  lemma {:induction false} WireStays(s: State, run: seq<Step>, t: State, id: i32)
    requires Tunnel.Run(s, run, t, id) && AllSilent(run)
    ensures Stays(s, t)
    decreases |run|
  {
    if run != [] {
      var a, m := run[0], Next(s, run[0], id);
      assert Silent(a);
      StepStays(s, a, id);
      WireStays(m, run[1..], t, id);
    }
  }

  /** Nothing but the writer and other traffic can move. */
  ghost predicate Settled(t: State, id: i32) {
    forall a :: Enabled(t, a, id) ==> !Quiet(a)
  }

  lemma BoundedFrom(s: State, run: seq<Step>, t: State, id: i32)
    requires Reachable(s, id) && Tunnel.Run(s, run, t, id) && AllSilent(run)
    ensures s.rcv.off <= |s.rcv.elem.bytes| && |run| <= WireMeasure(s, id) + Traffic(run)
    ensures Sound(t, id) && Theorems.Reachable(Abs(t, id)) && Stays(s, t)
  {
    WireRefinesProtocol(s, id);
    Theorems.ReachableInv(Abs(s, id));
    SilentRunsAreBounded(s, run, t, id);
    RunSimulates(s, run, t, id);
    WireStays(s, run, t, id);
  }

  /** End to end on the wire: however threads and tunnel are scheduled after Close and whatever else is sent meanwhile,
      the run is bounded by the state it starts from and that traffic; as long as the reader is not at the end of the
      stream a step can be taken; and there it has read exactly the bytes written. */
  lemma WireDeliversAll(s: State, run: seq<Step>, t: State, id: i32)
    requires Reachable(s, id) && s.snd.writer.WClosed? && Tunnel.Run(s, run, t, id) && AllSilent(run)
    ensures s.rcv.off <= |s.rcv.elem.bytes| && |run| <= WireMeasure(s, id) + Traffic(run)
    ensures t.rcv.reader.REof? || (Enabled(t, WirePick(t, id), id) && Quiet(WirePick(t, id)))
    ensures Settled(t, id) ==> t.rcv.reader.REof?
    ensures t.delivered <= s.written && (t.rcv.reader.REof? ==> t.delivered == s.written)
  {
    BoundedFrom(s, run, t, id);
    Theorems.ReadsArePrefixOfWrites(Abs(t, id));
    if t.rcv.reader.REof? {
      Theorems.EofMeansEverythingWasRead(Abs(t, id));
    } else {
      SomeWireStepEnabled(t, id);
    }
  }

  /** The same for a parked writer: it is released. */
  lemma WireReleasesWriter(s: State, run: seq<Step>, t: State, id: i32)
    requires Reachable(s, id) && s.snd.writer.WPark? && Tunnel.Run(s, run, t, id) && AllSilent(run)
    ensures s.rcv.off <= |s.rcv.elem.bytes| && |run| <= WireMeasure(s, id) + Traffic(run)
    ensures t.snd.writer.WStart? ||
            (t.snd.writer.WPark? && Enabled(t, WirePick(t, id), id) && Quiet(WirePick(t, id)))
    ensures Settled(t, id) ==> t.snd.writer.WStart?
  {
    BoundedFrom(s, run, t, id);
    if t.snd.writer.WPark? {
      SomeWireStepEnabled(t, id);
    }
  }
}
