/** A connection on the wire: the two ends of Protocol, with the tunnel's two directions of Transport in place of their
    channels, and whatever else the tunnel carries. Every run of it is a run of Protocol. */
module Tunnel {
  import opened Basics
  import opened Window
  import opened Packager
  import opened Scheduler
  import opened Link
  import P = Protocol
  import T = Transport
  import Theorems = ProtocolTheorems

  /** `out` runs from the writer's end to the reader's, `back` the other way. */
  datatype State = State(snd: P.Sender, rcv: P.Receiver, out: T.State, back: T.State,
                         written: seq<byte>, delivered: seq<byte>)

  /** A step of the connection, or one of the tunnel that is not on its behalf. */
  datatype Step = Local(a: P.Action) | Out(t: T.Step) | Back(t: T.Step)

  const INIT := State(P.INIT.snd, P.INIT.rcv, T.INIT, T.INIT, [], [])

  /** The messages of connection `id` that a packet is. */
  function Said(p: Packet, id: i32): seq<Message> {
    if p.id == id then Recognised(p) else []
  }

  /** What arrives next. */
  function Arrived(t: T.State, id: i32): seq<Message> {
    var d := Decode(t.arrived);
    if d.Parsed? then Said(d.p, id) else []
  }

  predicate Sendable(ms: seq<Message>) {
    |ms| <= 1 && forall m <- ms :: Legal(m)
  }

  function Send(t: T.State, ms: seq<Message>, id: i32): T.State
    requires Sendable(ms)
  {
    if ms == [] then t
    else
      MessageRoundTrip(ms[0], id);
      T.Next(t, T.SendInfo(ToPacket(ms[0], id)))
  }

  function FrameMessages(fs: seq<P.Frame>): seq<Message> {
    if fs == [] then [] else [FrameMessage(fs[0])] + FrameMessages(fs[1..])
  }

  function CreditMessages(acks: seq<Ack>): seq<Message> {
    if acks == [] then [] else [CreditMessage(acks[0])] + CreditMessages(acks[1..])
  }

  /** readSession hands the deliverer or the credit goroutine the packet that has arrived. */
  predicate LocalEnabled(s: State, a: P.Action, id: i32) {
    match a
    case Writer(w) => P.WriterEnabled(s.snd, w) && Sendable(FrameMessages(P.WriterEmits(s.snd, w)))
    case Acker(k) =>
      var acks := Credits(Arrived(s.back, id));
      P.AckerEnabled(s.snd, acks, k)
    case Deliverer(d) =>
      var frames := Frames(Arrived(s.out, id));
      P.DelivererEnabled(s.rcv, frames, d) && Sendable(CreditMessages(P.DelivererEmits(s.rcv, frames, d)))
    case Reader(r) => P.ReaderEnabled(s.rcv, r) && Sendable(CreditMessages(P.ReaderEmits(s.rcv, r)))
  }

  function LocalNext(s: State, a: P.Action, id: i32): State
    requires LocalEnabled(s, a, id)
  {
    match a
    case Writer(w) =>
      s.(snd := P.WriterNext(s.snd, w), out := Send(s.out, FrameMessages(P.WriterEmits(s.snd, w)), id),
         written := s.written + if w.CallWrite? then w.buf else [])
    case Acker(k) =>
      s.(snd := P.AckerNext(s.snd, Credits(Arrived(s.back, id)), k),
         back := if k.TakeAck? then T.Next(s.back, T.ReadNext) else s.back)
    case Deliverer(d) =>
      var frames := Frames(Arrived(s.out, id));
      s.(rcv := P.DelivererNext(s.rcv, frames, d),
         out := if d.TakeFrame? then T.Next(s.out, T.ReadNext) else s.out,
         back := Send(s.back, CreditMessages(P.DelivererEmits(s.rcv, frames, d)), id))
    case Reader(r) =>
      s.(rcv := P.ReaderNext(s.rcv, r), back := Send(s.back, CreditMessages(P.ReaderEmits(s.rcv, r)), id),
         delivered := s.delivered + P.ReaderCopies(s.rcv, r))
  }

  /** Other traffic may have any form except frames of this stream on the way out and credits for it on the way back:
      the opposite stream of the same connection is such traffic. */
  predicate Foreign(t: T.State, st: T.Step, id: i32, out: bool) {
    match st
    case SendInfo(p) => if out then Frames(Said(p, id)) == [] else Credits(Said(p, id)) == []
    case ReadNext => if out then Frames(Arrived(t, id)) == [] else Credits(Arrived(t, id)) == []
    case _ => true
  }

  predicate Enabled(s: State, a: Step, id: i32) {
    match a
    case Local(x) => LocalEnabled(s, x, id)
    case Out(st) => T.Enabled(s.out, st) && Foreign(s.out, st, id, true)
    case Back(st) => T.Enabled(s.back, st) && Foreign(s.back, st, id, false)
  }

  function Next(s: State, a: Step, id: i32): State
    requires Enabled(s, a, id)
  {
    match a
    case Local(x) => LocalNext(s, x, id)
    case Out(st) => s.(out := T.Next(s.out, st))
    case Back(st) => s.(back := T.Next(s.back, st))
  }

  ghost predicate Run(s: State, run: seq<Step>, t: State, id: i32)
    decreases |run|
  {
    if run == [] then s == t else Enabled(s, run[0], id) && Run(Next(s, run[0], id), run[1..], t, id)
  }

  // ---------- what a direction of the tunnel holds for the connection ----------

  function Channel(t: T.State, id: i32): seq<Message> {
    Dispatched(T.OfConnection(OfClass(t.flight, Low) + t.queues.low, id))
  }

  function Abs(s: State, id: i32): P.State {
    P.State(s.snd, Frames(Channel(s.out, id)), Credits(Channel(s.back, id)), s.rcv, s.written, s.delivered)
  }

  lemma Assoc<X>(a: seq<X>, b: seq<X>, c: seq<X>)
    ensures a + b + c == a + (b + c)
  {
  }

  lemma {:induction false} DispatchedConcat(ps: seq<Packet>, qs: seq<Packet>)
    ensures Dispatched(ps + qs) == Dispatched(ps) + Dispatched(qs)
  {
    if ps == [] {
      assert ps + qs == qs;
    } else {
      assert (ps + qs)[0] == ps[0] && (ps + qs)[1..] == ps[1..] + qs;
      DispatchedConcat(ps[1..], qs);
      Assoc(Recognised(ps[0]), Dispatched(ps[1..]), Dispatched(qs));
    }
  }

  lemma {:induction false} FramesConcat(ms: seq<Message>, ns: seq<Message>)
    ensures Frames(ms + ns) == Frames(ms) + Frames(ns)
  {
    if ms == [] {
      assert ms + ns == ns;
    } else {
      assert (ms + ns)[0] == ms[0] && (ms + ns)[1..] == ms[1..] + ns;
      FramesConcat(ms[1..], ns);
      Assoc(FrameIn(ms[0]), Frames(ms[1..]), Frames(ns));
    }
  }

  lemma {:induction false} CreditsConcat(ms: seq<Message>, ns: seq<Message>)
    ensures Credits(ms + ns) == Credits(ms) + Credits(ns)
  {
    if ms == [] {
      assert ms + ns == ns;
    } else {
      assert (ms + ns)[0] == ms[0] && (ms + ns)[1..] == ms[1..] + ns;
      CreditsConcat(ms[1..], ns);
      Assoc(CreditIn(ms[0]), Credits(ms[1..]), Credits(ns));
    }
  }

  lemma KindsConcat(ms: seq<Message>, ns: seq<Message>)
    ensures Frames(ms + ns) == Frames(ms) + Frames(ns) && Credits(ms + ns) == Credits(ms) + Credits(ns)
  {
    FramesConcat(ms, ns);
    CreditsConcat(ms, ns);
  }

  lemma DispatchedOne(p: Packet, id: i32)
    ensures Dispatched(T.OfConnection([p], id)) == Said(p, id)
    ensures Said(p, id) != [] ==> ClassOf(p.flag) == Low
  {
    assert T.OfConnection([p], id) == (if p.id == id then [p] else []);
    assert Dispatched([p]) == Recognised(p) + Dispatched([]);
  }

  /** Packets in the channel, and one more behind or before them. */
  lemma ChannelOf(ps: seq<Packet>, qs: seq<Packet>, id: i32)
    ensures Dispatched(T.OfConnection(ps + qs, id)) ==
            Dispatched(T.OfConnection(ps, id)) + Dispatched(T.OfConnection(qs, id))
  {
    T.OfConnectionConcat(ps, qs, id);
    DispatchedConcat(T.OfConnection(ps, id), T.OfConnection(qs, id));
  }

  lemma SendGrows(t: T.State, p: Packet, id: i32)
    requires Fits(p)
    ensures Channel(T.Next(t, T.SendInfo(p)), id) == Channel(t, id) + Said(p, id)
  {
    var held := OfClass(t.flight, Low) + t.queues.low;
    DispatchedOne(p, id);
    if ClassOf(p.flag) == Low {
      assert OfClass(t.flight, Low) + (t.queues.low + [p]) == held + [p];
      ChannelOf(held, [p], id);
    }
  }

  lemma WriteMoves(t: T.State, id: i32)
    requires T.Inv(t) && T.Enabled(t, T.WriteNext)
    ensures Channel(T.Next(t, T.WriteNext), id) == Channel(t, id)
  {
    var (p, q) := Popped(t.queues);
    var one := if ClassOf(p.value.flag) == Low then [p.value] else [];
    assert t.queues.low == one + q.low by {
      PoppedTakesAHead(t.queues);
      assert ChainOf(t.queues, Low) == t.queues.low && ChainOf(q, Low) == q.low;
    }
    assert OfClass(t.flight + [p.value], Low) == OfClass(t.flight, Low) + one by {
      T.OfClassConcat(t.flight, [p.value], Low);
      OfClassFirst(p.value, [], Low);
    }
    Assoc(OfClass(t.flight, Low), one, q.low);
  }

  lemma ReadTakes(t: T.State, id: i32)
    requires T.Inv(t) && T.Enabled(t, T.ReadNext)
    ensures Channel(t, id) == Arrived(t, id) + Channel(T.Next(t, T.ReadNext), id)
  {
    assert t.flight != [] && Decode(t.arrived).p == t.flight[0] by {
      T.ReaderSeesOldest(t);
    }
    var p, rest := t.flight[0], OfClass(t.flight[1..], Low) + t.queues.low;
    assert Channel(T.Next(t, T.ReadNext), id) == Dispatched(T.OfConnection(rest, id));
    DispatchedOne(p, id);
    if ClassOf(p.flag) == Low {
      assert OfClass(t.flight, Low) + t.queues.low == [p] + rest;
      ChannelOf([p], rest, id);
    } else {
      assert OfClass(t.flight, Low) + t.queues.low == rest;
    }
  }

  /** The tunnel's own steps, and those of other traffic, leave a direction's messages of the one kind as they are. */
  lemma ForeignStep(t: T.State, st: T.Step, id: i32, out: bool)
    requires T.Inv(t) && T.Enabled(t, st) && Foreign(t, st, id, out)
    ensures T.Inv(T.Next(t, st))
    ensures out ==> Frames(Channel(T.Next(t, st), id)) == Frames(Channel(t, id))
    ensures !out ==> Credits(Channel(T.Next(t, st), id)) == Credits(Channel(t, id))
  {
    T.Keeps(t, st);
    match st
    case SendInfo(p) =>
      SendGrows(t, p, id);
      KindsConcat(Channel(t, id), Said(p, id));
    case WriteNext => WriteMoves(t, id);
    case Arrive(_) =>
    case ReadNext =>
      ReadTakes(t, id);
      KindsConcat(Arrived(t, id), Channel(T.Next(t, st), id));
  }

  lemma SendSays(t: T.State, ms: seq<Message>, id: i32)
    requires T.Inv(t) && Sendable(ms)
    ensures T.Inv(Send(t, ms, id)) && Channel(Send(t, ms, id), id) == Channel(t, id) + ms
  {
    if ms != [] {
      MessageRoundTrip(ms[0], id);
      T.Keeps(t, T.SendInfo(ToPacket(ms[0], id)));
      SendGrows(t, ToPacket(ms[0], id), id);
    }
  }

  // ---------- every run on the wire is a run of Protocol ----------

  predicate Inv(s: State) {
    T.Inv(s.out) && T.Inv(s.back)
  }

  lemma KindsOf(fs: seq<P.Frame>, acks: seq<Ack>)
    requires |fs| <= 1 && |acks| <= 1
    ensures Frames(FrameMessages(fs)) == fs && Credits(FrameMessages(fs)) == []
    ensures Frames(CreditMessages(acks)) == [] && Credits(CreditMessages(acks)) == acks
  {
  }

  /** What has arrived leads what the direction holds. */
  lemma ArrivedLeads(t: T.State, id: i32)
    requires T.Inv(t) && Arrived(t, id) != []
    ensures T.Enabled(t, T.ReadNext) && T.Inv(T.Next(t, T.ReadNext)) && |Arrived(t, id)| == 1
    ensures var t' := T.Next(t, T.ReadNext);
            && Frames(Channel(t, id)) == Frames(Arrived(t, id)) + Frames(Channel(t', id))
            && Credits(Channel(t, id)) == Credits(Arrived(t, id)) + Credits(Channel(t', id))
  {
    T.Keeps(t, T.ReadNext);
    ReadTakes(t, id);
    KindsConcat(Arrived(t, id), Channel(T.Next(t, T.ReadNext), id));
  }

  lemma WriterSimulates(s: State, w: P.WriteStep, id: i32)
    requires Inv(s) && LocalEnabled(s, P.Writer(w), id)
    ensures var a, t := P.Writer(w), LocalNext(s, P.Writer(w), id);
            Inv(t) && P.Enabled(Abs(s, id), a) && Abs(t, id) == P.Next(Abs(s, id), a)
  {
    var fs := P.WriterEmits(s.snd, w);
    KindsOf(fs, []);
    SendSays(s.out, FrameMessages(fs), id);
    KindsConcat(Channel(s.out, id), FrameMessages(fs));
  }

  lemma AckerSimulates(s: State, k: P.AckStep, id: i32)
    requires Inv(s) && LocalEnabled(s, P.Acker(k), id)
    ensures var a, t := P.Acker(k), LocalNext(s, P.Acker(k), id);
            Inv(t) && P.Enabled(Abs(s, id), a) && Abs(t, id) == P.Next(Abs(s, id), a)
  {
    if k.TakeAck? {
      ArrivedLeads(s.back, id);
    }
  }

  lemma DelivererSimulates(s: State, d: P.DeliverStep, id: i32)
    requires Inv(s) && LocalEnabled(s, P.Deliverer(d), id)
    ensures var a, t := P.Deliverer(d), LocalNext(s, P.Deliverer(d), id);
            Inv(t) && P.Enabled(Abs(s, id), a) && Abs(t, id) == P.Next(Abs(s, id), a)
  {
    var acks := P.DelivererEmits(s.rcv, Frames(Arrived(s.out, id)), d);
    KindsOf([], acks);
    SendSays(s.back, CreditMessages(acks), id);
    KindsConcat(Channel(s.back, id), CreditMessages(acks));
    if d.TakeFrame? {
      ArrivedLeads(s.out, id);
    }
  }

  lemma ReaderSimulates(s: State, r: P.ReadStep, id: i32)
    requires Inv(s) && LocalEnabled(s, P.Reader(r), id)
    ensures var a, t := P.Reader(r), LocalNext(s, P.Reader(r), id);
            Inv(t) && P.Enabled(Abs(s, id), a) && Abs(t, id) == P.Next(Abs(s, id), a)
  {
    var acks := P.ReaderEmits(s.rcv, r);
    KindsOf([], acks);
    SendSays(s.back, CreditMessages(acks), id);
    KindsConcat(Channel(s.back, id), CreditMessages(acks));
  }

  lemma StepSimulates(s: State, a: Step, id: i32)
    requires Inv(s) && Enabled(s, a, id)
    ensures Inv(Next(s, a, id))
    ensures if a.Local? then P.Enabled(Abs(s, id), a.a) && Abs(Next(s, a, id), id) == P.Next(Abs(s, id), a.a)
            else Abs(Next(s, a, id), id) == Abs(s, id)
  {
    match a
    case Local(Writer(w)) => WriterSimulates(s, w, id);
    case Local(Acker(k)) => AckerSimulates(s, k, id);
    case Local(Deliverer(d)) => DelivererSimulates(s, d, id);
    case Local(Reader(r)) => ReaderSimulates(s, r, id);
    case Out(st) => ForeignStep(s.out, st, id, true);
    case Back(st) => ForeignStep(s.back, st, id, false);
  }

  lemma {:induction false} RunSimulates(s: State, run: seq<Step>, t: State, id: i32)
    requires Inv(s) && Theorems.Reachable(Abs(s, id)) && Run(s, run, t, id)
    ensures Inv(t) && Theorems.Reachable(Abs(t, id))
    decreases |run|
  {
    if run != [] {
      var a, m := run[0], Next(s, run[0], id);
      StepSimulates(s, a, id);
      if a.Local? {
        Theorems.ReachableStep(Abs(s, id), a.a);
      }
      RunSimulates(m, run[1..], t, id);
    }
  }

  ghost predicate Reachable(t: State, id: i32) {
    exists run :: Run(INIT, run, t, id)
  }

  /** So everything proved of Protocol's runs holds on the wire, the messages in the tunnel taken for its channels. */
  lemma WireRefinesProtocol(t: State, id: i32)
    requires Reachable(t, id)
    ensures Inv(t) && Theorems.Reachable(Abs(t, id))
  {
    var run :| Run(INIT, run, t, id);
    assert Abs(INIT, id) == P.INIT;
    assert P.Run(P.INIT, [], P.INIT);
    RunSimulates(INIT, run, t, id);
  }

  /** End to end on the wire: whatever else the tunnel carries and however its bytes arrive, a reader has read a prefix
      of what was written, and all of it when it sees the end of the stream; and the bytes sent and not credited are
      those in the tunnel, at the receiver, or in credits on their way back through the tunnel. */
  lemma WireDelivers(t: State, id: i32)
    requires Reachable(t, id)
    ensures t.delivered <= t.written
    ensures t.rcv.reader.REof? ==> t.snd.writer.WClosed? && t.delivered == t.written
    ensures !t.snd.writer.WClosed? ==>
              t.snd.word.done == P.SenderCredit(t.snd) + |P.Payload(Frames(Channel(t.out, id)))| +
                                 P.ReceiverCredit(t.rcv) + P.AckSum(Credits(Channel(t.back, id)))
    ensures !Decode(t.out.arrived).TooLarge? && !Decode(t.back.arrived).TooLarge?
  {
    WireRefinesProtocol(t, id);
    Theorems.ReadsArePrefixOfWrites(Abs(t, id));
    Theorems.CreditConservation(Abs(t, id));
    if t.rcv.reader.REof? {
      Theorems.EofMeansEverythingWasRead(Abs(t, id));
    }
    T.ReaderSeesOldest(t.out);
    T.ReaderSeesOldest(t.back);
  }

  lemma EmitsAreSendable(c: P.Sender, w: P.WriteStep)
    requires P.SenderInv(c) && P.WriterEnabled(c, w)
    ensures Sendable(FrameMessages(P.WriterEmits(c, w)))
  {
  }

  lemma CreditsAreSendable(acks: seq<Ack>)
    requires |acks| <= 1
    ensures Sendable(CreditMessages(acks))
  {
  }

  lemma NothingIsRefused(t: State, a: P.Action, id: i32)
    requires P.SenderInv(t.snd) && P.Enabled(Abs(t, id), a)
    requires a.Acker? && a.k.TakeAck? ==> Credits(Arrived(t.back, id)) != []
    requires a.Deliverer? && a.d.TakeFrame? ==> Frames(Arrived(t.out, id)) != []
    ensures Enabled(t, Local(a), id)
  {
    match a
    case Writer(w) => EmitsAreSendable(t.snd, w);
    case Acker(_) =>
    case Deliverer(d) =>
      CreditsAreSendable(P.DelivererEmits(t.rcv, Frames(Arrived(t.out, id)), d));
    case Reader(r) =>
      CreditsAreSendable(P.ReaderEmits(t.rcv, r));
  }

  /** Nothing that a thread of the connection sends is too large for a packet: the wire holds a step of Protocol back
      only while what it takes has not arrived. */
  lemma WireRefusesNothing(t: State, a: P.Action, id: i32)
    requires Reachable(t, id) && P.Enabled(Abs(t, id), a)
    requires a.Acker? && a.k.TakeAck? ==> Credits(Arrived(t.back, id)) != []
    requires a.Deliverer? && a.d.TakeFrame? ==> Frames(Arrived(t.out, id)) != []
    ensures Enabled(t, Local(a), id)
  {
    assert P.SenderInv(t.snd) by {
      WireRefinesProtocol(t, id);
      Theorems.ReachableInv(Abs(t, id));
    }
    NothingIsRefused(t, a, id);
  }
}
