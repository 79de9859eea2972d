/** One direction of the tunnel: sendInfo queues packets, writeSession pops and packs them, the byte stream
    arrives in pieces cut anywhere, and readSession unpacks what is complete. For one connection this is the
    FIFO channel that Protocol assumes. */
module Transport {
  import opened Basics
  import opened Packager
  import opened Scheduler

  /** `network` was written and has not arrived; `arrived` was not unpacked yet. `inputs` and `received` are the
      packets queued and unpacked so far, `flight` those packed and not unpacked (history). */
  datatype State = State(queues: Queues, network: seq<byte>, arrived: seq<byte>,
                         inputs: seq<Packet>, flight: seq<Packet>, received: seq<Packet>)

  datatype Step = SendInfo(p: Packet) | WriteNext | Arrive(k: nat) | ReadNext

  const INIT := State(Queues([], [], [], 0), [], [], [], [], [])

  predicate Enabled(s: State, a: Step) {
    match a
    case SendInfo(p) => Fits(p)
    case WriteNext => var p := Popped(s.queues).0; p.Some? && Fits(p.value)
    case Arrive(k) => k <= |s.network|
    case ReadNext => Decode(s.arrived).Parsed?
  }

  function Next(s: State, a: Step): State
    requires Enabled(s, a)
  {
    match a
    case SendInfo(p) => s.(queues := Pushed(s.queues, p), inputs := s.inputs + [p])
    case WriteNext =>
      var (p, q) := Popped(s.queues);
      s.(queues := q, network := s.network + Encode(p.value), flight := s.flight + [p.value])
    case Arrive(k) => s.(network := s.network[k..], arrived := s.arrived + s.network[..k])
    case ReadNext =>
      EncodeDecode(s.arrived);
      var d := Decode(s.arrived);
      s.(arrived := s.arrived[d.used..], received := s.received + [d.p],
         flight := if s.flight == [] then [] else s.flight[1..])
  }

  ghost predicate Run(s: State, run: seq<Step>, t: State)
    decreases |run|
  {
    if run == [] then s == t else Enabled(s, run[0]) && Run(Next(s, run[0]), run[1..], t)
  }

  predicate QueuesFit(q: Queues) {
    && Sorted(q)
    && (forall p <- q.high :: Fits(p))
    && (forall p <- q.middle :: Fits(p))
    && (forall p <- q.low :: Fits(p))
  }

  lemma PushedFits(q: Queues, p: Packet)
    requires QueuesFit(q) && Fits(p)
    ensures QueuesFit(Pushed(q, p))
  {
  }

  lemma PoppedFits(q: Queues)
    requires QueuesFit(q)
    ensures var (p, q1) := Popped(q); QueuesFit(q1) && (p.Some? ==> Fits(p.value))
  {
  }

  predicate Inv(s: State) {
    && QueuesFit(s.queues)
    && (forall p <- s.flight :: Fits(p))
    && s.arrived + s.network == EncodeAll(s.flight)
  }

  /** Packets of class `c` neither lost nor reordered. */
  predicate Conserves(s: State, c: Class) {
    OfClass(s.received + s.flight, c) + ChainOf(s.queues, c) == OfClass(s.inputs, c)
  }

  lemma {:induction false} EncodeAllAppend(ps: seq<Packet>, p: Packet)
    requires (forall x <- ps :: Fits(x)) && Fits(p)
    ensures forall x <- ps + [p] :: Fits(x)
    ensures EncodeAll(ps + [p]) == EncodeAll(ps) + Encode(p)
  {
    if ps == [] {
      assert ps + [p] == [p] && EncodeAll([p]) == Encode(p) + EncodeAll([]);
    } else {
      assert (ps + [p])[1..] == ps[1..] + [p];
      EncodeAllAppend(ps[1..], p);
      assert EncodeAll(ps + [p]) == Encode(ps[0]) + (EncodeAll(ps[1..]) + Encode(p));
    }
  }

  lemma {:induction false} OfClassConcat(ps: seq<Packet>, qs: seq<Packet>, c: Class)
    ensures OfClass(ps + qs, c) == OfClass(ps, c) + OfClass(qs, c)
  {
    if ps == [] {
      assert ps + qs == qs;
    } else {
      assert (ps + qs)[1..] == ps[1..] + qs;
      OfClassConcat(ps[1..], qs, c);
    }
  }

  /** The reader finds nothing but the packets in flight: a complete oldest one, or a part of it. */
  lemma ReaderSeesOldest(s: State)
    requires Inv(s)
    ensures Decode(s.arrived).Parsed? ==>
              s.flight != [] && Decode(s.arrived) == Parsed(s.flight[0], |Encode(s.flight[0])|)
    ensures !Decode(s.arrived).TooLarge?
  {
    if s.flight != [] {
      var p, rest := s.flight[0], EncodeAll(s.flight[1..]);
      var n := |Encode(p)|;
      if |s.arrived| >= n {
        assert s.arrived[..n] == (s.arrived + s.network)[..n] == Encode(p);
        assert s.arrived == Encode(p) + s.arrived[n..];
        DecodeEncode(p, s.arrived[n..]);
      } else {
        assert s.arrived == (s.arrived + s.network)[..|s.arrived|] == Encode(p)[..|s.arrived|];
        PrefixIsTruncated(p, |s.arrived|);
      }
    }
  }

  lemma WireGrows(arrived: seq<byte>, network: seq<byte>, e: seq<byte>)
    ensures arrived + (network + e) == arrived + network + e
  {
  }

  lemma WireShrinks(arrived: seq<byte>, network: seq<byte>, e: seq<byte>, rest: seq<byte>)
    requires arrived + network == e + rest && |e| <= |arrived|
    ensures arrived[|e|..] + network == rest
  {
    assert arrived[|e|..] + network == (arrived + network)[|e|..];
  }

  lemma WriteKeeps(s: State)
    requires QueuesFit(s.queues) && (forall p <- s.flight :: Fits(p)) && s.arrived + s.network == EncodeAll(s.flight)
    requires Enabled(s, WriteNext)
    ensures Inv(Next(s, WriteNext))
  {
    var t := Next(s, WriteNext);
    var p := Popped(s.queues).0.value;
    assert QueuesFit(t.queues) by {
      PoppedFits(s.queues);
    }
    assert (forall x <- t.flight :: Fits(x)) && t.arrived + t.network == EncodeAll(t.flight) by {
      EncodeAllAppend(s.flight, p);
      WireGrows(s.arrived, s.network, Encode(p));
    }
  }

  lemma ReadKeeps(s: State)
    requires Inv(s) && Enabled(s, ReadNext)
    ensures Inv(Next(s, ReadNext))
  {
    var t, n, rest := Next(s, ReadNext), Decode(s.arrived).used, EncodeAll(s.flight[1..]);
    assert s.flight != [] && n == |Encode(s.flight[0])| && n <= |s.arrived| by {
      ReaderSeesOldest(s);
      EncodeDecode(s.arrived);
    }
    WireShrinks(s.arrived, s.network, Encode(s.flight[0]), rest);
    assert t.flight == s.flight[1..] && forall p <- t.flight :: p in s.flight;
  }

  lemma Keeps(s: State, a: Step)
    requires Inv(s) && Enabled(s, a)
    ensures Inv(Next(s, a))
  {
    match a
    case SendInfo(p) => PushedFits(s.queues, p);
    case WriteNext => WriteKeeps(s);
    case Arrive(k) => assert s.arrived + s.network[..k] + s.network[k..] == s.arrived + s.network;
    case ReadNext => ReadKeeps(s);
  }

  lemma SendConserves(s: State, p: Packet, c: Class)
    requires Sorted(s.queues) && Fits(p) && Conserves(s, c)
    ensures Conserves(Next(s, SendInfo(p)), c)
  {
    PushedAppends(s.queues, p, c);
    OfClassConcat(s.inputs, [p], c);
    OfClassFirst(p, [], c);
    Assoc(OfClass(s.received + s.flight, c), ChainOf(s.queues, c), OfClass([p], c));
  }

  lemma WriteConserves(s: State, c: Class)
    requires Sorted(s.queues) && Enabled(s, WriteNext) && Conserves(s, c)
    ensures Conserves(Next(s, WriteNext), c)
  {
    var moved := s.received + s.flight;
    var (p, q) := Popped(s.queues);
    var one := if ClassOf(p.value.flag) == c then [p.value] else [];
    assert ChainOf(s.queues, c) == one + ChainOf(q, c) by {
      PoppedTakesAHead(s.queues);
    }
    assert s.received + (s.flight + [p.value]) == moved + [p.value];
    assert OfClass(moved + [p.value], c) == OfClass(moved, c) + one by {
      OfClassConcat(moved, [p.value], c);
      OfClassFirst(p.value, [], c);
    }
    Assoc(OfClass(moved, c), one, ChainOf(q, c));
  }

  lemma Conserved(s: State, a: Step, c: Class)
    requires Inv(s) && Enabled(s, a) && Conserves(s, c)
    ensures Conserves(Next(s, a), c)
  {
    match a
    case SendInfo(p) => SendConserves(s, p, c);
    case WriteNext => WriteConserves(s, c);
    case Arrive(_) =>
    case ReadNext =>
      ReaderSeesOldest(s);
      assert s.received + [s.flight[0]] + s.flight[1..] == s.received + s.flight;
  }

  lemma {:induction false} RunConserves(s: State, run: seq<Step>, t: State, c: Class)
    requires Inv(s) && Conserves(s, c) && Run(s, run, t)
    ensures Inv(t) && Conserves(t, c)
    decreases |run|
  {
    if run != [] {
      Keeps(s, run[0]);
      Conserved(s, run[0], c);
      RunConserves(Next(s, run[0]), run[1..], t, c);
    }
  }

  /** Over every run, for every class: the packets received are a prefix of those queued, the rest being in
      flight and then in the queue. No frame is ever found too large. */
  lemma ClassIsFifoChannel(run: seq<Step>, t: State, c: Class)
    requires Run(INIT, run, t)
    ensures OfClass(t.received, c) + OfClass(t.flight, c) + ChainOf(t.queues, c) == OfClass(t.inputs, c)
    ensures OfClass(t.received, c) <= OfClass(t.inputs, c)
    ensures !Decode(t.arrived).TooLarge?
  {
    RunConserves(INIT, run, t, c);
    OfClassConcat(t.received, t.flight, c);
    ReaderSeesOldest(t);
    assert OfClass(t.received, c) <= OfClass(t.received, c) + OfClass(t.flight, c);
  }

  // ---------- one connection ----------

  function OfConnection(ps: seq<Packet>, id: i32): seq<Packet> {
    if ps == [] then []
    else if ps[0].id == id then [ps[0]] + OfConnection(ps[1..], id) else OfConnection(ps[1..], id)
  }

  lemma {:induction false} OfConnectionConcat(ps: seq<Packet>, qs: seq<Packet>, id: i32)
    ensures OfConnection(ps + qs, id) == OfConnection(ps, id) + OfConnection(qs, id)
  {
    if ps == [] {
      assert ps + qs == qs;
    } else {
      assert (ps + qs)[1..] == ps[1..] + qs;
      OfConnectionConcat(ps[1..], qs, id);
    }
  }

  /** What one connection's data, credits and close travel over is a FIFO channel: the peer receives a prefix of
      what was sent for it, in order, whatever else the tunnel carries. */
  lemma ConnectionIsFifoChannel(run: seq<Step>, t: State, id: i32)
    requires Run(INIT, run, t)
    ensures OfConnection(OfClass(t.received, Low), id) <= OfConnection(OfClass(t.inputs, Low), id)
    ensures t.flight == [] && t.queues.low == [] ==>
              OfConnection(OfClass(t.received, Low), id) == OfConnection(OfClass(t.inputs, Low), id)
  {
    ClassIsFifoChannel(run, t, Low);
    var rest := OfClass(t.flight, Low) + t.queues.low;
    assert OfClass(t.inputs, Low) == OfClass(t.received, Low) + rest;
    OfConnectionConcat(OfClass(t.received, Low), rest, id);
    if t.flight == [] && t.queues.low == [] {
      assert rest == [];
    }
  }
}
