/** How a connection's frames and credits become packets of the tunnel and are dispatched again at the other end, so
    that both channels of Protocol are carried by Transport. */
module Link {
  import opened Basics
  import opened Window
  import opened Packager
  import opened Scheduler
  import P = Protocol
  import T = Transport

  /** What a connection's end sends over the tunnel: frames of its own stream, and credits for the opposite one. */
  datatype Message = FrameMessage(frame: P.Frame) | CreditMessage(ack: Ack)

  predicate Legal(m: Message) {
    m.FrameMessage? && m.frame.Data? ==> P.SegmentOk(m.frame.seg)
  }

  /** The calls of sendInfo in WriteFull, Close, receiveWindow.Write and sendStatus. */
  function ToPacket(m: Message, id: i32): Packet {
    match m
    case FrameMessage(Data(seg)) => Packet(if seg.part then NEW_MSG_PART else NEW_MSG, id, Content(seg.bytes))
    case FrameMessage(Close) => Packet(CONN_CLOSE, id, Empty)
    case CreditMessage(ack) => Packet(MSG_SEND_OK, id, Credit(Pack(ack.size, ack.read, false)))
  }

  /** The dispatch in readSession, newMsg and SetSize for a connection that is open. */
  function FromPacket(p: Packet): Option<Message> {
    if (p.flag == NEW_MSG || p.flag == NEW_MSG_PART) && p.body.Content? then
      Some(FrameMessage(P.Data(P.Segment(p.body.bytes, p.flag == NEW_MSG_PART))))
    else if p.flag == MSG_SEND_OK && p.body.Credit? then
      var w := Unpack(p.body.window);
      Some(CreditMessage(Ack(w.size, w.done)))
    else if p.flag == CONN_CLOSE then Some(FrameMessage(P.Close))
    else None
  }

  /** Every message is a packet of the format and of the lowest class, and is recognised at the other end. */
  lemma MessageRoundTrip(m: Message, id: i32)
    requires Legal(m)
    ensures Fits(ToPacket(m, id)) && ClassOf(ToPacket(m, id).flag) == Low && ToPacket(m, id).id == id
    ensures FromPacket(ToPacket(m, id)) == Some(m)
  {
    if m.CreditMessage? {
      PackUnpack(m.ack.size, m.ack.read, false);
    }
  }

  /** The flags and bodies, spelled out: 4 for a part of a Write that goes on, 3 for its last part, 7 for a Close, and 5
      for a credit, whose window holds the count in bits 0 to 30 and the size from bit 32 on. */
  lemma MessageFlags(m: Message, id: i32)
    requires Legal(m)
    ensures var p := ToPacket(m, id);
            match m
            case FrameMessage(Data(seg)) => p.flag == (if seg.part then 4 else 3) && p.body == Content(seg.bytes)
            case FrameMessage(Close) => p.flag == 7 && p.body == Empty
            case CreditMessage(ack) => p.flag == 5 && p.body == Credit(ack.size * 0x1_0000_0000 + ack.read)
  {
  }

  function Packets(ms: seq<Message>, id: i32): seq<Packet> {
    if ms == [] then [] else [ToPacket(ms[0], id)] + Packets(ms[1..], id)
  }

  function Recognised(p: Packet): seq<Message> {
    var m := FromPacket(p);
    if m.Some? then [m.value] else []
  }

  function Dispatched(ps: seq<Packet>): seq<Message> {
    if ps == [] then [] else Recognised(ps[0]) + Dispatched(ps[1..])
  }

  function FrameIn(m: Message): seq<P.Frame> {
    if m.FrameMessage? then [m.frame] else []
  }

  function CreditIn(m: Message): seq<Ack> {
    if m.CreditMessage? then [m.ack] else []
  }

  function Frames(ms: seq<Message>): seq<P.Frame> {
    if ms == [] then [] else FrameIn(ms[0]) + Frames(ms[1..])
  }

  function Credits(ms: seq<Message>): seq<Ack> {
    if ms == [] then [] else CreditIn(ms[0]) + Credits(ms[1..])
  }

  /** An initial run of the packets is dispatched to the same number of the messages. */
  lemma {:induction false} PrefixDispatched(ms: seq<Message>, id: i32, ps: seq<Packet>)
    requires (forall m <- ms :: Legal(m)) && ps <= Packets(ms, id)
    ensures |ps| <= |ms| && Dispatched(ps) == ms[..|ps|]
    decreases |ps|
  {
    if ps != [] {
      MessageRoundTrip(ms[0], id);
      PrefixDispatched(ms[1..], id, ps[1..]);
      assert ms[..|ps|] == [ms[0]] + ms[1..][..|ps| - 1];
    }
  }

  lemma {:induction false} PacketsCount(ms: seq<Message>, id: i32)
    ensures |Packets(ms, id)| == |ms|
  {
    if ms != [] {
      PacketsCount(ms[1..], id);
    }
  }

  lemma {:induction false} FramesPrefix(ms: seq<Message>, k: nat)
    requires k <= |ms|
    ensures Frames(ms[..k]) <= Frames(ms) && Credits(ms[..k]) <= Credits(ms)
  {
    if k > 0 {
      FramesPrefix(ms[1..], k - 1);
      assert ms[..k][1..] == ms[1..][..k - 1];
    }
  }

  /** The two channels of a connection. If its end has sent the messages `ms`, then over every run of the tunnel the
      other end is given a prefix of the frames and a prefix of the credits in the order they were sent, and all of
      them once nothing is under way. */
  lemma TunnelCarriesBothChannels(run: seq<T.Step>, t: T.State, id: i32, ms: seq<Message>)
    requires T.Run(T.INIT, run, t) && (forall m <- ms :: Legal(m))
    requires T.OfConnection(OfClass(t.inputs, Low), id) == Packets(ms, id)
    ensures var given := Dispatched(T.OfConnection(OfClass(t.received, Low), id));
            && given <= ms && Frames(given) <= Frames(ms) && Credits(given) <= Credits(ms)
            && (t.flight == [] && t.queues.low == [] ==> given == ms)
  {
    var ps := T.OfConnection(OfClass(t.received, Low), id);
    T.ConnectionIsFifoChannel(run, t, id);
    PrefixDispatched(ms, id, ps);
    FramesPrefix(ms, |ps|);
    PacketsCount(ms, id);
  }
}
