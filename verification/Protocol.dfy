/** One direction of a mux connection as a system of steps: a writing application, the goroutine that applies
    window credits at the sender, a FIFO data channel, the goroutine that delivers frames at the receiver, a
    reading application, and a FIFO credit channel back. Every load or compare-and-swap of a window word and every
    channel operation is one action, a resize by calcSize and a step of the receive queue too; actions of the four
    threads interleave freely. QueueLink refines the receive queue to single accesses. */
module Protocol {
  import opened Basics
  import opened Window

  datatype Segment = Segment(bytes: seq<byte>, part: bool)

  datatype Frame = Data(seg: Segment) | Close

  /** sendWindow.WriteFull and WriteTo. */
  datatype WriterPc =
    | WIdle
    | WStart                                   // about to enter WriteTo
    | WLoaded(w: Word)                         // window word loaded
    | WPark                                    // wait bit set, blocked on setSizeCh
    | WCut(seg: Segment)                       // segment cut from the buffer, `sent` not yet run
    | WSentLoaded(seg: Segment, w: Word)       // inside `sent`, word loaded
    | WHolding(seg: Segment)                   // counted as sent, frame not yet handed to the channel
    | WClosed

  /** sendWindow.SetSize. */
  datatype AckerPc =
    | AIdle
    | AReady(ack: Ack, newWait: bool)
    | ALoaded(ack: Ack, newWait: bool, w: Word)
    | AAllow                                   // blocked in `allow`

  /** receiveWindow.Write. */
  datatype DelivererPc =
    | DIdle
    | DSizing(seg: Segment)                    // before calcSize
    | DReady(seg: Segment)
    | DLoaded(seg: Segment, w: Word)
    | DMeasured(seg: Segment, w: Word, remain: nat)
    | DPush(seg: Segment, ack: Option<Ack>)    // about to add the length
    | DInsert(seg: Segment, ack: Option<Ack>)  // length added, about to insert
    | DAck(credit: Ack)

  /** receiveWindow.readFromQueue and sendStatus; `want` is the room left in the caller's buffer. */
  datatype ReaderPc =
    | RIdle
    | RCopy(want: nat)
    | RPopped(want: nat, seg: Segment)         // removed from the queue, length not yet subtracted
    | RStatus(want: nat)
    | RStatusLoaded(want: nat, w: Word)
    | RStatusMeasured(want: nat, w: Word, len: nat)
    | RStatusAck(want: nat, credit: Ack)
    | REof

  /** `top` is the largest window this sender has ever been told. */
  datatype Sender = Sender(word: Word, writer: WriterPc, buf: seq<byte>, off: nat, acker: AckerPc, top: u31)

  datatype Receiver = Receiver(word: Word, deliverer: DelivererPc, chain: seq<Segment>, qlen: nat,
                               elem: Segment, off: nat, reader: ReaderPc, stopped: bool)

  /** `written` and `delivered` are the bytes passed to Write and returned by Read so far. */
  datatype State = State(snd: Sender, data: seq<Frame>, acks: seq<Ack>, rcv: Receiver,
                         written: seq<byte>, delivered: seq<byte>)

  /** The writing application. */
  datatype WriteStep =
    CallWrite(buf: seq<byte>) | FinishWrite | LoadWindow | CutOrPark | LoadSent | CommitSent | EmitFrame | CallClose

  /** Credits at the sender. */
  datatype AckStep = TakeAck | LoadForAck | ApplyAck | WakeWriter

  /** Delivery at the receiver. */
  datatype DeliverStep =
    | TakeFrame | Resize(n: u31) | KeepSize | LoadForArrival | MeasureArrival | CommitArrival
    | CountElement | InsertElement | SendArrivalAck

  /** The reading application. */
  datatype ReadStep =
    | CallRead(want: nat) | PopElement | UncountElement | CopyBytes
    | LoadForStatus | MeasureStatus | CommitStatus | SendStatusAck | SeeEof

  datatype Action = Writer(w: WriteStep) | Acker(k: AckStep) | Deliverer(d: DeliverStep) | Reader(r: ReadStep)

  const EMPTY := Segment([], false)

  const INIT := State(
    Sender(Word(INITIAL_WINDOW, 0, false), WIdle, [], 0, AIdle, INITIAL_WINDOW), [], [],
    Receiver(Word(INITIAL_WINDOW, 0, false), DIdle, [], 0, EMPTY, 0, RIdle, false), [], [])

  // ---------- the steps ----------

  predicate WriterEnabled(c: Sender, a: WriteStep) {
    match a
    case CallWrite(buf) => c.writer.WIdle? && buf != []
    case FinishWrite => c.writer.WStart? && c.off >= |c.buf|
    case LoadWindow => c.writer.WStart? && c.off < |c.buf|
    case CutOrPark => c.writer.WLoaded? && c.off <= |c.buf|
    case LoadSent => c.writer.WCut?
    case CommitSent => c.writer.WSentLoaded?
    case EmitFrame => c.writer.WHolding?
    case CallClose => c.writer.WIdle?
  }

  function WriterNext(c: Sender, a: WriteStep): Sender
    requires WriterEnabled(c, a)
  {
    match a
    case CallWrite(buf) => c.(writer := WStart, buf := buf, off := 0)
    case FinishWrite => c.(writer := WIdle)
    case LoadWindow => c.(writer := WLoaded(c.word))
    case CutOrPark =>
      var w := c.writer.w;
      if SendRemaining(w) == 0 then
        if c.word == w then c.(word := w.(wait := true), writer := WPark) else c.(writer := WStart)
      else
        var rest := |c.buf| - c.off;
        var n := SegmentSize(rest, SendRemaining(w));
        c.(writer := WCut(Segment(c.buf[c.off..c.off + n], n < rest)), off := c.off + n)
    case LoadSent => c.(writer := WSentLoaded(c.writer.seg, c.word))
    case CommitSent =>
      var sent := OnSent(c.writer.w, |c.writer.seg.bytes|);
      if sent.Some? && c.word == c.writer.w then c.(word := sent.value, writer := WHolding(c.writer.seg))
      else c.(writer := WCut(c.writer.seg))
    case EmitFrame => c.(writer := WStart)
    case CallClose => c.(writer := WClosed)
  }

  function WriterEmits(c: Sender, a: WriteStep): seq<Frame>
    requires WriterEnabled(c, a)
  {
    match a
    case EmitFrame => [Data(c.writer.seg)]
    case CallClose => [Close]
    case _ => []
  }

  predicate AckerEnabled(c: Sender, acks: seq<Ack>, a: AckStep) {
    match a
    case TakeAck => c.acker.AIdle? && acks != []
    case LoadForAck => c.acker.AReady?
    case ApplyAck => c.acker.ALoaded?
    case WakeWriter => c.acker.AAllow? && c.writer.WPark?
  }

  function AckerNext(c: Sender, acks: seq<Ack>, a: AckStep): Sender
    requires AckerEnabled(c, acks, a)
  {
    match a
    case TakeAck =>   // a closed connection is no longer in the table: its credits are dropped
      c.(acker := if c.writer.WClosed? then AIdle else AReady(acks[0], false))
    case LoadForAck => c.(acker := ALoaded(c.acker.ack, c.acker.newWait, c.word))
    case ApplyAck =>
      var ack := c.acker.ack;
      match OnAck(c.acker.w, ack, c.acker.newWait) {
        case Rejected => c.(acker := AIdle)
        case Unchanged => c.(acker := AIdle)
        case Slid(word, wake) =>
          if c.word == c.acker.w then
            c.(word := word, acker := if wake then AAllow else AIdle, top := Max(c.top, ack.size))
          else
            c.(acker := AReady(ack, word.wait))
      }
    case WakeWriter => c.(writer := WStart, acker := AIdle)
  }

  predicate DelivererEnabled(r: Receiver, data: seq<Frame>, a: DeliverStep) {
    match a
    case TakeFrame => r.deliverer.DIdle? && data != []
    case Resize(n) => r.deliverer.DSizing? && n >= 1
    case KeepSize => r.deliverer.DSizing?
    case LoadForArrival => r.deliverer.DReady?
    case MeasureArrival => r.deliverer.DLoaded?
    case CommitArrival => r.deliverer.DMeasured?
    case CountElement => r.deliverer.DPush?
    case InsertElement => r.deliverer.DInsert?
    case SendArrivalAck => r.deliverer.DAck?
  }

  function DelivererNext(r: Receiver, data: seq<Frame>, a: DeliverStep): Receiver
    requires DelivererEnabled(r, data, a)
  {
    var d := r.deliverer;
    match a
    case TakeFrame =>
      if data[0].Close? then r.(stopped := true) else r.(deliverer := DSizing(data[0].seg))
    case Resize(n) => r.(word := r.word.(size := n), deliverer := DReady(d.seg))
    case KeepSize => r.(deliverer := DReady(d.seg))
    case LoadForArrival => r.(deliverer := DLoaded(d.seg, r.word))
    case MeasureArrival =>
      r.(deliverer := DMeasured(d.seg, d.w, RecvRemaining(d.w.size, r.qlen, |d.seg.bytes|)))
    case CommitArrival =>
      var (word, ack) := OnArrival(d.w, d.remain);
      if d.w.wait then r.(deliverer := DPush(d.seg, None))   // no swap is attempted
      else if r.word == d.w then r.(word := word, deliverer := DPush(d.seg, ack))
      else r.(deliverer := DReady(d.seg))
    case CountElement => r.(qlen := r.qlen + |d.seg.bytes|, deliverer := DInsert(d.seg, d.ack))
    case InsertElement =>
      r.(chain := r.chain + [d.seg], deliverer := if d.ack.Some? then DAck(d.ack.value) else DIdle)
    case SendArrivalAck => r.(deliverer := DIdle)
  }

  function DelivererTakes(data: seq<Frame>, a: DeliverStep): nat {
    if a.TakeFrame? && data != [] then 1 else 0
  }

  function DelivererEmits(r: Receiver, data: seq<Frame>, a: DeliverStep): seq<Ack>
    requires DelivererEnabled(r, data, a)
  {
    if a.SendArrivalAck? then [r.deliverer.credit] else []
  }

  predicate ReaderEnabled(r: Receiver, a: ReadStep) {
    match a
    case CallRead(want) => r.reader.RIdle? && want >= 1
    case PopElement => r.reader.RCopy? && r.off == |r.elem.bytes| && r.chain != []
    case UncountElement => r.reader.RPopped? && |r.reader.seg.bytes| <= r.qlen
    case CopyBytes => r.reader.RCopy? && r.off < |r.elem.bytes|
    case LoadForStatus => r.reader.RStatus?
    case MeasureStatus => r.reader.RStatusLoaded?
    case CommitStatus => r.reader.RStatusMeasured? && |r.elem.bytes| < TWO16
    case SendStatusAck => r.reader.RStatusAck?
    case SeeEof => r.reader.RCopy? && r.off == |r.elem.bytes| && r.stopped && r.qlen == 0
  }

  /** After an element was read to its end: go on only if it was not the last part and there is room. */
  function Continue(want: nat, part: bool): ReaderPc {
    if want > 0 && part then RCopy(want) else RIdle
  }

  function ReaderNext(r: Receiver, a: ReadStep): Receiver
    requires ReaderEnabled(r, a)
  {
    var p := r.reader;
    match a
    case CallRead(want) => r.(reader := RCopy(want))
    case PopElement => r.(chain := r.chain[1..], reader := RPopped(p.want, r.chain[0]))
    case UncountElement => r.(qlen := r.qlen - |p.seg.bytes|, elem := p.seg, off := 0, reader := RCopy(p.want))
    case CopyBytes =>
      var l := Min(p.want, |r.elem.bytes| - r.off);
      r.(off := r.off + l, reader := if r.off + l == |r.elem.bytes| then RStatus(p.want - l) else RIdle)
    case LoadForStatus => r.(reader := RStatusLoaded(p.want, r.word))
    case MeasureStatus => r.(reader := RStatusMeasured(p.want, p.w, r.qlen))
    case CommitStatus =>
      var (word, ack) := OnConsumed(p.w, p.len, |r.elem.bytes|);
      if r.word != p.w then r.(reader := RStatus(p.want))
      else r.(word := word,
              reader := if ack.Some? then RStatusAck(p.want, ack.value) else Continue(p.want, r.elem.part))
    case SendStatusAck => r.(reader := Continue(p.want, r.elem.part))
    case SeeEof => r.(reader := REof)
  }

  function ReaderCopies(r: Receiver, a: ReadStep): seq<byte>
    requires ReaderEnabled(r, a)
  {
    if a.CopyBytes? then r.elem.bytes[r.off..r.off + Min(r.reader.want, |r.elem.bytes| - r.off)] else []
  }

  function ReaderEmits(r: Receiver, a: ReadStep): seq<Ack>
    requires ReaderEnabled(r, a)
  {
    if a.SendStatusAck? then [r.reader.credit] else []
  }

  predicate Enabled(s: State, a: Action) {
    match a
    case Writer(w) => WriterEnabled(s.snd, w)
    case Acker(k) => AckerEnabled(s.snd, s.acks, k)
    case Deliverer(d) => DelivererEnabled(s.rcv, s.data, d)
    case Reader(r) => ReaderEnabled(s.rcv, r)
  }

  function Next(s: State, a: Action): State
    requires Enabled(s, a)
  {
    match a
    case Writer(w) =>
      s.(snd := WriterNext(s.snd, w), data := s.data + WriterEmits(s.snd, w),
         written := s.written + if w.CallWrite? then w.buf else [])
    case Acker(k) =>
      s.(snd := AckerNext(s.snd, s.acks, k), acks := if k.TakeAck? then s.acks[1..] else s.acks)
    case Deliverer(d) =>
      s.(rcv := DelivererNext(s.rcv, s.data, d), data := s.data[DelivererTakes(s.data, d)..],
         acks := s.acks + DelivererEmits(s.rcv, s.data, d))
    case Reader(r) =>
      s.(rcv := ReaderNext(s.rcv, r), acks := s.acks + ReaderEmits(s.rcv, r),
         delivered := s.delivered + ReaderCopies(s.rcv, r))
  }

  /** `t` is reached from `s` by the actions `run`, each enabled in its turn. */
  ghost predicate Run(s: State, run: seq<Action>, t: State)
    decreases |run|
  {
    if run == [] then s == t
    else Enabled(s, run[0]) && Run(Next(s, run[0]), run[1..], t)
  }

  // ---------- bytes and credits on their way ----------

  function FrameBytes(f: Frame): seq<byte> {
    if f.Data? then f.seg.bytes else []
  }

  function Payload(fs: seq<Frame>): seq<byte> {
    if fs == [] then [] else FrameBytes(fs[0]) + Payload(fs[1..])
  }

  function Bytes(segs: seq<Segment>): seq<byte> {
    if segs == [] then [] else segs[0].bytes + Bytes(segs[1..])
  }

  function AckSum(acks: seq<Ack>): nat {
    if acks == [] then 0 else acks[0].read + AckSum(acks[1..])
  }

  lemma {:induction false} PayloadConcat(fs: seq<Frame>, gs: seq<Frame>)
    ensures Payload(fs + gs) == Payload(fs) + Payload(gs)
  {
    if fs == [] {
      assert fs + gs == gs;
    } else {
      assert (fs + gs)[1..] == fs[1..] + gs;
      PayloadConcat(fs[1..], gs);
    }
  }

  lemma {:induction false} BytesConcat(xs: seq<Segment>, ys: seq<Segment>)
    ensures Bytes(xs + ys) == Bytes(xs) + Bytes(ys)
  {
    if xs == [] {
      assert xs + ys == ys;
    } else {
      assert (xs + ys)[1..] == xs[1..] + ys;
      BytesConcat(xs[1..], ys);
    }
  }

  lemma {:induction false} AckSumConcat(xs: seq<Ack>, ys: seq<Ack>)
    ensures AckSum(xs + ys) == AckSum(xs) + AckSum(ys)
  {
    if xs == [] {
      assert xs + ys == ys;
    } else {
      assert (xs + ys)[1..] == xs[1..] + ys;
      AckSumConcat(xs[1..], ys);
    }
  }

  /** Cut from the writer's buffer, not yet counted as sent. */
  function Uncounted(w: WriterPc): seq<byte> {
    if w.WCut? || w.WSentLoaded? then w.seg.bytes else []
  }

  /** Counted as sent, not yet in the channel. */
  function Held(w: WriterPc): seq<byte> {
    if w.WHolding? then w.seg.bytes else []
  }

  /** Out of the channel, not yet in the receive queue. */
  function Arriving(d: DelivererPc): seq<byte> {
    if d.DIdle? || d.DAck? then [] else d.seg.bytes
  }

  function Popped(r: ReaderPc): seq<byte> {
    if r.RPopped? then r.seg.bytes else []
  }

  /** Size of the current element until its size is added to the receiver's read count. */
  function Owed(r: Receiver): nat {
    if r.off < |r.elem.bytes| || r.reader.RStatus? || r.reader.RStatusLoaded? || r.reader.RStatusMeasured?
    then |r.elem.bytes| else 0
  }

  /** Read counts in credits that were computed and have not been applied. */
  function AckerCredit(a: AckerPc): nat {
    if a.AReady? || a.ALoaded? then a.ack.read else 0
  }

  function DelivererCredit(d: DelivererPc): nat {
    if (d.DPush? || d.DInsert?) && d.ack.Some? then d.ack.value.read
    else if d.DAck? then d.credit.read else 0
  }

  function ReaderCredit(r: ReaderPc): nat {
    if r.RStatusAck? then r.credit.read else 0
  }

  function SenderCredit(c: Sender): nat {
    |Held(c.writer)| + AckerCredit(c.acker)
  }

  function ReceiverCredit(r: Receiver): nat {
    |Arriving(r.deliverer)| + |Bytes(r.chain)| + |Popped(r.reader)| + Owed(r) + r.word.done +
    DelivererCredit(r.deliverer) + ReaderCredit(r.reader)
  }

  /** Everything that is on its way from being counted as sent to being credited. */
  function Credit(s: State): nat {
    SenderCredit(s.snd) + |Payload(s.data)| + ReceiverCredit(s.rcv) + AckSum(s.acks)
  }

  /** Bytes at or past the receiver, oldest first. */
  function Downstream(r: Receiver): seq<byte>
    requires r.off <= |r.elem.bytes|
  {
    r.elem.bytes[r.off..] + Popped(r.reader) + Bytes(r.chain) + Arriving(r.deliverer)
  }

  /** Bytes not yet at the receiver, oldest first. */
  function Upstream(c: Sender, data: seq<Frame>): seq<byte>
    requires c.off <= |c.buf|
  {
    Payload(data) + Held(c.writer) + Uncounted(c.writer) + c.buf[c.off..]
  }

  // ---------- invariants ----------

  predicate SegmentOk(e: Segment) {
    1 <= |e.bytes| <= SEGMENT
  }

  predicate SenderInv(c: Sender) {
    && c.off <= |c.buf|
    && 1 <= c.word.size <= c.top && c.word.done <= c.top
    && (c.writer.WIdle? || c.writer.WClosed? ==> c.off == |c.buf|)
    && (c.writer.WLoaded? || c.writer.WPark? ==> c.off < |c.buf|)
    && (c.writer.WLoaded? ==> c.writer.w.size <= c.top && c.word.done <= c.writer.w.done)
    && (c.writer.WCut? ==> SegmentOk(c.writer.seg) && c.word.done + |c.writer.seg.bytes| <= c.top)
    && (c.writer.WSentLoaded? ==> SegmentOk(c.writer.seg) && c.word.done <= c.writer.w.done &&
                                  c.writer.w.done + |c.writer.seg.bytes| <= c.top)
    && (c.writer.WHolding? ==> SegmentOk(c.writer.seg))
    && (c.word.wait ==> c.writer.WPark? && SendRemaining(c.word) == 0)
    && (c.acker.AAllow? ==> c.writer.WPark? && !c.word.wait)
    && (c.writer.WPark? ==> c.word.wait || c.acker.AAllow?)
    && (c.acker.AReady? ==> !c.acker.newWait && c.acker.ack.size >= 1)
    && (c.acker.ALoaded? ==> !c.acker.newWait && c.acker.ack.size >= 1 && c.acker.ack.read <= c.acker.w.done &&
                             (c.acker.w.wait ==> c.acker.w == c.word))
  }

  const READ_LIMIT := TWO31 / 2

  predicate WordOk(w: Word) {
    w.size >= 1 && w.done < READ_LIMIT
  }

  predicate DelivererShape(r: Receiver) {
    && (!r.deliverer.DIdle? && !r.deliverer.DAck? ==> SegmentOk(r.deliverer.seg))
    && (r.deliverer.DLoaded? || r.deliverer.DMeasured? ==> WordOk(r.deliverer.w))
    && ((r.deliverer.DPush? || r.deliverer.DInsert?) && r.deliverer.ack.Some? ==> r.deliverer.ack.value.size >= 1)
    && (r.deliverer.DAck? ==> r.deliverer.credit.size >= 1)
    && (r.stopped ==> r.deliverer.DIdle?)
  }

  predicate ReaderShape(r: Receiver) {
    && r.off <= |r.elem.bytes| <= SEGMENT
    && (r.reader.RCopy? ==> r.reader.want >= 1)
    && (r.reader.RPopped? ==> r.reader.want >= 1 && SegmentOk(r.reader.seg))
    && (!r.reader.RIdle? && !r.reader.RCopy? ==> r.off == |r.elem.bytes|)
    && (r.reader.RStatus? || r.reader.RStatusLoaded? || r.reader.RStatusMeasured? ==> SegmentOk(r.elem))
    && (r.reader.RStatusLoaded? || r.reader.RStatusMeasured? ==> WordOk(r.reader.w))
    && (r.reader.RStatusMeasured? ==> r.reader.len <= r.qlen)
    && (r.reader.RStatusAck? ==> r.reader.credit.size >= 1)
    && (r.reader.REof? ==> r.stopped && r.qlen == 0)
  }

  predicate ReceiverInv(r: Receiver) {
    && WordOk(r.word)
    && (forall e <- r.chain :: SegmentOk(e))
    && DelivererShape(r)
    && ReaderShape(r)
    && QueueLength(r)
    && ReportsWhenDrained(r)
  }

  /** The length field counts the queue, the element being pushed and the element just popped. */
  predicate QueueLength(r: Receiver) {
    r.qlen == |Bytes(r.chain)| + |Popped(r.reader)| + if r.deliverer.DInsert? then |r.deliverer.seg.bytes| else 0
  }

  /** With the queue empty and the current element read and reported, no read bytes are kept back. */
  predicate ReportsWhenDrained(r: Receiver) {
    (r.reader.RIdle? || r.reader.RCopy? || r.reader.RStatusAck? || r.reader.REof?) && r.off == |r.elem.bytes| &&
    r.qlen == 0
    ==> r.word.done == 0
  }

  predicate EndsWithClose(fs: seq<Frame>) {
    fs != [] && fs[|fs| - 1].Close?
  }

  predicate ChannelInv(s: State) {
    && (forall i :: 0 <= i < |s.data| ==> s.data[i].Data? ==> SegmentOk(s.data[i].seg))
    && (forall i :: 0 <= i < |s.data| - 1 ==> s.data[i].Data?)
    && (s.snd.writer.WClosed? <==> s.rcv.stopped || EndsWithClose(s.data))
    && (s.rcv.stopped ==> s.data == [])
    && (forall a <- s.acks :: a.size >= 1)
  }

  /** While the writer is open the sender's count is exactly what is on its way. */
  predicate CreditInv(s: State) {
    Credit(s) <= s.snd.word.done && (!s.snd.writer.WClosed? ==> Credit(s) == s.snd.word.done)
  }

  predicate StreamInv(s: State)
    requires s.rcv.off <= |s.rcv.elem.bytes| && s.snd.off <= |s.snd.buf|
  {
    s.written == s.delivered + Downstream(s.rcv) + Upstream(s.snd, s.data)
  }

  predicate Inv(s: State) {
    SenderInv(s.snd) && ReceiverInv(s.rcv) && ChannelInv(s) && CreditInv(s) && StreamInv(s)
  }

  lemma InitInv()
    ensures Inv(INIT)
  {
  }

  lemma Units(a: seq<byte>)
    ensures a + [] == a && [] + a == a
  {
  }

  lemma Assoc(a: seq<byte>, b: seq<byte>, c: seq<byte>)
    ensures a + (b + c) == a + b + c
  {
  }

  // Writer steps.

  lemma WriterKeepsSender(c: Sender, a: WriteStep)
    requires SenderInv(c) && WriterEnabled(c, a)
    ensures SenderInv(WriterNext(c, a))
  {
  }

  lemma WriterCredit(c: Sender, a: WriteStep)
    requires SenderInv(c) && WriterEnabled(c, a)
    ensures var c' := WriterNext(c, a);
            SenderCredit(c') + |Payload(WriterEmits(c, a))| - c'.word.done == SenderCredit(c) - c.word.done
  {
  }

  lemma WriterUpstream(c: Sender, a: WriteStep, data: seq<Frame>)
    requires WriterEnabled(c, a) && c.off <= |c.buf| && (c.writer.WIdle? ==> c.off == |c.buf|)
    ensures var c' := WriterNext(c, a);
            && c'.off <= |c'.buf|
            && Upstream(c', data + WriterEmits(c, a)) == Upstream(c, data) + if a.CallWrite? then a.buf else []
  {
    if a.CutOrPark? {
      WriterCuts(c, data);
    } else if a.EmitFrame? || a.CallClose? {
      WriterHandsOver(c, a, data);
    } else {
      var c' := WriterNext(c, a);
      assert data + [] == data;
      Units(Upstream(c, data));
      if a.CallWrite? {
        assert c'.buf[c'.off..] == a.buf && c.buf[c.off..] == [];
        Units(Payload(data));
      } else {
        Units(Payload(data));
        Units(Payload(data) + (Held(c.writer) + Uncounted(c.writer)));
        assert Held(c'.writer) + Uncounted(c'.writer) == Held(c.writer) + Uncounted(c.writer);
      }
    }
  }

  lemma WriterHandsOver(c: Sender, a: WriteStep, data: seq<Frame>)
    requires WriterEnabled(c, a) && c.off <= |c.buf| && (a.EmitFrame? || a.CallClose?)
    ensures Upstream(WriterNext(c, a), data + WriterEmits(c, a)) == Upstream(c, data) + []
  {
    var fs := WriterEmits(c, a);
    PayloadConcat(data, fs);
    assert Payload(fs) == FrameBytes(fs[0]) + [];
    Units(FrameBytes(fs[0]));
    Units(Payload(data));
    Units(Payload(data) + FrameBytes(fs[0]));
    Units(Upstream(c, data));
  }

  lemma CutApart(p: seq<byte>, cut: seq<byte>, rest: seq<byte>)
    ensures p + [] + [] + (cut + rest) == p + [] + cut + rest
  {
  }

  lemma WriterCuts(c: Sender, data: seq<Frame>)
    requires WriterEnabled(c, CutOrPark)
    ensures var c' := WriterNext(c, CutOrPark);
            && c'.off <= |c'.buf|
            && Upstream(c', data + []) == Upstream(c, data) + []
  {
    var c' := WriterNext(c, CutOrPark);
    assert data + [] == data;
    Units(Upstream(c, data));
    if c'.writer.WCut? {
      var cut := c.buf[c.off..c'.off];
      assert c.buf[c.off..] == cut + c.buf[c'.off..];
      CutApart(Payload(data), cut, c.buf[c'.off..]);
    }
  }

  lemma WriterKeeps(s: State, a: WriteStep)
    requires Inv(s) && WriterEnabled(s.snd, a)
    ensures Inv(Next(s, Writer(a)))
  {
    var t := Next(s, Writer(a));
    WriterKeepsSender(s.snd, a);
    assert CreditInv(t) by {
      WriterCredit(s.snd, a);
      PayloadConcat(s.data, WriterEmits(s.snd, a));
    }
    assert StreamInv(t) by {
      WriterUpstream(s.snd, a, s.data);
      Assoc(s.delivered + Downstream(s.rcv), Upstream(s.snd, s.data), if a.CallWrite? then a.buf else []);
    }
    WriterKeepsChannel(s, a);
  }

  lemma WriterKeepsChannel(s: State, a: WriteStep)
    requires Inv(s) && WriterEnabled(s.snd, a)
    ensures ChannelInv(Next(s, Writer(a)))
  {
    var t, fs := Next(s, Writer(a)), WriterEmits(s.snd, a);
    assert t.rcv == s.rcv && t.acks == s.acks && t.data == s.data + fs;
    if fs == [] {
      assert t.data == s.data;
      assert t.snd.writer.WClosed? <==> s.snd.writer.WClosed?;
    } else {
      assert !s.snd.writer.WClosed? && !EndsWithClose(s.data) && !s.rcv.stopped;
      ChannelGrows(s.data, fs[0]);
    }
  }

  lemma ChannelGrows(data: seq<Frame>, f: Frame)
    requires (forall i :: 0 <= i < |data| - 1 ==> data[i].Data?) && !EndsWithClose(data)
    ensures forall i :: 0 <= i < |data + [f]| - 1 ==> (data + [f])[i].Data?
    ensures EndsWithClose(data + [f]) <==> f.Close?
  {
  }

  // Steps of the goroutine applying credits.

  lemma AckerKeepsSender(c: Sender, acks: seq<Ack>, a: AckStep)
    requires SenderInv(c) && AckerEnabled(c, acks, a)
    requires forall x <- acks :: x.size >= 1
    requires SenderCredit(c) + AckSum(acks) <= c.word.done
    ensures SenderInv(AckerNext(c, acks, a))
  {
  }

  lemma AckerCreditMoves(c: Sender, acks: seq<Ack>, a: AckStep)
    requires SenderInv(c) && AckerEnabled(c, acks, a)
    ensures var c' := AckerNext(c, acks, a);
            var acks' := if a.TakeAck? then acks[1..] else acks;
            var before := SenderCredit(c) + AckSum(acks) - c.word.done;
            var after := SenderCredit(c') + AckSum(acks') - c'.word.done;
            after <= before && (!c.writer.WClosed? ==> after == before)
  {
  }

  lemma AckerKeepsChannel(s: State, a: AckStep)
    requires ChannelInv(s) && AckerEnabled(s.snd, s.acks, a)
    ensures ChannelInv(Next(s, Acker(a)))
  {
    var t := Next(s, Acker(a));
    assert t.data == s.data && t.rcv == s.rcv;
    assert t.snd.writer.WClosed? <==> s.snd.writer.WClosed?;
    assert forall x <- t.acks :: x in s.acks;
  }

  lemma AckerLeavesStream(c: Sender, acks: seq<Ack>, a: AckStep, data: seq<Frame>)
    requires c.off <= |c.buf| && AckerEnabled(c, acks, a)
    ensures var c' := AckerNext(c, acks, a);
            c'.off <= |c'.buf| && Upstream(c', data) == Upstream(c, data)
  {
    var c' := AckerNext(c, acks, a);
    assert c'.buf == c.buf && c'.off == c.off;
    assert Held(c'.writer) == Held(c.writer) && Uncounted(c'.writer) == Uncounted(c.writer);
  }

  lemma AckerKeeps(s: State, a: AckStep)
    requires Inv(s) && AckerEnabled(s.snd, s.acks, a)
    ensures Inv(Next(s, Acker(a)))
  {
    var t := Next(s, Acker(a));
    assert SenderInv(t.snd) by {
      AckerKeepsSender(s.snd, s.acks, a);
    }
    assert CreditInv(t) by {
      AckerCreditMoves(s.snd, s.acks, a);
    }
    assert ChannelInv(t) by {
      AckerKeepsChannel(s, a);
    }
    assert StreamInv(t) by {
      AckerLeavesStream(s.snd, s.acks, a, s.data);
    }
  }

  // Steps of the goroutine delivering frames.

  lemma DelivererKeepsReceiver(r: Receiver, data: seq<Frame>, a: DeliverStep)
    requires ReceiverInv(r) && DelivererEnabled(r, data, a)
    requires forall f <- data :: f.Data? ==> SegmentOk(f.seg)
    requires r.stopped ==> data == []
    ensures ReceiverInv(DelivererNext(r, data, a))
  {
    var r' := DelivererNext(r, data, a);
    assert (forall e <- r'.chain :: SegmentOk(e)) && QueueLength(r') && r'.qlen >= r.qlen by {
      DelivererKeepsQueue(r, data, a);
    }
    assert r'.elem == r.elem && r'.off == r.off && r'.reader == r.reader;
    assert WordOk(r'.word) && DelivererShape(r') by {
      DelivererKeepsShape(r, data, a);
    }
    assert ReportsWhenDrained(r') by {
      assert r'.word.done == 0 || r'.word.done == r.word.done;
    }
  }

  lemma DelivererKeepsQueue(r: Receiver, data: seq<Frame>, a: DeliverStep)
    requires DelivererEnabled(r, data, a) && DelivererShape(r) && QueueLength(r)
    requires forall e <- r.chain :: SegmentOk(e)
    ensures var r' := DelivererNext(r, data, a);
            (forall e <- r'.chain :: SegmentOk(e)) && QueueLength(r') && r'.qlen >= r.qlen
  {
    if a.InsertElement? {
      BytesConcat(r.chain, [r.deliverer.seg]);
    }
  }

  lemma DelivererKeepsShape(r: Receiver, data: seq<Frame>, a: DeliverStep)
    requires WordOk(r.word) && DelivererShape(r) && DelivererEnabled(r, data, a)
    requires forall f <- data :: f.Data? ==> SegmentOk(f.seg)
    requires r.stopped ==> data == []
    ensures var r' := DelivererNext(r, data, a); WordOk(r'.word) && DelivererShape(r')
  {
    if a.TakeFrame? {
      assert data[0] in data;
    }
  }

  lemma DelivererCreditMoves(r: Receiver, data: seq<Frame>, a: DeliverStep)
    requires DelivererEnabled(r, data, a)
    ensures ReceiverCredit(DelivererNext(r, data, a)) + AckSum(DelivererEmits(r, data, a)) +
            |Payload(data[DelivererTakes(data, a)..])| == ReceiverCredit(r) + |Payload(data)|
  {
    var r' := DelivererNext(r, data, a);
    assert r'.reader == r.reader && Owed(r') == Owed(r);
    match a {
      case TakeFrame =>
        assert |Payload(data)| == |FrameBytes(data[0])| + |Payload(data[1..])|;
        assert |Arriving(r'.deliverer)| == |FrameBytes(data[0])|;
      case _ =>
        assert data[0..] == data;
        DelivererKeepsCredit(r, data, a);
    }
  }

  lemma DelivererKeepsCredit(r: Receiver, data: seq<Frame>, a: DeliverStep)
    requires DelivererEnabled(r, data, a) && !a.TakeFrame?
    ensures var r' := DelivererNext(r, data, a);
            |Arriving(r'.deliverer)| + |Bytes(r'.chain)| + r'.word.done + DelivererCredit(r'.deliverer) +
            AckSum(DelivererEmits(r, data, a)) ==
            |Arriving(r.deliverer)| + |Bytes(r.chain)| + r.word.done + DelivererCredit(r.deliverer)
  {
    if a.InsertElement? {
      BytesConcat(r.chain, [r.deliverer.seg]);
    }
  }

  lemma DelivererMoves(r: Receiver, data: seq<Frame>, a: DeliverStep)
    requires r.off <= |r.elem.bytes| && DelivererEnabled(r, data, a)
    ensures var r' := DelivererNext(r, data, a);
            Downstream(r') + Payload(data[DelivererTakes(data, a)..]) == Downstream(r) + Payload(data)
  {
    var queued := r.elem.bytes[r.off..] + Popped(r.reader) + Bytes(r.chain);
    Units(queued);
    match a {
      case TakeFrame =>
        Assoc(queued, FrameBytes(data[0]), Payload(data[1..]));
        Units(Payload(data[1..]));
      case InsertElement =>
        BytesConcat(r.chain, [r.deliverer.seg]);
        assert Bytes([r.deliverer.seg]) == r.deliverer.seg.bytes + [];
        Units(r.deliverer.seg.bytes);
        Assoc(r.elem.bytes[r.off..] + Popped(r.reader), Bytes(r.chain), r.deliverer.seg.bytes);
        Units(queued + r.deliverer.seg.bytes);
        assert data[0..] == data;
      case _ =>
        assert data[0..] == data;
    }
  }

  lemma DelivererKeepsChannel(s: State, a: DeliverStep)
    requires Inv(s) && DelivererEnabled(s.rcv, s.data, a)
    ensures ChannelInv(Next(s, Deliverer(a)))
  {
  }

  lemma DelivererKeeps(s: State, a: DeliverStep)
    requires Inv(s) && DelivererEnabled(s.rcv, s.data, a)
    ensures Inv(Next(s, Deliverer(a)))
  {
    var t := Next(s, Deliverer(a));
    DelivererKeepsReceiver(s.rcv, s.data, a);
    DelivererKeepsChannel(s, a);
    assert CreditInv(t) by {
      DelivererCreditMoves(s.rcv, s.data, a);
      AckSumConcat(s.acks, DelivererEmits(s.rcv, s.data, a));
    }
    assert StreamInv(t) by {
      DelivererMoves(s.rcv, s.data, a);
      Regroup(s.delivered, Downstream(s.rcv), Payload(s.data), s.snd);
      Regroup(s.delivered, Downstream(t.rcv), Payload(t.data), s.snd);
    }
  }

  lemma Regroup(delivered: seq<byte>, down: seq<byte>, payload: seq<byte>, c: Sender)
    requires c.off <= |c.buf|
    ensures delivered + down + (payload + Held(c.writer) + Uncounted(c.writer) + c.buf[c.off..]) ==
            delivered + (down + payload) + Held(c.writer) + Uncounted(c.writer) + c.buf[c.off..]
  {
  }

  // Steps of the reading application.

  lemma ReaderKeepsLength(r: Receiver, a: ReadStep)
    requires ReaderShape(r) && QueueLength(r) && ReaderEnabled(r, a)
    ensures QueueLength(ReaderNext(r, a))
  {
  }

  lemma StatusWord(w: Word, len: nat, l: u16)
    requires WordOk(w) && l <= SEGMENT
    ensures var (word, ack) := OnConsumed(w, len, l);
            WordOk(word) && (ack.Some? ==> ack.value.size >= 1) && (len == 0 ==> word.done == 0)
  {
    ConsumedReports(w, len, l);
  }

  lemma StatusRetries(r: Receiver)
    requires ReceiverInv(r) && r.reader.RStatusMeasured?
    ensures ReceiverInv(r.(reader := RStatus(r.reader.want)))
  {
  }

  lemma StatusReports(r: Receiver, word: Word, reader: ReaderPc)
    requires ReceiverInv(r) && r.reader.RStatusMeasured? && WordOk(word) && (r.reader.len == 0 ==> word.done == 0)
    requires reader.RIdle? || (reader.RCopy? && reader.want > 0) || (reader.RStatusAck? && reader.credit.size >= 1)
    ensures ReceiverInv(r.(word := word, reader := reader))
  {
  }

  lemma StatusKeepsReceiver(r: Receiver)
    requires ReceiverInv(r) && ReaderEnabled(r, CommitStatus)
    ensures ReceiverInv(ReaderNext(r, CommitStatus))
  {
    var p := r.reader;
    var (word, ack) := OnConsumed(p.w, p.len, |r.elem.bytes|);
    StatusWord(p.w, p.len, |r.elem.bytes|);
    if r.word == p.w {
      StatusReports(r, word, if ack.Some? then RStatusAck(p.want, ack.value) else Continue(p.want, r.elem.part));
    } else {
      StatusRetries(r);
    }
  }

  lemma PopKeepsReceiver(r: Receiver)
    requires ReceiverInv(r) && ReaderEnabled(r, PopElement)
    ensures ReceiverInv(ReaderNext(r, PopElement))
  {
    ReaderKeepsLength(r, PopElement);
  }

  lemma ReaderKeepsReceiver(r: Receiver, a: ReadStep)
    requires ReceiverInv(r) && ReaderEnabled(r, a)
    ensures ReceiverInv(ReaderNext(r, a))
  {
    if a.CommitStatus? {
      StatusKeepsReceiver(r);
    } else if a.PopElement? {
      PopKeepsReceiver(r);
    } else {
      ReaderKeepsLength(r, a);
    }
  }

  lemma ReaderCreditMoves(r: Receiver, a: ReadStep)
    requires ReaderShape(r) && ReaderEnabled(r, a)
    ensures ReceiverCredit(ReaderNext(r, a)) + AckSum(ReaderEmits(r, a)) == ReceiverCredit(r)
  {
  }

  lemma ReaderMoves(r: Receiver, a: ReadStep)
    requires ReaderEnabled(r, a) && r.off <= |r.elem.bytes| && (r.reader.RPopped? ==> r.off == |r.elem.bytes|)
    ensures var r' := ReaderNext(r, a);
            r'.off <= |r'.elem.bytes| && ReaderCopies(r, a) + Downstream(r') == Downstream(r)
  {
    if a.CopyBytes? {
      CopyMoves(r);
    } else {
      var r' := ReaderNext(r, a);
      var rest := r.elem.bytes[r.off..];
      Units(Downstream(r'));
      Units(rest);
      match a {
        case PopElement =>
          assert rest == [];
          Units(r.chain[0].bytes);
          Units(Bytes(r.chain));
        case UncountElement =>
          assert rest == [] && r'.elem.bytes[r'.off..] == r.reader.seg.bytes;
          Units(r.reader.seg.bytes);
        case _ =>
      }
    }
  }

  lemma CopyMoves(r: Receiver)
    requires ReaderEnabled(r, CopyBytes)
    ensures var r' := ReaderNext(r, CopyBytes);
            r'.off <= |r'.elem.bytes| && ReaderCopies(r, CopyBytes) + Downstream(r') == Downstream(r)
  {
    var r' := ReaderNext(r, CopyBytes);
    var copied, left := ReaderCopies(r, CopyBytes), r'.elem.bytes[r'.off..];
    assert r.elem.bytes[r.off..] == copied + left;
    Units(copied + left);
    Units(left);
    Assoc(copied, left, Bytes(r.chain));
    Assoc(copied, left + Bytes(r.chain), Arriving(r.deliverer));
  }

  lemma ReaderKeeps(s: State, a: ReadStep)
    requires Inv(s) && ReaderEnabled(s.rcv, a)
    ensures Inv(Next(s, Reader(a)))
  {
    var t := Next(s, Reader(a));
    ReaderKeepsReceiver(s.rcv, a);
    assert CreditInv(t) by {
      ReaderCreditMoves(s.rcv, a);
      AckSumConcat(s.acks, ReaderEmits(s.rcv, a));
    }
    assert StreamInv(t) by {
      ReaderMoves(s.rcv, a);
      Assoc(s.delivered, ReaderCopies(s.rcv, a), Downstream(t.rcv));
    }
    ReaderKeepsChannel(s, a);
  }

  lemma ReaderKeepsChannel(s: State, a: ReadStep)
    requires Inv(s) && ReaderEnabled(s.rcv, a)
    ensures ChannelInv(Next(s, Reader(a)))
  {
  }

  lemma Keeps(s: State, a: Action)
    requires Inv(s) && Enabled(s, a)
    ensures Inv(Next(s, a))
  {
    match a
    case Writer(w) => WriterKeeps(s, w);
    case Acker(k) => AckerKeeps(s, k);
    case Deliverer(d) => DelivererKeeps(s, d);
    case Reader(r) => ReaderKeeps(s, r);
  }

  lemma {:induction false} RunKeeps(s: State, run: seq<Action>, t: State)
    requires Inv(s) && Run(s, run, t)
    ensures Inv(t)
    decreases |run|
  {
    if run != [] {
      Keeps(s, run[0]);
      RunKeeps(Next(s, run[0]), run[1..], t);
    }
  }
}
