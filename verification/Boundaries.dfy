/** Where one Write ends and the next begins, over every run of Protocol: a Read never crosses the end of a Write, and
    it returns short of what it asked for only there. */
module Boundaries {
  import opened Basics
  import opened Window
  import opened Protocol

  /** Protocol watched from outside: where in the stream the Writes made so far end, where the last Read began, and how
      many bytes it asked for. */
  datatype Watched = Watched(s: State, ends: set<nat>, from: nat, want: nat)

  const START := Watched(INIT, {}, 0, 0)

  function Watch(w: Watched, a: Action): Watched
    requires Enabled(w.s, a)
  {
    var t := Next(w.s, a);
    match a
    case Writer(CallWrite(_)) => w.(s := t, ends := w.ends + {|t.written|})
    case Reader(CallRead(want)) => w.(s := t, from := |t.delivered|, want := want)
    case _ => w.(s := t)
  }

  ghost predicate Run(w: Watched, run: seq<Action>, v: Watched)
    decreases |run|
  {
    if run == [] then w == v else Enabled(w.s, run[0]) && Run(Watch(w, run[0]), run[1..], v)
  }

  /** No Write ends strictly between two positions. */
  predicate Unbroken(ends: set<nat>, lo: int, hi: int) {
    forall e <- ends :: !(lo < e < hi)
  }

  /** The step by which a Read returns bytes to its caller. */
  predicate Returns(s: State, a: Action) {
    Enabled(s, a) && !s.rcv.reader.RIdle? && Next(s, a).rcv.reader.RIdle?
  }

  // ---------- the segments between the reader's element and the writer's buffer ----------

  function WriterSegment(w: WriterPc): seq<Segment> {
    if w.WCut? || w.WSentLoaded? || w.WHolding? then [w.seg] else []
  }

  function DelivererSegment(d: DelivererPc): seq<Segment> {
    if d.DIdle? || d.DAck? then [] else [d.seg]
  }

  function PoppedSegment(r: ReaderPc): seq<Segment> {
    if r.RPopped? then [r.seg] else []
  }

  function Segments(fs: seq<Frame>): seq<Segment> {
    if fs == [] then [] else (if fs[0].Data? then [fs[0].seg] else []) + Segments(fs[1..])
  }

  function Received(r: Receiver): seq<Segment> {
    PoppedSegment(r.reader) + r.chain + DelivererSegment(r.deliverer)
  }

  function Sent(c: Sender, data: seq<Frame>): seq<Segment> {
    Segments(data) + WriterSegment(c.writer)
  }

  /** Oldest first. */
  function Pipeline(s: State): seq<Segment> {
    Received(s.rcv) + Sent(s.snd, s.data)
  }

  lemma Assoc<X>(a: seq<X>, b: seq<X>, c: seq<X>)
    ensures a + b + c == a + (b + c)
  {
  }

  lemma {:induction false} SegmentsConcat(fs: seq<Frame>, gs: seq<Frame>)
    ensures Segments(fs + gs) == Segments(fs) + Segments(gs)
  {
    if fs == [] {
      assert fs + gs == gs;
    } else {
      assert (fs + gs)[0] == fs[0] && (fs + gs)[1..] == fs[1..] + gs;
      SegmentsConcat(fs[1..], gs);
    }
  }

  /** The segment that a step of the writer cuts from its buffer. */
  function CutBy(c: Sender, a: WriteStep): seq<Segment>
    requires WriterEnabled(c, a)
  {
    if a.CutOrPark? && SendRemaining(c.writer.w) != 0 then [WriterNext(c, a).writer.seg] else []
  }

  lemma WriterPipes(c: Sender, a: WriteStep, data: seq<Frame>)
    requires WriterEnabled(c, a)
    ensures Sent(WriterNext(c, a), data + WriterEmits(c, a)) == Sent(c, data) + CutBy(c, a)
  {
    var fs := WriterEmits(c, a);
    if fs == [] {
      assert data + fs == data;
    } else {
      SegmentsConcat(data, fs);
      assert Segments(fs) == WriterSegment(c.writer) + [];
    }
  }

  lemma DelivererPipes(r: Receiver, data: seq<Frame>, a: DeliverStep, c: Sender)
    requires DelivererEnabled(r, data, a)
    ensures Received(DelivererNext(r, data, a)) + Sent(c, data[DelivererTakes(data, a)..]) ==
            Received(r) + Sent(c, data)
  {
    var r' := DelivererNext(r, data, a);
    var front := PoppedSegment(r.reader) + r.chain;
    match a {
      case TakeFrame =>
        var first := if data[0].Data? then [data[0].seg] else [];
        assert Received(r) == front && Received(r') == front + first;
        assert Sent(c, data) == first + Sent(c, data[1..]);
        Assoc(front, first, Sent(c, data[1..]));
      case InsertElement =>
        assert data[0..] == data;
        assert Received(r') == Received(r);
      case _ =>
        assert data[0..] == data;
    }
  }

  lemma ReaderPipes(r: Receiver, a: ReadStep)
    requires ReaderEnabled(r, a)
    ensures Received(r) == (if a.UncountElement? then [r.reader.seg] else []) + Received(ReaderNext(r, a))
  {
    var r' := ReaderNext(r, a);
    match a {
      case PopElement =>
        assert r.chain == [r.chain[0]] + r.chain[1..];
      case UncountElement =>
        assert Received(r) == [r.reader.seg] + (r.chain + DelivererSegment(r.deliverer));
      case _ =>
    }
  }

  // ---------- segments against the ends of Writes ----------

  /** Laid out from position `at`, no segment has the end of a Write inside, and the last of a Write is the one that is
      not `part`. */
  predicate Aligned(segs: seq<Segment>, at: nat, ends: set<nat>)
    decreases |segs|
  {
    segs == [] ||
    (var end := at + |segs[0].bytes|;
     Unbroken(ends, at, end) && (end in ends <==> !segs[0].part) && Aligned(segs[1..], end, ends))
  }

  lemma {:induction false} AlignedAppend(segs: seq<Segment>, seg: Segment, at: nat, ends: set<nat>)
    requires Aligned(segs, at, ends)
    requires var mid := at + |Bytes(segs)|;
             Unbroken(ends, mid, mid + |seg.bytes|) && (mid + |seg.bytes| in ends <==> !seg.part)
    ensures Aligned(segs + [seg], at, ends)
    decreases |segs|
  {
    if segs == [] {
      assert [seg][1..] == [];
    } else {
      assert (segs + [seg])[0] == segs[0] && (segs + [seg])[1..] == segs[1..] + [seg];
      AlignedAppend(segs[1..], seg, at + |segs[0].bytes|, ends);
    }
  }

  /** A Write that ends behind all segments leaves them aligned. */
  lemma {:induction false} AlignedLater(segs: seq<Segment>, at: nat, ends: set<nat>, e: nat)
    requires Aligned(segs, at, ends) && at + |Bytes(segs)| < e
    ensures Aligned(segs, at, ends + {e})
    decreases |segs|
  {
    if segs != [] {
      AlignedLater(segs[1..], at + |segs[0].bytes|, ends, e);
    }
  }

  /** The end of the reader's element in the stream. */
  function ElementEnd(s: State): nat
    requires s.rcv.off <= |s.rcv.elem.bytes|
  {
    |s.delivered| + |s.rcv.elem.bytes| - s.rcv.off
  }

  predicate ElementAligned(w: Watched)
    requires w.s.rcv.off <= |w.s.rcv.elem.bytes|
  {
    var elem, end := w.s.rcv.elem, ElementEnd(w.s);
    elem.bytes != [] ==> Unbroken(w.ends, end - |elem.bytes|, end) && (end in w.ends <==> !elem.part)
  }

  /** What is still in the writer's buffer is the rest of the last Write. */
  predicate BufferAligned(w: Watched)
    requires w.s.snd.off <= |w.s.snd.buf|
  {
    var n, rest := |w.s.written|, |w.s.snd.buf| - w.s.snd.off;
    && (forall e <- w.ends :: e <= n)
    && Unbroken(w.ends, n - rest, n)
    && (rest > 0 ==> n in w.ends)
    && (n > 0 ==> n in w.ends)
  }

  /** The Read in progress has crossed no end, and goes on only where none is. */
  predicate ReadAligned(w: Watched) {
    var n, p := |w.s.delivered|, w.s.rcv.reader;
    && (p.RCopy? || p.RPopped? || p.RStatus? || p.RStatusLoaded? || p.RStatusMeasured? || p.RStatusAck? ==>
          && w.from <= n && w.from + w.want == n + p.want && Unbroken(w.ends, w.from, n)
          && (p.RCopy? || p.RPopped? ==> p.want >= 1 && (w.from < n ==> n !in w.ends))
          && (!p.RCopy? && !p.RPopped? ==> w.from < n && w.s.rcv.elem.bytes != []))
  }

  predicate PipelineAligned(w: Watched)
    requires w.s.rcv.off <= |w.s.rcv.elem.bytes| && w.s.snd.off <= |w.s.snd.buf|
  {
    var segs, at := Pipeline(w.s), ElementEnd(w.s);
    && |w.s.written| == at + |Bytes(segs)| + |w.s.snd.buf| - w.s.snd.off
    && Aligned(segs, at, w.ends)
  }

  predicate StreamAligned(w: Watched) {
    && w.s.rcv.off <= |w.s.rcv.elem.bytes| && w.s.snd.off <= |w.s.snd.buf|
    && PipelineAligned(w) && ElementAligned(w) && BufferAligned(w)
  }

  predicate AllAligned(w: Watched) {
    StreamAligned(w) && ReadAligned(w)
  }

  // ---------- the steps ----------

  lemma CutFits(w: Watched)
    requires AllAligned(w) && WriterEnabled(w.s.snd, CutOrPark) && CutBy(w.s.snd, CutOrPark) != []
    requires SenderInv(w.s.snd)
    ensures var seg, mid := CutBy(w.s.snd, CutOrPark)[0], ElementEnd(w.s) + |Bytes(Pipeline(w.s))|;
            Unbroken(w.ends, mid, mid + |seg.bytes|) && (mid + |seg.bytes| in w.ends <==> !seg.part)
  {
    var seg, rest, n := CutBy(w.s.snd, CutOrPark)[0], |w.s.snd.buf| - w.s.snd.off, |w.s.written|;
    assert ElementEnd(w.s) + |Bytes(Pipeline(w.s))| == n - rest;
    assert 0 < |seg.bytes| <= rest && seg.part == (|seg.bytes| < rest);
    assert Unbroken(w.ends, n - rest, n) && n in w.ends;
  }

  /** What leaves the buffer is what is cut from it. */
  lemma CutLengths(c: Sender, a: WriteStep)
    requires WriterEnabled(c, a) && SenderInv(c)
    ensures var c', given := WriterNext(c, a), if a.CallWrite? then |a.buf| else 0;
            && c'.off <= |c'.buf|
            && |Bytes(CutBy(c, a))| + |c'.buf| - c'.off == given + |c.buf| - c.off
  {
    var cut := CutBy(c, a);
    if cut != [] {
      assert Bytes(cut) == cut[0].bytes + [];
    }
  }

  lemma WriterPipelines(s: State, a: WriteStep)
    requires WriterEnabled(s.snd, a)
    ensures Pipeline(Next(s, Writer(a))) == Pipeline(s) + CutBy(s.snd, a)
  {
    WriterPipes(s.snd, a, s.data);
    Assoc(Received(s.rcv), Sent(s.snd, s.data), CutBy(s.snd, a));
  }

  lemma WriterPipeline(w: Watched, a: WriteStep)
    requires AllAligned(w) && WriterEnabled(w.s.snd, a) && SenderInv(w.s.snd)
    ensures var v := Watch(w, Writer(a)); v.s.snd.off <= |v.s.snd.buf| && PipelineAligned(v)
  {
    var segs, at, cut := Pipeline(w.s), ElementEnd(w.s), CutBy(w.s.snd, a);
    var t := Next(w.s, Writer(a));
    CutLengths(w.s.snd, a);
    WriterPipelines(w.s, a);
    BytesConcat(segs, cut);
    assert ElementEnd(t) == at && |t.written| == |w.s.written| + if a.CallWrite? then |a.buf| else 0;
    assert Aligned(Pipeline(t), at, Watch(w, Writer(a)).ends) by {
      if cut != [] {
        CutFits(w);
        AlignedAppend(segs, cut[0], at, w.ends);
        assert cut == [cut[0]];
      } else {
        assert segs + cut == segs;
        if a.CallWrite? {
          AlignedLater(segs, at, w.ends, |t.written|);
        }
      }
    }
  }

  lemma WriterAligns(w: Watched, a: WriteStep)
    requires AllAligned(w) && WriterEnabled(w.s.snd, a) && SenderInv(w.s.snd)
    ensures AllAligned(Watch(w, Writer(a)))
  {
    var s, v := w.s, Watch(w, Writer(a));
    WriterPipeline(w, a);
    assert v.s.rcv == s.rcv && v.s.delivered == s.delivered && v.from == w.from && v.want == w.want;
    assert ElementEnd(s) <= |s.written| && |s.delivered| <= |s.written|;
    assert forall e <- v.ends :: e in w.ends || (a.CallWrite? && e == |v.s.written| > |s.written|);
    assert forall e <- w.ends :: e in v.ends;
    assert BufferAligned(v);
  }

  lemma AckerLeavesBuffer(c: Sender, acks: seq<Ack>, a: AckStep)
    requires AckerEnabled(c, acks, a)
    ensures var c' := AckerNext(c, acks, a);
            c'.buf == c.buf && c'.off == c.off && WriterSegment(c'.writer) == WriterSegment(c.writer)
  {
  }

  /** What the alignment is about did not change. */
  predicate SameStream(s: State, t: State) {
    && Pipeline(t) == Pipeline(s) && t.written == s.written && t.delivered == s.delivered
    && t.snd.buf == s.snd.buf && t.snd.off == s.snd.off
    && t.rcv.elem == s.rcv.elem && t.rcv.off == s.rcv.off
  }

  lemma SameStreamAligns(w: Watched, t: State)
    requires StreamAligned(w) && SameStream(w.s, t) && ReadAligned(w.(s := t))
    ensures AllAligned(w.(s := t))
  {
  }

  lemma AckerAligns(w: Watched, a: AckStep)
    requires AllAligned(w) && AckerEnabled(w.s.snd, w.s.acks, a)
    ensures AllAligned(Watch(w, Acker(a)))
  {
    var s, t := w.s, Next(w.s, Acker(a));
    AckerLeavesBuffer(s.snd, s.acks, a);
    assert t.rcv == s.rcv && SameStream(s, t);
    SameStreamAligns(w, t);
  }

  lemma DelivererLeaves(s: State, a: DeliverStep)
    requires DelivererEnabled(s.rcv, s.data, a)
    ensures SameStream(s, Next(s, Deliverer(a))) && Next(s, Deliverer(a)).rcv.reader == s.rcv.reader
  {
    DelivererPipes(s.rcv, s.data, a, s.snd);
  }

  lemma DelivererAligns(w: Watched, a: DeliverStep)
    requires AllAligned(w) && DelivererEnabled(w.s.rcv, w.s.data, a)
    ensures AllAligned(Watch(w, Deliverer(a)))
  {
    DelivererLeaves(w.s, a);
    SameStreamAligns(w, Next(w.s, Deliverer(a)));
  }

  lemma ReaderPipeline(s: State, a: ReadStep)
    requires ReaderEnabled(s.rcv, a)
    ensures Pipeline(s) == (if a.UncountElement? then [s.rcv.reader.seg] else []) + Pipeline(Next(s, Reader(a)))
  {
    var t, one := Next(s, Reader(a)), if a.UncountElement? then [s.rcv.reader.seg] else [];
    ReaderPipes(s.rcv, a);
    Assoc(one, Received(t.rcv), Sent(s.snd, s.data));
  }

  lemma ElementTaken(w: Watched)
    requires AllAligned(w) && ReaderEnabled(w.s.rcv, UncountElement) && ReaderShape(w.s.rcv)
    ensures AllAligned(Watch(w, Reader(UncountElement)))
  {
    var s, t := w.s, Next(w.s, Reader(UncountElement));
    ReaderPipeline(s, UncountElement);
    assert Pipeline(s)[0] == s.rcv.reader.seg && Pipeline(s)[1..] == Pipeline(t);
    assert ElementEnd(t) == ElementEnd(s) + |s.rcv.reader.seg.bytes|;
  }

  lemma BytesCopied(w: Watched)
    requires AllAligned(w) && ReaderEnabled(w.s.rcv, CopyBytes) && ReaderShape(w.s.rcv)
    ensures AllAligned(Watch(w, Reader(CopyBytes)))
  {
    var s, t := w.s, Next(w.s, Reader(CopyBytes));
    assert Pipeline(t) == Pipeline(s) by {
      ReaderPipeline(s, CopyBytes);
    }
    assert t.snd == s.snd && t.written == s.written && t.rcv.elem == s.rcv.elem && ElementEnd(t) == ElementEnd(s);
    assert ReadAligned(Watch(w, Reader(CopyBytes))) by {
      var from, to := |s.delivered|, |t.delivered|;
      assert ElementEnd(s) - |s.rcv.elem.bytes| <= from < to <= ElementEnd(s);
      assert Unbroken(w.ends, ElementEnd(s) - |s.rcv.elem.bytes|, ElementEnd(s));
    }
  }

  lemma ReaderLeaves(s: State, a: ReadStep)
    requires ReaderEnabled(s.rcv, a) && !a.UncountElement? && !a.CopyBytes?
    ensures SameStream(s, Next(s, Reader(a)))
  {
    ReaderPipeline(s, a);
  }

  /** A Read goes on behind an element only if that was part of a Write. */
  lemma ReadGoesOn(w: Watched, a: ReadStep)
    requires AllAligned(w) && ReaderEnabled(w.s.rcv, a) && ReaderShape(w.s.rcv)
    requires !a.UncountElement? && !a.CopyBytes?
    ensures ReadAligned(Watch(w, Reader(a)))
  {
    var s, p := w.s, w.s.rcv.reader;
    if a.CommitStatus? || a.SendStatusAck? {
      assert ElementEnd(s) == |s.delivered|;
      assert s.rcv.elem.part ==> |s.delivered| !in w.ends;
    }
  }

  lemma ReaderAligns(w: Watched, a: ReadStep)
    requires AllAligned(w) && ReaderEnabled(w.s.rcv, a) && ReaderShape(w.s.rcv)
    ensures AllAligned(Watch(w, Reader(a)))
  {
    if a.UncountElement? {
      ElementTaken(w);
    } else if a.CopyBytes? {
      BytesCopied(w);
    } else {
      var v := Watch(w, Reader(a));
      ReaderLeaves(w.s, a);
      ReadGoesOn(w, a);
      SameStreamAligns(w.(from := v.from, want := v.want), v.s);
    }
  }

  lemma StepAligns(w: Watched, a: Action)
    requires AllAligned(w) && Enabled(w.s, a) && SenderInv(w.s.snd) && ReaderShape(w.s.rcv)
    ensures AllAligned(Watch(w, a))
  {
    match a
    case Writer(x) => WriterAligns(w, x);
    case Acker(x) => AckerAligns(w, x);
    case Deliverer(x) => DelivererAligns(w, x);
    case Reader(x) => ReaderAligns(w, x);
  }

  lemma {:induction false} RunAligns(w: Watched, run: seq<Action>, v: Watched)
    requires Inv(w.s) && AllAligned(w) && Run(w, run, v)
    ensures Inv(v.s) && AllAligned(v)
    decreases |run|
  {
    if run != [] {
      StepAligns(w, run[0]);
      Keeps(w.s, run[0]);
      RunAligns(Watch(w, run[0]), run[1..], v);
    }
  }

  ghost predicate Reachable(w: Watched) {
    exists run :: Run(START, run, w)
  }

  lemma ReachableAligned(w: Watched)
    requires Reachable(w)
    ensures Inv(w.s) && AllAligned(w)
  {
    var run :| Run(START, run, w);
    InitInv();
    RunAligns(START, run, w);
  }

  // ---------- what a Read returns ----------

  /** The first end of a Write behind position `at`. */
  predicate NextEnd(ends: set<nat>, at: nat, e: nat) {
    e in ends && at < e && Unbroken(ends, at, e)
  }

  lemma {:induction false} FirstEnd(ends: set<nat>, at: nat, e: nat) returns (first: nat)
    requires e in ends && at < e
    ensures NextEnd(ends, at, first)
    decreases e
  {
    if Unbroken(ends, at, e) {
      first := e;
    } else {
      var x :| x in ends && at < x < e;
      first := FirstEnd(ends, at, x);
    }
  }

  /** What a finished Read has returned. */
  lemma ReturnedShort(w: Watched, a: Action)
    requires AllAligned(w) && ReaderShape(w.s.rcv) && Returns(w.s, a)
    ensures var n := |Next(w.s, a).delivered|;
            && w.from < n <= |w.s.written| && Unbroken(w.ends, w.from, n)
            && n <= w.from + w.want && (n == w.from + w.want || n in w.ends)
  {
    var s, t := w.s, Next(w.s, a);
    assert a.Reader?;
    assert ElementEnd(s) <= |s.written|;
  }

  /** Over every run, whatever arrives while it waits and however the Writes were cut: a Read that returns bytes has
      returned as many as it asked for or as its Write had left, whichever is less. */
  lemma ReadReturnsRestOfWrite(w: Watched, a: Action)
    requires Reachable(w) && Returns(w.s, a)
    ensures exists e: nat :: NextEnd(w.ends, w.from, e) &&
                             |Next(w.s, a).delivered| == w.from + Min(w.want, e - w.from)
  {
    ReachableAligned(w);
    ReturnedShort(w, a);
    var n := |Next(w.s, a).delivered|;
    var e := FirstEnd(w.ends, w.from, |w.s.written|);
    assert e >= n;
    assert NextEnd(w.ends, w.from, e);
  }
}
