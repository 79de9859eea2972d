/** What the steps of Protocol guarantee over every run: credit conservation, the byte stream, the window
    bound, and progress of a blocked writer and of a closed stream. */
module ProtocolTheorems {
  import opened Basics
  import opened Window
  import opened Protocol

  ghost predicate Reachable(t: State) {
    exists run :: Run(INIT, run, t)
  }

  lemma ReachableInv(t: State)
    requires Reachable(t)
    ensures Inv(t)
  {
    var run :| Run(INIT, run, t);
    InitInv();
    RunKeeps(INIT, run, t);
  }

  // ---------- safety ----------

  /** While the writer has not closed, the bytes it counts as sent and not credited are those in the channel,
      in the receiver, in its unreported read count or in credits on their way. So a credit never exceeds the
      count it is subtracted from, and no 31-bit counter ever takes an overflow branch. */
  lemma CreditConservation(t: State)
    requires Reachable(t)
    ensures !t.snd.writer.WClosed? ==> t.snd.word.done == Credit(t)
    ensures t.snd.acker.ALoaded? ==> !OnAck(t.snd.acker.w, t.snd.acker.ack, t.snd.acker.newWait).Rejected?
    ensures t.snd.writer.WSentLoaded? ==>
              var sent := OnSent(t.snd.writer.w, |t.snd.writer.seg.bytes|);
              sent.Some? && sent.value.done == t.snd.writer.w.done + |t.snd.writer.seg.bytes|
    ensures t.rcv.reader.RStatusMeasured? ==> t.rcv.reader.w.done + |t.rcv.elem.bytes| < TWO31
  {
    ReachableInv(t);
  }

  /** What Read has returned is always a prefix of what was passed to Write; the rest is, in order, in the
      receiver and then still on the sender's side. */
  lemma ReadsArePrefixOfWrites(t: State)
    requires Reachable(t)
    ensures t.rcv.off <= |t.rcv.elem.bytes| && t.snd.off <= |t.snd.buf|
    ensures t.written == t.delivered + Downstream(t.rcv) + Upstream(t.snd, t.data)
    ensures t.delivered <= t.written
  {
    ReachableInv(t);
    assert t.delivered <= t.delivered + Downstream(t.rcv) <= t.written;
  }

  /** A reader that sees the end of the stream has read every byte ever written, and the writer has closed. */
  lemma EofMeansEverythingWasRead(t: State)
    requires Reachable(t) && t.rcv.reader.REof?
    ensures t.snd.writer.WClosed? && t.delivered == t.written
  {
    ReachableInv(t);
    assert Bytes(t.rcv.chain) == [];
    assert t.rcv.elem.bytes[t.rcv.off..] == [] && t.snd.buf[t.snd.off..] == [];
  }

  /** The bytes outstanding, also counting a segment cut before `sent` runs, and the length of the receive
      queue never exceed the largest window the sender was told, even if the window shrinks in between; the
      receiver's unreported count stays below 2^30. */
  lemma WindowBound(t: State)
    requires Reachable(t)
    ensures t.snd.word.done + |Uncounted(t.snd.writer)| <= t.snd.top
    ensures t.rcv.qlen <= t.snd.top
    ensures t.rcv.word.done < READ_LIMIT
  {
    ReachableInv(t);
  }

  /** After `i` actions of the run the sender's window was `size`. */
  ghost predicate HadWindow(run: seq<Action>, size: nat, i: nat, u: State) {
    i <= |run| && Run(INIT, run[..i], u) && u.snd.word.size == size
  }

  /** `top` really is a window the sender had: it was the window size at some point of the run. */
  lemma {:induction false} TopWasAdvertised(run: seq<Action>, t: State)
    requires Run(INIT, run, t)
    ensures exists i: nat, u :: HadWindow(run, t.snd.top, i, u)
    decreases |run|
  {
    if run == [] {
      assert HadWindow(run, t.snd.top, 0, t);
    } else {
      var last := |run| - 1;
      var s := RunSplitsLast(INIT, run, t);
      if t.snd.top == s.snd.top {
        TopWasAdvertised(run[..last], s);
        var i: nat, u :| HadWindow(run[..last], s.snd.top, i, u);
        assert run[..last][..i] == run[..i];
        assert HadWindow(run, t.snd.top, i, u);
      } else {
        assert run[..|run|] == run;
        assert HadWindow(run, t.snd.top, |run|, t);
      }
    }
  }

  lemma {:induction false} RunSplitsLast(s: State, run: seq<Action>, t: State) returns (m: State)
    requires Run(s, run, t) && run != []
    ensures Run(s, run[..|run| - 1], m) && Enabled(m, run[|run| - 1]) && Next(m, run[|run| - 1]) == t
    decreases |run|
  {
    if |run| == 1 {
      m := s;
    } else {
      m := RunSplitsLast(Next(s, run[0]), run[1..], t);
      assert run[1..][..|run| - 2] == run[..|run| - 1][1..];
    }
  }

  /** No wake-up is lost: the wait bit is set only while the writer is parked with no window left, and a parked
      writer has either its wait bit set or a credit goroutine about to signal it. */
  lemma NoLostWakeUp(t: State)
    requires Reachable(t)
    ensures t.snd.word.wait ==> t.snd.writer.WPark? && SendRemaining(t.snd.word) == 0
    ensures t.snd.writer.WPark? <==> t.snd.word.wait || t.snd.acker.AAllow?
    ensures !(t.snd.word.wait && t.snd.acker.AAllow?)
  {
    ReachableInv(t);
  }

  /** A parked writer has something on its way to it. */
  lemma ParkedMeansOutstanding(t: State)
    requires Reachable(t) && t.snd.word.wait
    ensures t.data != [] || t.acks != [] || !t.rcv.deliverer.DIdle? || !t.snd.acker.AIdle? || t.rcv.chain != [] ||
            t.rcv.off < |t.rcv.elem.bytes| || !(t.rcv.reader.RIdle? || t.rcv.reader.RCopy?)
  {
    ReachableInv(t);
  }

  // ---------- progress ----------

  /** A step of the credit goroutine, the delivery goroutine or the reader that can be taken now. The reader
      calls Read again whenever it is idle. */
  function Pick(s: State): Action {
    if s.snd.acker.AReady? then Acker(LoadForAck)
    else if s.snd.acker.ALoaded? then Acker(ApplyAck)
    else if s.snd.acker.AAllow? then Acker(WakeWriter)
    else if s.acks != [] then Acker(TakeAck)
    else if s.rcv.deliverer.DSizing? then Deliverer(KeepSize)
    else if s.rcv.deliverer.DReady? then Deliverer(LoadForArrival)
    else if s.rcv.deliverer.DLoaded? then Deliverer(MeasureArrival)
    else if s.rcv.deliverer.DMeasured? then Deliverer(CommitArrival)
    else if s.rcv.deliverer.DPush? then Deliverer(CountElement)
    else if s.rcv.deliverer.DInsert? then Deliverer(InsertElement)
    else if s.rcv.deliverer.DAck? then Deliverer(SendArrivalAck)
    else if s.data != [] then Deliverer(TakeFrame)
    else match s.rcv.reader
      case RIdle => Reader(CallRead(1))
      case RCopy(_) => Reader(if s.rcv.off < |s.rcv.elem.bytes| then CopyBytes
                              else if s.rcv.chain != [] then PopElement else SeeEof)
      case RPopped(_, _) => Reader(UncountElement)
      case RStatus(_) => Reader(LoadForStatus)
      case RStatusLoaded(_, _) => Reader(MeasureStatus)
      case RStatusMeasured(_, _, _) => Reader(CommitStatus)
      case _ => Reader(SendStatusAck)
  }

  /** A Read called now would return something. */
  predicate Readable(r: Receiver) {
    r.off < |r.elem.bytes| || r.chain != [] || r.stopped
  }

  lemma SomeStepEnabled(s: State)
    requires Inv(s)
    requires s.snd.writer.WPark? || (s.snd.writer.WClosed? && !s.rcv.reader.REof?)
    ensures Enabled(s, Pick(s)) && !Pick(s).Writer?
    ensures Pick(s).Reader? && Pick(s).r.CallRead? ==> Readable(s.rcv)
  {
  }

  function AckerRank(c: Sender): nat {
    match c.acker
    case AIdle => 0
    case AAllow => 1
    case AReady(_, _) => 3
    case ALoaded(_, _, w) => if w == c.word then 2 else 4
  }

  function Weight(seg: Segment): nat {
    80 + 30 * |seg.bytes|
  }

  function AckWeight(a: Option<Ack>): nat {
    if a.Some? then 9 else 0
  }

  /** A loaded word that is no longer current costs one more pass of its loop. */
  function DelivererRank(r: Receiver): nat {
    match r.deliverer
    case DIdle => 0
    case DSizing(seg) => Weight(seg) + 130
    case DReady(seg) => Weight(seg) + 100
    case DLoaded(seg, w) => Weight(seg) + if w == r.word then 90 else 103
    case DMeasured(seg, w, _) => Weight(seg) + if w == r.word then 89 else 102
    case DPush(seg, ack) => Weight(seg) + 40 + AckWeight(ack)
    case DInsert(seg, ack) => Weight(seg) + 30 + AckWeight(ack)
    case DAck(_) => 29
  }

  function ReaderRank(r: Receiver): nat {
    match r.reader
    case RIdle => 2
    case RCopy(_) => 1
    case RPopped(_, seg) => Weight(seg) - 10
    case RStatus(_) => 50
    case RStatusLoaded(_, w) => if w == r.word then 40 else 53
    case RStatusMeasured(_, w, _) => if w == r.word then 39 else 52
    case RStatusAck(_, _) => 12
    case REof => 0
  }

  function QueueRank(r: Receiver): nat {
    80 * |r.chain| + 30 * |Bytes(r.chain)|
  }

  function ElementRank(r: Receiver): nat
    requires r.off <= |r.elem.bytes|
  {
    30 * (|r.elem.bytes| - r.off) + if r.off < |r.elem.bytes| then 60 else 0
  }

  function ReceiverRank(r: Receiver): nat
    requires r.off <= |r.elem.bytes|
  {
    DelivererRank(r) + ReaderRank(r) + QueueRank(r) + ElementRank(r)
  }

  /** What a thread's rank can rise by when another thread changes the window word. */
  function Disturbance(r: Receiver, r': Receiver): nat {
    if r'.word != r.word then 13 else 0
  }

  /** Bounds the number of steps the credit goroutine, the delivery goroutine and the reader can still take. */
  function Measure(s: State): nat
    requires s.rcv.off <= |s.rcv.elem.bytes|
  {
    250 * |s.data| + 30 * |Payload(s.data)| + 8 * |s.acks| + AckerRank(s.snd) + ReceiverRank(s.rcv)
  }

  lemma AckerRankFalls(c: Sender, acks: seq<Ack>, a: AckStep)
    requires AckerEnabled(c, acks, a) && SenderInv(c)
    ensures AckerRank(AckerNext(c, acks, a)) + (if a.TakeAck? then 0 else 8) < AckerRank(c) + 8
  {
  }

  lemma DelivererOwnRankFalls(r: Receiver, data: seq<Frame>, a: DeliverStep)
    requires DelivererEnabled(r, data, a)
    ensures var r' := DelivererNext(r, data, a);
            DelivererRank(r') + QueueRank(r') + 8 * |DelivererEmits(r, data, a)| + Disturbance(r, r') <
            DelivererRank(r) + QueueRank(r) + if a.TakeFrame? then 250 + 30 * |FrameBytes(data[0])| else 0
  {
    match a {
      case InsertElement => BytesConcat(r.chain, [r.deliverer.seg]);
      case _ =>
    }
  }

  lemma DelivererRankFalls(r: Receiver, data: seq<Frame>, a: DeliverStep)
    requires DelivererEnabled(r, data, a) && r.off <= |r.elem.bytes|
    ensures var r' := DelivererNext(r, data, a);
            var gone := if a.TakeFrame? then 250 + 30 * |FrameBytes(data[0])| else 0;
            && r'.off <= |r'.elem.bytes|
            && ReceiverRank(r') + 8 * |DelivererEmits(r, data, a)| < ReceiverRank(r) + gone
  {
    var r' := DelivererNext(r, data, a);
    DelivererOwnRankFalls(r, data, a);
    assert r'.reader == r.reader && r'.elem == r.elem && r'.off == r.off;
    assert ReaderRank(r') <= ReaderRank(r) + Disturbance(r, r');
  }

  lemma ReaderOwnRankFalls(r: Receiver, a: ReadStep)
    requires ReaderEnabled(r, a) && ReaderShape(r)
    ensures var r' := ReaderNext(r, a);
            && r'.off <= |r'.elem.bytes|
            && ReaderRank(r') + QueueRank(r') + ElementRank(r') + 8 * |ReaderEmits(r, a)| + Disturbance(r, r') <
               ReaderRank(r) + QueueRank(r) + ElementRank(r)
  {
    match a {
      case PopElement => assert |Bytes(r.chain)| == |r.chain[0].bytes| + |Bytes(r.chain[1..])|;
      case _ =>
    }
  }

  lemma ReaderRankFalls(r: Receiver, a: ReadStep)
    requires ReaderEnabled(r, a) && ReaderShape(r)
    ensures var r' := ReaderNext(r, a);
            r'.off <= |r'.elem.bytes| && ReceiverRank(r') + 8 * |ReaderEmits(r, a)| < ReceiverRank(r)
  {
    var r' := ReaderNext(r, a);
    ReaderOwnRankFalls(r, a);
    assert r'.deliverer == r.deliverer;
    assert DelivererRank(r') <= DelivererRank(r) + Disturbance(r, r');
  }

  lemma MeasureFalls(s: State, a: Action)
    requires Inv(s) && Enabled(s, a) && !a.Writer?
    ensures Inv(Next(s, a)) && Measure(Next(s, a)) < Measure(s)
  {
    Keeps(s, a);
    match a
    case Acker(k) => AckerRankFalls(s.snd, s.acks, k);
    case Deliverer(d) =>
      DelivererRankFalls(s.rcv, s.data, d);
      if d.TakeFrame? {
        assert |Payload(s.data)| == |FrameBytes(s.data[0])| + |Payload(s.data[1..])|;
      }
    case Reader(r) => ReaderRankFalls(s.rcv, r);
  }

  ghost predicate NoWriter(run: seq<Action>) {
    forall a <- run :: !a.Writer?
  }

  /** Without steps of the writer every run is short, retries of lost compare-and-swaps included. */
  lemma {:induction false} RunsAreBounded(s: State, run: seq<Action>, t: State)
    requires Inv(s) && Run(s, run, t) && NoWriter(run)
    ensures Inv(t) && |run| + Measure(t) <= Measure(s)
    decreases |run|
  {
    if run != [] {
      MeasureFalls(s, run[0]);
      RunsAreBounded(Next(s, run[0]), run[1..], t);
    }
  }

  lemma {:induction false} WrittenStays(s: State, run: seq<Action>, t: State)
    requires Run(s, run, t) && NoWriter(run)
    ensures t.written == s.written
    ensures s.snd.writer.WClosed? ==> t.snd.writer.WClosed?
    ensures s.snd.writer.WPark? || s.snd.writer.WStart? ==> t.snd.writer.WPark? || t.snd.writer.WStart?
    decreases |run|
  {
    if run != [] {
      WrittenStays(Next(s, run[0]), run[1..], t);
    }
  }

  /** Only the writer can move: a run of the other threads that ends here cannot be continued. */
  ghost predicate OthersDone(t: State) {
    forall a :: Enabled(t, a) ==> a.Writer?
  }

  /** Deadlock freedom. From any reachable state, a run in which only the other threads move has at most
      Measure steps, and as long as the writer is parked one of them can still move: so the window reopens. */
  lemma WindowReopens(s: State, run: seq<Action>, t: State)
    requires Reachable(s) && Run(s, run, t) && NoWriter(run)
    ensures s.rcv.off <= |s.rcv.elem.bytes| && |run| <= Measure(s)
    ensures t.snd.writer.WPark? ==> Enabled(t, Pick(t)) && !Pick(t).Writer?
    ensures OthersDone(t) ==> !t.snd.writer.WPark?
  {
    ReachableInv(s);
    RunsAreBounded(s, run, t);
    if t.snd.writer.WPark? {
      SomeStepEnabled(t);
    }
  }

  /** However the other threads are scheduled, they release a parked writer within Measure steps: it is parked and one
      of them can move, or it is about to try again. */
  lemma ParkedWriterIsReleased(s: State, run: seq<Action>, t: State)
    requires Reachable(s) && s.snd.writer.WPark? && Run(s, run, t) && NoWriter(run)
    ensures s.rcv.off <= |s.rcv.elem.bytes| && |run| <= Measure(s)
    ensures t.snd.writer.WStart? || (t.snd.writer.WPark? && Enabled(t, Pick(t)) && !Pick(t).Writer?)
    ensures OthersDone(t) ==> t.snd.writer.WStart?
  {
    WindowReopens(s, run, t);
    WrittenStays(s, run, t);
  }

  /** However they are scheduled, after Close the other threads bring the reader to the end of the stream within
      Measure steps: it is there, or one of them can move. */
  lemma CloseReachesEof(s: State, run: seq<Action>, t: State)
    requires Reachable(s) && s.snd.writer.WClosed? && Run(s, run, t) && NoWriter(run)
    ensures s.rcv.off <= |s.rcv.elem.bytes| && |run| <= Measure(s)
    ensures t.rcv.reader.REof? || (Enabled(t, Pick(t)) && !Pick(t).Writer?)
    ensures OthersDone(t) ==> t.rcv.reader.REof?
  {
    ReachableInv(s);
    RunsAreBounded(s, run, t);
    WrittenStays(s, run, t);
    if !t.rcv.reader.REof? {
      SomeStepEnabled(t);
    }
  }

  /** End to end: however the other threads are scheduled after Close, within Measure steps the reader is at the end of
      the stream and has read exactly the bytes written. */
  lemma WriteThenCloseDeliversAll(s: State, run: seq<Action>, t: State)
    requires Reachable(s) && s.snd.writer.WClosed? && Run(s, run, t) && NoWriter(run)
    ensures s.rcv.off <= |s.rcv.elem.bytes| && |run| <= Measure(s)
    ensures t.delivered <= s.written
    ensures OthersDone(t) ==> t.rcv.reader.REof?
    ensures t.rcv.reader.REof? ==> t.delivered == s.written
    ensures !t.rcv.reader.REof? ==> Enabled(t, Pick(t)) && !Pick(t).Writer?
  {
    CloseReachesEof(s, run, t);
    WrittenStays(s, run, t);
    var before :| Run(INIT, before, s);
    RunsCompose(INIT, before, s, run, t);
    ReadsArePrefixOfWrites(t);
    if t.rcv.reader.REof? {
      EofMeansEverythingWasRead(t);
    }
  }

  /** And there is such a run to the end. */
  lemma DrainingRun(s: State) returns (run: seq<Action>, t: State)
    requires Inv(s) && s.snd.writer.WClosed?
    ensures Run(s, run, t) && NoWriter(run) && t.rcv.reader.REof?
    decreases Measure(s)
  {
    if s.rcv.reader.REof? {
      run, t := [], s;
    } else {
      SomeStepEnabled(s);
      var a := Pick(s);
      MeasureFalls(s, a);
      var rest;
      rest, t := DrainingRun(Next(s, a));
      run := [a] + rest;
      assert run[1..] == rest;
    }
  }

  lemma ReachableStep(s: State, a: Action)
    requires Reachable(s) && Enabled(s, a)
    ensures Reachable(Next(s, a))
  {
    var before, t :| t == Next(s, a) && Run(INIT, before, s);
    assert Run(t, [], t);
    assert Run(s, [a], t);
    RunsCompose(INIT, before, s, [a], t);
  }

  lemma {:induction false} RunsCompose(s: State, run1: seq<Action>, m: State, run2: seq<Action>, t: State)
    requires Run(s, run1, m) && Run(m, run2, t)
    ensures Run(s, run1 + run2, t)
    decreases |run1|
  {
    if run1 == [] {
      assert run1 + run2 == run2;
    } else {
      RunsCompose(Next(s, run1[0]), run1[1..], m, run2, t);
      assert (run1 + run2)[1..] == run1[1..] + run2;
    }
  }
}
