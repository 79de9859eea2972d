/** What the credits of a connection say, over every run of Protocol: the window they carry is one the receiver had, the
    count is the whole of what was unreported, and the sender takes both over. */
module Credits {
  import opened Basics
  import opened Window
  import opened Protocol
  import opened ProtocolTheorems

  // ---------- which windows are told ----------

  /** The sizes of the receiver's window from state `s` on along a run. */
  function Windows(s: State, run: seq<Action>): seq<u31>
    decreases |run|
  {
    [s.rcv.word.size] + if run != [] && Enabled(s, run[0]) then Windows(Next(s, run[0]), run[1..]) else []
  }

  predicate DelivererTold(d: DelivererPc, sizes: seq<u31>) {
    match d
    case DLoaded(_, w) => w.size in sizes
    case DMeasured(_, w, _) => w.size in sizes
    case DPush(_, ack) => ack.Some? ==> ack.value.size in sizes
    case DInsert(_, ack) => ack.Some? ==> ack.value.size in sizes
    case DAck(credit) => credit.size in sizes
    case _ => true
  }

  predicate ReaderTold(r: ReaderPc, sizes: seq<u31>) {
    match r
    case RStatusLoaded(_, w) => w.size in sizes
    case RStatusMeasured(_, w, _) => w.size in sizes
    case RStatusAck(_, credit) => credit.size in sizes
    case _ => true
  }

  predicate AckerTold(k: AckerPc, sizes: seq<u31>) {
    match k
    case AReady(ack, _) => ack.size in sizes
    case ALoaded(ack, _, _) => ack.size in sizes
    case _ => true
  }

  predicate ReceiverTold(r: Receiver, sizes: seq<u31>) {
    r.word.size in sizes && DelivererTold(r.deliverer, sizes) && ReaderTold(r.reader, sizes)
  }

  predicate SenderTold(c: Sender, sizes: seq<u31>) {
    c.word.size in sizes && c.top in sizes && AckerTold(c.acker, sizes)
  }

  predicate AcksTold(acks: seq<Ack>, sizes: seq<u31>) {
    forall i :: 0 <= i < |acks| ==> acks[i].size in sizes
  }

  /** Every window size in a credit, in a thread's hands or at the sender is one of `sizes`. */
  predicate Told(s: State, sizes: seq<u31>) {
    SenderTold(s.snd, sizes) && AcksTold(s.acks, sizes) && ReceiverTold(s.rcv, sizes)
  }

  lemma WriterTells(c: Sender, a: WriteStep, sizes: seq<u31>)
    requires SenderTold(c, sizes) && WriterEnabled(c, a)
    ensures SenderTold(WriterNext(c, a), sizes)
  {
  }

  lemma AckerTells(c: Sender, acks: seq<Ack>, a: AckStep, sizes: seq<u31>)
    requires SenderTold(c, sizes) && AcksTold(acks, sizes) && AckerEnabled(c, acks, a)
    ensures SenderTold(AckerNext(c, acks, a), sizes)
  {
  }

  lemma DelivererTells(r: Receiver, data: seq<Frame>, a: DeliverStep, sizes: seq<u31>)
    requires ReceiverTold(r, sizes) && DelivererEnabled(r, data, a)
    requires DelivererNext(r, data, a).word.size in sizes
    ensures ReceiverTold(DelivererNext(r, data, a), sizes) && AcksTold(DelivererEmits(r, data, a), sizes)
  {
  }

  lemma ReaderTells(r: Receiver, a: ReadStep, sizes: seq<u31>)
    requires ReceiverTold(r, sizes) && ReaderEnabled(r, a)
    ensures ReceiverTold(ReaderNext(r, a), sizes) && AcksTold(ReaderEmits(r, a), sizes)
  {
  }

  lemma StepTells(s: State, a: Action, sizes: seq<u31>)
    requires Told(s, sizes) && Enabled(s, a) && Next(s, a).rcv.word.size in sizes
    ensures Told(Next(s, a), sizes)
  {
    match a
    case Writer(w) => WriterTells(s.snd, w, sizes);
    case Acker(k) => AckerTells(s.snd, s.acks, k, sizes);
    case Deliverer(d) => DelivererTells(s.rcv, s.data, d, sizes);
    case Reader(r) => ReaderTells(s.rcv, r, sizes);
  }

  lemma {:induction false} RunTells(s: State, run: seq<Action>, t: State, sizes: seq<u31>)
    requires Told(s, sizes) && Run(s, run, t)
    requires forall n <- Windows(s, run) :: n in sizes
    ensures Told(t, sizes)
    decreases |run|
  {
    if run != [] {
      var m := Next(s, run[0]);
      assert forall n <- Windows(m, run[1..]) :: n in Windows(s, run);
      assert Windows(m, run[1..])[0] == m.rcv.word.size;
      StepTells(s, run[0], sizes);
      RunTells(m, run[1..], t, sizes);
    }
  }

  /** After `i` actions of the run the receiver's window was `size`. */
  ghost predicate ReceiverHad(run: seq<Action>, size: u31, i: nat, u: State) {
    i <= |run| && Run(INIT, run[..i], u) && u.rcv.word.size == size
  }

  ghost predicate WasAdvertised(run: seq<Action>, size: u31) {
    exists i: nat, u :: ReceiverHad(run, size, i, u)
  }

  /** The sizes that Windows lists are those of the states along the run. */
  lemma {:induction false} WindowsAlong(s: State, run: seq<Action>, t: State, size: u31) returns (i: nat, u: State)
    requires Run(s, run, t) && size in Windows(s, run)
    ensures i <= |run| && Run(s, run[..i], u) && u.rcv.word.size == size
    decreases |run|
  {
    if s.rcv.word.size == size {
      i, u := 0, s;
    } else {
      i, u := WindowsAlong(Next(s, run[0]), run[1..], t, size);
      i := i + 1;
      assert run[..i][0] == run[0] && run[..i][1..] == run[1..][..i - 1];
    }
  }

  lemma ToldMeansAdvertised(run: seq<Action>, t: State, size: u31)
    requires Run(INIT, run, t) && size in Windows(INIT, run)
    ensures WasAdvertised(run, size)
  {
    var i, u := WindowsAlong(INIT, run, t, size);
    assert ReceiverHad(run, size, i, u);
  }

  lemma RunIsTold(run: seq<Action>, t: State)
    requires Run(INIT, run, t)
    ensures Told(t, Windows(INIT, run))
  {
    var sizes := Windows(INIT, run);
    assert sizes[0] == INITIAL_WINDOW;
    RunTells(INIT, run, t, sizes);
  }

  /** Every credit on its way or in a thread's hands carries a window that the receiver had at some point of the run,
      and the sender's window and the largest one it was ever told are such windows too. */
  lemma CreditsCarryAdvertisedWindows(run: seq<Action>, t: State)
    requires Run(INIT, run, t)
    ensures forall a <- t.acks :: WasAdvertised(run, a.size)
    ensures (t.rcv.deliverer.DPush? || t.rcv.deliverer.DInsert?) && t.rcv.deliverer.ack.Some? ==>
              WasAdvertised(run, t.rcv.deliverer.ack.value.size)
    ensures t.rcv.deliverer.DAck? ==> WasAdvertised(run, t.rcv.deliverer.credit.size)
    ensures t.rcv.reader.RStatusAck? ==> WasAdvertised(run, t.rcv.reader.credit.size)
    ensures t.snd.acker.AReady? || t.snd.acker.ALoaded? ==> WasAdvertised(run, t.snd.acker.ack.size)
    ensures WasAdvertised(run, t.snd.word.size)
    ensures t.snd.top < TWO31 && WasAdvertised(run, t.snd.top)
  {
    RunIsTold(run, t);
    forall n <- Windows(INIT, run)
      ensures WasAdvertised(run, n)
    {
      ToldMeansAdvertised(run, t, n);
    }
  }

  // ---------- what a credit says when it is made ----------

  /** The deliverer's swap succeeds: with the wait bit clear and room at the time the queue was measured, nothing stays
      unreported and a credit with the present window and the whole count is on its way; without room the bit is set
      and the count kept; and with the bit set nothing changes. */
  lemma ArrivalCredits(s: State)
    requires Enabled(s, Deliverer(CommitArrival))
    requires s.rcv.deliverer.w.wait || s.rcv.word == s.rcv.deliverer.w
    ensures var d, t := s.rcv.deliverer, Next(s, Deliverer(CommitArrival));
            if d.w.wait then
              t.rcv.word == s.rcv.word && t.rcv.deliverer == DPush(d.seg, None)
            else if d.remain > 0 then
              t.rcv.word == s.rcv.word.(done := 0) &&
              t.rcv.deliverer == DPush(d.seg, Some(Ack(s.rcv.word.size, s.rcv.word.done)))
            else
              t.rcv.word == s.rcv.word.(wait := true) && t.rcv.deliverer == DPush(d.seg, None)
  {
  }

  /** There was room if the queue with the segment was shorter than the window. */
  lemma ArrivalMeasures(s: State)
    requires Enabled(s, Deliverer(MeasureArrival))
    ensures var d, t := s.rcv.deliverer, Next(s, Deliverer(MeasureArrival));
            t.rcv.deliverer.remain > 0 <==> s.rcv.qlen + |d.seg.bytes| < d.w.size
  {
  }

  /** The reader's swap succeeds: a credit with the present window and the whole count, the element included, is on its
      way exactly when half the window was read, or a blocked peer has room again, or the queue was measured empty;
      then nothing stays unreported and the wait bit is clear, and else the count grows by the element. */
  lemma ConsumptionCredits(s: State)
    requires Inv(s) && Enabled(s, Reader(CommitStatus)) && s.rcv.word == s.rcv.reader.w
    ensures var p, w, t := s.rcv.reader, s.rcv.word, Next(s, Reader(CommitStatus));
            var read := w.done + |s.rcv.elem.bytes|;
            if read >= w.size / 2 || (w.wait && p.len < w.size) || p.len == 0 then
              t.rcv.word == Word(w.size, 0, false) && t.rcv.reader == RStatusAck(p.want, Ack(w.size, read))
            else
              t.rcv.word == w.(done := read) && !t.rcv.reader.RStatusAck?
  {
    ConsumedReports(s.rcv.word, s.rcv.reader.len, |s.rcv.elem.bytes|);
  }

  /** In every run a reader that has just reported or decided not to keeps less than half a window unreported. */
  lemma LessThanHalfIsKept(s: State)
    requires Inv(s) && Enabled(s, Reader(CommitStatus)) && s.rcv.word == s.rcv.reader.w
    ensures var w := Next(s, Reader(CommitStatus)).rcv.word; w.done == 0 || w.done < w.size / 2
  {
    ConsumptionCredits(s);
  }

  // ---------- what the sender makes of a credit ----------

  /** The sender's swap succeeds: the window becomes the one the credit carries, what the credit says was read is no
      longer outstanding, and a parked writer is about to be woken exactly if that leaves it room. */
  lemma CreditIsApplied(s: State)
    requires Inv(s) && Enabled(s, Acker(ApplyAck)) && s.snd.word == s.snd.acker.w
    ensures var ack, t := s.snd.acker.ack, Next(s, Acker(ApplyAck));
            && t.snd.word.size == ack.size && t.snd.word.done + ack.read == s.snd.word.done
            && (t.snd.acker.AAllow? <==> s.snd.word.wait && t.snd.word.done < ack.size)
            && (t.snd.word.wait <==> s.snd.word.wait && t.snd.word.done >= ack.size)
  {
    CreditSlides(s.snd.word, s.snd.acker.ack);
  }

  /** The writer cuts the longest segment that the rest of the buffer, the cap and the loaded window allow, and is ready
      to park exactly when that window is used up. */
  lemma LongestSegmentIsCut(s: State)
    requires Inv(s) && Enabled(s, Writer(CutOrPark))
    ensures var w, t := s.snd.writer.w, Next(s, Writer(CutOrPark));
            && (t.snd.writer.WCut? <==> w.done < w.size)
            && (t.snd.writer.WPark? <==> w.done >= w.size && s.snd.word == w)
            && (t.snd.writer.WCut? ==>
                  var n := |t.snd.writer.seg.bytes|;
                  && 1 <= n <= 4085 && w.done + n <= w.size && t.snd.off == s.snd.off + n <= |s.snd.buf|
                  && t.snd.writer.seg.bytes == s.snd.buf[s.snd.off..t.snd.off]
                  && (t.snd.writer.seg.part <==> t.snd.off < |s.snd.buf|)
                  && (n == 4085 || w.done + n == w.size || t.snd.off == |s.snd.buf|))
  {
  }
}
