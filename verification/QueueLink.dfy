/** A connection whose receive queue works by single accesses: WindowQueue in place of the steps in which Protocol
    counts, inserts, removes and uncounts an element and sees the end of the stream. */
module QueueLink {
  import opened Basics
  import opened Window
  import P = Protocol
  import Q = WindowQueue
  import Theorems = ProtocolTheorems

  /** `p` is the connection but for the queue: its length, chain and stop flag are not used, its deliverer stays at
      DPush during a call of Push and its reader at RCopy during a call of Pop. */
  datatype State = State(p: P.State, q: Q.State)

  datatype Step = Outside(x: P.Action) | Inside(a: Q.Step)

  const INIT := State(P.INIT, Q.INIT)

  // ---------- as a state of Protocol ----------

  /** Where Push returns to. */
  function Returned(d: P.DelivererPc): P.DelivererPc {
    if d.DPush? && d.ack.Some? then P.DAck(d.ack.value) else P.DIdle
  }

  function DelivererAt(d: P.DelivererPc, pc: Q.PusherPc): P.DelivererPc {
    match pc
    case PInsert(e, _) => if d.DPush? then P.DInsert(e, d.ack) else d
    case PAllow => Returned(d)
    case _ => d
  }

  function ReaderAt(r: P.ReaderPc, pc: Q.PopperPc): P.ReaderPc {
    if pc.RPopped? && r.RCopy? then P.RPopped(r.want, pc.e) else r
  }

  function AbsReceiver(r: P.Receiver, q: Q.State): P.Receiver {
    r.(qlen := Q.Length(q), chain := q.chain, stopped := q.stopped,
       deliverer := DelivererAt(r.deliverer, q.pusher), reader := ReaderAt(r.reader, q.popper))
  }

  function Abs(s: State): P.State {
    s.p.(rcv := AbsReceiver(s.p.rcv, s.q))
  }

  // ---------- the steps ----------

  predicate QueueStep(x: P.Action) {
    match x
    case Deliverer(d) => d.CountElement? || d.InsertElement?
    case Reader(r) => r.PopElement? || r.UncountElement? || r.SeeEof?
    case _ => false
  }

  /** A thread inside the queue takes no step outside it. Push is called with the delivered segment, Pop when the
      current element is used up; Stop is the delivery of a Close. */
  predicate Enabled(s: State, st: Step) {
    match st
    case Outside(x) =>
      && P.Enabled(Abs(s), x) && !QueueStep(x)
      && (x.Deliverer? ==> s.q.pusher.PIdle?) && (x.Reader? ==> s.q.popper.RIdle?)
    case Inside(a) =>
      && Q.Enabled(s.q, a) && !a.Stop?
      && (a.StartPush? ==> s.p.rcv.deliverer.DPush? && a.e == s.p.rcv.deliverer.seg)
      && (a.StartPop? ==> s.p.rcv.reader.RCopy? && s.p.rcv.off == |s.p.rcv.elem.bytes|)
  }

  /** A step outside the queue leaves the threads inside it where they are. */
  function Kept(r: P.Receiver, s: State): P.Receiver {
    r.(deliverer := if s.q.pusher.PIdle? then r.deliverer else s.p.rcv.deliverer,
       reader := if s.q.popper.RIdle? then r.reader else s.p.rcv.reader)
  }

  predicate TakesClose(s: State, x: P.Action) {
    x == P.Deliverer(P.TakeFrame) && s.p.data != [] && s.p.data[0].Close?
  }

  /** What the call that step `a` belongs to leaves outside the queue. */
  function After(r: P.Receiver, q: Q.State, a: Q.Step): P.Receiver
    requires Q.Enabled(q, a)
  {
    if a.SubtractLength? then r.(elem := q.popper.e, off := 0)
    else if a.SeeStop? then r.(reader := P.REof)
    else if !q.pusher.PIdle? && Q.Next(q, a).pusher.PIdle? then r.(deliverer := Returned(r.deliverer))
    else r
  }

  function Next(s: State, st: Step): State
    requires Enabled(s, st)
  {
    match st
    case Outside(x) =>
      var t := P.Next(Abs(s), x);
      State(t.(rcv := Kept(t.rcv, s)), if TakesClose(s, x) && !s.q.stopped then Q.Next(s.q, Q.Stop) else s.q)
    case Inside(a) => State(s.p.(rcv := After(s.p.rcv, s.q, a)), Q.Next(s.q, a))
  }

  ghost predicate Run(s: State, run: seq<Step>, t: State)
    decreases |run|
  {
    if run == [] then s == t else Enabled(s, run[0]) && Run(Next(s, run[0]), run[1..], t)
  }

  ghost predicate Reachable(t: State) {
    exists run :: Run(INIT, run, t)
  }

  // ---------- every step is a step of Protocol, or none ----------

  /** The step of Protocol that a step is, if any. */
  function Effect(s: State, st: Step): Option<P.Action> {
    match st
    case Outside(x) => Some(x)
    case Inside(AddLength) =>
      if s.q.pusher.PLoaded? && s.q.lengthWait == s.q.pusher.ptrs then Some(P.Deliverer(P.CountElement)) else None
    case Inside(Insert) => Some(P.Deliverer(P.InsertElement))
    case Inside(TryPop) => Some(P.Reader(P.PopElement))
    case Inside(SubtractLength) => Some(P.Reader(P.UncountElement))
    case Inside(SeeStop) => Some(P.Reader(P.SeeEof))
    case _ => None
  }

  predicate Popping(pc: Q.PopperPc) {
    !pc.RIdle? && !pc.REof?
  }

  /** The queue is called as the two threads outside it say. */
  predicate Calls(s: State) {
    var r, q := s.p.rcv, s.q;
    && (!q.pusher.PIdle? ==> r.deliverer.DPush?)
    && (q.pusher.PPush? || q.pusher.PLoaded? || q.pusher.PInsert? ==> q.pusher.e == r.deliverer.seg)
    && !r.deliverer.DInsert? && !r.reader.RPopped?
    && (Popping(q.popper) ==> r.reader.RCopy? && r.off == |r.elem.bytes|)
    && (q.popper.REof? <==> r.reader.REof?)
  }

  ghost predicate Sound(s: State) {
    Q.Inv(s.q) && P.Inv(Abs(s)) && Calls(s)
  }

  ghost predicate Moves(s: State, effect: Option<P.Action>, t: State) {
    match effect
    case None => Abs(t) == Abs(s)
    case Some(x) => P.Enabled(Abs(s), x) && Abs(t) == P.Next(Abs(s), x)
  }

  ghost predicate Simulated(s: State, st: Step)
    requires Enabled(s, st)
  {
    Moves(s, Effect(s, st), Next(s, st))
  }

  lemma SenderSimulates(s: State, x: P.Action)
    requires Calls(s) && Enabled(s, Outside(x)) && (x.Writer? || x.Acker?)
    ensures Simulated(s, Outside(x)) && Calls(Next(s, Outside(x)))
  {
  }

  /** Steps of the delivering goroutine that are none of the queue's. */
  lemma DelivererLeavesQueue(r: P.Receiver, data: seq<P.Frame>, d: P.DeliverStep)
    requires P.DelivererEnabled(r, data, d) && !QueueStep(P.Deliverer(d)) && !d.TakeFrame?
    ensures var t := P.DelivererNext(r, data, d);
            && t == r.(word := t.word, deliverer := t.deliverer)
            && !t.deliverer.DInsert?
  {
  }

  lemma DelivererKept(r: P.Receiver, t: P.Receiver, s: State)
    requires r == AbsReceiver(s.p.rcv, s.q) && s.q.pusher.PIdle? && t == r.(word := t.word, deliverer := t.deliverer)
    requires Calls(s)
    ensures AbsReceiver(Kept(t, s), s.q) == t
    ensures Kept(t, s) == s.p.rcv.(word := t.word, deliverer := t.deliverer, qlen := r.qlen, chain := r.chain,
                                   stopped := r.stopped)
  {
  }

  lemma DelivererSimulates(s: State, d: P.DeliverStep)
    requires Calls(s) && Enabled(s, Outside(P.Deliverer(d))) && !d.TakeFrame?
    ensures Simulated(s, Outside(P.Deliverer(d))) && Calls(Next(s, Outside(P.Deliverer(d))))
  {
    var r := AbsReceiver(s.p.rcv, s.q);
    var t := P.DelivererNext(r, s.p.data, d);
    DelivererLeavesQueue(r, s.p.data, d);
    DelivererKept(r, t, s);
    assert Next(s, Outside(P.Deliverer(d))).p.rcv == Kept(t, s);
  }

  lemma TakingSimulates(s: State)
    requires Calls(s) && Enabled(s, Outside(P.Deliverer(P.TakeFrame))) && !s.q.stopped
    ensures var st := Outside(P.Deliverer(P.TakeFrame)); Simulated(s, st) && Calls(Next(s, st))
  {
  }

  lemma DataMeansOpen(s: State)
    requires Sound(s) && s.p.data != []
    ensures !s.q.stopped
  {
    assert P.ChannelInv(Abs(s));
  }

  lemma ReaderSimulates(s: State, r: P.ReadStep)
    requires Calls(s) && Enabled(s, Outside(P.Reader(r)))
    ensures Simulated(s, Outside(P.Reader(r))) && Calls(Next(s, Outside(P.Reader(r))))
  {
  }

  predicate PusherStep(a: Q.Step) {
    a.StartPush? || a.LoadLength? || a.AddLength? || a.Insert? || a.AllowPop? || a.AllowStopped?
  }

  lemma PushSimulates(s: State, a: Q.Step)
    requires Calls(s) && Enabled(s, Inside(a)) && PusherStep(a) && !a.AddLength?
    ensures Simulated(s, Inside(a)) && Calls(Next(s, Inside(a)))
  {
  }

  lemma LengthAdded(q: Q.State)
    requires Q.Inv(q) && q.pusher.PLoaded? && q.lengthWait == q.pusher.ptrs
    ensures Q.Length(Q.Next(q, Q.AddLength)) == Q.Length(q) + |q.pusher.e.bytes|
  {
    Q.Packed(Q.Length(q) + |q.pusher.e.bytes|, 0);
  }

  lemma AddSimulates(s: State)
    requires Q.Inv(s.q) && Calls(s) && Enabled(s, Inside(Q.AddLength))
    ensures Simulated(s, Inside(Q.AddLength)) && Calls(Next(s, Inside(Q.AddLength)))
  {
    var q, t := s.q, Next(s, Inside(Q.AddLength));
    if q.lengthWait == q.pusher.ptrs {
      LengthAdded(q);
      assert Abs(t).rcv.qlen == Abs(s).rcv.qlen + |q.pusher.e.bytes|;
      assert Abs(t).rcv == P.DelivererNext(Abs(s).rcv, Abs(s).data, P.CountElement);
    }
  }

  lemma PopSimulates(s: State, a: Q.Step)
    requires Calls(s) && Enabled(s, Inside(a)) && !PusherStep(a) && (a.StartPop? || a.LoadForPop? || a.TryPop?)
    ensures Simulated(s, Inside(a)) && Calls(Next(s, Inside(a)))
  {
  }

  lemma WaitSimulates(s: State, a: Q.Step)
    requires Q.Inv(s.q) && Calls(s) && Enabled(s, Inside(a)) && (a.SetWait? || a.SeeStop?)
    ensures Simulated(s, Inside(a)) && Calls(Next(s, Inside(a)))
  {
    Q.Packed(0, 1);
  }

  lemma SubtractSimulates(s: State)
    requires Q.Inv(s.q) && Calls(s) && Enabled(s, Inside(Q.SubtractLength))
    ensures Simulated(s, Inside(Q.SubtractLength)) && Calls(Next(s, Inside(Q.SubtractLength)))
  {
    Q.Subtracted(s.q.lengthWait, |s.q.popper.e.bytes|);
  }

  lemma OutsideKeeps(s: State, x: P.Action)
    requires Sound(s) && Enabled(s, Outside(x))
    ensures var t := Next(s, Outside(x)); Simulated(s, Outside(x)) && Calls(t) && Q.Inv(t.q)
  {
    match x
    case Writer(_) => SenderSimulates(s, x);
    case Acker(_) => SenderSimulates(s, x);
    case Reader(r) => ReaderSimulates(s, r);
    case Deliverer(d) =>
      if d.TakeFrame? {
        DataMeansOpen(s);
        TakingSimulates(s);
        Q.PusherKeeps(s.q, Q.Stop);
      } else {
        DelivererSimulates(s, d);
      }
  }

  lemma InsideKeeps(s: State, a: Q.Step)
    requires Q.Inv(s.q) && Calls(s) && Enabled(s, Inside(a))
    ensures var t := Next(s, Inside(a)); Simulated(s, Inside(a)) && Calls(t) && Q.Inv(t.q)
  {
    if PusherStep(a) {
      Q.PusherKeeps(s.q, a);
      if a.AddLength? {
        AddSimulates(s);
      } else {
        PushSimulates(s, a);
      }
    } else {
      Q.PopperKeeps(s.q, a);
      if a.SubtractLength? {
        SubtractSimulates(s);
      } else if a.SetWait? || a.SeeStop? {
        WaitSimulates(s, a);
      } else {
        PopSimulates(s, a);
      }
    }
  }

  lemma StepRefines(s: State, st: Step)
    requires Sound(s) && Enabled(s, st)
    ensures Simulated(s, st) && Sound(Next(s, st))
  {
    match st {
      case Outside(x) => OutsideKeeps(s, x);
      case Inside(a) => InsideKeeps(s, a);
    }
    if Effect(s, st).Some? {
      P.Keeps(Abs(s), Effect(s, st).value);
    }
  }

  /** What holds in every reachable state. */
  ghost predicate Refines(s: State) {
    Sound(s) && Theorems.Reachable(Abs(s))
  }

  lemma {:induction false} RunSimulates(s: State, run: seq<Step>, t: State)
    requires Refines(s) && Run(s, run, t)
    ensures Refines(t)
    decreases |run|
  {
    if run != [] {
      StepRefines(s, run[0]);
      if Effect(s, run[0]).Some? {
        Theorems.ReachableStep(Abs(s), Effect(s, run[0]).value);
      }
      RunSimulates(Next(s, run[0]), run[1..], t);
    }
  }

  lemma InitIsInit()
    ensures Abs(INIT) == P.INIT && Q.Inv(Q.INIT)
  {
    assert Q.Length(Q.INIT) == 0;
  }

  lemma StartInv(p: P.State)
    requires p == P.INIT
    ensures P.Inv(p)
  {
    P.InitInv();
  }

  lemma StartReached(p: P.State)
    requires p == P.INIT
    ensures Theorems.Reachable(p)
  {
    assert P.Run(p, [], p);
  }

  lemma StartCalls(s: State)
    requires s == INIT
    ensures Calls(s)
  {
  }

  /** So everything proved of Protocol's runs holds with the queue working by single accesses. */
  lemma QueueRefinesProtocol(t: State)
    requires Reachable(t)
    ensures Refines(t)
  {
    var s, run :| s == INIT && Run(s, run, t);
    InitIsInit();
    StartInv(Abs(s));
    StartReached(Abs(s));
    StartCalls(s);
    RunSimulates(s, run, t);
  }

  // ---------- calls of the queue are accepted ----------

  lemma SegmentFits(r: P.Receiver, q: Q.State)
    requires P.DelivererShape(AbsReceiver(r, q)) && r.deliverer.DPush? && q.pusher.PIdle? && Q.Length(q) < TWO31
    ensures Q.Enabled(q, Q.StartPush(r.deliverer.seg))
  {
  }

  lemma QueueIsBounded(s: State)
    requires Refines(s)
    ensures Q.Length(s.q) < TWO31 && P.DelivererShape(AbsReceiver(s.p.rcv, s.q))
  {
    Theorems.WindowBound(Abs(s));
    assert P.ReceiverInv(Abs(s).rcv);
  }

  /** The queue never has to refuse a call: the delivered segment fits its length field. */
  lemma CallsAreAccepted(s: State)
    requires Refines(s)
    ensures s.p.rcv.deliverer.DPush? && s.q.pusher.PIdle? ==>
              Enabled(s, Inside(Q.StartPush(s.p.rcv.deliverer.seg)))
    ensures s.p.rcv.reader.RCopy? && s.p.rcv.off == |s.p.rcv.elem.bytes| && s.q.popper.RIdle? ==>
              Enabled(s, Inside(Q.StartPop))
  {
    QueueIsBounded(s);
    if s.p.rcv.deliverer.DPush? && s.q.pusher.PIdle? {
      SegmentFits(s.p.rcv, s.q);
    }
  }

  // ---------- how long the threads can go on ----------

  /** Steps a thread can take before its next step of Protocol. */
  function PusherRank(q: Q.State): nat {
    match q.pusher
    case PIdle => 8
    case PPush(_) => 7
    case PLoaded(_, w) => if q.lengthWait == w then 6 else 8
    case PInsert(_, _) => 0
    case PAllow => 15
  }

  function PopperRank(q: Q.State): nat {
    match q.popper
    case RIdle => 6
    case RStart => 5
    case RLoaded(w) => if q.lengthWait == w then 4 else 6
    case RTry => 2
    case _ => 0
  }

  function QueueMeasure(s: State): nat
    requires s.p.rcv.off <= |s.p.rcv.elem.bytes|
  {
    32 * Theorems.Measure(Abs(s)) + Rank(s.q)
  }

  function Rank(q: Q.State): (n: nat)
    ensures n < 32
  {
    PusherRank(q) + PopperRank(q)
  }

  lemma InsideFalls(s: State, a: Q.Step)
    requires Q.Inv(s.q) && Enabled(s, Inside(a)) && Effect(s, Inside(a)).None?
    ensures Rank(Next(s, Inside(a)).q) < Rank(s.q)
  {
  }

  predicate ByWriter(st: Step) {
    st.Outside? && st.x.Writer?
  }

  lemma MoveFalls(s: State, effect: Option<P.Action>, t: State)
    requires Sound(s) && Moves(s, effect, t)
    requires if effect.Some? then !effect.value.Writer? else Rank(t.q) < Rank(s.q)
    ensures s.p.rcv.off <= |s.p.rcv.elem.bytes| && t.p.rcv.off <= |t.p.rcv.elem.bytes|
    ensures QueueMeasure(t) < QueueMeasure(s)
  {
    var before, after := Abs(s), Abs(t);
    assert before.rcv.off == s.p.rcv.off && before.rcv.elem == s.p.rcv.elem;
    assert after.rcv.off == t.p.rcv.off && after.rcv.elem == t.p.rcv.elem;
    if effect.Some? {
      Theorems.MeasureFalls(before, effect.value);
    }
  }

  lemma StepFalls(s: State, st: Step)
    requires Sound(s) && Enabled(s, st) && !ByWriter(st)
    ensures var t := Next(s, st);
            && s.p.rcv.off <= |s.p.rcv.elem.bytes| && t.p.rcv.off <= |t.p.rcv.elem.bytes|
            && QueueMeasure(t) < QueueMeasure(s)
  {
    var t, effect := Next(s, st), Effect(s, st);
    assert Moves(s, effect, t) by {
      StepRefines(s, st);
    }
    if effect.None? {
      InsideFalls(s, st.a);
    }
    MoveFalls(s, effect, t);
  }

  ghost predicate Unwritten(run: seq<Step>) {
    forall st <- run :: !ByWriter(st)
  }

  lemma {:induction false} RunsAreBounded(s: State, run: seq<Step>, t: State)
    requires Sound(s) && Run(s, run, t) && Unwritten(run)
    ensures Sound(t) && |run| + QueueMeasure(t) <= QueueMeasure(s)
    decreases |run|
  {
    if run != [] {
      StepRefines(s, run[0]);
      StepFalls(s, run[0]);
      RunsAreBounded(Next(s, run[0]), run[1..], t);
    }
  }

  // ---------- there is always a step to take ----------

  function PusherNext(q: Q.State): Q.Step {
    match q.pusher
    case PLoaded(_, _) => Q.AddLength
    case PInsert(_, _) => Q.Insert
    case PAllow => Q.AllowPop
    case _ => Q.LoadLength
  }

  function PopperNext(q: Q.State): Q.Step {
    match q.popper
    case RIdle => Q.StartPop
    case RStart => Q.LoadForPop
    case RLoaded(_) => Q.SetWait
    case RTry => Q.TryPop
    case RPopped(_) => Q.SubtractLength
    case _ => Q.SeeStop
  }

  /** The step that brings step `x` of Protocol nearer. */
  function Toward(s: State, x: P.Action): Step {
    if x.Writer? || x.Acker? then Outside(x)
    else if !s.q.pusher.PIdle? then Inside(PusherNext(s.q))
    else if x == P.Deliverer(P.CountElement) && s.p.rcv.deliverer.DPush?
         then Inside(Q.StartPush(s.p.rcv.deliverer.seg))
    else if x.Reader? && (Popping(s.q.popper) || QueueStep(x)) then Inside(PopperNext(s.q))
    else Outside(x)
  }

  lemma PusherGoesOn(q: Q.State)
    requires Q.Inv(q) && !q.pusher.PIdle?
    ensures Q.Enabled(q, PusherNext(q))
  {
  }

  lemma PopperGoesOn(q: Q.State)
    requires Q.Inv(q) && q.pusher.PIdle? && !q.popper.REof? && (q.popper.RSleep? ==> q.chain != [] || q.stopped)
    ensures Q.Enabled(q, PopperNext(q))
  {
    if q.popper.RTry? {
      assert Q.Sum(q.chain) > 0;
    } else if q.popper.RSleep? {
      Q.NoLengthNoQueue(q);
    }
  }

  lemma ReaderGoesOn(s: State, r: P.ReadStep)
    requires Q.Inv(s.q) && Calls(s) && s.q.pusher.PIdle? && P.Enabled(Abs(s), P.Reader(r))
    ensures Enabled(s, Toward(s, P.Reader(r)))
  {
    if Popping(s.q.popper) || QueueStep(P.Reader(r)) {
      PopperGoesOn(s.q);
    }
  }

  lemma DelivererGoesOn(s: State, d: P.DeliverStep)
    requires Calls(s) && s.q.pusher.PIdle? && P.Enabled(Abs(s), P.Deliverer(d))
    requires s.p.rcv.deliverer.DPush? ==> Q.Enabled(s.q, Q.StartPush(s.p.rcv.deliverer.seg))
    ensures Enabled(s, Toward(s, P.Deliverer(d)))
  {
  }

  /** The queue holds no step of Protocol up: if one can be taken there is a step on the way to it. */
  lemma QueueRefusesNothing(s: State, x: P.Action)
    requires Refines(s) && P.Enabled(Abs(s), x)
    ensures Enabled(s, Toward(s, x)) && (!x.Writer? ==> !ByWriter(Toward(s, x)))
  {
    QueueIsBounded(s);
    if x.Deliverer? || x.Reader? {
      if !s.q.pusher.PIdle? {
        PusherGoesOn(s.q);
      } else if x.Reader? {
        ReaderGoesOn(s, x.r);
      } else {
        CallsAreAccepted(s);
        DelivererGoesOn(s, x.d);
      }
    }
  }

  // ---------- progress ----------

  /** A step that can be taken now and is not the writer's. */
  function QueuePick(s: State): Step {
    Toward(s, Theorems.Pick(Abs(s)))
  }

  /** What no step but the writer's changes. */
  predicate Stays(s: State, t: State) {
    && t.p.written == s.p.written
    && (s.p.snd.writer.WClosed? ==> t.p.snd.writer.WClosed?)
    && (s.p.snd.writer.WPark? || s.p.snd.writer.WStart? ==> t.p.snd.writer.WPark? || t.p.snd.writer.WStart?)
  }

  lemma StepStays(s: State, st: Step)
    requires Enabled(s, st) && !ByWriter(st)
    ensures Stays(s, Next(s, st))
  {
  }

  lemma {:induction false} RunStays(s: State, run: seq<Step>, t: State)
    requires Run(s, run, t) && Unwritten(run)
    ensures Stays(s, t)
    decreases |run|
  {
    if run != [] {
      StepStays(s, run[0]);
      RunStays(Next(s, run[0]), run[1..], t);
    }
  }

  lemma SomeQueueStepEnabled(s: State)
    requires Refines(s)
    requires s.p.snd.writer.WPark? || (s.p.snd.writer.WClosed? && !s.p.rcv.reader.REof?)
    ensures Enabled(s, QueuePick(s)) && !ByWriter(QueuePick(s))
  {
    Theorems.SomeStepEnabled(Abs(s));
    QueueRefusesNothing(s, Theorems.Pick(Abs(s)));
  }

  lemma BoundedFrom(s: State, run: seq<Step>, t: State)
    requires Reachable(s) && Run(s, run, t) && Unwritten(run)
    ensures s.p.rcv.off <= |s.p.rcv.elem.bytes| && |run| <= QueueMeasure(s)
    ensures Refines(t) && Stays(s, t)
  {
    QueueRefinesProtocol(s);
    RunsAreBounded(s, run, t);
    RunSimulates(s, run, t);
    RunStays(s, run, t);
  }

  /** With the queue working by single accesses, swaps that fail and calls that sleep included: however the threads are
      scheduled after Close, the run is bounded by the state it starts from, as long as the reader is not at the end of
      the stream a step can be taken, and there it has read exactly the bytes written. */
  lemma QueueDeliversAll(s: State, run: seq<Step>, t: State)
    requires Reachable(s) && s.p.snd.writer.WClosed? && Run(s, run, t) && Unwritten(run)
    ensures s.p.rcv.off <= |s.p.rcv.elem.bytes| && |run| <= QueueMeasure(s)
    ensures t.p.rcv.reader.REof? || (Enabled(t, QueuePick(t)) && !ByWriter(QueuePick(t)))
    ensures t.p.delivered <= s.p.written && (t.p.rcv.reader.REof? ==> t.p.delivered == s.p.written)
  {
    BoundedFrom(s, run, t);
    Theorems.ReadsArePrefixOfWrites(Abs(t));
    if t.p.rcv.reader.REof? {
      Theorems.EofMeansEverythingWasRead(Abs(t));
    } else {
      SomeQueueStepEnabled(t);
    }
  }

  /** And a parked writer is released. */
  lemma QueueReleasesWriter(s: State, run: seq<Step>, t: State)
    requires Reachable(s) && s.p.snd.writer.WPark? && Run(s, run, t) && Unwritten(run)
    ensures s.p.rcv.off <= |s.p.rcv.elem.bytes| && |run| <= QueueMeasure(s)
    ensures t.p.snd.writer.WStart? ||
            (t.p.snd.writer.WPark? && Enabled(t, QueuePick(t)) && !ByWriter(QueuePick(t)))
  {
    BoundedFrom(s, run, t);
    if t.p.snd.writer.WPark? {
      SomeQueueStepEnabled(t);
    }
  }
}
