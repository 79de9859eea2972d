/** receiveWindowQueue: a FIFO with a length field and a wait bit in one 64-bit word, pushed to and stopped by the
    goroutine reading the tunnel and popped by one reader. The chain itself is an atomic FIFO here, which Chain
    refines; everything else is one atomic access or channel operation a step. */
module WindowQueue {
  import opened Basics
  import opened Ring
  import P = Protocol

  /** A piece of a Write, as Protocol queues it; its size is a 16-bit number that is not zero. */
  type Element = P.Segment

  predicate Sized(e: Element) {
    1 <= |e.bytes| < TWO16
  }

  /** Push and allowPop; `wake` is the wait bit that Push took away. */
  datatype PusherPc =
    PIdle | PPush(e: Element) | PLoaded(e: Element, ptrs: u64) | PInsert(e: Element, wake: bool) | PAllow

  /** Pop, waitPush and TryPop. */
  datatype PopperPc = RIdle | RStart | RLoaded(ptrs: u64) | RSleep | RTry | RPopped(e: Element) | REof

  /** `tokens` is what is buffered in stopOp. `pushed` and `popped` are history. */
  datatype State = State(lengthWait: u64, chain: seq<Element>, tokens: nat, stopped: bool,
                         pusher: PusherPc, popper: PopperPc, pushed: seq<Element>, popped: seq<Element>)

  datatype Step =
    | StartPush(e: Element) | LoadLength | AddLength | Insert | AllowPop | AllowStopped | Stop
    | StartPop | LoadForPop | SetWait | SeeStop | TryPop | SubtractLength

  const INIT := State(0, [], 0, false, PIdle, RIdle, [], [])

  function Length(s: State): u32 {
    Head(s.lengthWait)
  }

  function Wait(s: State): u32 {
    Tail(s.lengthWait)
  }

  predicate Enabled(s: State, a: Step) {
    match a
    case StartPush(e) =>   // the window keeps the queue far below 2^32 bytes
      s.pusher.PIdle? && !s.stopped && Sized(e) && Length(s) + |e.bytes| < TWO32
    case LoadLength => s.pusher.PPush?
    case AddLength => s.pusher.PLoaded?
    case Insert => s.pusher.PInsert?
    case AllowPop => s.pusher.PAllow? && s.popper.RSleep?
    case AllowStopped => s.pusher.PAllow? && s.tokens > 0
    case Stop => s.pusher.PIdle? && !s.stopped
    case StartPop => s.popper.RIdle?
    case LoadForPop => s.popper.RStart?
    case SetWait => s.popper.RLoaded?
    case SeeStop => s.popper.RSleep? && s.tokens > 0
    case TryPop => s.popper.RTry? && s.chain != []
    case SubtractLength => s.popper.RPopped?
  }

  function Next(s: State, a: Step): State
    requires Enabled(s, a)
  {
    match a
    case StartPush(e) => s.(pusher := PPush(e))
    case LoadLength => s.(pusher := PLoaded(s.pusher.e, s.lengthWait))
    case AddLength =>
      var ptrs := s.pusher.ptrs;
      if s.lengthWait == ptrs then
        s.(lengthWait := PackIndices((Head(ptrs) + |s.pusher.e.bytes|) % TWO32, 0),
           pusher := PInsert(s.pusher.e, Tail(ptrs) == 1))
      else
        s.(pusher := PPush(s.pusher.e))
    case Insert =>
      s.(chain := s.chain + [s.pusher.e], pushed := s.pushed + [s.pusher.e],
         pusher := if s.pusher.wake then PAllow else PIdle)
    case AllowPop => s.(pusher := PIdle, popper := RStart)
    case AllowStopped => s.(pusher := PIdle, tokens := s.tokens - 1)
    case Stop => s.(stopped := true, tokens := 2)
    case StartPop => s.(popper := RStart)
    case LoadForPop => s.(popper := if Length(s) == 0 then RLoaded(s.lengthWait) else RTry)
    case SetWait =>
      if s.lengthWait == s.popper.ptrs then s.(lengthWait := PackIndices(0, 1), popper := RSleep)
      else s.(popper := RStart)
    case SeeStop => s.(tokens := s.tokens - 1, popper := REof)
    case TryPop => s.(chain := s.chain[1..], popped := s.popped + [s.chain[0]], popper := RPopped(s.chain[0]))
    case SubtractLength =>   // a 64-bit addition of the negated size
      s.(lengthWait := (s.lengthWait + (TWO64 - |s.popper.e.bytes| * TWO32)) % TWO64, popper := RIdle)
  }

  ghost predicate Run(s: State, run: seq<Step>, t: State)
    decreases |run|
  {
    if run == [] then s == t else Enabled(s, run[0]) && Run(Next(s, run[0]), run[1..], t)
  }

  function Sum(es: seq<Element>): nat {
    if es == [] then 0 else |es[0].bytes| + Sum(es[1..])
  }

  lemma {:induction false} SumAppend(es: seq<Element>, e: Element)
    ensures Sum(es + [e]) == Sum(es) + |e.bytes|
  {
    if es != [] {
      assert (es + [e])[1..] == es[1..] + [e];
      SumAppend(es[1..], e);
    }
  }

  /** Elements counted in the length but not in the chain: one being pushed, one just popped. */
  function Uncharted(s: State): nat {
    (if s.pusher.PInsert? then |s.pusher.e.bytes| else 0) + (if s.popper.RPopped? then |s.popper.e.bytes| else 0)
  }

  predicate Inv(s: State) {
    && Length(s) == Sum(s.chain) + Uncharted(s)
    && Wait(s) <= 1
    && (forall e <- s.chain :: Sized(e))
    && (s.pusher.PPush? || s.pusher.PLoaded? ==> Sized(s.pusher.e) && Length(s) + |s.pusher.e.bytes| < TWO32)
    && (s.pusher.PInsert? ==> Sized(s.pusher.e) && (s.pusher.wake ==> s.popper.RSleep? && Wait(s) == 0))
    && (s.pusher.PAllow? ==> s.popper.RSleep? && Wait(s) == 0 && Length(s) > 0)
    && (Wait(s) == 1 ==> Length(s) == 0 && (s.popper.RSleep? || s.popper.REof?))
    && (s.popper.RSleep? ==> Wait(s) == 1 || s.pusher.PAllow? || (s.pusher.PInsert? && s.pusher.wake))
    && (s.popper.RLoaded? ==> s.popper.ptrs == 0)
    && (s.popper.RTry? ==> Length(s) > 0)
    && (s.popper.RPopped? ==> Sized(s.popper.e))
    && (s.popper.REof? ==> s.stopped && Length(s) == 0 && s.tokens == 1)
    && (s.tokens > 0 ==> s.stopped)
    && (s.stopped ==> s.pusher.PIdle?)
    && (s.stopped && !s.popper.REof? ==> s.tokens == 2)
    && s.pushed == s.popped + s.chain
  }

  lemma AddLengthKeeps(s: State)
    requires Inv(s) && Enabled(s, AddLength)
    ensures Inv(Next(s, AddLength))
  {
    Packed(Length(s) + |s.pusher.e.bytes|, 0);
  }

  lemma PusherKeeps(s: State, a: Step)
    requires Inv(s) && Enabled(s, a)
    requires a.StartPush? || a.LoadLength? || a.AddLength? || a.Insert? || a.AllowPop? || a.AllowStopped? || a.Stop?
    ensures Inv(Next(s, a))
  {
    if a.Insert? {
      SumAppend(s.chain, s.pusher.e);
      assert s.popped + s.chain + [s.pusher.e] == s.popped + (s.chain + [s.pusher.e]);
    } else if a.AddLength? {
      AddLengthKeeps(s);
    }
  }

  lemma Packed(length: u32, wait: u32)
    ensures Head(PackIndices(length, wait)) == length && Tail(PackIndices(length, wait)) == wait
  {
  }

  lemma Subtracted(word: u64, size: u16)
    requires size <= Head(word)
    ensures var w := (word + (TWO64 - size * TWO32)) % TWO64;
            Head(w) == Head(word) - size && Tail(w) == Tail(word)
  {
    var w := (word + (TWO64 - size * TWO32)) % TWO64;
    assert w == word - size * TWO32 == (Head(word) - size) * TWO32 + Tail(word);
    Packed(Head(word) - size, Tail(word));
  }

  lemma PopperKeeps(s: State, a: Step)
    requires Inv(s) && Enabled(s, a)
    requires a.StartPop? || a.LoadForPop? || a.SetWait? || a.SeeStop? || a.TryPop? || a.SubtractLength?
    ensures Inv(Next(s, a))
  {
    if a.SetWait? {
      SetWaitKeeps(s);
    } else if a.TryPop? {
      assert s.chain == [s.chain[0]] + s.chain[1..];
      assert s.popped + s.chain == s.popped + [s.chain[0]] + s.chain[1..];
    } else if a.SubtractLength? {
      SubtractKeeps(s);
    } else if a.LoadForPop? {
      assert s.lengthWait == PackIndices(Length(s), Wait(s));
    }
  }

  lemma SetWaitKeeps(s: State)
    requires Inv(s) && Enabled(s, SetWait)
    ensures Inv(Next(s, SetWait))
  {
    Packed(0, 1);
  }

  lemma SubtractKeeps(s: State)
    requires Inv(s) && Enabled(s, SubtractLength)
    ensures Inv(Next(s, SubtractLength))
  {
    Subtracted(s.lengthWait, |s.popper.e.bytes|);
  }

  lemma {:induction false} RunKeeps(s: State, run: seq<Step>, t: State)
    requires Inv(s) && Run(s, run, t)
    ensures Inv(t)
    decreases |run|
  {
    if run != [] {
      var a := run[0];
      if a.StartPop? || a.LoadForPop? || a.SetWait? || a.SeeStop? || a.TryPop? || a.SubtractLength? {
        PopperKeeps(s, a);
      } else {
        PusherKeeps(s, a);
      }
      RunKeeps(Next(s, a), run[1..], t);
    }
  }

  ghost predicate Reachable(t: State) {
    exists run :: Run(INIT, run, t)
  }

  lemma ReachableInv(t: State)
    requires Reachable(t)
    ensures Inv(t)
  {
    var run :| Run(INIT, run, t);
    RunKeeps(INIT, run, t);
  }

  /** The length is never below the sum of the queued sizes and never underflows, although Push adds before it
      inserts and TryPop subtracts after it removes. */
  lemma LengthCoversQueue(t: State)
    requires Reachable(t)
    ensures Sum(t.chain) <= Length(t)
    ensures t.popper.RPopped? ==> |t.popper.e.bytes| <= Length(t) &&
                                  Length(Next(t, SubtractLength)) == Length(t) - |t.popper.e.bytes|
    ensures t.pusher.PIdle? && t.popper.RIdle? ==> Length(t) == Sum(t.chain)
  {
    ReachableInv(t);
    if t.popper.RPopped? {
      Subtracted(t.lengthWait, |t.popper.e.bytes|);
    }
  }

  lemma NoLengthNoQueue(s: State)
    requires Inv(s) && Length(s) == 0
    ensures s.chain == []
  {
    assert s.chain != [] ==> Sized(s.chain[0]);
  }

  /** No wake-up is lost: while the reader sleeps, either the queue is empty and the wait bit is set, or the
      pusher has taken the bit and is on its way to signal. */
  lemma SleeperIsRemembered(t: State)
    requires Reachable(t) && t.popper.RSleep?
    ensures (Length(t) == 0 && Wait(t) == 1 && t.chain == []) || t.pusher.PAllow? ||
            (t.pusher.PInsert? && t.pusher.wake)
  {
    ReachableInv(t);
    if Wait(t) == 1 {
      NoLengthNoQueue(t);
    }
  }

  /** The end of the stream is reported only after Stop and with everything pushed also popped, and leaves one of the
      two tokens of Stop. */
  lemma EofComesLast(t: State)
    requires Reachable(t) && t.popper.REof?
    ensures t.stopped && t.chain == [] && t.popped == t.pushed && t.pusher.PIdle?
    ensures t.tokens == 1
  {
    ReachableInv(t);
    NoLengthNoQueue(t);
    assert t.popped + [] == t.popped;
  }

  /** A stop token meant for the reader is never eaten by a pusher. */
  lemma StopReachesReader(t: State)
    requires Reachable(t)
    ensures !Enabled(t, AllowStopped)
    ensures t.stopped && t.popper.RSleep? ==> t.tokens == 2 && Enabled(t, SeeStop)
  {
    ReachableInv(t);
  }

  /** The step by which a call of Pop gets on, its own or the pusher's. */
  function Pick(s: State): Step {
    match s.popper
    case RStart => LoadForPop
    case RLoaded(_) => SetWait
    case RPopped(_) => SubtractLength
    case RTry => if s.chain != [] then TryPop else Insert
    case _ =>
      match s.pusher
      case PPush(_) => LoadLength
      case PLoaded(_, _) => AddLength
      case PInsert(_, _) => Insert
      case PAllow => AllowPop
      case PIdle => SeeStop
  }

  /** How many more steps of Pick a call of Pop takes, with no other push started meanwhile. */
  function Remaining(s: State): nat {
    match s.popper
    case RStart => if Length(s) > 0 then 4 else 20
    case RLoaded(w) => if s.lengthWait == w then 19 else 21
    case RTry => if s.chain != [] then 2 else 3
    case RPopped(_) => 1
    case RSleep =>
      (match s.pusher
       case PPush(_) => 17
       case PLoaded(_, w) => if s.lengthWait == w then 16 else 18
       case PInsert(_, _) => 15
       case PAllow => 14
       case PIdle => 13)
    case _ => 0
  }

  /** Pop returns an element or the end of the stream: as long as something was pushed, is being pushed, or the
      queue was stopped, there is a step that gets it closer, and only finitely many of them. */
  lemma PopGetsOn(t: State)
    requires Reachable(t) && !t.popper.RIdle? && !t.popper.REof?
    requires t.popper.RSleep? && t.pusher.PIdle? ==> t.stopped
    ensures Enabled(t, Pick(t)) && Remaining(Next(t, Pick(t))) < Remaining(t)
  {
    ReachableInv(t);
  }
}
