/** priorityQueue: three FIFO classes and a wrapping 8-bit starvation counter that keeps the lowest class from
    waiting for ever behind the middle one. */
module Scheduler {
  import opened Basics
  import opened Packager

  datatype Class = High | Middle | Low

  function ClassOf(flag: byte): Class {
    if flag == PING_FLAG || flag == PING_RETURN then High
    else if flag == NEW_CONN || flag == NEW_CONN_OK || flag == NEW_CONN_FAIL then Middle
    else Low
  }

  const MAX_STARVING: byte := 8

  /** The three chains, oldest first, and the counter. */
  datatype Queues = Queues(high: seq<Packet>, middle: seq<Packet>, low: seq<Packet>, starving: byte)

  function ChainOf(q: Queues, c: Class): seq<Packet> {
    match c
    case High => q.high
    case Middle => q.middle
    case Low => q.low
  }

  function Pushed(q: Queues, p: Packet): Queues {
    match ClassOf(p.flag)
    case High => q.(high := q.high + [p])
    case Middle => q.(middle := q.middle + [p])
    case Low => q.(low := q.low + [p])
  }

  function PopMiddle(q: Queues): (Option<Packet>, Queues)
    requires q.middle != []
  {
    (Some(q.middle[0]), q.(middle := q.middle[1..], starving := (q.starving + 1) % 256))
  }

  function Popped(q: Queues): (Option<Packet>, Queues) {
    if q.high != [] then (Some(q.high[0]), q.(high := q.high[1..]))
    else if q.starving < MAX_STARVING && q.middle != [] then PopMiddle(q)
    else if q.low != [] then (Some(q.low[0]), q.(low := q.low[1..], starving := q.starving / 2))
    else if q.starving > 0 && q.middle != [] then PopMiddle(q)
    else (None, q)
  }

  class PriorityQueue {
    var highestChain: seq<Packet>
    var middleChain: seq<Packet>
    var lowestChain: seq<Packet>
    var starving: byte

    ghost function State(): Queues
      reads this
    {
      Queues(highestChain, middleChain, lowestChain, starving)
    }

    constructor ()
      ensures State() == Queues([], [], [], 0)
    {
      highestChain, middleChain, lowestChain, starving := [], [], [], 0;
    }

    method Push(p: Packet)
      modifies this
      ensures State() == Pushed(old(State()), p)
      ensures ChainOf(State(), ClassOf(p.flag)) == ChainOf(old(State()), ClassOf(p.flag)) + [p]
      ensures forall c: Class | c != ClassOf(p.flag) :: ChainOf(State(), c) == ChainOf(old(State()), c)
      ensures starving == old(starving)
      ensures if p.flag in {0, 8} then highestChain == old(highestChain) + [p]
              else if p.flag in {1, 2, 6} then middleChain == old(middleChain) + [p]
              else lowestChain == old(lowestChain) + [p]
    {
      if p.flag == PING_FLAG || p.flag == PING_RETURN {
        highestChain := highestChain + [p];
      } else if p.flag == NEW_CONN || p.flag == NEW_CONN_OK || p.flag == NEW_CONN_FAIL {
        middleChain := middleChain + [p];
      } else {
        lowestChain := lowestChain + [p];
      }
    }

    method TryPop() returns (p: Option<Packet>)
      modifies this
      ensures (p, State()) == Popped(old(State()))
    {
      p := None;
      if highestChain != [] {
        p, highestChain := Some(highestChain[0]), highestChain[1..];
        return;
      }
      if starving < MAX_STARVING {
        if middleChain != [] {
          p, middleChain := Some(middleChain[0]), middleChain[1..];
          starving := (starving + 1) % 256;
          return;
        }
      }
      if lowestChain != [] {
        p, lowestChain := Some(lowestChain[0]), lowestChain[1..];
        if starving > 0 {
          starving := starving / 2;
        }
        return;
      }
      if starving > 0 {
        if middleChain != [] {
          p, middleChain := Some(middleChain[0]), middleChain[1..];
          starving := (starving + 1) % 256;
          return;
        }
      }
    }
  }

  // ---------- runs ----------

  datatype Op = Push(p: Packet) | TryPop

  /** The state after `ops`, and what each TryPop that found something returned. */
  function Run(q: Queues, ops: seq<Op>): (seq<Packet>, Queues)
    decreases |ops|
  {
    if ops == [] then ([], q)
    else match ops[0]
      case Push(p) => Run(Pushed(q, p), ops[1..])
      case TryPop =>
        var (p, q1) := Popped(q);
        var (out, q2) := Run(q1, ops[1..]);
        (if p.Some? then [p.value] + out else out, q2)
  }

  function Inputs(ops: seq<Op>): seq<Packet> {
    if ops == [] then []
    else if ops[0].Push? then [ops[0].p] + Inputs(ops[1..]) else Inputs(ops[1..])
  }

  function OfClass(ps: seq<Packet>, c: Class): seq<Packet> {
    if ps == [] then []
    else if ClassOf(ps[0].flag) == c then [ps[0]] + OfClass(ps[1..], c) else OfClass(ps[1..], c)
  }

  /** The chains hold only packets of their class. */
  predicate Sorted(q: Queues) {
    && (forall p <- q.high :: ClassOf(p.flag) == High)
    && (forall p <- q.middle :: ClassOf(p.flag) == Middle)
    && (forall p <- q.low :: ClassOf(p.flag) == Low)
  }

  /** One TryPop takes the head of one chain, or finds all three empty. */
  lemma PoppedTakesAHead(q: Queues)
    requires Sorted(q)
    ensures var (p, q1) := Popped(q);
            && Sorted(q1)
            && (p.None? <==> q.high == [] && q.middle == [] && q.low == [])
            && (p.None? ==> q1 == q)
            && (p.Some? ==> forall c: Class ::
                  ChainOf(q, c) == (if ClassOf(p.value.flag) == c then [p.value] else []) + ChainOf(q1, c))
  {
  }

  lemma OfClassFirst(p: Packet, ps: seq<Packet>, c: Class)
    ensures OfClass([p] + ps, c) == (if ClassOf(p.flag) == c then [p] else []) + OfClass(ps, c)
  {
    assert ([p] + ps)[1..] == ps;
  }

  lemma Assoc(a: seq<Packet>, b: seq<Packet>, c: seq<Packet>)
    ensures a + b + c == a + (b + c)
  {
  }

  lemma PushedAppends(q: Queues, p: Packet, c: Class)
    requires Sorted(q)
    ensures Sorted(Pushed(q, p))
    ensures ChainOf(Pushed(q, p), c) == ChainOf(q, c) + if ClassOf(p.flag) == c then [p] else []
  {
  }

  /** FIFO per class over any run: what comes out of a class, followed by what is still queued, is what was
      queued before followed by what went in. */
  lemma {:induction false} FifoPerClass(q: Queues, ops: seq<Op>, c: Class)
    requires Sorted(q)
    ensures var (out, q') := Run(q, ops);
            Sorted(q') && OfClass(out, c) + ChainOf(q', c) == ChainOf(q, c) + OfClass(Inputs(ops), c)
    decreases |ops|
  {
    if ops == [] {
      assert [] + ChainOf(q, c) == ChainOf(q, c) + [];
    } else {
      var rest := ops[1..];
      match ops[0]
      case Push(p) =>
        PushedAppends(q, p, c);
        FifoPerClass(Pushed(q, p), rest, c);
        OfClassFirst(p, Inputs(rest), c);
        Assoc(ChainOf(q, c), if ClassOf(p.flag) == c then [p] else [], OfClass(Inputs(rest), c));
      case TryPop =>
        PoppedTakesAHead(q);
        var (p, q1) := Popped(q);
        FifoPerClass(q1, rest, c);
        if p.Some? {
          var (out, q') := Run(q1, rest);
          var head := if ClassOf(p.value.flag) == c then [p.value] else [];
          OfClassFirst(p.value, out, c);
          Assoc(head, OfClass(out, c), ChainOf(q', c));
          Assoc(head, ChainOf(q1, c), OfClass(Inputs(rest), c));
        }
    }
  }

  function CountOf(ps: seq<Packet>, c: Class): nat {
    |OfClass(ps, c)|
  }

  /** At each state of the run the chain of class `c` is not empty. */
  ghost predicate AlwaysWaiting(q: Queues, ops: seq<Op>, c: Class)
    decreases |ops|
  {
    && ChainOf(q, c) != []
    && (ops != [] ==> AlwaysWaiting(if ops[0].Push? then Pushed(q, ops[0].p) else Popped(q).1, ops[1..], c))
  }

  /** Pings strictly first: over any run in which there is always a ping waiting, nothing but pings is popped, one for
      every TryPop, and the counter does not move. */
  lemma {:induction false} PingsComeFirst(q: Queues, ops: seq<Op>)
    requires Sorted(q) && AlwaysWaiting(q, ops, High)
    ensures var (out, q') := Run(q, ops);
            OfClass(out, High) == out && |out| + |Inputs(ops)| == |ops| && q'.starving == q.starving
    decreases |ops|
  {
    if ops != [] {
      match ops[0]
      case Push(p) => PingsComeFirst(Pushed(q, p), ops[1..]);
      case TryPop =>
        PoppedTakesAHead(q);
        var (p, q1) := Popped(q);
        var (out, _) := Run(q1, ops[1..]);
        assert ([p.value] + out)[1..] == out;
        PingsComeFirst(q1, ops[1..]);
    }
  }

  function Short(starving: byte): nat {
    if starving < MAX_STARVING then MAX_STARVING - starving else 0
  }

  /** A pop while a low packet waits. */
  lemma PopBesideLow(q: Queues)
    requires Sorted(q) && q.low != []
    ensures var (p, q1) := Popped(q);
            && Sorted(q1) && p.Some?
            && (ClassOf(p.value.flag) == High ==> q1.starving == q.starving)
            && (ClassOf(p.value.flag) == Middle ==> Short(q1.starving) + 1 == Short(q.starving))
  {
    PoppedTakesAHead(q);
  }

  /** Pings aside, while a low packet waits and none is popped, at most 8 middle packets are popped, from any
      value of the counter, the ones near its wrap at 255 included. */
  lemma {:induction false} MiddleRunIsShort(q: Queues, ops: seq<Op>)
    requires Sorted(q) && AlwaysWaiting(q, ops, Low) && CountOf(Run(q, ops).0, Low) == 0
    ensures CountOf(Run(q, ops).0, Middle) <= if q.starving < MAX_STARVING then MAX_STARVING - q.starving else 0
    decreases |ops|
  {
    if ops != [] {
      match ops[0]
      case Push(p) => MiddleRunIsShort(Pushed(q, p), ops[1..]);
      case TryPop =>
        PopBesideLow(q);
        var (p, q1) := Popped(q);
        var (out, _) := Run(q1, ops[1..]);
        OfClassFirst(p.value, out, Middle);
        OfClassFirst(p.value, out, Low);
        MiddleRunIsShort(q1, ops[1..]);
        assert CountOf(out, Middle) <= Short(q1.starving);
    }
  }

  /** How often the counter is halved before it falls below the limit. */
  function Halvings(starving: byte): nat {
    if starving < MAX_STARVING then 0 else 1 + Halvings(starving / 2)
  }

  lemma HalvingsBound(starving: byte)
    ensures Halvings(starving) <= 5
  {
    assert Halvings(starving / 2 / 2 / 2 / 2 / 2) == 0;
    assert Halvings(starving / 2 / 2 / 2 / 2) <= 1;
    assert Halvings(starving / 2 / 2 / 2) <= 2;
    assert Halvings(starving / 2 / 2) <= 3;
    assert Halvings(starving / 2) <= 4;
  }

  /** Pings aside, while a middle packet waits and none is popped, at most 5 low packets are popped, from any
      value of the counter. */
  lemma {:induction false} LowRunIsShort(q: Queues, ops: seq<Op>)
    requires Sorted(q) && AlwaysWaiting(q, ops, Middle) && CountOf(Run(q, ops).0, Middle) == 0
    ensures CountOf(Run(q, ops).0, Low) <= Halvings(q.starving) <= 5
    decreases |ops|
  {
    HalvingsBound(q.starving);
    if ops != [] {
      match ops[0]
      case Push(p) => LowRunIsShort(Pushed(q, p), ops[1..]);
      case TryPop =>
        PoppedTakesAHead(q);
        var (p, q1) := Popped(q);
        var (out, _) := Run(q1, ops[1..]);
        OfClassFirst(p.value, out, Middle);
        OfClassFirst(p.value, out, Low);
        LowRunIsShort(q1, ops[1..]);
    }
  }

  function Pops(k: nat): seq<Op> {
    if k == 0 then [] else [TryPop] + Pops(k - 1)
  }

  lemma {:induction false} MiddlesPass(middles: seq<Packet>, l: Packet, starving: byte, k: nat)
    requires k < |middles| && starving + k <= MAX_STARVING
    ensures var q := Queues([], middles, [l], starving);
            Run(q, Pops(k)).0 == middles[..k] && AlwaysWaiting(q, Pops(k), Low)
    decreases k
  {
    if k > 0 {
      var q := Queues([], middles, [l], starving);
      assert Popped(q) == (Some(middles[0]), Queues([], middles[1..], [l], starving + 1));
      MiddlesPass(middles[1..], l, starving + 1, k - 1);
      assert middles[..k] == [middles[0]] + middles[1..][..k - 1];
    }
  }

  lemma {:induction false} LowsPass(lows: seq<Packet>, m: Packet, starving: byte, k: nat)
    requires k < |lows| && k <= Halvings(starving)
    ensures var q := Queues([], [m], lows, starving);
            Run(q, Pops(k)).0 == lows[..k] && AlwaysWaiting(q, Pops(k), Middle)
    decreases k
  {
    if k > 0 {
      LowsPass(lows[1..], m, starving / 2, k - 1);
      assert lows[..k] == [lows[0]] + lows[1..][..k - 1];
    }
  }

  /** Both bounds are reached: from an idle counter 8 middle packets pass a low one that waits, and from a counter
      at 255 5 low packets pass a middle one. */
  lemma BoundsAreTight(middles: seq<Packet>, lows: seq<Packet>)
    requires |middles| > 8 && |lows| > 5
    ensures var q := Queues([], middles, [lows[0]], 0);
            Run(q, Pops(8)).0 == middles[..8] && AlwaysWaiting(q, Pops(8), Low)
    ensures var q := Queues([], [middles[0]], lows, 255);
            Run(q, Pops(5)).0 == lows[..5] && AlwaysWaiting(q, Pops(5), Middle)
  {
    MiddlesPass(middles, lows[0], 0, 8);
    assert Halvings(7) == 0 && Halvings(15) == 1 && Halvings(31) == 2 && Halvings(63) == 3 && Halvings(127) == 4;
    LowsPass(lows, middles[0], 255, 5);
  }

  // ---------- what low packets earn the middle ones ----------

  function Pow2(k: nat): (n: nat)
    ensures n > 0
  {
    if k == 0 then 1 else 2 * Pow2(k - 1)
  }

  /** As long as no middle packet is popped every low one halves the counter, and nothing else moves it. */
  lemma {:induction false} LowsHalveTheCounter(q: Queues, ops: seq<Op>)
    requires Sorted(q) && CountOf(Run(q, ops).0, Middle) == 0
    ensures var (out, q') := Run(q, ops); Sorted(q') && q'.starving == q.starving / Pow2(CountOf(out, Low))
    decreases |ops|
  {
    if ops != [] {
      match ops[0]
      case Push(p) => LowsHalveTheCounter(Pushed(q, p), ops[1..]);
      case TryPop =>
        PoppedTakesAHead(q);
        var (p, q1) := Popped(q);
        var (out, _) := Run(q1, ops[1..]);
        if p.Some? {
          OfClassFirst(p.value, out, Low);
          OfClassFirst(p.value, out, Middle);
        }
        LowsHalveTheCounter(q1, ops[1..]);
        if p.Some? && ClassOf(p.value.flag) == Low {
          DivideTwice(q.starving, 2, Pow2(CountOf(out, Low)));
        }
    }
  }

  lemma {:induction false} RunsCompose(q: Queues, ops1: seq<Op>, ops2: seq<Op>)
    ensures var (out1, q1) := Run(q, ops1);
            var (out2, q2) := Run(q1, ops2);
            Run(q, ops1 + ops2) == (out1 + out2, q2)
    decreases |ops1|
  {
    if ops1 == [] {
      assert ops1 + ops2 == ops2;
      assert [] + Run(q, ops2).0 == Run(q, ops2).0;
    } else {
      var m := if ops1[0].Push? then Pushed(q, ops1[0].p) else Popped(q).1;
      var (out1, q1) := Run(m, ops1[1..]);
      assert (ops1 + ops2)[1..] == ops1[1..] + ops2;
      RunsCompose(m, ops1[1..], ops2);
      if ops1[0].TryPop? && Popped(q).0.Some? {
        Assoc([Popped(q).0.value], out1, Run(q1, ops2).0);
      }
    }
  }

  /** How many middle packets go before a waiting low one. */
  function Passes(q: Queues): nat {
    Min(|q.middle|, Max(8 - q.starving, 0))
  }

  lemma {:induction false} MiddlesThenLow(q: Queues)
    requires q.high == [] && q.low != []
    ensures Run(q, Pops(Passes(q) + 1)).0 == q.middle[..Passes(q)] + [q.low[0]]
    decreases Passes(q)
  {
    if Passes(q) == 0 {
      assert Pops(1) == [TryPop];
      assert Popped(q).0 == Some(q.low[0]);
    } else {
      var n, q1 := Passes(q), Popped(q).1;
      assert q1 == q.(middle := q.middle[1..], starving := q.starving + 1);
      MiddlesThenLow(q1);
      assert q.middle[..n] == [q.middle[0]] + q1.middle[..n - 1];
    }
  }

  /** From any counter: after a run that pops `k` low packets and no middle one, exactly so many of the middle packets
      then queued go before a waiting low one as the counter halved `k` times falls short of 8, all of them if there are
      fewer. */
  lemma LowPopsEarnMiddlePops(q: Queues, ops: seq<Op>)
    requires Sorted(q) && CountOf(Run(q, ops).0, Middle) == 0
    requires Run(q, ops).1.high == [] && Run(q, ops).1.low != []
    ensures var (out, q') := Run(q, ops);
            var n := Min(|q'.middle|, Max(8 - q.starving / Pow2(CountOf(out, Low)), 0));
            Run(q, ops + Pops(n + 1)).0 == out + (q'.middle[..n] + [q'.low[0]])
  {
    var (out, q') := Run(q, ops);
    LowsHalveTheCounter(q, ops);
    MiddlesThenLow(q');
    RunsCompose(q, ops, Pops(Passes(q') + 1));
  }

  /** With the other classes empty the middle one drains in order from any value of the counter, which runs up and
      wraps at 256. */
  lemma {:induction false} MiddleDrainsAlone(middles: seq<Packet>, starving: byte, k: nat)
    requires k <= |middles|
    ensures Run(Queues([], middles, [], starving), Pops(k)) ==
            (middles[..k], Queues([], middles[k..], [], (starving + k) % 256))
    decreases k
  {
    if k > 0 {
      MiddleDrainsAlone(middles[1..], (starving + 1) % 256, k - 1);
      assert middles[..k] == [middles[0]] + middles[1..][..k - 1];
      assert middles[1..][k - 1..] == middles[k..];
      WrapsOnce(starving, k);
    }
  }

  lemma WrapsOnce(starving: byte, k: nat)
    requires k > 0
    ensures ((starving + 1) % 256 + (k - 1)) % 256 == (starving + k) % 256
  {
  }
}
