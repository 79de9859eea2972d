/** sendWindow and receiveWindow as the objects their methods update. Each method is the loop-free effect of a
    compare-and-swap loop that nobody disturbs; interleavings are the subject of Protocol. */
module Conn {
  import opened Basics
  import opened Window
  import opened Protocol

  // ---------- how one Write is cut and read back ----------

  /** `segs` is an initial run of segments cut from `rest`: each non-empty and within the cap, marked `part`
      exactly when it is not the last of `rest`. */
  ghost predicate CutOf(segs: seq<Segment>, rest: seq<byte>)
    decreases |segs|
  {
    segs == [] ||
    (&& SegmentOk(segs[0])
     && segs[0].bytes <= rest
     && segs[0].part == (|segs[0].bytes| < |rest|)
     && CutOf(segs[1..], rest[|segs[0].bytes|..]))
  }

  lemma {:induction false} CutIsPrefix(segs: seq<Segment>, rest: seq<byte>)
    requires CutOf(segs, rest)
    ensures Bytes(segs) <= rest
    decreases |segs|
  {
    if segs != [] {
      var n := |segs[0].bytes|;
      CutIsPrefix(segs[1..], rest[n..]);
      assert rest == rest[..n] + rest[n..];
      assert segs[0].bytes + Bytes(segs[1..]) <= rest[..n] + rest[n..];
    }
  }

  lemma {:induction false} CutGrows(segs: seq<Segment>, rest: seq<byte>, seg: Segment)
    requires CutOf(segs, rest) && SegmentOk(seg)
    requires var m := |Bytes(segs)|;
             && m + |seg.bytes| <= |rest|
             && seg.bytes == rest[m..m + |seg.bytes|]
             && seg.part == (m + |seg.bytes| < |rest|)
    ensures CutOf(segs + [seg], rest)
    decreases |segs|
  {
    if segs == [] {
      assert [seg][1..] == [];
    } else {
      var n, m := |segs[0].bytes|, |Bytes(segs[1..])|;
      assert (segs + [seg])[1..] == segs[1..] + [seg];
      assert rest[n..][m..m + |seg.bytes|] == rest[n + m..n + m + |seg.bytes|];
      CutGrows(segs[1..], rest[n..], seg);
    }
  }

  lemma CutAppends(segs: seq<Segment>, data: seq<byte>, seg: Segment, end: nat)
    requires CutOf(segs, data) && SegmentOk(seg)
    requires |Bytes(segs)| + |seg.bytes| == end <= |data|
    requires Bytes(segs) == data[..|Bytes(segs)|] && seg.bytes == data[|Bytes(segs)|..end]
    requires seg.part <==> end < |data|
    ensures CutOf(segs + [seg], data) && Bytes(segs + [seg]) == data[..end]
  {
    CutGrows(segs, data, seg);
    BytesConcat(segs, [seg]);
    assert Bytes([seg]) == seg.bytes + [] == seg.bytes;
    assert data[..end] == data[..|Bytes(segs)|] + data[|Bytes(segs)|..end];
  }

  /** The bytes up to the end of the first segment that is not `part`: what is left of one Write. */
  function FirstWrite(queue: seq<Segment>): seq<byte> {
    if queue == [] then []
    else queue[0].bytes + if queue[0].part then FirstWrite(queue[1..]) else []
  }

  /** The queue holds the last segment of that Write. */
  predicate Ended(queue: seq<Segment>) {
    queue != [] && (!queue[0].part || Ended(queue[1..]))
  }

  /** However a Write was cut, the receiving side finds its boundary again. */
  lemma {:induction false} CutReadsBack(segs: seq<Segment>, buf: seq<byte>, later: seq<Segment>)
    requires CutOf(segs, buf) && Bytes(segs) == buf && buf != []
    ensures FirstWrite(segs + later) == buf && Ended(segs + later)
    decreases |segs|
  {
    var n := |segs[0].bytes|;
    assert (segs + later)[0] == segs[0] && (segs + later)[1..] == segs[1..] + later;
    assert buf[n..] == Bytes(segs[1..]);
    if n < |buf| {
      CutReadsBack(segs[1..], buf[n..], later);
    } else {
      assert segs[0].bytes == buf;
    }
  }

  // ---------- the sending side ----------

  /** The bytes credited by a list of credit frames. */
  function ReadSum(credits: seq<u64>): nat {
    if credits == [] then 0 else ReadSum(credits[..|credits| - 1]) + Unpack(credits[|credits| - 1]).done
  }

  lemma {:induction false} ReadSumGrows(credits: seq<u64>, k: nat)
    requires k <= |credits|
    ensures ReadSum(credits[..k]) <= ReadSum(credits)
  {
    if k < |credits| {
      ReadSumGrows(credits[..|credits| - 1], k);
      assert credits[..|credits| - 1][..k] == credits[..k];
    } else {
      assert credits[..k] == credits;
    }
  }

  datatype WriteResult = Drained | Blocked | Cut(seg: Segment)

  class SendWindow {
    var maxSizeDone: u64
    var buf: seq<byte>
    var off: nat
    var parked: bool   // blocked in waitReceiveWindow

    ghost function Word(): Word
      reads this
    {
      Unpack(maxSizeDone)
    }

    ghost predicate Valid()
      reads this
    {
      && off <= |buf|
      && maxSizeDone / TWO31 % 2 == 0
      && (Word().wait <==> parked)
      && (parked ==> SendRemaining(Word()) == 0)
    }

    constructor ()
      ensures Valid() && Word() == Window.Word(122550, 0, false) && buf == [] && off == 0
    {
      PackUnpack(INITIAL_WINDOW, 0, false);
      maxSizeDone, buf, off, parked := Pack(INITIAL_WINDOW, 0, false), [], 0, false;
      assert Pack(INITIAL_WINDOW, 0, false) == INITIAL_WINDOW * TWO32;
    }

    /** The new content of the window word. */
    method Store(w: Window.Word)
      modifies `maxSizeDone
      ensures Word() == w && maxSizeDone / TWO31 % 2 == 0
    {
      PackUnpack(w.size, w.done, w.wait);
      maxSizeDone := Pack(w.size, w.done, w.wait);
      UnpackPack(maxSizeDone);
    }

    /** A credit frame arrives. */
    method SetSize(currentMaxSizeDone: u64) returns (woken: bool)
      requires Valid()
      modifies `maxSizeDone, `parked
      ensures Valid()
      ensures var c := Unpack(currentMaxSizeDone);
              match OnAck(old(Word()), Ack(c.size, c.done), false)
              case Slid(word, wake) => Word() == word && woken == wake
              case _ => Word() == old(Word()) && !woken
      ensures var c := Unpack(currentMaxSizeDone);
              c.done <= old(Word().done) ==>
                Word().size == c.size && Word().done == old(Word().done) - c.done
      ensures woken ==> !parked && SendRemaining(Word()) > 0
      ensures var c := Unpack(currentMaxSizeDone);
              && (c.done > old(Word().done) ==> Word() == old(Word()))
              && (woken <==> old(parked) && c.done <= old(Word().done) < c.done + c.size)
      ensures parked <==> old(parked) && !woken
    {
      woken := false;
      var newWait := false;
      var c := Unpack(currentMaxSizeDone);
      var w := Unpack(maxSizeDone);
      if c.done > w.done {
        return;
      }
      if c.done == 0 && c.size == w.size {
        return;
      }
      var send := w.done - c.done;
      var remain := Max(c.size - send, 0);
      if remain == 0 && w.wait {
        newWait := true;
      }
      Store(Window.Word(c.size, send, newWait));
      if w.wait && !newWait {
        parked := false;
        woken := true;
      }
    }

    /** Counts bytes as sent. On an overflow of the count the source tries again until a credit arrives, so an
        undisturbed call then leaves everything as it is. */
    method Sent(sentSize: u16) returns (ok: bool)
      requires off <= |buf| && maxSizeDone / TWO31 % 2 == 0
      modifies `maxSizeDone
      ensures maxSizeDone / TWO31 % 2 == 0
      ensures ok <==> old(Word().done) + sentSize < TWO31
      ensures OnSent(old(Word()), sentSize) == if ok then Some(Word()) else None
      ensures Word() == old(Word()).(done := Word().done)
      ensures Word().done == old(Word().done) + if ok then sentSize else 0
    {
      var w := Unpack(maxSizeDone);
      var send: int := w.done;
      if (send + sentSize) % TWO31 < send {
        return false;
      }
      assert send + sentSize < TWO31;
      Store(w.(done := send + sentSize));
      return true;
    }

    method WriteTo() returns (r: WriteResult)
      requires Valid() && !parked
      modifies this
      ensures Valid() && buf == old(buf)
      ensures r.Drained? <==> old(off) == |buf|
      ensures r.Drained? ==> off == old(off) && Word() == old(Word()) && !parked
      ensures r.Blocked? <==> old(off) < |buf| && old(Word().done) >= old(Word().size)
      ensures r.Blocked? ==> off == old(off) && Word() == old(Word()).(wait := true) && parked
      ensures r.Cut? ==>
                && !parked && SegmentOk(r.seg)
                && off == old(off) + |r.seg.bytes| <= |buf| && r.seg.bytes == buf[old(off)..off]
                && (r.seg.part <==> off < |buf|)
                && |r.seg.bytes| == Min(Min(|buf| - old(off), SEGMENT), SendRemaining(old(Word())))
                && Word().done <= Word().size
                && (off == |buf| || |r.seg.bytes| == SEGMENT || Word().done == Word().size)
                && Word() == old(Word()).(done := old(Word().done) + |r.seg.bytes|)
    {
      if off >= |buf| {
        return Drained;
      }
      var w := Unpack(maxSizeDone);
      var remain := SendRemaining(w);
      if remain == 0 {
        Store(w.(wait := true));
        parked := true;
        return Blocked;
      }
      var sendSize := if |buf| - off > SEGMENT then SEGMENT else |buf| - off;
      if remain < sendSize {
        sendSize := remain;
      }
      var part := sendSize < |buf| - off;
      var p := buf[off..off + sendSize];
      off := off + sendSize;
      var _ := Sent(sendSize);
      r := Cut(Segment(p, part));
    }

    /** One pass of the loop in WriteFull: emits the next segment, or parks, or finds the buffer drained. */
    method Pass(segs: seq<Segment>) returns (more: seq<Segment>, drained: bool)
      requires Valid() && !parked && CutOf(segs, buf) && Bytes(segs) == buf[..off]
      modifies this
      ensures Valid() && buf == old(buf) && CutOf(more, buf) && Bytes(more) == buf[..off]
      ensures Word().size == old(Word().size) && Word().done - off == old(Word().done) - old(off)
      ensures drained <==> old(off) == |buf|
      ensures drained ==> off == old(off) && !parked
      ensures parked ==> off == old(off) < |buf|
      ensures !drained && !parked ==> off > old(off)
    {
      more, drained := segs, false;
      var r := WriteTo();
      if r.Drained? {
        drained := true;
      } else if r.Cut? {
        CutAppends(segs, buf, r.seg, off);
        more := segs + [r.seg];
      }
    }

    /** Where a WriteFull of `data` stands that found the count `start` and has sent `segs` and used `used` credits. */
    ghost predicate Sending(data: seq<byte>, credits: seq<u64>, start: Window.Word, segs: seq<Segment>, used: nat)
      reads this
    {
      && Valid() && buf == data && used <= |credits|
      && CutOf(segs, data) && Bytes(segs) == data[..off]
      && (parked ==> off < |data|)
      && (ReadSum(credits) <= start.done ==>
            && Word().done == start.done + off - ReadSum(credits[..used])
            && Word().size == if used == 0 then start.size else Unpack(credits[used - 1]).size)
    }

    /** One round of the loop in WriteFull: a pass, or the wait for the next credit. */
    method Round(data: seq<byte>, credits: seq<u64>, ghost start: Window.Word, segs: seq<Segment>, used: nat)
      returns (more: seq<Segment>, used': nat, drained: bool, blocked: bool)
      requires Sending(data, credits, start, segs, used)
      modifies this
      ensures Sending(data, credits, start, more, used')
      ensures drained ==> off == |data| && !parked
      ensures blocked ==> parked && used' == |credits|
      ensures drained || blocked || off > old(off) ||
              (off == old(off) && (used' > used || (used' == used && !old(parked) && parked)))
    {
      more, used', drained, blocked := segs, used, false, false;
      if !parked {
        more, drained := Pass(segs);
      } else if used == |credits| {
        blocked := true;
      } else {
        ReadSumGrows(credits, used + 1);
        assert credits[..used + 1][..used] == credits[..used];
        var _ := SetSize(credits[used]);
        used' := used + 1;
      }
    }

    /** Sends `data`; `credits` are the credit frames that arrive while it is blocked. Everything is sent, cut
        at no boundary but the cap and the window, unless the credits run out while the window is closed. */
    method WriteFull(data: seq<byte>, credits: seq<u64>) returns (segs: seq<Segment>, used: nat, blocked: bool)
      requires Valid() && !parked
      modifies this
      ensures Valid() && used <= |credits|
      ensures buf == data && off <= |data| && CutOf(segs, data) && Bytes(segs) == data[..off]
      ensures !blocked ==> Bytes(segs) == data && !parked
      ensures blocked ==> off < |data| && used == |credits| && parked && SendRemaining(Word()) == 0
      ensures ReadSum(credits) <= old(Word().done) ==>
                && Word().done == old(Word().done) + off - ReadSum(credits[..used])
                && Word().size == if used == 0 then old(Word().size) else Unpack(credits[used - 1]).size
    {
      ghost var start := Word();
      buf, off := data, 0;
      segs, used, blocked := [], 0, false;
      assert data[..0] == [];
      var drained := false;
      while !drained && !blocked
        invariant Sending(data, credits, start, segs, used)
        invariant drained ==> off == |data| && !parked
        invariant blocked ==> parked && used == |credits|
        decreases !drained && !blocked, |data| - off, |credits| - used, !parked
      {
        segs, used, drained, blocked := Round(data, credits, start, segs, used);
      }
      assert drained ==> data[..off] == data;
    }
  }

  // ---------- the receiving side ----------

  lemma Recut(soFar: seq<byte>, bytes: seq<byte>, start: nat, end: nat, rest: seq<byte>)
    requires start <= end <= |bytes|
    ensures soFar + bytes[start..end] + (bytes[end..] + rest) == soFar + (bytes[start..] + rest)
  {
  }

  /** Overwriting more of a buffer leaves less of what it held before. */
  lemma Tail(got: seq<byte>, before: seq<byte>, n: nat, m: nat)
    requires |got| == n <= m <= |before|
    ensures (got + before[n..])[m..] == before[m..]
  {
  }

  lemma Settle(write: seq<byte>, got: seq<byte>, rest: seq<byte>, room: nat)
    requires got + rest == write && |got| <= room && (|got| == room || rest == [])
    ensures |got| == Min(room, |write|) && write[..|got|] == got
  {
  }

  /** What a Read finds: the caller's buffer, the available bytes of its Write and of all Writes, and the accounts. */
  datatype Found = Found(buffer: seq<byte>, write: seq<byte>, pending: seq<byte>, ended: bool, ledger: nat,
                         acks: seq<Ack>, reports: bool)

  /** What was read and is not reported afterwards is reported in the credit: nothing is lost, an overflow of the count
      included, and with the queue empty and no overflow nothing is kept back. */
  lemma ConsumedAccounts(w: Window.Word, len: nat, l: u16)
    ensures var (word, ack) := OnConsumed(w, len, l);
            && word.done + (if ack.Some? then ack.value.read else 0) == w.done + l
            && word.done < READ_LIMIT
            && (len == 0 && w.done + l < TWO31 ==> word.done == 0 && !word.wait)
  {
  }

  class ReceiveWindow {
    var maxSizeDone: u64
    var queue: seq<Segment>   // bufQueue's elements
    var length: nat           // bufQueue's length field
    var element: Segment
    var off: nat
    var acks: seq<Ack>        // credits handed to sendInfo

    ghost function Word(): Word
      reads this
    {
      Unpack(maxSizeDone)
    }

    ghost predicate Valid()
      reads this
    {
      && maxSizeDone / TWO31 % 2 == 0
      && Word().done < READ_LIMIT
      && off <= |element.bytes| <= SEGMENT
      && (forall e <- queue :: SegmentOk(e))
      && length == |Bytes(queue)|
    }

    /** Received bytes not yet returned by Read. */
    ghost function Pending(): seq<byte>
      requires Valid()
      reads this
    {
      element.bytes[off..] + Bytes(queue)
    }

    /** The available bytes of the Write that the next Read will return from. */
    ghost function CurrentWrite(): seq<byte>
      requires Valid()
      reads this
    {
      if off == |element.bytes| then FirstWrite(queue)
      else element.bytes[off..] + if element.part then FirstWrite(queue) else []
    }

    /** The last segment of that Write is available. */
    ghost predicate CurrentEnded()
      reads this
    {
      if off < |element.bytes| && !element.part then true else Ended(queue)
    }

    /** Bytes received and not yet reported back, plus bytes reported. */
    ghost function Ledger(): nat
      requires Valid()
      reads this
    {
      AckSum(acks) + Word().done + |Bytes(queue)| + if off < |element.bytes| then |element.bytes| else 0
    }

    constructor ()
      ensures Valid() && Word() == Window.Word(122550, 0, false) && Pending() == [] && acks == []
    {
      PackUnpack(INITIAL_WINDOW, 0, false);
      maxSizeDone := Pack(INITIAL_WINDOW, 0, false);
      queue, length, element, off, acks := [], 0, EMPTY, 0, [];
      assert Pack(INITIAL_WINDOW, 0, false) == INITIAL_WINDOW * TWO32;
    }

    method Store(w: Window.Word)
      modifies `maxSizeDone
      ensures Word() == w && maxSizeDone / TWO31 % 2 == 0
    {
      PackUnpack(w.size, w.done, w.wait);
      maxSizeDone := Pack(w.size, w.done, w.wait);
      UnpackPack(maxSizeDone);
    }

    /** A credit is handed to sendInfo. */
    method SendInfo(ack: Ack)
      modifies `acks
      ensures acks == old(acks) + [ack] && AckSum(acks) == AckSum(old(acks)) + ack.read
    {
      AckSumConcat(acks, [ack]);
      acks := acks + [ack];
    }

    /** A data frame arrives. Its size, with the read count if there is room, joins the ledger. */
    method Write(seg: Segment)
      requires Valid() && SegmentOk(seg)
      modifies `maxSizeDone, `queue, `length, `acks
      ensures Valid() && queue == old(queue) + [seg]
      ensures var (word, ack) := OnArrival(old(Word()), RecvRemaining(old(Word().size), old(length), |seg.bytes|));
              Word() == word && acks == old(acks) + if ack.Some? then [ack.value] else []
      ensures Word().size == old(Word().size)
      ensures Word().wait <==> old(Word().wait) || old(length) + |seg.bytes| >= Word().size
      ensures Word().wait ==> Word().done == old(Word().done) && acks == old(acks)
      ensures !Word().wait ==> Word().done == 0 && acks == old(acks) + [Ack(Word().size, old(Word().done))] &&
                               AckSum(acks) == AckSum(old(acks)) + old(Word().done)
      ensures Ledger() == old(Ledger()) + |seg.bytes|
      ensures Pending() == old(Pending()) + seg.bytes
    {
      var w := Unpack(maxSizeDone);
      var wait := w.wait;
      var remain := RecvRemaining(w.size, length, |seg.bytes|);
      if remain == 0 && !wait {
        wait := true;
        Store(w.(wait := true));
      } else if !wait {
        Store(w.(done := 0));
      }
      BytesConcat(queue, [seg]);
      assert Bytes([seg]) == seg.bytes + [] == seg.bytes;
      Assoc(element.bytes[off..], Bytes(queue), seg.bytes);
      queue := queue + [seg];
      length := length + |seg.bytes|;
      if !wait {
        SendInfo(Ack(w.size, w.done));
      }
    }

    /** The current element was read to its end. */
    method SendStatus(l: u16)
      requires maxSizeDone / TWO31 % 2 == 0
      modifies `maxSizeDone, `acks
      ensures maxSizeDone / TWO31 % 2 == 0
      ensures var (word, ack) := OnConsumed(old(Word()), length, l);
              Word() == word && acks == old(acks) + if ack.Some? then [ack.value] else []
      ensures Word().size == old(Word().size)
      ensures AckSum(acks) + Word().done == AckSum(old(acks)) + old(Word().done) + l
      ensures var read := old(Word().done) + l;
              if read >= TWO31 then acks == old(acks) + [Ack(Word().size, old(Word().done))]
              else if read >= Word().size / 2 || (old(Word().wait) && length < Word().size) || length == 0
              then acks == old(acks) + [Ack(Word().size, read)] && !Word().wait
              else acks == old(acks) && Word().wait == old(Word().wait)
    {
      var w := Unpack(maxSizeDone);
      if w.done + l < TWO31 {
        ConsumedReports(w, length, l);
      } else {
        OverflowReports(w, length, l);
      }
      var done: int := w.done;
      if done > (done + l) % TWO31 {   // the count would overflow
        Store(w.(done := l));
        SendInfo(Ack(w.size, w.done));
        return;
      }
      var read := w.done + l;
      var remain := RecvRemaining(w.size, length, 0);
      if (w.wait && remain > 0) || read >= w.size / 2 || remain == w.size {
        Store(Window.Word(w.size, 0, false));
        SendInfo(Ack(w.size, read));
      } else {
        Store(w.(done := read));
      }
    }

    /** Takes the next element; the caller knows there is one. */
    method Pop()
      requires Valid() && off == |element.bytes| && queue != []
      modifies `queue, `length, `element, `off
      ensures Valid() && [element] + queue == old(queue) && off == 0 < |element.bytes|
      ensures Pending() == old(Pending()) && Ledger() == old(Ledger())
      ensures CurrentWrite() == old(CurrentWrite()) && CurrentEnded() == old(CurrentEnded())
    {
      assert queue[0] in queue;
      element := queue[0];
      queue := queue[1..];
      length := length - |element.bytes|;
      off := 0;
      assert element.bytes[0..] == element.bytes;
    }

    /** The current element after it was copied from, and what else of its Write is available. */
    ghost function Rest(): seq<byte>
      requires off <= |element.bytes|
      reads this
    {
      element.bytes[off..] + if element.part then FirstWrite(queue) else []
    }

    /** copy into `p` from index `n` on. */
    method Copy(p: array<byte>, n: nat, src: seq<byte>)
      requires n + |src| <= p.Length
      modifies p
      ensures p[..] == old(p[..])[..n] + src + old(p[..])[n + |src|..]
    {
      forall i | 0 <= i < |src| {
        p[n + i] := src[i];
      }
    }

    /** Copies as much of the current element as `p` has room for after its first bytes, which are `got`. */
    method CopyOut(p: array<byte>, ghost got: seq<byte>, n: nat) returns (l: nat, ghost more: seq<byte>)
      requires Valid() && |got| == n < p.Length && off < |element.bytes| && got <= p[..]
      modifies `off, p
      ensures Valid() && l == Min(p.Length - n, |element.bytes| - old(off)) && off == old(off) + l
      ensures |more| == n + l && p[..] == more + old(p[..])[n + l..]
      ensures more + Pending() == got + old(Pending()) && more + Rest() == got + old(Rest())
    {
      l := Min(p.Length - n, |element.bytes| - off);
      ghost var part, before := element.bytes[off..off + l], p[..];
      assert got == before[..n];
      Copy(p, n, element.bytes[off..off + l]);
      assert p[..] == got + part + before[n + l..];
      Recut(got, element.bytes, off, off + l, if element.part then FirstWrite(queue) else []);
      Recut(got, element.bytes, off, off + l, Bytes(queue));
      off := off + l;
      more := got + part;
    }

    /** Where a Read stands that found `start` and has copied `got`, with `rest` to come from the same Write. */
    ghost predicate Reading(p: array<byte>, start: Found, got: seq<byte>, rest: seq<byte>)
      reads this, p
    {
      && Valid() && |got| <= p.Length == |start.buffer|
      && p[..] == got + start.buffer[|got|..]
      && got + rest == start.write && got + Pending() == start.pending
      && Ledger() == start.ledger && start.acks <= acks && (start.reports ==> ReportsAll())
    }

    /** What SendStatus means for the accounts when the current element was read to its end. */
    method ReportElement()
      requires Valid() && off == |element.bytes|
      modifies `maxSizeDone, `acks
      ensures Valid() && old(acks) <= acks && ReportsAll()
      ensures AckSum(acks) + Word().done == AckSum(old(acks)) + old(Word().done) + |element.bytes|
    {
      ConsumedAccounts(Word(), length, |element.bytes|);
      SendStatus(|element.bytes|);
    }

    /** Copies, and reports the element once it is read to its end. */
    method CopyElement(p: array<byte>, n: nat, ghost start: Found, ghost got: seq<byte>)
      returns (l: nat, ghost more: seq<byte>)
      requires Valid() && Reading(p, start, got, Rest())
      requires |got| == n < p.Length && off < |element.bytes|
      modifies `off, p, `maxSizeDone, `acks
      ensures Valid() && Reading(p, start, more, Rest()) && |more| == n + l
      ensures l == Min(p.Length - n, |element.bytes| - old(off)) > 0 && off == old(off) + l
    {
      ghost var before := p[..];
      assert before == got + start.buffer[n..];
      l, more := CopyOut(p, got, n);
      assert p[..] == more + start.buffer[n + l..] by {
        Tail(got, start.buffer, n, n + l);
      }
      if off == |element.bytes| {
        ReportElement();
      }
    }

    /** Takes the next element if the current one is used up and there is one. */
    method Refill(ghost p: array<byte>, ghost start: Found, ghost got: seq<byte>) returns (some: bool)
      requires Valid() && Reading(p, start, got, CurrentWrite()) && CurrentEnded() == start.ended
      modifies `queue, `length, `element, `off
      ensures Valid()
      ensures Reading(p, start, got, if some then Rest() else [])
      ensures some ==> off < |element.bytes| && start.ended == (element.part ==> Ended(queue))
      ensures !some ==> !start.ended
    {
      if off == |element.bytes| {
        if queue == [] {
          return false;
        }
        Pop();
      }
      return true;
    }

    /** One round of the copying loop: takes an element if the current one is used up, and copies from it; `done` when
        that ends the loop. */
    method Round(p: array<byte>, n: nat, ghost start: Found, ghost got: seq<byte>)
      returns (l: nat, done: bool, ghost more: seq<byte>, ghost rest: seq<byte>)
      requires Valid() && Reading(p, start, got, CurrentWrite())
      requires |got| == n < p.Length && CurrentEnded() == start.ended
      modifies this, p
      ensures Reading(p, start, more, rest) && |more| == n + l
      ensures !done ==> l > 0 && n + l < p.Length && rest == CurrentWrite() && CurrentEnded() == start.ended
      ensures done ==> (n + l == p.Length || rest == []) && (l == 0 <==> n + l < p.Length && !start.ended)
    {
      var some := Refill(p, start, got);
      if !some {
        return 0, true, got, [];
      }
      l, more := CopyElement(p, n, start, got);
      rest := Rest();
      done := n + l == p.Length || !element.part;
      assert n + l < p.Length ==> rest == if element.part then CurrentWrite() else [];
    }

    /** receiveWindow.readFromQueue, up to the point where Pop would sleep. It returns the next bytes of one
        Write: as many as `p` holds or as that Write has left, whichever is less. It sleeps only if fewer
        are available and the last segment of the Write has not arrived. */
    method ReadFromQueue(p: array<byte>) returns (n: nat, asleep: bool)
      requires Valid() && p.Length > 0
      modifies this, p
      ensures Valid()
      ensures n == Min(p.Length, |old(CurrentWrite())|)
      ensures p[..] == old(CurrentWrite())[..n] + old(p[..])[n..]
      ensures asleep <==> n < p.Length && !old(CurrentEnded())
      ensures p[..n] + Pending() == old(Pending())
      ensures Ledger() == old(Ledger()) && old(acks) <= acks && (old(ReportsAll()) ==> ReportsAll())
    {
      n, asleep := 0, false;
      var done := false;
      ghost var start := Found(p[..], CurrentWrite(), Pending(), CurrentEnded(), Ledger(), acks, ReportsAll());
      ghost var got, rest := [], CurrentWrite();
      while !done
        invariant Reading(p, start, got, rest) && |got| == n <= p.Length
        invariant !done ==> n < p.Length && rest == CurrentWrite() && CurrentEnded() == start.ended
        invariant done ==> (n == p.Length || rest == []) && (asleep <==> n < p.Length && !start.ended)
        decreases !done, p.Length - n
      {
        var l;
        l, done, got, rest := Round(p, n, start, got);
        n, asleep := n + l, l == 0;
      }
      Settle(start.write, got, rest, p.Length);
      assert p[..n] == got;
    }

    /** With nothing left to read, no read bytes are kept back. */
    ghost predicate ReportsAll()
      reads this
    {
      off == |element.bytes| && queue == [] ==> Word().done == 0
    }
  }
}
