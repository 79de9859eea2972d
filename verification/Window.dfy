/** The packed window word of a mux connection and the decisions taken on it: each function is what one
    pass of a load/compare-and-swap loop computes from the word it loaded. */
module Window {
  import opened Basics

  // Largest content of a frame: the 4096 byte pool buffer less an 11 byte header.
  const SEGMENT := 4096 - 2 - 4 - 4 - 1
  const INITIAL_WINDOW: u31 := 30 * SEGMENT

  /** The three fields of `maxSizeDone`. For a sender `done` counts bytes sent and not yet credited,
      for a receiver bytes read and not yet reported. */
  datatype Word = Word(size: u31, done: u31, wait: bool)

  /** The content of a window-credit frame. */
  datatype Ack = Ack(size: u31, read: u31)

  function Unpack(ptrs: u64): Word {
    Word(ptrs / TWO32 % TWO31, ptrs % TWO31, ptrs / TWO63 % 2 == 1)
  }

  function Pack(size: u32, done: u32, wait: bool): u64 {
    (if wait then TWO63 else 0) + size % TWO31 * TWO32 + done % TWO31
  }

  /** Packing keeps the low 31 bits of each number and the flag: the count in bits 0 to 30, the size in bits 32 to 62,
      the flag in bit 63. */
  lemma PackUnpack(size: u32, done: u32, wait: bool)
    ensures Unpack(Pack(size, done, wait)) == Word(size % TWO31, done % TWO31, wait)
    ensures var x := Pack(size, done, wait);
            && x % 0x1_0000_0000 == done % TWO31 && x / 0x1_0000_0000 % TWO31 == size % TWO31
            && x / 0x8000_0000_0000_0000 == if wait then 1 else 0
  {
    var s, d := size % TWO31, done % TWO31;
    var high := (if wait then TWO31 else 0) + s;
    var x := Pack(size, done, wait);
    assert x / TWO32 % TWO31 == s && x % TWO32 == d by {
      assert x == TWO32 * high + d;
      DivMod(high, TWO32, d);
      DivMod(if wait then 1 else 0, TWO31, s);
    }
    assert x % TWO31 == d by {
      assert x == TWO31 * (2 * high) + d;
      DivMod(2 * high, TWO31, d);
    }
    assert x / TWO63 == if wait then 1 else 0 by {
      DivMod(if wait then 1 else 0, TWO63, s * TWO32 + d);
    }
  }

  /** A word is rebuilt from its fields exactly when its unused bit 31 is clear, so on words made by Pack
      comparing two words is comparing their three fields. */
  lemma UnpackPack(ptrs: u64)
    ensures var w := Unpack(ptrs);
            Pack(w.size, w.done, w.wait) == ptrs <==> ptrs / TWO31 % 2 == 0
  {
    var w := Unpack(ptrs);
    assert ptrs == ptrs / TWO63 * TWO63 + w.size * TWO32 + ptrs / TWO31 % 2 * TWO31 + w.done;
  }

  /** Space left in a receive window holding `len` bytes once `delta` more are pushed. */
  function RecvRemaining(size: u31, len: nat, delta: nat): nat {
    Max(size - len - delta, 0)
  }

  function SendRemaining(w: Word): nat {
    Max(w.size - w.done, 0)
  }

  /** receiveWindow.Write on a loaded word: the word to store and the credit to send afterwards. */
  function OnArrival(w: Word, remain: nat): (Word, Option<Ack>) {
    if remain == 0 && !w.wait then
      (w.(wait := true), None)
    else if !w.wait then
      (w.(done := 0), Some(Ack(w.size, w.done)))
    else
      (w, None)
  }

  /** receiveWindow.sendStatus on a loaded word after an element of `l` bytes was read to its end. */
  function OnConsumed(w: Word, len: nat, l: u16): (Word, Option<Ack>) {
    if w.done <= (w.done + l) % TWO31 then
      var read := w.done + l;
      var remain := RecvRemaining(w.size, len, 0);
      if (w.wait && remain > 0) || read >= w.size / 2 || remain == w.size then
        (Word(w.size, 0, false), Some(Ack(w.size, read)))
      else
        (w.(done := read), None)
    else
      (w.(done := l), Some(Ack(w.size, w.done)))
  }

  /** What an arrival does: the wait bit is set when it was or when the queue with the arrival reaches the window, and
      with the bit clear the whole count is reported, together with the size of the window, and nothing is kept. */
  lemma ArrivalReports(w: Word, len: nat, delta: nat)
    ensures var (word, ack) := OnArrival(w, RecvRemaining(w.size, len, delta));
            && word.size == w.size && (word.wait <==> w.wait || len + delta >= w.size)
            && (word.wait ==> word.done == w.done && ack.None?)
            && (!word.wait ==> word.done == 0 && ack == Some(Ack(w.size, w.done)))
  {
  }

  /** What the end of an element does, short of an overflow of the count: a credit goes out when half the window was
      read, or a blocked peer has room again, or the queue is empty, and then says the size of the window and the whole
      count, and nothing is kept. */
  lemma ConsumedReports(w: Word, len: nat, l: u16)
    requires w.done + l < TWO31
    ensures var (word, ack) := OnConsumed(w, len, l);
            && word.size == w.size
            && (ack.Some? <==> w.done + l >= w.size / 2 || (w.wait && len < w.size) || len == 0)
            && (ack.Some? ==> ack.value == Ack(w.size, w.done + l) && word.done == 0 && !word.wait)
            && (ack.None? ==> word.done == w.done + l && word.wait == w.wait)
  {
  }

  /** And when the count would overflow, its old value is reported and it starts again with the element. */
  lemma OverflowReports(w: Word, len: nat, l: u16)
    requires w.done + l >= TWO31
    ensures OnConsumed(w, len, l) == (Word(w.size, l, w.wait), Some(Ack(w.size, w.done)))
  {
  }

  datatype Slide = Rejected | Unchanged | Slid(word: Word, wake: bool)

  /** sendWindow.SetSize on a loaded word. `newWait` is the value its local variable has kept from an
      earlier pass of the retry loop. */
  function OnAck(w: Word, a: Ack, newWait: bool): Slide {
    if a.read > w.done then
      Rejected
    else if a.read == 0 && a.size == w.size then
      Unchanged
    else
      var send := w.done - a.read;
      var wait := newWait || (Max(a.size - send, 0) == 0 && w.wait);
      Slid(Word(a.size, send, wait), w.wait && !wait)
  }

  /** What a credit does to the sender's word: nothing when it is for more than was sent, and else the window takes the
      size it says, what it says was read is no longer outstanding, and a waiting sender is woken if that leaves room
      and waits on if not. */
  lemma CreditSlides(w: Word, a: Ack)
    ensures OnAck(w, a, false).Rejected? <==> a.read > w.done
    ensures OnAck(w, a, false).Unchanged? ==> a.read == 0 && a.size == w.size
    ensures a.read <= w.done && OnAck(w, a, false).Slid? ==>
              var slide := OnAck(w, a, false);
              && slide.word.size == a.size && slide.word.done + a.read == w.done
              && (slide.wake <==> w.wait && slide.word.done < a.size)
              && (slide.word.wait <==> w.wait && slide.word.done >= a.size)
  {
  }

  /** sendWindow.sent on a loaded word; None is the overflow branch, which retries. */
  function OnSent(w: Word, n: nat): Option<Word> {
    if (w.done + n) % TWO31 < w.done then None else Some(w.(done := (w.done + n) % TWO31))
  }

  /** sendWindow.WriteTo: the size of the next segment of `rest` unsent bytes. */
  function SegmentSize(rest: nat, remain: nat): nat {
    Min(Min(rest, SEGMENT), remain)
  }
}
