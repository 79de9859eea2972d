/** The bufDequeue object used by one goroutine at a time: every compare-and-swap succeeds at the first try, and the
    ring is a bounded FIFO queue. */
module BufDequeue {
  import opened Basics
  import opened Ring

  /** A ring nobody is in the middle of using has its oldest value in the slot at the tail, and popping it keeps the
      invariant. */
  lemma PopKeeps(r: Ring)
    requires RingInv(r) && r.owned == {} && r.taken == r.freed
    ensures Empty(r.headTail) <==> |r.vals| == r.taken
    ensures !Empty(r.headTail) ==>
              var tail := Tail(r.headTail);
              At(r, tail) == Some(r.vals[r.taken]) && RingInv(Advance(Clear(r, SlotOf(r, tail)), tail))
  {
    FullAndEmpty(r);
    if !Empty(r.headTail) {
      Indices(r);
      assert At(r, r.freed) == Expected(r, r.freed);
      ClearKeeps(r);
      AdvanceKeeps(Clear(r, SlotOf(r, r.freed)));
    }
  }

  class BufDequeue {
    var headTail: u64
    const vals: array<Option<nat>>
    ghost var ring: Ring

    ghost predicate Valid()
      reads this, vals
    {
      && ring.headTail == headTail && ring.slots == vals[..]
      && RingInv(ring) && ring.owned == {} && ring.taken == ring.freed
    }

    /** The values pushed and not popped, oldest first. */
    ghost function Contents(): seq<nat>
      requires Valid()
      reads this, vals
    {
      ring.vals[ring.taken..]
    }

    constructor (size: nat)
      requires Size(size)
      ensures Valid() && fresh(vals) && vals.Length == size && Contents() == []
    {
      headTail := 0;
      vals := new Option<nat>[size](_ => None);
      ring := Fresh(size);
      new;
      FreshInv(size);
    }

    method PushHead(val: nat) returns (ok: bool)
      requires Valid()
      modifies this, vals
      ensures Valid()
      ensures ok <==> |old(Contents())| < vals.Length
      ensures Contents() == old(Contents()) + if ok then [val] else []
    {
      FullAndEmpty(ring);
      var head, tail := Head(headTail), Tail(headTail);
      if (tail + vals.Length) % TWO32 == head {
        return false;
      }
      ghost var at := |ring.vals|;
      ReserveKeeps(ring, val);
      headTail, ring := PackIndices((head + 1) % TWO32, tail), Reserve(ring, val);
      MaskIsRemainder(head, vals.Length);
      var slot := And(head, vals.Length - 1);
      StoreKeeps(ring, val, at);
      vals[slot] := Some(val);
      ring := Store(ring, slot, val, at);
      return true;
    }

    method PopTail() returns (val: nat, ok: bool)
      requires Valid()
      modifies this, vals
      ensures Valid()
      ensures ok <==> old(Contents()) != []
      ensures ok ==> val == old(Contents())[0] && Contents() == old(Contents())[1..]
      ensures !ok ==> Contents() == []
    {
      var head, tail := Head(headTail), Tail(headTail);
      PopKeeps(ring);
      if tail == head {
        return 0, false;
      }
      MaskIsRemainder(tail, vals.Length);
      var slot := And(tail, vals.Length - 1);
      val := vals[slot].value;
      vals[slot] := None;
      if tail < TWO32 - 1 {
        headTail := (headTail + 1) % TWO64;
      } else {
        headTail := (headTail + (TWO64 - TWO32 + 1)) % TWO64;
      }
      ring := Advance(Clear(ring, slot), tail);
      return val, true;
    }
  }
}
