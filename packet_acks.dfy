/** UNetLib.PacketAcks: the selective-repeat window over 16-bit message IDs. It remembers
    the highest message ID received and the IDs below it that have not arrived, and it
    turns that into, and reads back, the 32-bit ack mask carried by every data packet. */
module Acks {
  import opened Wrappers
  import opened Bytes

  /** Short ack mode: one 32-bit mask, so the window covers 32 IDs. */
  const WindowBits := 32

  // ----- 32-bit masks -----

  function Pow2(n: nat): (p: nat)
    ensures p >= 1
  {
    if n == 0 then 1 else 2 * Pow2(n - 1)
  }

  lemma {:induction false} Pow2Add(a: nat, b: nat)
    ensures Pow2(a + b) == Pow2(a) * Pow2(b)
  {
    if a > 0 {
      Pow2Add(a - 1, b);
    }
  }

  lemma Pow2Of32()
    ensures Pow2(32) == 0x1_0000_0000
  {
    assert Pow2(2) == 4;
    Pow2Add(2, 2);
    Pow2Add(4, 4);
    Pow2Add(8, 8);
    Pow2Add(16, 16);
  }

  /** `(mask & (1u << i)) != 0`: bit `i` of `mask`. */
  predicate Bit(mask: nat, i: nat)
  {
    if i == 0 then mask % 2 == 1 else Bit(mask / 2, i - 1)
  }

  /** A set bit is worth its weight: the mask is at least that power of two. */
  lemma {:induction false} BitWeight(mask: nat, i: nat)
    requires Bit(mask, i)
    ensures mask >= Pow2(i)
  {
    if i > 0 {
      BitWeight(mask / 2, i - 1);
    }
  }

  /** The number whose bit `i` is `bits[i]`. */
  function MaskOf(bits: seq<bool>): (m: nat)
    ensures m < Pow2(|bits|)
  {
    if bits == [] then 0 else (if bits[0] then 1 else 0) + 2 * MaskOf(bits[1..])
  }

  /** Reading bit `i` of a mask gives back the bit it was built from. */
  lemma {:induction false} BitOfMask(bits: seq<bool>, i: nat)
    requires i < |bits|
    ensures Bit(MaskOf(bits), i) == bits[i]
  {
    if i > 0 {
      assert MaskOf(bits) / 2 == MaskOf(bits[1..]);
      BitOfMask(bits[1..], i - 1);
    }
  }

  /** Clearing a set bit subtracts its weight; clearing a clear bit changes nothing. */
  lemma {:induction false} ClearBit(bits: seq<bool>, i: nat)
    requires i < |bits|
    ensures MaskOf(bits[i := false]) == if bits[i] then MaskOf(bits) - Pow2(i) else MaskOf(bits)
  {
    if i > 0 {
      assert bits[i := false][1..] == bits[1..][i - 1 := false];
      ClearBit(bits[1..], i - 1);
    }
  }

  lemma {:induction false} AllSet(n: nat)
    ensures MaskOf(seq(n, _ => true)) == Pow2(n) - 1
  {
    if n > 0 {
      assert seq(n, _ => true)[1..] == seq(n - 1, _ => true);
      AllSet(n - 1);
    }
  }

  // ----- the receive window -----

  /** The window's state: the last (highest) ID received and the IDs missing below it. */
  datatype Window = Window(missing: set<U16>, last: U16)

  /** Every missing ID lies below the last one received. */
  predicate Valid(w: Window)
  {
    forall m :: m in w.missing ==> m < w.last
  }

  /** The IDs strictly between `a` and `b`. */
  function Gap(a: U16, b: int): (g: set<U16>)
    requires b <= 0x1_0000
    ensures forall j: U16 :: j in g <==> a < j < b
    decreases b
  {
    if b <= a + 1 then {} else Gap(a, b - 1) + {(b - 1) as U16}
  }

  /** `ReceiveMessage`: the window after `id` arrives, and whether the message is new. */
  function Receive(w: Window, id: U16): (Window, bool)
  {
    if id == w.last then (w, false)
    else if id > w.last then (Window((w.missing - {id}) + Gap(w.last, id), id), true)
    else (Window(w.missing - {id}, w.last), true)
  }

  /** Only a repeat of the last ID is refused, and then nothing changes. */
  lemma ReceiveRefusesOnlyLast(w: Window, id: U16)
    ensures !Receive(w, id).1 <==> id == w.last
    ensures !Receive(w, id).1 ==> Receive(w, id).0 == w
  {
  }

  /** An accepted ID is no longer missing, and an older one leaves the last ID alone. */
  lemma ReceiveClearsMissing(w: Window, id: U16)
    requires id != w.last
    ensures id !in Receive(w, id).0.missing
    ensures id < w.last ==> Receive(w, id).0.last == w.last
    ensures id > w.last ==> Receive(w, id).0.last == id
  {
  }

  /** A fresh window has last ID 0, so message ID 0 is refused on it. */
  lemma FreshWindowRefusesZero()
    ensures Receive(Window({}, 0), 0) == (Window({}, 0), false)
  {
  }

  /** Receiving keeps every missing ID below the last one received. */
  lemma {:induction false} ReceivePreservesValid(w: Window, id: U16)
    requires Valid(w)
    ensures Valid(Receive(w, id).0)
  {
    var w' := Receive(w, id).0;
    forall m | m in w'.missing
      ensures m < w'.last
    {
      if id > w.last && m in Gap(w.last, id) {
        assert m < id;
      } else {
        assert m in w.missing;
      }
    }
  }

  // ----- reading the peer's acks -----

  /** The `i`-th ID covered by an ack: `(ushort)(ackMessageId - i)`. */
  function AckId(ack: U16, i: int): U16
  {
    ToU16(ack - i)
  }

  /** The first `n` IDs of the ack, split in increasing `i`: a clear bit means "resend", a set bit "received". */
  function Split(ack: U16, mask: nat, n: nat): (r: (seq<U16>, seq<U16>))
    ensures |r.0| + |r.1| == n
    ensures forall i :: 0 <= i < n && !Bit(mask, i) ==> AckId(ack, i) in r.0
    ensures forall i :: 0 <= i < n && Bit(mask, i) ==> AckId(ack, i) in r.1
    ensures forall x :: x in r.0 ==> exists i :: 0 <= i < n && x == AckId(ack, i) && !Bit(mask, i)
    ensures forall x :: x in r.1 ==> exists i :: 0 <= i < n && x == AckId(ack, i) && Bit(mask, i)
  {
    if n == 0 then ([], [])
    else
      var (resend, received) := Split(ack, mask, n - 1);
      if Bit(mask, n - 1) then (resend, received + [AckId(ack, n - 1)])
      else (resend + [AckId(ack, n - 1)], received)
  }

  /** Two of the 32 offsets an ack covers give the same ID only when they are equal. */
  lemma AckIdsDistinct(ack: U16, i: int, j: int)
    requires 0 <= i < WindowBits && 0 <= j < WindowBits
    ensures AckId(ack, i) == AckId(ack, j) ==> i == j
  {
    var a, b := ack - i, ack - j;
    assert -WindowBits < a < 0x1_0000 && -WindowBits < b < 0x1_0000;
    assert a % 0x1_0000 == (if a < 0 then a + 0x1_0000 else a);
    assert b % 0x1_0000 == (if b < 0 then b + 0x1_0000 else b);
  }

  /** The 32 IDs an ack covers are distinct, so no ID is both to be resent and received. */
  lemma SplitDisjoint(ack: U16, mask: nat, x: U16)
    ensures !(x in Split(ack, mask, WindowBits).0 && x in Split(ack, mask, WindowBits).1)
  {
    forall i, j | 0 <= i < WindowBits && 0 <= j < WindowBits
      ensures AckId(ack, i) == AckId(ack, j) ==> i == j
    {
      AckIdsDistinct(ack, i, j);
    }
  }

  /** `ReadIncomingAcks`: long-ack mode is not implemented; short mode reads the first mask. */
  function IncomingAcks(acksLong: bool, ack: U16, acks: seq<U32>): Result<(seq<U16>, seq<U16>)>
  {
    if acksLong then Err(NotImplemented)
    else if |acks| == 0 then Err(IndexOutOfRange)
    else Ok(Split(ack, acks[0], WindowBits))
  }

  // ----- producing our acks -----

  /** Bit `i` of our mask is clear exactly when ID `last - i` is missing. */
  function WindowBitsOf(missing: set<U16>, last: U16): (bits: seq<bool>)
    ensures |bits| == WindowBits
    ensures forall i :: 0 <= i < WindowBits ==> (bits[i] <==> !(i <= last && last - i in missing))
  {
    seq(WindowBits, i requires 0 <= i < WindowBits => !(i <= last && last - i in missing))
  }

  /** The short-mode mask of a window. */
  function ShortMask(w: Window): U32
  {
    Pow2Of32();
    MaskOf(WindowBitsOf(w.missing, w.last))
  }

  /** `GetAcks`: the last ID and its one mask in short mode; long mode is not implemented. */
  function OutgoingAcks(acksLong: bool, w: Window): Result<(U16, seq<U32>)>
  {
    if acksLong then Err(NotImplemented) else Ok((w.last, [ShortMask(w)]))
  }

  /** With no gaps the mask is 0xFFFFFFFF. */
  lemma NoGapsAllOnes(last: U16)
    ensures OutgoingAcks(false, Window({}, last)) == Ok((last, [0xFFFF_FFFF]))
  {
    assert WindowBitsOf({}, last) == seq(32, _ => true);
    AllSet(32);
    Pow2Of32();
  }

  /** Bit 0 always stays set: the last ID itself is never missing. */
  lemma LastAlwaysAcked(w: Window)
    requires Valid(w)
    ensures Bit(OutgoingAcks(false, w).value.1[0], 0)
  {
    BitOfMask(WindowBitsOf(w.missing, w.last), 0);
  }

  /** Reading our own acks back: of the 32 IDs they cover, exactly the missing ones come out
      as "resend"; gaps 32 or more below the last ID are not reported at all. */
  lemma AcksRoundTrip(w: Window, i: nat)
    requires i < WindowBits
    ensures var ack := OutgoingAcks(false, w).value;
            var split := IncomingAcks(false, ack.0, ack.1).value;
            (i <= w.last && w.last - i in w.missing ==> AckId(w.last, i) in split.0)
            && (!(i <= w.last && w.last - i in w.missing) ==> AckId(w.last, i) in split.1)
  {
    BitOfMask(WindowBitsOf(w.missing, w.last), i);
  }

  /** One more missing ID clears its bit, if it lies within 32 of the last ID. */
  lemma MaskStep(done: set<U16>, m: U16, last: U16, mask: nat, mask': nat)
    requires mask == ShortMask(Window(done, last))
    requires mask' == if 0 <= last - m < WindowBits && Bit(mask, last - m) then mask - Pow2(last - m) else mask
    ensures mask' == ShortMask(Window(done + {m}, last))
  {
    var before := WindowBitsOf(done, last);
    var b := last - m;
    if 0 <= b < WindowBits {
      ClearBit(before, b);
      BitOfMask(before, b);
      assert WindowBitsOf(done + {m}, last) == before[b := false];
    } else {
      assert WindowBitsOf(done + {m}, last) == before;
    }
  }

  // ----- the class -----

  class PacketAcks {
    const acksLong: bool
    var missing: set<U16>
    var last: U16

    function State(): Window
      reads this
    {
      Window(missing, last)
    }

    constructor (acksLong: bool)
      ensures this.acksLong == acksLong && State() == Window({}, 0)
    {
      this.acksLong := acksLong;
      missing := {};
      last := 0;
    }

    method ReceiveMessage(id: U16) returns (accepted: bool)
      modifies this
      ensures (State(), accepted) == Receive(old(State()), id)
    {
      if last == id {
        return false;
      }
      missing := missing - {id};
      if id > last {
        for i := last + 1 to id
          invariant missing == (old(missing) - {id}) + Gap(old(last), i)
        {
          missing := missing + {i};
        }
        last := id;
      }
      accepted := true;
    }

    method ReadIncomingAcks(ack: U16, acks: seq<U32>) returns (r: Result<(seq<U16>, seq<U16>)>)
      ensures r == IncomingAcks(acksLong, ack, acks)
    {
      if acksLong {
        return Err(NotImplemented);
      }
      if |acks| == 0 {
        return Err(IndexOutOfRange);
      }
      var mask := acks[0];
      var resend: seq<U16> := [];
      var received: seq<U16> := [];
      for i := 0 to WindowBits
        invariant (resend, received) == Split(ack, mask, i)
      {
        var messageId := ToU16(ack - i);
        if !Bit(mask, i) {
          resend := resend + [messageId];
        } else {
          received := received + [messageId];
        }
      }
      r := Ok((resend, received));
    }

    method GetAcks() returns (r: Result<(U16, seq<U32>)>)
      ensures r == OutgoingAcks(acksLong, State())
    {
      if acksLong {
        return Err(NotImplemented);
      }
      NoGapsAllOnes(last);
      var mask: nat := 0xFFFF_FFFF;
      var todo := missing;
      ghost var done: set<U16> := {};
      while todo != {}
        invariant todo + done == missing && todo !! done
        invariant mask == ShortMask(Window(done, last))
        decreases |todo|
      {
        var m :| m in todo;
        var bitPosition := last - m;
        ghost var mask0 := mask;
        if 0 <= bitPosition < WindowBits && Bit(mask, bitPosition) {
          BitWeight(mask, bitPosition);
          mask := mask - Pow2(bitPosition);
        }
        MaskStep(done, m, last, mask0, mask);
        todo := todo - {m};
        done := done + {m};
      }
      r := Ok((last, [mask]));
    }
  }
}
