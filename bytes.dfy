/** Fixed-width integers as the C# sources use them, and byte-order helpers
    shared by the big-endian LLAPI codec and the little-endian HLAPI codec. */
module Bytes {

  type Byte = x: int | 0 <= x < 0x100
  type U16 = x: int | 0 <= x < 0x1_0000
  type U32 = x: int | 0 <= x < 0x1_0000_0000
  type U64 = x: int | 0 <= x < 0x1_0000_0000_0000_0000
  type I16 = x: int | -0x8000 <= x < 0x8000
  type I32 = x: int | -0x8000_0000 <= x < 0x8000_0000
  type I64 = x: int | -0x8000_0000_0000_0000 <= x < 0x8000_0000_0000_0000

  /** An unchecked C# cast to `byte`: keep the low 8 bits. */
  function ToByte(x: int): Byte { x % 0x100 }

  /** An unchecked C# cast to `ushort`: keep the low 16 bits. A `ushort` counter
      incremented past 65535 wraps to 0 in the same way. */
  function ToU16(x: int): U16 { x % 0x1_0000 }

  /** An unchecked C# cast to `uint`. */
  function ToU32(x: int): U32 { x % 0x1_0000_0000 }

  /** An unchecked C# cast from `ushort` to `short` (two's complement). */
  function ToI16(x: U16): I16 { if x < 0x8000 then x else x - 0x1_0000 }

  /** Converting an `int` that overflowed back into the 32-bit signed range. */
  function WrapI32(x: int): I32 { ToI32(ToU32(x)) }

  function ToI32(x: U32): I32 { if x < 0x8000_0000 then x else x - 0x1_0000_0000 }

  /** An unchecked C# cast to `ulong`. */
  function ToU64(x: int): U64 { x % 0x1_0000_0000_0000_0000 }

  function ToI64(x: U64): I64 { if x < 0x8000_0000_0000_0000 then x else x - 0x1_0000_0000_0000_0000 }

  lemma ShortRoundTrip(x: I16)
    ensures ToI16(ToU16(x)) == x
  {
  }

  function Pow256(n: nat): (p: nat)
    ensures p >= 1
  {
    if n == 0 then 1 else 256 * Pow256(n - 1)
  }

  lemma Pow256Values()
    ensures Pow256(1) == 0x100 && Pow256(2) == 0x1_0000 && Pow256(3) == 0x100_0000
    ensures Pow256(4) == 0x1_0000_0000 && Pow256(5) == 0x100_0000_0000
    ensures Pow256(6) == 0x1_0000_0000_0000 && Pow256(7) == 0x100_0000_0000_0000
    ensures Pow256(8) == 0x1_0000_0000_0000_0000
  {
    assert Pow256(1) == 256 * Pow256(0);
    assert Pow256(2) == 256 * Pow256(1);
    assert Pow256(3) == 256 * Pow256(2);
    assert Pow256(4) == 256 * Pow256(3);
    assert Pow256(5) == 256 * Pow256(4);
    assert Pow256(6) == 256 * Pow256(5);
    assert Pow256(7) == 256 * Pow256(6);
    assert Pow256(8) == 256 * Pow256(7);
  }

  /** The `n` low bytes of `v`, least significant first (BinaryWriter's order). */
  function ToLE(v: nat, n: nat): (r: seq<Byte>)
    ensures |r| == n
  {
    if n == 0 then [] else [v % 256] + ToLE(v / 256, n - 1)
  }

  /** Byte `i` of the little-endian form is digit `i` of `v` in base 256. */
  lemma {:induction false} ToLEDigit(v: nat, n: nat, i: nat)
    requires i < n
    ensures ToLE(v, n)[i] == (v / Pow256(i)) % 256
    decreases i
  {
    if i > 0 {
      ToLEDigit(v / 256, n - 1, i - 1);
      DigitShift(v, i);
    }
  }

  /** Dividing by 256 and then by 256^(i - 1) is dividing by 256^i. */
  lemma DigitShift(v: nat, i: nat)
    requires i >= 1
    ensures (v / 256) / Pow256(i - 1) == v / Pow256(i)
  {
    var p := Pow256(i - 1);
    var q := (v / 256) / p;
    var rest := 256 * ((v / 256) % p) + v % 256;
    assert v / 256 == p * q + (v / 256) % p;
    assert v == 256 * (v / 256) + v % 256;
    assert v == (256 * p) * q + rest;
    assert 0 <= rest < 256 * p;
    assert Pow256(i) == 256 * p;
    DivisionUnique(v, 256 * p, q, rest);
  }

  /** A quotient and remainder in range are the quotient and remainder. */
  lemma DivisionUnique(v: nat, d: nat, q: nat, r: nat)
    requires d >= 1 && v == d * q + r && r < d
    ensures v / d == q
  {
    var q' := v / d;
    assert v == d * q' + v % d;
    if q' < q {
      MulMonotone(d, q' + 1, q);
    } else if q' > q {
      MulMonotone(d, q + 1, q');
    }
  }

  /** Multiplying by a natural number keeps the order. */
  lemma {:induction false} MulMonotone(d: nat, a: nat, b: nat)
    requires a <= b
    ensures d * a <= d * b
    decreases b - a
  {
    if a < b {
      MulMonotone(d, a, b - 1);
      assert d * b == d * (b - 1) + d;
    }
  }

  /** The value of a little-endian byte string. */
  function FromLE(s: seq<Byte>): (v: nat)
    ensures v < Pow256(|s|)
  {
    if s == [] then 0 else s[0] + 256 * FromLE(s[1..])
  }

  /** Writing `n` little-endian bytes and reading them back gives the value, for every value that fits. */
  lemma {:induction false} FromToLE(v: nat, n: nat)
    requires v < Pow256(n)
    ensures FromLE(ToLE(v, n)) == v
  {
    if n > 0 {
      FromToLE(v / 256, n - 1);
      assert ToLE(v, n)[1..] == ToLE(v / 256, n - 1);
    }
  }

  /** Big-endian ("network order") 16-bit form: most significant byte first. */
  function BE16(v: U16): (r: seq<Byte>)
    ensures |r| == 2 && r[0] as int * 256 + r[1] == v
  {
    [v / 256, v % 256]
  }

  /** Big-endian 32-bit form: the high 16 bits, then the low 16 bits, each big-endian. */
  function BE32(v: U32): (r: seq<Byte>)
    ensures |r| == 4
  {
    BE16(v / 0x1_0000) + BE16(v % 0x1_0000)
  }

  function FromBE16(s: seq<Byte>): U16
    requires |s| == 2
  {
    s[0] as int * 256 + s[1]
  }

  function FromBE32(s: seq<Byte>): U32
    requires |s| == 4
  {
    FromBE16(s[..2]) * 0x1_0000 + FromBE16(s[2..])
  }

  lemma BE16RoundTrip(v: U16)
    ensures FromBE16(BE16(v)) == v
  {
  }

  lemma BE32RoundTrip(v: U32)
    ensures FromBE32(BE32(v)) == v
  {
    var r := BE32(v);
    assert r[..2] == BE16(v / 0x1_0000) && r[2..] == BE16(v % 0x1_0000);
    BE16RoundTrip(v / 0x1_0000);
    BE16RoundTrip(v % 0x1_0000);
  }

  /** Decoding is injective the other way too: every 2-byte string is the encoding of its value. */
  lemma BE16Canonical(s: seq<Byte>)
    requires |s| == 2
    ensures BE16(FromBE16(s)) == s
  {
  }

  lemma BE32Canonical(s: seq<Byte>)
    requires |s| == 4
    ensures BE32(FromBE32(s)) == s
  {
    var hi, lo := FromBE16(s[..2]), FromBE16(s[2..]);
    assert FromBE32(s) / 0x1_0000 == hi && FromBE32(s) % 0x1_0000 == lo;
    BE16Canonical(s[..2]);
    BE16Canonical(s[2..]);
    assert s == s[..2] + s[2..];
  }
}
