/** UNetLib.HLAPI.NetworkReader: the little-endian message reader (a BinaryReader over a
    MemoryStream). Each decoder below describes what a read returns for the bytes in front of
    the cursor, together with how many of them it consumes. A failed read is an exception in
    the source that abandons the message, so the model does not say where the cursor is then. */
module HLReader {
  import opened Wrappers
  import opened Bytes
  import opened Hash128
  import opened HLWriter

  /** A decoded value and the number of bytes it took. */
  type Decoded<T> = Result<(T, nat)>

  function Value<T>(d: Decoded<T>): Result<T>
  {
    if d.Ok? then Ok(d.value.0) else Err(d.fault)
  }

  /** BinaryReader's fixed-width reads: `n` little-endian bytes, or EndOfStream. */
  function DecodeLE(s: seq<Byte>, n: nat): (d: Decoded<nat>)
    ensures d.Ok? ==> d.value.0 < Pow256(n) && d.value.1 == n
  {
    if |s| < n then Err(EndOfStream) else Ok((FromLE(s[..n]), n))
  }

  /** `ReadBytes(count)`: fewer than `count` bytes left throws IndexOutOfRange before anything is
      read; a negative count then fails inside BinaryReader. */
  function DecodeBytes(s: seq<Byte>, count: int): (d: Decoded<seq<Byte>>)
    ensures d.Ok? ==> 0 <= count <= |s| && d.value == (s[..count], count)
    ensures |s| < count ==> d == Err(IndexOutOfRange)
  {
    if |s| < count then Err(IndexOutOfRange)
    else if count < 0 then Err(ArgumentOutOfRange)
    else Ok((s[..count], count))
  }

  /** `ReadPackedUInt32`. A first byte of 251 or more always means four more bytes. */
  function DecodePackedUInt32(s: seq<Byte>): (d: Decoded<U32>)
    ensures d.Ok? ==> 1 <= d.value.1 <= 5 && d.value.1 <= |s|
  {
    if |s| < 1 then Err(EndOfStream)
    else if s[0] < 241 then Ok((s[0], 1))
    else if |s| < 2 then Err(EndOfStream)
    else if s[0] <= 248 then Ok((240 + 256 * (s[0] as int - 241) + s[1] as int, 2))
    else if |s| < 3 then Err(EndOfStream)
    else if s[0] == 249 then Ok((2288 + 256 * s[1] as int + s[2] as int, 3))
    else
      var n := if s[0] == 250 then 3 else 4;
      if |s| < 1 + n then Err(EndOfStream)
      else
        Pow256Values();
        Ok((FromLE(s[1..1 + n]), 1 + n))
  }

  /** `ReadPackedUInt64`: prefixes 250 to 255 carry 3 to 8 little-endian bytes. */
  function DecodePackedUInt64(s: seq<Byte>): Decoded<U64>
  {
    if |s| < 1 then Err(EndOfStream)
    else if s[0] < 241 then Ok((s[0], 1))
    else if |s| < 2 then Err(EndOfStream)
    else if s[0] <= 248 then Ok((240 + 256 * (s[0] as int - 241) + s[1] as int, 2))
    else if |s| < 3 then Err(EndOfStream)
    else if s[0] == 249 then Ok((2288 + 256 * s[1] as int + s[2] as int, 3))
    else
      var n := LongFormSize(s[0]);
      if |s| < 1 + n then Err(EndOfStream)
      else
        Pow256Values();
        assert Pow256(n) <= Pow256(8) by { Pow256Le(n, 8); }
        Ok((FromLE(s[1..1 + n]), 1 + n))
  }

  lemma {:induction false} Pow256Le(m: nat, n: nat)
    requires m <= n
    ensures Pow256(m) <= Pow256(n)
  {
    if m < n {
      Pow256Le(m, n - 1);
    }
  }

  /** `ReadString`: a 16-bit length, refused from 32768 on, then that many bytes. */
  function DecodeString(s: seq<Byte>): (d: Decoded<seq<Byte>>)
    ensures d.Ok? ==> d.value.1 == 2 + |d.value.0| <= |s|
  {
    var (length, _) :- DecodeLE(s, 2);
    if length >= MaxStringLength then Err(IndexOutOfRange)
    else
      var (b, n) :- DecodeBytes(s[2..], length);
      Ok((b, 2 + n))
  }

  /** `ReadBytesAndSize`: a zero size reads as null. */
  function DecodeBytesAndSize(s: seq<Byte>): (d: Decoded<Option<seq<Byte>>>)
    ensures d.Ok? && d.value.0.None? ==> d.value.1 == 2 <= |s|
    ensures d.Ok? && d.value.0.Some? ==> 0 < |d.value.0.value| < 0x1_0000 && d.value.1 == 2 + |d.value.0.value| <= |s|
  {
    var (length, _) :- DecodeLE(s, 2);
    if length == 0 then Ok((None, 2))
    else
      var (b, n) :- DecodeBytes(s[2..], length);
      Ok((Some(b), 2 + n))
  }

  /** `ReadNetworkHash128`: sixteen bytes, I0 first. */
  function DecodeHash128(s: seq<Byte>): Decoded<NetworkHash128>
  {
    if |s| < 16 then Err(EndOfStream) else Ok((NetworkHash128(s[..16]), 16))
  }

  // ----- Round trips and the decoders' other properties -----

  lemma LittleEndianRoundTrip(v: nat, n: nat, rest: seq<Byte>)
    requires v < Pow256(n)
    ensures DecodeLE(ToLE(v, n) + rest, n) == Ok((v, n))
  {
    assert (ToLE(v, n) + rest)[..n] == ToLE(v, n);
    FromToLE(v, n);
  }

  /** Signed fixed-width values come back through their two's-complement bytes. */
  lemma Int16RoundTrip(v: I16)
    ensures ToI16(FromLE(ToLE(ToU16(v), 2))) == v
  {
    Pow256Values();
    FromToLE(ToU16(v), 2);
  }

  lemma Int32RoundTrip(v: I32)
    ensures ToI32(FromLE(ToLE(ToU32(v), 4))) == v
  {
    Pow256Values();
    FromToLE(ToU32(v), 4);
  }

  lemma Int64RoundTrip(v: I64)
    ensures ToI64(FromLE(ToLE(ToU64(v), 8))) == v
  {
    Pow256Values();
    FromToLE(ToU64(v), 8);
  }

  /** `ReadPackedUInt32` inverts `WritePackedUInt32` for every uint, whatever follows. */
  lemma PackedUInt32RoundTrip(v: U32, rest: seq<Byte>)
    ensures DecodePackedUInt32(PackedUInt32(v) + rest) == Ok((v, |PackedUInt32(v)|))
  {
    var e := PackedUInt32(v);
    var s := e + rest;
    Pow256Values();
    if v > 67823 {
      var n := if v <= 16777215 then 3 else 4;
      assert e == [s[0]] + ToLE(v, n);
      assert s[1..1 + n] == ToLE(v, n);
      FromToLE(v, n);
    }
  }

  lemma PackedUInt64RoundTrip(v: U64, rest: seq<Byte>)
    ensures DecodePackedUInt64(PackedUInt64(v) + rest) == Ok((v, |PackedUInt64(v)|))
  {
    var e := PackedUInt64(v);
    var s := e + rest;
    if v > 67823 {
      var n := LongFormSize(LongPrefix(v));
      assert e == [s[0]] + ToLE(v, n);
      assert s[1..1 + n] == ToLE(v, n);
      FromToLE(v, n);
    }
  }

  /** Any first byte from 251 to 255 is taken as the four-byte form ... */
  lemma PackedUInt32LongPrefixes(s: seq<Byte>)
    requires |s| >= 5 && s[0] >= 251
    ensures DecodePackedUInt32(s) == Ok((FromLE(s[1..5]), 5))
  {
  }

  /** ... so the decoder accepts inputs the writer never produces: [255, 1, 0, 0, 0] reads as 1. */
  lemma PackedUInt32AcceptsNonCanonical()
    ensures exists s: seq<Byte> :: DecodePackedUInt32(s).Ok?
              && s != PackedUInt32(DecodePackedUInt32(s).value.0)
  {
    var s: seq<Byte> := [255, 1, 0, 0, 0];
    assert FromLE(s[1..5]) == 1 by {
      assert s[1..5] == [1, 0, 0, 0];
      assert FromLE([0]) == 0 by { assert [0][1..] == []; }
      assert FromLE([0, 0]) == 0 by { assert [0, 0][1..] == [0]; }
      assert FromLE([0, 0, 0]) == 0 by { assert [0, 0, 0][1..] == [0, 0]; }
      assert [1, 0, 0, 0][1..] == [0, 0, 0];
    }
    assert DecodePackedUInt32(s) == Ok((1, 5));
    assert PackedUInt32(1) == [1];
  }

  lemma StringRoundTrip(b: seq<Byte>, rest: seq<Byte>)
    requires |b| < MaxStringLength
    ensures DecodeString(EncodeString(Some(b)).value + rest) == Ok((b, 2 + |b|))
  {
    var s := EncodeString(Some(b)).value + rest;
    Pow256Values();
    assert s == ToLE(|b|, 2) + (b + rest);
    LittleEndianRoundTrip(|b|, 2, b + rest);
    assert s[2..] == b + rest;
    assert (b + rest)[..|b|] == b;
  }

  /** A null string is written as length 0 and reads back as the empty string. */
  lemma NullStringReadsEmpty(rest: seq<Byte>)
    ensures DecodeString(EncodeString(None).value + rest) == Ok(([], 2))
  {
    var s := EncodeString(None).value + rest;
    assert s == ToLE(0, 2) + rest;
    LittleEndianRoundTrip(0, 2, rest);
  }

  /** A length prefix of 32768 or more is refused. */
  lemma LongStringRefused(s: seq<Byte>)
    requires |s| >= 2 && FromLE(s[..2]) >= MaxStringLength
    ensures DecodeString(s) == Err(IndexOutOfRange)
  {
  }

  /** A non-empty buffer written with `WriteBytesFull` reads back, if its length fits 16 bits. */
  lemma BytesFullRoundTrip(b: seq<Byte>, rest: seq<Byte>)
    requires 0 < |b| < 0x1_0000
    ensures DecodeBytesAndSize(EncodeBytesAndSize(Some(b), |b|) + rest) == Ok((Some(b), 2 + |b|))
  {
    assert Pow256(2) == 0x1_0000 by { assert Pow256(1) == 256; }
    assert ToU16(|b|) == |b|;
    var prefix := ToLE(|b|, 2);
    assert EncodeBytesAndSize(Some(b), |b|) == prefix + b;
    var s := prefix + (b + rest);
    assert EncodeBytesAndSize(Some(b), |b|) + rest == s;
    LittleEndianRoundTrip(|b|, 2, b + rest);
    assert s[2..] == b + rest;
    assert DecodeBytes(b + rest, |b|) == Ok((b, |b|)) by { assert (b + rest)[..|b|] == b; }
  }

  /** An empty buffer written with `WriteBytesFull` reads back as null. */
  lemma EmptyBytesReadAsNull(rest: seq<Byte>)
    ensures DecodeBytesAndSize(EncodeBytesAndSize(Some([]), 0) + rest) == Ok((None, 2))
  {
    LittleEndianRoundTrip(0, 2, rest);
  }

  lemma Hash128RoundTrip(h: NetworkHash128, rest: seq<Byte>)
    ensures DecodeHash128(h.i + rest) == Ok((h, 16))
  {
    assert (h.i + rest)[..16] == h.i;
  }

  // ----- The reader -----

  class NetworkReader {
    const buffer: seq<Byte>
    var position: nat

    constructor (buffer: seq<Byte>)
      ensures this.buffer == buffer && position == 0
    {
      this.buffer := buffer;
      position := 0;
    }

    predicate Valid()
      reads this
    {
      position <= |buffer|
    }

    function Remaining(): seq<Byte>
      reads this
      requires Valid()
    {
      buffer[position..]
    }

    /** Consume what a decoder took, and return its value. */
    method Take<T>(d: Decoded<T>) returns (r: Result<T>)
      requires Valid()
      requires d.Ok? ==> d.value.1 <= |Remaining()|
      modifies this
      ensures Valid()
      ensures r == Value(d)
      ensures d.Ok? ==> Remaining() == old(Remaining())[d.value.1..]
    {
      if d.Err? {
        return Err(d.fault);
      }
      position := position + d.value.1;
      r := Ok(d.value.0);
    }

    method ReadByte() returns (r: Result<Byte>)
      requires Valid()
      modifies this
      ensures Valid()
      ensures old(Remaining()) == [] ==> r == Err(EndOfStream)
      ensures old(Remaining()) != [] ==> r == Ok(old(Remaining())[0]) && Remaining() == old(Remaining())[1..]
    {
      if position == |buffer| {
        return Err(EndOfStream);
      }
      r := Ok(buffer[position]);
      position := position + 1;
    }

    method ReadBytes(count: int) returns (r: Result<seq<Byte>>)
      requires Valid()
      modifies this
      ensures Valid()
      ensures r == Value(DecodeBytes(old(Remaining()), count))
      ensures r.Ok? ==> Remaining() == old(Remaining())[count..]
      ensures r.Err? ==> position == old(position)
    {
      if |buffer| - position < count {
        return Err(IndexOutOfRange);
      }
      if count < 0 {
        return Err(ArgumentOutOfRange);
      }
      r := Ok(buffer[position..position + count]);
      assert Remaining()[..count] == buffer[position..position + count];
      position := position + count;
    }

    /** The `n`-byte little-endian integer at the cursor (BinaryReader.ReadUInt16 and friends). */
    method ReadLittleEndian(n: nat) returns (r: Result<nat>)
      requires Valid()
      modifies this
      ensures Valid()
      ensures r == Value(DecodeLE(old(Remaining()), n))
      ensures r.Ok? ==> r.value < Pow256(n) && Remaining() == old(Remaining())[n..]
    {
      r := Take(DecodeLE(Remaining(), n));
    }

    method ReadUInt16() returns (r: Result<U16>)
      requires Valid()
      modifies this
      ensures Valid()
      ensures r == Value(DecodeLE(old(Remaining()), 2))
      ensures r.Ok? ==> Remaining() == old(Remaining())[2..]
    {
      Pow256Values();
      var v :- ReadLittleEndian(2);
      r := Ok(v);
    }

    method ReadInt16() returns (r: Result<I16>)
      requires Valid()
      modifies this
      ensures Valid()
      ensures var d := DecodeLE(old(Remaining()), 2);
              d.Err? ==> r == Err(d.fault)
      ensures var d := DecodeLE(old(Remaining()), 2);
              d.Ok? ==> r == Ok(ToI16(d.value.0)) && Remaining() == old(Remaining())[2..]
    {
      var v :- ReadUInt16();
      r := Ok(ToI16(v));
    }

    method ReadUInt32() returns (r: Result<U32>)
      requires Valid()
      modifies this
      ensures Valid()
      ensures r == Value(DecodeLE(old(Remaining()), 4))
      ensures r.Ok? ==> Remaining() == old(Remaining())[4..]
    {
      Pow256Values();
      var v :- ReadLittleEndian(4);
      r := Ok(v);
    }

    method ReadInt32() returns (r: Result<I32>)
      requires Valid()
      modifies this
      ensures Valid()
      ensures var d := DecodeLE(old(Remaining()), 4);
              d.Err? ==> r == Err(d.fault)
      ensures var d := DecodeLE(old(Remaining()), 4);
              d.Ok? ==> r == Ok(ToI32(d.value.0)) && Remaining() == old(Remaining())[4..]
    {
      var v :- ReadUInt32();
      r := Ok(ToI32(v));
    }

    method ReadUInt64() returns (r: Result<U64>)
      requires Valid()
      modifies this
      ensures Valid()
      ensures r == Value(DecodeLE(old(Remaining()), 8))
      ensures r.Ok? ==> Remaining() == old(Remaining())[8..]
    {
      Pow256Values();
      var v :- ReadLittleEndian(8);
      r := Ok(v);
    }

    method ReadInt64() returns (r: Result<I64>)
      requires Valid()
      modifies this
      ensures Valid()
      ensures var d := DecodeLE(old(Remaining()), 8);
              d.Err? ==> r == Err(d.fault)
      ensures var d := DecodeLE(old(Remaining()), 8);
              d.Ok? ==> r == Ok(ToI64(d.value.0)) && Remaining() == old(Remaining())[8..]
    {
      var v :- ReadUInt64();
      r := Ok(ToI64(v));
    }

    /** `ReadPackedUInt32`, branching on the bytes as they are read; the little-endian tail of
        the long forms is read as one little-endian integer. */
    method ReadPackedUInt32() returns (r: Result<U32>)
      requires Valid()
      modifies this
      ensures Valid()
      ensures r == Value(DecodePackedUInt32(old(Remaining())))
      ensures r.Ok? ==> Remaining() == old(Remaining())[DecodePackedUInt32(old(Remaining())).value.1..]
    {
      ghost var s := Remaining();
      var a0 :- ReadByte();
      if a0 < 241 {
        return Ok(a0);
      }
      var a1 :- ReadByte();
      if a0 <= 248 {
        return Ok(240 + 256 * (a0 as int - 241) + a1 as int);
      }
      var a2 :- ReadByte();
      if a0 == 249 {
        return Ok(2288 + 256 * a1 as int + a2 as int);
      }
      var n := if a0 == 250 then 3 else 4;
      var tail :- ReadLittleEndian(n - 2);
      Pow256Values();
      assert s[1..1 + n] == [a1, a2] + s[3..][..n - 2];
      assert FromLE(s[1..1 + n]) == a1 + 256 * (a2 + 256 * tail) by {
        assert s[1..1 + n][1..] == [a2] + s[3..][..n - 2];
        assert ([a2] + s[3..][..n - 2])[1..] == s[3..][..n - 2];
      }
      r := Ok(a1 + 256 * (a2 + 256 * tail));
      assert s[3..][n - 2..] == s[1 + n..];
    }

    method ReadPackedUInt64() returns (r: Result<U64>)
      requires Valid()
      modifies this
      ensures Valid()
      ensures r == Value(DecodePackedUInt64(old(Remaining())))
      ensures r.Ok? ==> Remaining() == old(Remaining())[DecodePackedUInt64(old(Remaining())).value.1..]
    {
      ghost var s := Remaining();
      var a0 :- ReadByte();
      if a0 < 241 {
        return Ok(a0);
      }
      var a1 :- ReadByte();
      if a0 <= 248 {
        return Ok(240 + 256 * (a0 as int - 241) + a1 as int);
      }
      var a2 :- ReadByte();
      if a0 == 249 {
        return Ok(2288 + 256 * a1 as int + a2 as int);
      }
      var n := LongFormSize(a0);
      var tail :- ReadLittleEndian(n - 2);
      assert s[1..1 + n] == [a1, a2] + s[3..][..n - 2];
      assert FromLE(s[1..1 + n]) == a1 + 256 * (a2 + 256 * tail) by {
        assert s[1..1 + n][1..] == [a2] + s[3..][..n - 2];
        assert ([a2] + s[3..][..n - 2])[1..] == s[3..][..n - 2];
      }
      ghost var d := DecodePackedUInt64(s);
      assert d.Ok? && d.value.0 == FromLE(s[1..1 + n]);
      var v: U64 := a1 + 256 * (a2 + 256 * tail);
      r := Ok(v);
      assert s[3..][n - 2..] == s[1 + n..];
    }

    method ReadString() returns (r: Result<seq<Byte>>)
      requires Valid()
      modifies this
      ensures Valid()
      ensures r == Value(DecodeString(old(Remaining())))
      ensures r.Ok? ==> Remaining() == old(Remaining())[DecodeString(old(Remaining())).value.1..]
    {
      ghost var s := Remaining();
      var length :- ReadUInt16();
      if length >= MaxStringLength {
        return Err(IndexOutOfRange);
      }
      r := ReadBytes(length);
      if r.Ok? {
        assert s[2..][length..] == s[2 + length..];
      }
    }

    method ReadBytesAndSize() returns (r: Result<Option<seq<Byte>>>)
      requires Valid()
      modifies this
      ensures Valid()
      ensures r == Value(DecodeBytesAndSize(old(Remaining())))
      ensures r.Ok? ==> Remaining() == old(Remaining())[DecodeBytesAndSize(old(Remaining())).value.1..]
    {
      ghost var s := Remaining();
      var length :- ReadUInt16();
      if length == 0 {
        return Ok(None);
      }
      var b :- ReadBytes(length);
      r := Ok(Some(b));
      assert s[2..][length..] == s[2 + length..];
    }

    /** `ReadNetworkId` and `ReadSceneId`: a packed uint. */
    method ReadNetworkId() returns (r: Result<U32>)
      requires Valid()
      modifies this
      ensures Valid()
      ensures r == Value(DecodePackedUInt32(old(Remaining())))
      ensures r.Ok? ==> Remaining() == old(Remaining())[DecodePackedUInt32(old(Remaining())).value.1..]
    {
      r := ReadPackedUInt32();
    }

    method ReadSceneId() returns (r: Result<U32>)
      requires Valid()
      modifies this
      ensures Valid()
      ensures r == Value(DecodePackedUInt32(old(Remaining())))
      ensures r.Ok? ==> Remaining() == old(Remaining())[DecodePackedUInt32(old(Remaining())).value.1..]
    {
      r := ReadPackedUInt32();
    }

    method ReadNetworkHash128() returns (r: Result<NetworkHash128>)
      requires Valid()
      modifies this
      ensures Valid()
      ensures r == Value(DecodeHash128(old(Remaining())))
      ensures r.Ok? ==> Remaining() == old(Remaining())[16..]
    {
      ghost var s := Remaining();
      var got: seq<Byte> := [];
      for k := 0 to 16
        invariant Valid()
        invariant k <= |s| && |got| == k && got == s[..k] && Remaining() == s[k..]
      {
        var b :- ReadByte();
        got := got + [b];
        assert s[..k + 1] == s[..k] + [s[k]];
      }
      r := Ok(NetworkHash128(got));
    }
  }

  // ----- The reader/writer tests: write with a fresh writer, read back with a fresh reader -----

  method PackedUInt32WriteRead(v: U32) returns (r: Result<U32>)
    ensures r == Ok(v)
  {
    var w := new NetworkWriter();
    w.WritePackedUInt32(v);
    var data := w.ToArray();
    var reader := new NetworkReader(data);
    PackedUInt32RoundTrip(v, []);
    assert reader.Remaining() == PackedUInt32(v) + [];
    r := reader.ReadPackedUInt32();
  }

  method PackedUInt64WriteRead(v: U64) returns (r: Result<U64>)
    ensures r == Ok(v)
  {
    var w := new NetworkWriter();
    w.WritePackedUInt64(v);
    var data := w.ToArray();
    var reader := new NetworkReader(data);
    PackedUInt64RoundTrip(v, []);
    assert reader.Remaining() == PackedUInt64(v) + [];
    r := reader.ReadPackedUInt64();
  }

  method Hash128WriteRead(h: NetworkHash128) returns (r: Result<NetworkHash128>)
    ensures r == Ok(h)
  {
    var w := new NetworkWriter();
    w.WriteHash128(h);
    var data := w.ToArray();
    var reader := new NetworkReader(data);
    Hash128RoundTrip(h, []);
    assert reader.Remaining() == h.i + [];
    r := reader.ReadNetworkHash128();
  }

  method SceneIdWriteRead(v: U32) returns (r: Result<U32>)
    ensures r == Ok(v)
  {
    var w := new NetworkWriter();
    w.WriteSceneId(v);
    var data := w.ToArray();
    var reader := new NetworkReader(data);
    PackedUInt32RoundTrip(v, []);
    assert reader.Remaining() == PackedUInt32(v) + [];
    r := reader.ReadSceneId();
  }
}
