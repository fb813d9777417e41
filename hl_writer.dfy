/** UNetLib.HLAPI.NetworkWriter: the little-endian message writer (a BinaryWriter over a
    MemoryStream), with Unity's packed variable-length integers. Strings are given as their
    UTF-8 bytes, and `None` stands for a null reference. */
module HLWriter {
  import opened Wrappers
  import opened Bytes
  import opened Hash128

  /** Strings of this many encoded bytes or more are refused. */
  const MaxStringLength := 1024 * 32

  /** `WritePackedUInt32`: 1 to 5 bytes, the first of which tells the form. */
  function PackedUInt32(v: U32): (r: seq<Byte>)
    ensures |r| == (if v <= 240 then 1 else if v <= 2287 then 2 else if v <= 67823 then 3
                    else if v <= 16777215 then 4 else 5)
    ensures r[0] <= 240 <==> v <= 240
    ensures 241 <= r[0] <= 248 <==> 240 < v <= 2287
    ensures r[0] == 249 <==> 2287 < v <= 67823
    ensures r[0] == 250 <==> 67823 < v <= 16777215
    ensures r[0] == 251 <==> 16777215 < v
  {
    if v <= 240 then [v]
    else if v <= 2287 then [(v - 240) / 256 + 241, (v - 240) % 256]
    else if v <= 67823 then [249, (v - 2288) / 256, (v - 2288) % 256]
    else if v <= 16777215 then [250] + ToLE(v, 3)
    else [251] + ToLE(v, 4)
  }

  /** The prefix byte of the long forms, 250 to 255: the shortest that holds the value. */
  function LongPrefix(v: U64): (prefix: Byte)
    requires v > 67823
    ensures 250 <= prefix && v < Pow256(LongFormSize(prefix))
  {
    Pow256Values();
    if v <= 16777215 then 250
    else if v <= 4294967295 then 251
    else if v <= 1099511627775 then 252
    else if v <= 281474976710655 then 253
    else if v <= 72057594037927935 then 254
    else 255
  }

  /** The number of little-endian payload bytes after a prefix of 250 to 255. */
  function LongFormSize(prefix: Byte): nat
    requires prefix >= 250
  {
    prefix - 247
  }

  /** `WritePackedUInt64`: the 32-bit scheme, extended with prefixes 251 to 255 for
      4 to 8 little-endian payload bytes. */
  function PackedUInt64(v: U64): (r: seq<Byte>)
    ensures 1 <= |r| <= 9
  {
    if v <= 240 then [v]
    else if v <= 2287 then [(v - 240) / 256 + 241, (v - 240) % 256]
    else if v <= 67823 then [249, (v - 2288) / 256, (v - 2288) % 256]
    else
      var prefix := LongPrefix(v);
      [prefix] + ToLE(v, LongFormSize(prefix))
  }

  /** On values that fit 32 bits the two packed forms agree. */
  lemma PackedUInt64Extends(v: U32)
    ensures PackedUInt64(v) == PackedUInt32(v)
  {
  }

  /** A larger value never takes a shorter packed form. */
  lemma PackedUInt64Monotone(v: U64, w: U64)
    requires v <= w
    ensures |PackedUInt64(v)| <= |PackedUInt64(w)|
  {
  }

  /** `Write(string)`: null gives a zero length only; a long string throws. */
  function EncodeString(value: Option<seq<Byte>>): (r: Result<seq<Byte>>)
    ensures r.Err? <==> value.Some? && |value.value| >= MaxStringLength
    ensures r.Err? ==> r.fault == IndexOutOfRange
    ensures value.None? ==> r == Ok([0, 0])
    ensures r.Ok? && value.Some? ==> r.value == ToLE(|value.value|, 2) + value.value
  {
    assert ToLE(0, 2) == [0] + ToLE(0, 1) == [0] + ([0] + ToLE(0, 0)) == [0, 0];
    match value
    case None => Ok(ToLE(0, 2))
    case Some(b) => if |b| >= MaxStringLength then Err(IndexOutOfRange) else Ok(ToLE(|b|, 2) + b)
  }

  /** `WriteBytesAndSize`: the size prefix is the caller's count cast to `ushort`, followed
      by the whole buffer whatever the count says. */
  function EncodeBytesAndSize(buffer: Option<seq<Byte>>, count: int): (r: seq<Byte>)
    ensures |r| >= 2
    ensures buffer.None? || count == 0 ==> r == [0, 0]
    ensures buffer.Some? && count != 0 ==> r[2..] == buffer.value && FromLE(r[..2]) == ToU16(count)
  {
    assert ToLE(0, 2) == [0] + ToLE(0, 1) == [0] + ([0] + ToLE(0, 0)) == [0, 0];
    if buffer.None? || count == 0 then ToLE(0, 2)
    else
      var prefix := ToLE(ToU16(count), 2);
      FromToLE(ToU16(count), 2);
      assert (prefix + buffer.value)[..2] == prefix;
      prefix + buffer.value
  }

  class NetworkWriter {
    var bytes: seq<Byte>

    constructor ()
      ensures bytes == []
    {
      bytes := [];
    }

    method ToArray() returns (r: seq<Byte>)
      ensures r == bytes
    {
      r := bytes;
    }

    method WriteByte(value: Byte)
      modifies this
      ensures bytes == old(bytes) + [value]
    {
      bytes := bytes + [value];
    }

    /** `Write(byte[])`: the array verbatim, with no length. */
    method WriteBytes(value: seq<Byte>)
      modifies this
      ensures bytes == old(bytes) + value
    {
      bytes := bytes + value;
    }

    /** BinaryWriter's fixed-width integer writes: the `n` low bytes of `v`, least significant first. */
    method WriteLittleEndian(v: nat, n: nat)
      modifies this
      ensures bytes == old(bytes) + ToLE(v, n)
    {
      var x := v;
      for k := 0 to n
        invariant bytes + ToLE(x, n - k) == old(bytes) + ToLE(v, n)
      {
        bytes := bytes + [x % 256];
        x := x / 256;
      }
    }

    method WriteInt16(value: I16)
      modifies this
      ensures bytes == old(bytes) + ToLE(ToU16(value), 2)
    {
      WriteLittleEndian(ToU16(value), 2);
    }

    method WriteUInt16(value: U16)
      modifies this
      ensures bytes == old(bytes) + ToLE(value, 2)
    {
      WriteLittleEndian(value, 2);
    }

    method WriteInt32(value: I32)
      modifies this
      ensures bytes == old(bytes) + ToLE(ToU32(value), 4)
    {
      WriteLittleEndian(ToU32(value), 4);
    }

    method WriteUInt32(value: U32)
      modifies this
      ensures bytes == old(bytes) + ToLE(value, 4)
    {
      WriteLittleEndian(value, 4);
    }

    method WriteInt64(value: I64)
      modifies this
      ensures bytes == old(bytes) + ToLE(ToU64(value), 8)
    {
      WriteLittleEndian(ToU64(value), 8);
    }

    method WriteUInt64(value: U64)
      modifies this
      ensures bytes == old(bytes) + ToLE(value, 8)
    {
      WriteLittleEndian(value, 8);
    }

    method WritePackedUInt32(value: U32)
      modifies this
      ensures bytes == old(bytes) + PackedUInt32(value)
    {
      if value <= 240 {
        WriteByte(value);
        return;
      }
      if value <= 2287 {
        WriteByte((value - 240) / 256 + 241);
        WriteByte((value - 240) % 256);
        return;
      }
      if value <= 67823 {
        WriteByte(249);
        WriteByte((value - 2288) / 256);
        WriteByte((value - 2288) % 256);
        return;
      }
      if value <= 16777215 {
        WriteByte(250);
        WriteLittleEndian(value, 3);
        return;
      }
      WriteByte(251);
      WriteLittleEndian(value, 4);
    }

    method WritePackedUInt64(value: U64)
      modifies this
      ensures bytes == old(bytes) + PackedUInt64(value)
    {
      if value <= 240 {
        WriteByte(value);
        return;
      }
      if value <= 2287 {
        WriteByte((value - 240) / 256 + 241);
        WriteByte((value - 240) % 256);
        return;
      }
      if value <= 67823 {
        WriteByte(249);
        WriteByte((value - 2288) / 256);
        WriteByte((value - 2288) % 256);
        return;
      }
      var prefix := LongPrefix(value);
      ghost var before := bytes;
      WriteByte(prefix);
      WriteLittleEndian(value, LongFormSize(prefix));
      assert bytes == before + ([prefix] + ToLE(value, LongFormSize(prefix)));
    }

    /** `Write(string)`; on the error path nothing is written. */
    method WriteString(value: Option<seq<Byte>>) returns (r: Status)
      modifies this
      ensures r.Err? <==> EncodeString(value).Err?
      ensures r.Err? ==> r.fault == IndexOutOfRange && bytes == old(bytes)
      ensures r.Ok? ==> bytes == old(bytes) + EncodeString(value).value
    {
      if value.None? {
        WriteUInt16(0);
        return Done;
      }
      var b := value.value;
      if |b| >= MaxStringLength {
        return Err(IndexOutOfRange);
      }
      WriteUInt16(|b|);
      WriteBytes(b);
      r := Done;
    }

    method WriteBytesAndSize(buffer: Option<seq<Byte>>, count: int)
      modifies this
      ensures bytes == old(bytes) + EncodeBytesAndSize(buffer, count)
    {
      if buffer.None? || count == 0 {
        WriteUInt16(0);
        return;
      }
      WriteUInt16(ToU16(count));
      WriteBytes(buffer.value);
    }

    /** `WriteBytesFull`: the size is the buffer's own length (0 for null). */
    method WriteBytesFull(buffer: Option<seq<Byte>>)
      modifies this
      ensures bytes == old(bytes) + EncodeBytesAndSize(buffer, if buffer.Some? then |buffer.value| else 0)
    {
      WriteBytesAndSize(buffer, if buffer.Some? then |buffer.value| else 0);
    }

    /** `Write(NetworkInstanceId)` and `Write(NetworkSceneId)`: the wrapped uint, packed. */
    method WriteNetworkId(value: U32)
      modifies this
      ensures bytes == old(bytes) + PackedUInt32(value)
    {
      WritePackedUInt32(value);
    }

    method WriteSceneId(value: U32)
      modifies this
      ensures bytes == old(bytes) + PackedUInt32(value)
    {
      WritePackedUInt32(value);
    }

    /** `Write(NetworkHash128)`: the sixteen bytes I0..I15 in order. */
    method WriteHash128(value: NetworkHash128)
      modifies this
      ensures bytes == old(bytes) + value.i
    {
      for k := 0 to 16
        invariant bytes == old(bytes) + value.i[..k]
      {
        WriteByte(value.i[k]);
        assert value.i[..k + 1] == value.i[..k] + [value.i[k]];
      }
    }
  }
}
