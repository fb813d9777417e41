/** UNetLib.LLAPI.LLNetworkReader: a cursor over a received datagram, reading big-endian.
    A read that runs past the end fails with EndOfStream (BinaryReader's exception); the
    model leaves the cursor where it was then, since the exception abandons the datagram. */
module LLReader {
  import opened Wrappers
  import opened Bytes
  import LLWriter

  /** The first `count` bytes of `s`, or all of them when fewer remain
      (BinaryReader.ReadBytes returns a short array at the end of the stream). */
  function Take(s: seq<Byte>, count: nat): (r: seq<Byte>)
    ensures |r| == if count <= |s| then count else |s|
    ensures r <= s
  {
    if count <= |s| then s[..count] else s
  }

  /** What `ReadMessageLength` returns for the bytes in front of the cursor. */
  function DecodeMessageLength(s: seq<Byte>): Result<U16>
  {
    if |s| == 0 then Err(EndOfStream)
    else if s[0] < 0x80 then Ok(s[0])
    else if |s| == 1 then Err(EndOfStream)
    else Ok((s[1] as int % 128) * 256 + s[0] as int)
  }

  /** One-byte encodings round-trip. */
  lemma MessageLengthShortRoundTrip(v: U16, rest: seq<Byte>)
    requires v <= 0x7F
    ensures DecodeMessageLength(LLWriter.MessageLengthBytes(v) + rest) == Ok(v)
  {
  }

  /** Two-byte encodings decode with the bytes' roles swapped: the reader takes the flagged
      first byte as the low part and the second byte's low 7 bits as the high part. */
  lemma MessageLengthLongDecode(v: U16, rest: seq<Byte>)
    requires v > 0x7F
    ensures DecodeMessageLength(LLWriter.MessageLengthBytes(v) + rest)
            == Ok((v % 128) * 256 + 0x80 + (v / 256) % 128)
  {
    var e := LLWriter.MessageLengthBytes(v) + rest;
    assert e[0] == (v / 256) % 128 + 0x80 && e[1] == v % 256;
  }

  /** So `ReadMessageLength` does not invert `WriteMessageLength`: 256 reads back as 129. */
  lemma MessageLengthNotInverse()
    ensures exists v: U16 :: DecodeMessageLength(LLWriter.MessageLengthBytes(v)) != Ok(v)
  {
    MessageLengthLongDecode(256, []);
    assert LLWriter.MessageLengthBytes(256) + [] == LLWriter.MessageLengthBytes(256);
    assert DecodeMessageLength(LLWriter.MessageLengthBytes(256)) == Ok(129);
  }

  class LLNetworkReader {
    const buffer: seq<Byte>
    var position: nat

    constructor (buffer: seq<Byte>)
      ensures this.buffer == buffer && position == 0
    {
      this.buffer := buffer;
      position := 0;
    }

    /** The bytes not yet read. */
    function Remaining(): seq<Byte>
      reads this
    {
      if position <= |buffer| then buffer[position..] else []
    }

    /** `IsAtEnd`: the cursor is at or past the end of the buffer. */
    predicate IsAtEnd()
      reads this
      ensures IsAtEnd() <==> Remaining() == []
    {
      position >= |buffer|
    }

    /** `Position = p` (the stream allows any non-negative position). */
    method SetPosition(p: nat)
      modifies this
      ensures position == p
    {
      position := p;
    }

    method ReadByte() returns (r: Result<Byte>)
      modifies this
      ensures old(Remaining()) == [] ==> r == Err(EndOfStream) && position == old(position)
      ensures old(Remaining()) != [] ==> r == Ok(old(Remaining())[0]) && position == old(position) + 1
      ensures r.Ok? ==> Remaining() == old(Remaining())[1..]
    {
      if position < |buffer| {
        r := Ok(buffer[position]);
        position := position + 1;
      } else {
        r := Err(EndOfStream);
      }
    }

    /** BinaryReader.ReadBytes: a negative count throws; otherwise up to `count` bytes. */
    method ReadBytes(count: int) returns (r: Result<seq<Byte>>)
      modifies this
      ensures count < 0 ==> r == Err(ArgumentOutOfRange) && position == old(position)
      ensures count >= 0 ==> r == Ok(Take(old(Remaining()), count))
                             && position == old(position) + |r.value|
                             && Remaining() == old(Remaining())[|r.value|..]
    {
      if count < 0 {
        return Err(ArgumentOutOfRange);
      }
      var taken := Take(Remaining(), count);
      position := position + |taken|;
      r := Ok(taken);
    }

    /** `ReadEnum<T>`: the raw byte, cast to the enum without checking it names a member. */
    method ReadEnum() returns (r: Result<Byte>)
      modifies this
      ensures old(Remaining()) == [] ==> r == Err(EndOfStream) && position == old(position)
      ensures old(Remaining()) != [] ==> r == Ok(old(Remaining())[0]) && position == old(position) + 1
      ensures r.Ok? ==> Remaining() == old(Remaining())[1..]
    {
      r := ReadByte();
    }

    method ReadUInt16() returns (r: Result<U16>)
      modifies this
      ensures |old(Remaining())| < 2 ==> r == Err(EndOfStream) && position == old(position)
      ensures |old(Remaining())| >= 2 ==> r == Ok(FromBE16(old(Remaining())[..2]))
                                          && position == old(position) + 2
                                          && Remaining() == old(Remaining())[2..]
    {
      if position + 2 > |buffer| {
        return Err(EndOfStream);
      }
      r := Ok(FromBE16(buffer[position..position + 2]));
      position := position + 2;
    }

    method ReadUInt32() returns (r: Result<U32>)
      modifies this
      ensures |old(Remaining())| < 4 ==> r == Err(EndOfStream) && position == old(position)
      ensures |old(Remaining())| >= 4 ==> r == Ok(FromBE32(old(Remaining())[..4]))
                                          && position == old(position) + 4
                                          && Remaining() == old(Remaining())[4..]
    {
      if position + 4 > |buffer| {
        return Err(EndOfStream);
      }
      r := Ok(FromBE32(buffer[position..position + 4]));
      position := position + 4;
    }

    method ReadMessageLength() returns (r: Result<U16>)
      modifies this
      ensures r == DecodeMessageLength(old(Remaining()))
    {
      var first := ReadByte();
      if first.Err? {
        return Err(first.fault);
      }
      if first.value < 0x80 {
        return Ok(first.value);
      }
      var second := ReadByte();
      if second.Err? {
        return Err(second.fault);
      }
      r := Ok((second.value as int % 128) * 256 + first.value as int);
    }
  }

  /** The reader inverts the writer's fixed-width encodings (the source's reader/writer tests). */
  lemma UInt16RoundTrip(v: U16, rest: seq<Byte>)
    ensures |BE16(v) + rest| >= 2 && FromBE16((BE16(v) + rest)[..2]) == v
  {
    assert (BE16(v) + rest)[..2] == BE16(v);
  }

  lemma UInt32RoundTrip(v: U32, rest: seq<Byte>)
    ensures |BE32(v) + rest| >= 4 && FromBE32((BE32(v) + rest)[..4]) == v
  {
    assert (BE32(v) + rest)[..4] == BE32(v);
  }

  /** Writing a value with the LLAPI writer and reading it back with a fresh reader gives it back. */
  method WriteReadUInt16(v: U16) returns (r: Result<U16>)
    ensures r == Ok(v)
  {
    var w := new LLWriter.LLNetworkWriter();
    w.WriteUInt16(v);
    var data := w.ToArray();
    var reader := new LLNetworkReader(data);
    UInt16RoundTrip(v, []);
    assert data == BE16(v) + [];
    r := reader.ReadUInt16();
  }

  method WriteReadUInt32(v: U32) returns (r: Result<U32>)
    ensures r == Ok(v)
  {
    var w := new LLWriter.LLNetworkWriter();
    w.WriteUInt32(v);
    var data := w.ToArray();
    var reader := new LLNetworkReader(data);
    UInt32RoundTrip(v, []);
    assert data == BE32(v) + [];
    r := reader.ReadUInt32();
  }

  method WriteReadBytes(v: seq<Byte>) returns (r: Result<seq<Byte>>)
    ensures r == Ok(v)
  {
    var w := new LLWriter.LLNetworkWriter();
    w.WriteBytes(v);
    var data := w.ToArray();
    var reader := new LLNetworkReader(data);
    assert reader.Remaining() == v;
    assert Take(v, |v|) == v[..|v|] == v;
    r := reader.ReadBytes(|v|);
  }
}
