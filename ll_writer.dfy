/** UNetLib.LLAPI.LLNetworkWriter: the big-endian writer the transport frames packets with. */
module LLWriter {
  import opened Bytes

  /** The bytes `WriteMessageLength` emits: one byte up to 0x7F, otherwise bits 8..14 with
      the top bit set, then the low byte. Bit 15 of the value is dropped. */
  function MessageLengthBytes(v: U16): seq<Byte>
  {
    if v <= 0x7F then [v] else [(v / 256) % 128 + 0x80, v % 256]
  }

  /** Short lengths take one byte holding the value itself. */
  lemma MessageLengthShortForm(v: U16)
    requires v <= 0x7F
    ensures MessageLengthBytes(v) == [v]
  {
  }

  /** Longer lengths take two bytes, flagged by the top bit of the first one. */
  lemma MessageLengthLongForm(v: U16)
    requires v > 0x7F
    ensures |MessageLengthBytes(v)| == 2 && MessageLengthBytes(v)[0] >= 0x80
    ensures MessageLengthBytes(v)[0] == 0x80 + (v / 256) % 128 && MessageLengthBytes(v)[1] == v % 256
  {
  }

  /** Bit 15 is lost: two lengths that differ only there are written identically. */
  lemma MessageLengthDropsBit15(v: U16)
    requires 0x80 <= v < 0x8000
    ensures MessageLengthBytes(v + 0x8000) == MessageLengthBytes(v)
  {
  }

  /** A growable byte buffer (the MemoryStream under a BinaryWriter); every call appends. */
  class LLNetworkWriter {
    var bytes: seq<Byte>

    constructor ()
      ensures bytes == []
    {
      bytes := [];
    }

    /** All bytes written so far, in order. */
    method ToArray() returns (r: seq<Byte>)
      ensures r == bytes
    {
      r := bytes;
    }

    method WriteByte(value: Byte)
      modifies this
      ensures bytes == old(bytes) + [value]
    {
      bytes := bytes + [value];
    }

    method WriteBytes(value: seq<Byte>)
      modifies this
      ensures bytes == old(bytes) + value
    {
      bytes := bytes + value;
    }

    /** `Write<T>(T value) where T : Enum`: the enum's underlying byte. */
    method WriteEnum(value: Byte)
      modifies this
      ensures bytes == old(bytes) + [value]
    {
      bytes := bytes + [value];
    }

    /** `Write(ushort)`: two bytes, most significant first. */
    method WriteUInt16(value: U16)
      modifies this
      ensures bytes == old(bytes) + BE16(value)
    {
      bytes := bytes + BE16(value);
    }

    /** `Write(uint)`: four bytes, most significant first. */
    method WriteUInt32(value: U32)
      modifies this
      ensures bytes == old(bytes) + BE32(value)
    {
      bytes := bytes + BE32(value);
    }

    method WriteMessageLength(messageLength: U16)
      modifies this
      ensures bytes == old(bytes) + MessageLengthBytes(messageLength)
    {
      if messageLength <= 0x7F {
        WriteByte(messageLength);
        return;
      }
      var high := (messageLength / 256) % 128 + 0x80;
      var low := messageLength % 256;
      WriteByte(high);
      WriteByte(low);
    }
  }
}
