/** UNetLib.LLAPI.NetworkWriter: a second big-endian writer, the type ConnectPacket's
    Serialize override is declared with. Its encodings are those of LLNetworkWriter:
    each method is specified by the same byte function as its counterpart there. */
module LLNetworkWriterCopy {
  import opened Bytes

  class NetworkWriter {
    var bytes: seq<Byte>

    constructor ()
      ensures bytes == []
    {
      bytes := [];
    }

    method ToArray() returns (r: seq<Byte>)
      ensures r == bytes
    {
      r := bytes;
    }

    method WriteByte(value: Byte)
      modifies this
      ensures bytes == old(bytes) + [value]
    {
      bytes := bytes + [value];
    }

    method WriteBytes(value: seq<Byte>)
      modifies this
      ensures bytes == old(bytes) + value
    {
      bytes := bytes + value;
    }

    method WriteEnum(value: Byte)
      modifies this
      ensures bytes == old(bytes) + [value]
    {
      bytes := bytes + [value];
    }

    method WriteUInt16(value: U16)
      modifies this
      ensures bytes == old(bytes) + BE16(value)
    {
      bytes := bytes + BE16(value);
    }

    method WriteUInt32(value: U32)
      modifies this
      ensures bytes == old(bytes) + BE32(value)
    {
      bytes := bytes + BE32(value);
    }
  }
}
