# UNetLib transport core in Dafny

This project models the core of UNetLib, a C# reimplementation of the Unity UNET
low-level UDP transport and of the message layer on top of it:

- the LLAPI byte codecs: `LLNetworkWriter` and `LLNetworkReader` (big-endian), the
  message-length varint, the configuration and the session-ID byte swap;
- the system packets that open, keep alive and close a connection: `SystemPacket`
  headers, `ConnectPacket`, `PingPacket` and `DisconnectPacket`;
- the acknowledgement window of `PacketAcks`, and the reassembly buffer of
  `FragmentedMessage`;
- the five channel kinds, each with its frame layout and its receive logic:
  unreliable, unreliable-sequenced, reliable, reliable-sequenced and reliable-fragmented;
- the per-peer connection `UNetClient`, with its packet and message counters,
  its retransmit store and its acks, pings and disconnect notices;
- the server `UNetServer`, which dispatches each incoming datagram, registers
  connections and removes them;
- the one-shot `ConnectionRequest` handed to the application;
- the HLAPI message codec: `NetworkWriter` and `NetworkReader` (little-endian, with
  Unity's packed integers), `NetworkHash128`, and the `CrcMessage`,
  `AddPlayerMessage` and `OwnerMessage` messages.

The byte codecs are pure, so each is a function with its inverse, and the round trips
are proved as lemmas. The writers, readers, channels, connection and server change
state in place, so they are classes whose methods state the new state. Each method is
stated against a specification function of the old state, and the properties of that
function are proved as lemmas beside it.

Two channel kinds keep an invariant of their own (`Valid`). The reliable-sequenced
channel never holds its expected sequence number in its reorder buffer. The
reliable-fragmented channel never gives two message IDs the same reassembler. A new
connection's channels all hold their invariant (`UNetClient.ChannelsValid`), and every
operation of the connection and of the server keeps it for every registered connection
(`UNetServer.ChannelsValid`).

Three things in the original code are not plain values:

- Exceptions. An operation that can throw returns a `Result` or `Status` (module
  `Wrappers`), and every caller stops at the first failure.
- The UDP socket and the `IUNetEventListener` callbacks. These are recorded, in order,
  on a shared `Host.Network` object: `sent` holds the datagrams, `events` the callbacks.
- The clock (`Environment.TickCount`) and the random session ID. These are parameters.

Where the code and its description disagree, the model follows the code:

- `ReadMessageLength` does not invert `WriteMessageLength`: the reader swaps the roles
  of the two bytes (`LLReader.MessageLengthNotInverse`).
- `ReadPackedUInt32` reads a first byte of 251 to 255 as a four-byte form.
- Every channel's length field is cast to 16 bits without a check. A 65533-byte
  unreliable payload is therefore announced as length 0, and the receiver delivers
  nothing (`Frames.UnreliableLengthWraps`).

## Model

| member | source | states |
|---|---|---|
| Bytes.ShortRoundTrip | UNetLib.HLAPI/NetworkReader.cs:58-61 | a `short` written through its unsigned 16-bit form reads back as itself |
| Bytes.FromToLE | UNetLib.HLAPI/NetworkWriter.cs:50-78 | writing a value as `n` little-endian bytes and reading them back gives the value, for every value below 256^n |
| Bytes.ToLEDigit | UNetLib.HLAPI/NetworkWriter.cs:50-78 | byte `i` of the little-endian form is digit `i` of the value in base 256, the byte the underlying `BinaryWriter` puts at offset `i` |
| Bytes.BE16RoundTrip | UNetLib.LLAPI/LLNetworkReader.cs:41-44 | network-order 16-bit decoding inverts network-order encoding |
| Bytes.BE32RoundTrip | UNetLib.LLAPI/LLNetworkReader.cs:46-49 | network-order 32-bit decoding inverts network-order encoding |
| Bytes.BE16Canonical | UNetLib.LLAPI/LLNetworkWriter.cs:36-39 | every 2-byte string is the network-order encoding of the value it decodes to |
| Bytes.BE32Canonical | UNetLib.LLAPI/LLNetworkWriter.cs:41-44 | every 4-byte string is the network-order encoding of the value it decodes to |
| Config.ReliableAndSequenced | UNetLib.LLAPI/Utils/ChannelUtils.cs:5-14 | a QoS kind is both reliable and sequenced exactly when it is ReliableSequenced |
| Config.NeitherReliableNorSequenced | UNetLib.LLAPI/Utils/ChannelUtils.cs:5-14 | a kind is neither reliable nor sequenced exactly when it is Unreliable, UnreliableFragmented or StateUpdate |
| Config.GetChannelType | UNetLib.LLAPI/ConnectionConfig.cs:8-16 | a configured channel ID gets its configured kind; any ID past the list gets Unreliable |
| Config.DefaultChannelType | UNetLib.LLAPI/ConnectionConfig.cs:5-6 | the default configuration has short acks and reads every channel as Unreliable |
| Config.CalculateRemoteSessionId | UNetLib.LLAPI/Utils/ConnectionUtils.cs:5-10 | the result's high byte is the input's low byte, and its low byte is the input's high byte |
| Config.RemoteSessionIdInvolution | UNetLib.LLAPI/Utils/ConnectionUtils.cs:5-10 | swapping the bytes twice gives the session ID back |
| Config.RemoteSessionIdFixedPoints | UNetLib.LLAPI/Utils/ConnectionUtils.cs:5-10 | the swap leaves a value unchanged exactly when its two bytes are equal |
| Host.Network.Send | UNetLib/UNetClient.cs:158-161 | sending appends one datagram to the peer and reports no event |
| Host.Network.Report | UNetLib/IUNetEventListener.cs:1-34 | a listener callback appends one event and sends nothing |
| LLWriter.MessageLengthShortForm | UNetLib.LLAPI/LLNetworkWriter.cs:48-52 | lengths up to 0x7F are written as the single byte holding the value |
| LLWriter.MessageLengthLongForm | UNetLib.LLAPI/LLNetworkWriter.cs:54-57 | longer lengths take two bytes: bits 8 to 14 with the top bit set, then the low byte |
| LLWriter.MessageLengthDropsBit15 | UNetLib.LLAPI/LLNetworkWriter.cs:54-57 | two lengths that differ only in bit 15 are written identically |
| LLWriter.LLNetworkWriter.constructor | UNetLib.LLAPI/LLNetworkWriter.cs:10-14 | a new writer holds no bytes |
| LLWriter.LLNetworkWriter.ToArray | UNetLib.LLAPI/LLNetworkWriter.cs:16-19 | returns every byte written so far, in order |
| LLWriter.LLNetworkWriter.WriteByte | UNetLib.LLAPI/LLNetworkWriter.cs:21-24 | appends the byte |
| LLWriter.LLNetworkWriter.WriteBytes | UNetLib.LLAPI/LLNetworkWriter.cs:26-29 | appends the array verbatim, with no length |
| LLWriter.LLNetworkWriter.WriteEnum | UNetLib.LLAPI/LLNetworkWriter.cs:31-34 | appends the enum's underlying byte |
| LLWriter.LLNetworkWriter.WriteUInt16 | UNetLib.LLAPI/LLNetworkWriter.cs:36-39 | appends the value in network order, most significant byte first |
| LLWriter.LLNetworkWriter.WriteUInt32 | UNetLib.LLAPI/LLNetworkWriter.cs:41-44 | appends the value in network order, as four bytes |
| LLWriter.LLNetworkWriter.WriteMessageLength | UNetLib.LLAPI/LLNetworkWriter.cs:46-58 | appends the one- or two-byte length form |
| LLReader.Take | UNetLib.LLAPI/LLNetworkReader.cs:31-34 | a bulk read returns a prefix of the remaining bytes: `count` of them, or all that are left |
| LLReader.MessageLengthShortRoundTrip | UNetLib.LLAPI/LLNetworkReader.cs:51-57 | a one-byte length reads back as itself, whatever follows it |
| LLReader.MessageLengthLongDecode | UNetLib.LLAPI/LLNetworkReader.cs:59-60 | a two-byte length reads back with the bytes' roles swapped: the flagged first byte becomes the low part |
| LLReader.MessageLengthNotInverse | UNetLib.LLAPI/LLNetworkReader.cs:51-61 | some length does not survive a write followed by a read |
| LLReader.LLNetworkReader.constructor | UNetLib.LLAPI/LLNetworkReader.cs:20-24 | a reader starts at position 0 of the given buffer |
| LLReader.LLNetworkReader.IsAtEnd | UNetLib.LLAPI/LLNetworkReader.cs:18 | the reader is at the end exactly when no bytes remain |
| LLReader.LLNetworkReader.SetPosition | UNetLib.LLAPI/LLNetworkReader.cs:10-14 | sets the cursor to the given position |
| LLReader.LLNetworkReader.ReadByte | UNetLib.LLAPI/LLNetworkReader.cs:26-29 | returns the next byte and advances by one; at the end it fails with EndOfStream |
| LLReader.LLNetworkReader.ReadBytes | UNetLib.LLAPI/LLNetworkReader.cs:31-34 | a negative count fails with ArgumentOutOfRange; otherwise returns up to `count` bytes and advances past them |
| LLReader.LLNetworkReader.ReadEnum | UNetLib.LLAPI/LLNetworkReader.cs:36-39 | returns the raw next byte, whether or not it names a member |
| LLReader.LLNetworkReader.ReadUInt16 | UNetLib.LLAPI/LLNetworkReader.cs:41-44 | decodes two network-order bytes and advances by two; fewer than two fail with EndOfStream |
| LLReader.LLNetworkReader.ReadUInt32 | UNetLib.LLAPI/LLNetworkReader.cs:46-49 | decodes four network-order bytes and advances by four; fewer than four fail with EndOfStream |
| LLReader.LLNetworkReader.ReadMessageLength | UNetLib.LLAPI/LLNetworkReader.cs:51-61 | returns the length decoded from the bytes ahead of the cursor |
| LLReader.UInt16RoundTrip | UNetLib.LLAPI.Tests/ReaderWriterTests.cs:59-73 | a written 16-bit value reads back, whatever follows it |
| LLReader.UInt32RoundTrip | UNetLib.LLAPI.Tests/ReaderWriterTests.cs:76-90 | a written 32-bit value reads back, whatever follows it |
| LLReader.WriteReadUInt16 | UNetLib.LLAPI.Tests/ReaderWriterTests.cs:59-73 | writing a value with a fresh writer and reading it with a fresh reader returns it |
| LLReader.WriteReadUInt32 | UNetLib.LLAPI.Tests/ReaderWriterTests.cs:76-90 | the same for 32-bit values |
| LLReader.WriteReadBytes | UNetLib.LLAPI.Tests/ReaderWriterTests.cs:25-39 | the same for byte arrays, read with their own length |
| LLNetworkWriterCopy.NetworkWriter.constructor | UNetLib.LLAPI/NetworkWriter.cs:10-14 | a new writer holds no bytes |
| LLNetworkWriterCopy.NetworkWriter.ToArray | UNetLib.LLAPI/NetworkWriter.cs:16-19 | returns every byte written so far |
| LLNetworkWriterCopy.NetworkWriter.WriteByte | UNetLib.LLAPI/NetworkWriter.cs:21-24 | appends the byte |
| LLNetworkWriterCopy.NetworkWriter.WriteBytes | UNetLib.LLAPI/NetworkWriter.cs:26-29 | appends the array verbatim |
| LLNetworkWriterCopy.NetworkWriter.WriteEnum | UNetLib.LLAPI/NetworkWriter.cs:31-34 | appends the enum's byte |
| LLNetworkWriterCopy.NetworkWriter.WriteUInt16 | UNetLib.LLAPI/NetworkWriter.cs:36-39 | appends the same network-order bytes as `LLNetworkWriter` |
| LLNetworkWriterCopy.NetworkWriter.WriteUInt32 | UNetLib.LLAPI/NetworkWriter.cs:41-44 | appends the same network-order bytes as `LLNetworkWriter` |
| HLWriter.PackedUInt32 | UNetLib.HLAPI/NetworkWriter.cs:90-128 | the packed form is 1 to 5 bytes long according to the value's range, and its first byte tells the form: up to 240 itself, 241-248, 249, 250 or 251 |
| HLWriter.PackedUInt64 | UNetLib.HLAPI/NetworkWriter.cs:130-218 | the 64-bit packed form is 1 to 9 bytes long |
| HLWriter.PackedUInt64Extends | UNetLib.HLAPI/NetworkWriter.cs:90-218 | on values that fit 32 bits the 64-bit packing writes the same bytes as the 32-bit one |
| HLWriter.PackedUInt64Monotone | UNetLib.HLAPI/NetworkWriter.cs:130-218 | a larger value never takes a shorter packed form |
| HLWriter.EncodeString | UNetLib.HLAPI/NetworkWriter.cs:220-236 | null writes a zero length; a string of 32768 encoded bytes or more fails with IndexOutOfRange; otherwise a 16-bit length, then the bytes |
| HLWriter.EncodeBytesAndSize | UNetLib.HLAPI/NetworkWriter.cs:305-315 | null or a zero count writes only a zero size; otherwise the count cast to 16 bits, then the whole buffer whatever the count says |
| HLWriter.NetworkWriter.constructor | UNetLib.HLAPI/NetworkWriter.cs:14-18 | a new writer holds no bytes |
| HLWriter.NetworkWriter.ToArray | UNetLib.HLAPI/NetworkWriter.cs:20-23 | returns every byte written so far |
| HLWriter.NetworkWriter.WriteByte | UNetLib.HLAPI/NetworkWriter.cs:30-33 | appends the byte |
| HLWriter.NetworkWriter.WriteBytes | UNetLib.HLAPI/NetworkWriter.cs:45-48 | appends the array verbatim, with no length |
| HLWriter.NetworkWriter.WriteLittleEndian | UNetLib.HLAPI/NetworkWriter.cs:50-78 | appends the `n` low bytes of the value, least significant first |
| HLWriter.NetworkWriter.WriteInt16 | UNetLib.HLAPI/NetworkWriter.cs:50-53 | appends the two's-complement bytes, little-endian |
| HLWriter.NetworkWriter.WriteUInt16 | UNetLib.HLAPI/NetworkWriter.cs:55-58 | appends two little-endian bytes |
| HLWriter.NetworkWriter.WriteInt32 | UNetLib.HLAPI/NetworkWriter.cs:60-63 | appends the two's-complement bytes, little-endian |
| HLWriter.NetworkWriter.WriteUInt32 | UNetLib.HLAPI/NetworkWriter.cs:65-68 | appends four little-endian bytes |
| HLWriter.NetworkWriter.WriteInt64 | UNetLib.HLAPI/NetworkWriter.cs:70-73 | appends the two's-complement bytes, little-endian |
| HLWriter.NetworkWriter.WriteUInt64 | UNetLib.HLAPI/NetworkWriter.cs:75-78 | appends eight little-endian bytes |
| HLWriter.NetworkWriter.WritePackedUInt32 | UNetLib.HLAPI/NetworkWriter.cs:90-128 | appends the packed form, branch by branch as the source writes it |
| HLWriter.NetworkWriter.WritePackedUInt64 | UNetLib.HLAPI/NetworkWriter.cs:130-218 | appends the 64-bit packed form |
| HLWriter.NetworkWriter.WriteString | UNetLib.HLAPI/NetworkWriter.cs:220-236 | appends the string encoding; on a too-long string it fails with IndexOutOfRange and writes nothing |
| HLWriter.NetworkWriter.WriteBytesAndSize | UNetLib.HLAPI/NetworkWriter.cs:305-315 | appends the size-prefixed buffer |
| HLWriter.NetworkWriter.WriteBytesFull | UNetLib.HLAPI/NetworkWriter.cs:317-320 | appends the buffer prefixed with its own length (0 for null) |
| HLWriter.NetworkWriter.WriteNetworkId | UNetLib.HLAPI/NetworkWriter.cs:322-325 | appends the instance ID, packed |
| HLWriter.NetworkWriter.WriteSceneId | UNetLib.HLAPI/NetworkWriter.cs:327-330 | appends the scene ID, packed |
| HLWriter.NetworkWriter.WriteHash128 | UNetLib.HLAPI/NetworkWriter.cs:332-350 | appends the sixteen hash bytes I0 to I15, in order |
| HLReader.DecodeLE | UNetLib.HLAPI/NetworkReader.cs:58-86 | a fixed-width read consumes exactly `n` bytes and yields a value below 256^n |
| HLReader.DecodeBytes | UNetLib.HLAPI/NetworkReader.cs:48-56 | fewer than `count` remaining bytes fail with IndexOutOfRange; a success returns exactly the first `count` bytes |
| HLReader.DecodePackedUInt32 | UNetLib.HLAPI/NetworkReader.cs:98-126 | a successful packed read consumes 1 to 5 bytes, all of them present |
| HLReader.DecodeString | UNetLib.HLAPI/NetworkReader.cs:182-192 | a successful string read consumes the 2-byte length and then exactly the string's bytes |
| HLReader.DecodeBytesAndSize | UNetLib.HLAPI/NetworkReader.cs:271-280 | a zero size reads as null after 2 bytes; otherwise a non-empty buffer of the given size follows the size |
| HLReader.LittleEndianRoundTrip | UNetLib.HLAPI.Tests/ReaderWriterTests.cs:111-126 | a fixed-width read inverts the fixed-width write, whatever follows |
| HLReader.Int16RoundTrip | UNetLib.HLAPI.Tests/ReaderWriterTests.cs:94-109 | a `short` comes back through its two's-complement bytes |
| HLReader.Int32RoundTrip | UNetLib.HLAPI.Tests/ReaderWriterTests.cs:128-143 | an `int` comes back through its two's-complement bytes |
| HLReader.Int64RoundTrip | UNetLib.HLAPI.Tests/ReaderWriterTests.cs:162-177 | a `long` comes back through its two's-complement bytes |
| HLReader.PackedUInt32RoundTrip | UNetLib.HLAPI.Tests/ReaderWriterTests.cs:230-245 | the packed read inverts the packed write for every uint, consuming exactly the written bytes |
| HLReader.PackedUInt64RoundTrip | UNetLib.HLAPI.Tests/ReaderWriterTests.cs:247-262 | the same for every ulong |
| HLReader.PackedUInt32LongPrefixes | UNetLib.HLAPI/NetworkReader.cs:118-125 | any first byte from 251 to 255 is read as the four-byte form |
| HLReader.PackedUInt32AcceptsNonCanonical | UNetLib.HLAPI/NetworkReader.cs:98-126 | some input is accepted whose bytes the writer would never produce for the value read |
| HLReader.StringRoundTrip | UNetLib.HLAPI.Tests/ReaderWriterTests.cs:264-279 | every string shorter than the limit reads back, consuming its length and bytes |
| HLReader.NullStringReadsEmpty | UNetLib.HLAPI/NetworkWriter.cs:222-226 | a null string reads back as the empty string |
| HLReader.LongStringRefused | UNetLib.HLAPI/NetworkReader.cs:184-188 | a length prefix of 32768 or more fails with IndexOutOfRange |
| HLReader.BytesFullRoundTrip | UNetLib.HLAPI/NetworkReader.cs:271-280 | a non-empty buffer whose length fits 16 bits reads back as written |
| HLReader.EmptyBytesReadAsNull | UNetLib.HLAPI/NetworkReader.cs:274-277 | an empty buffer reads back as null |
| HLReader.Hash128RoundTrip | UNetLib.HLAPI.Tests/ReaderWriterTests.cs:438-453 | the sixteen hash bytes read back as the same hash |
| HLReader.NetworkReader.constructor | UNetLib.HLAPI/NetworkReader.cs:22-26 | a reader starts at position 0 of the given buffer |
| HLReader.NetworkReader.ReadByte | UNetLib.HLAPI/NetworkReader.cs:33-36 | returns the next byte and advances by one; at the end it fails with EndOfStream |
| HLReader.NetworkReader.ReadBytes | UNetLib.HLAPI/NetworkReader.cs:48-56 | returns what the bulk decoder returns and advances past it; a failure leaves the cursor where it was |
| HLReader.NetworkReader.ReadLittleEndian | UNetLib.HLAPI/NetworkReader.cs:58-86 | returns the `n`-byte little-endian value and advances by `n` |
| HLReader.NetworkReader.ReadUInt16 | UNetLib.HLAPI/NetworkReader.cs:63-66 | returns two little-endian bytes' value and advances by two |
| HLReader.NetworkReader.ReadInt16 | UNetLib.HLAPI/NetworkReader.cs:58-61 | returns the two's-complement value of two little-endian bytes |
| HLReader.NetworkReader.ReadUInt32 | UNetLib.HLAPI/NetworkReader.cs:73-76 | returns four little-endian bytes' value |
| HLReader.NetworkReader.ReadInt32 | UNetLib.HLAPI/NetworkReader.cs:68-71 | returns the two's-complement value of four bytes |
| HLReader.NetworkReader.ReadUInt64 | UNetLib.HLAPI/NetworkReader.cs:83-86 | returns eight little-endian bytes' value |
| HLReader.NetworkReader.ReadInt64 | UNetLib.HLAPI/NetworkReader.cs:78-81 | returns the two's-complement value of eight bytes |
| HLReader.NetworkReader.ReadPackedUInt32 | UNetLib.HLAPI/NetworkReader.cs:98-126 | returns the packed decoding, branching on the bytes as they are read, and advances past them |
| HLReader.NetworkReader.ReadPackedUInt64 | UNetLib.HLAPI/NetworkReader.cs:128-180 | returns the 64-bit packed decoding and advances past it |
| HLReader.NetworkReader.ReadString | UNetLib.HLAPI/NetworkReader.cs:182-192 | returns the string decoding and advances past it |
| HLReader.NetworkReader.ReadBytesAndSize | UNetLib.HLAPI/NetworkReader.cs:271-280 | returns null or the sized buffer and advances past it |
| HLReader.NetworkReader.ReadNetworkId | UNetLib.HLAPI/NetworkReader.cs:282-285 | reads a packed uint |
| HLReader.NetworkReader.ReadSceneId | UNetLib.HLAPI/NetworkReader.cs:287-290 | reads a packed uint |
| HLReader.NetworkReader.ReadNetworkHash128 | UNetLib.HLAPI/NetworkReader.cs:292-315 | reads sixteen bytes as I0 to I15 and advances by sixteen |
| HLReader.PackedUInt32WriteRead | UNetLib.HLAPI.Tests/ReaderWriterTests.cs:230-245 | writing a uint packed and reading it back with fresh objects returns it |
| HLReader.PackedUInt64WriteRead | UNetLib.HLAPI.Tests/ReaderWriterTests.cs:247-262 | the same for a ulong |
| HLReader.Hash128WriteRead | UNetLib.HLAPI.Tests/ReaderWriterTests.cs:438-453 | the same for a hash |
| HLReader.SceneIdWriteRead | UNetLib.HLAPI.Tests/ReaderWriterTests.cs:421-436 | the same for a scene ID |
| Hash128.Reset | UNetLib.HLAPI/NetworkHash128.cs:22-40 | after a reset all sixteen bytes are 0, and the hash is no longer valid |
| Hash128.IsValid | UNetLib.HLAPI/NetworkHash128.cs:42-45 | a hash is valid exactly when one of its sixteen bytes is non-zero |
| Hash128.HexToNumber | UNetLib.HLAPI/NetworkHash128.cs:47-65 | a decimal digit or a hex letter of either case gives its value; any other character gives 0 |
| Hash128.HexDigitRoundTrip | UNetLib.HLAPI/NetworkHash128.cs:47-65 | `HexToNumber` inverts the lowercase digit the `x2` format prints |
| Hash128.ToString | UNetLib.HLAPI/NetworkHash128.cs:103-106 | the text is exactly 32 lowercase hex digits |
| Hash128.ParseHash | UNetLib.HLAPI/NetworkHash128.cs:67-101 | byte k is the value of characters 2k and 2k+1 of the text, left-padded with '0' to 32 characters (characters counted as Unicode scalar values) |
| Hash128.ParseToString | UNetLib.HLAPI/NetworkHash128.cs:67-106 | parsing the printed text gives the hash back |
| Hash128.ParseIgnoresTail | UNetLib.HLAPI/NetworkHash128.cs:83-98 | characters after the first 32 do not change the parsed hash |
| Hash128.Parse | UNetLib.HLAPI/NetworkHash128.cs:67-101 | the padding loop and the sixteen byte assignments compute `ParseHash` (characters counted as Unicode scalar values) |
| Packets.EncodeHeader | UNetLib.LLAPI/Packet/SystemPacket.cs:38-46 | a system header takes 11 bytes |
| Packets.EncodePing | UNetLib.LLAPI/Packet/PingPacket.cs:35-44 | a ping takes 27 bytes and starts with its header |
| Packets.EncodeDisconnect | UNetLib.LLAPI/Packet/DisconnectPacket.cs:11-16 | a disconnect takes 16 bytes and starts with its header |
| Packets.EncodeConnect | UNetLib.LLAPI/Packet/ConnectPacket.cs:8-13 | a connect request takes 19 bytes and starts with its header |
| Packets.HeaderRoundTrip | UNetLib.LLAPI/Packet/SystemPacket.cs:38-56 | every header field reads back, whatever follows the header |
| Packets.DecodeHeaderPrefix | UNetLib.LLAPI/Packet/SystemPacket.cs:48-56 | the decoded header depends only on the first 11 bytes |
| Packets.PingRoundTrip | UNetLib.LLAPI/Packet/PingPacket.cs:35-55 | every ping reads back, whatever follows it |
| Packets.PingIgnoresRequestType | UNetLib.LLAPI/Packet/PingPacket.cs:46-55 | the ping decoder does not check the request type byte: a ping whose header carries any type, Disconnect included, decodes to itself |
| Packets.DisconnectRoundTrip | UNetLib.LLAPI/Packet/DisconnectPacket.cs:11-23 | every disconnect reads back, including reason bytes outside the named reasons |
| Packets.ConnectRoundTrip | UNetLib.LLAPI/Packet/ConnectPacket.cs:8-20 | every connect request reads back |
| Packets.SerializeHeader | UNetLib.LLAPI/Packet/SystemPacket.cs:38-46 | appends the header encoding |
| Packets.DeserializeHeader | UNetLib.LLAPI/Packet/SystemPacket.cs:48-56 | returns the header decoding and, on success, advances by 11 bytes |
| Packets.SerializePing | UNetLib.LLAPI/Packet/PingPacket.cs:35-44 | appends the ping encoding |
| Packets.DeserializePing | UNetLib.LLAPI/Packet/PingPacket.cs:46-55 | returns the ping decoding and, on success, advances by 27 bytes |
| Packets.DeserializePingBody | UNetLib.LLAPI/Packet/PingPacket.cs:49-54 | reads the 16 ping bytes that follow an already read header |
| Packets.DeserializePingTimes | UNetLib.LLAPI/Packet/PingPacket.cs:48-50 | reads the three 32-bit times in network order, or fails with EndOfStream when fewer than 12 bytes remain |
| Packets.SerializeDisconnect | UNetLib.LLAPI/Packet/DisconnectPacket.cs:11-16 | appends the disconnect encoding |
| Packets.DeserializeDisconnect | UNetLib.LLAPI/Packet/DisconnectPacket.cs:18-23 | returns the disconnect decoding and, on success, advances by 16 bytes |
| Packets.SerializeConnect | UNetLib.LLAPI/Packet/ConnectPacket.cs:8-13 | appends the connect encoding through the second LLAPI writer |
| Packets.DeserializeConnect | UNetLib.LLAPI/Packet/ConnectPacket.cs:15-20 | returns the connect decoding and, on success, advances by 19 bytes |
| Packets.ConnectPacketSerialization | UNetLib.LLAPI.Tests/PacketSerializationTests.cs:8-41 | serializing a connect request and deserializing it with fresh objects gives it back |
| Packets.DisconnectPacketSerialization | UNetLib.LLAPI.Tests/PacketSerializationTests.cs:44-73 | the same for a disconnect |
| Packets.PingPacketSerialization | UNetLib.LLAPI.Tests/PacketSerializationTests.cs:76-113 | the same for a ping |
| Acks.ReceiveRefusesOnlyLast | UNetLib/PacketAcks.cs:16-36 | a message is refused exactly when its ID repeats the last one received, and a refusal changes nothing |
| Acks.ReceiveClearsMissing | UNetLib/PacketAcks.cs:23-33 | an accepted ID is no longer missing; a newer ID becomes the last one, an older one leaves the last one alone |
| Acks.FreshWindowRefusesZero | UNetLib/PacketAcks.cs:9-21 | a fresh window has last ID 0, so message ID 0 is refused on it |
| Acks.ReceivePreservesValid | UNetLib/PacketAcks.cs:16-36 | receiving keeps every missing ID below the last one received |
| Acks.Split | UNetLib/PacketAcks.cs:46-57 | each of the `n` IDs `ack - i` goes to "resend" when bit i is clear and to "received" when it is set, and nothing else appears in either list |
| Acks.SplitDisjoint | UNetLib/PacketAcks.cs:46-57 | the 32 IDs an ack covers are distinct, so no ID is both to be resent and received |
| Acks.NoGapsAllOnes | UNetLib/PacketAcks.cs:67-81 | with nothing missing the mask is 0xFFFFFFFF |
| Acks.LastAlwaysAcked | UNetLib/PacketAcks.cs:67-81 | bit 0 of our mask is always set, since the last ID is never missing |
| Acks.AcksRoundTrip | UNetLib/PacketAcks.cs:38-85 | reading our own acks back, an ID within 32 of the last one comes out as "resend" exactly when it is missing |
| Acks.MaskStep | UNetLib/PacketAcks.cs:72-79 | each missing ID clears its bit when it lies within 32 of the last ID, and is ignored otherwise |
| Acks.PacketAcks.constructor | UNetLib/PacketAcks.cs:11-14 | a new window records the ack mode, has last ID 0 and nothing missing |
| Acks.PacketAcks.ReceiveMessage | UNetLib/PacketAcks.cs:16-36 | the gap-filling loop leaves the window and the answer that `Receive` specifies |
| Acks.PacketAcks.ReadIncomingAcks | UNetLib/PacketAcks.cs:38-65 | long mode fails with NotImplemented and an empty mask array with IndexOutOfRange; otherwise the 32-step loop returns the split of the first mask |
| Acks.PacketAcks.GetAcks | UNetLib/PacketAcks.cs:67-85 | long mode fails with NotImplemented; otherwise the loop over the missing IDs returns the last ID and the window's mask |
| Fragments.Joined | UNetLib/Channel/FragmentedMessage.cs:54-59 | joining fragments 0 to n - 1 succeeds exactly when all of them are stored, and otherwise fails with KeyNotFound |
| Fragments.JoinedLength | UNetLib/Channel/FragmentedMessage.cs:49-59 | with every index present the join's length is the summed length of the fragments |
| Fragments.AddStoresOnce | UNetLib/Channel/FragmentedMessage.cs:24-34 | a repeated index keeps the bytes first stored and is not counted again; a new one is stored and counted; the answer is whether the count reached the total |
| Fragments.AddKeepsCounted | UNetLib/Channel/FragmentedMessage.cs:24-34 | adding keeps the counter equal to the number of distinct indices stored |
| Fragments.IncompleteFails | UNetLib/Channel/FragmentedMessage.cs:43-46 | reassembling before the count reaches the total fails with InvalidOperation |
| Fragments.CompleteReassembles | UNetLib/Channel/FragmentedMessage.cs:41-62 | when the stored indices cover 0 to total - 1, they are exactly those indices and reassembly returns every stored byte |
| Fragments.StrayIndexFailsJoin | UNetLib/Channel/FragmentedMessage.cs:24-62 | an index at or past the total still counts towards completion, and reassembly then fails on a missing lower index |
| Fragments.FragmentedMessage.constructor | UNetLib/Channel/FragmentedMessage.cs:13-16 | a new message has no fragments, a zero counter and the announced total |
| Fragments.FragmentedMessage.AddFragment | UNetLib/Channel/FragmentedMessage.cs:24-34 | stores the fragment and answers as `Add` specifies |
| Fragments.FragmentedMessage.Reassemble | UNetLib/Channel/FragmentedMessage.cs:41-62 | the copy loop returns what `Reassembled` specifies |
| Frames.KindOfQos | UNetLib/UNetClient.cs:58-72 | exactly UnreliableFragmented, StateUpdate and ReliableStateUpdate are refused; Reliable and AllCostDelivery get the reliable class; every class acks and orders exactly as its QoS kind is classified |
| Frames.Payload | UNetLib/Channel/BaseChannel.cs:21-31 | a negative length or one past the end delivers nothing; otherwise exactly `length` bytes from the cursor |
| Frames.UnreliableRoundTrip | UNetLib/Channel/UnreliableChannel.cs:11-23 | the receiver takes the length field less 3 and reads back exactly the data sent, leaving what follows |
| Frames.UnreliableSequencedRoundTrip | UNetLib/Channel/UnreliableSequencedChannel.cs:13-36 | the receiver reads back the sequence number and exactly the data sent |
| Frames.ReliableRoundTrip | UNetLib/Channel/ReliableChannel.cs:11-33 | the receiver reads back the message ID and exactly the data sent |
| Frames.ReliableSequencedRoundTrip | UNetLib/Channel/ReliableSequencedChannel.cs:17-74 | the receiver reads back the message ID, the sequence number and exactly the data sent |
| Frames.FragmentRoundTrip | UNetLib/Channel/ReliableFragmentedChannel.cs:17-89 | the receiver reads back the message ID, the fragmented-message ID, the index, the count and exactly the chunk sent |
| Frames.UnreliableLengthWraps | UNetLib/Channel/UnreliableChannel.cs:11-23 | a 65533-byte payload is announced as length 0, and the receiver delivers nothing |
| Frames.SequencedAcceptance | UNetLib/Channel/UnreliableSequencedChannel.cs:18-24 | a fresh channel drops sequence 0; at 255 everything passes; below 255 a frame passes exactly when its number is higher, so a repeat is dropped |
| Frames.SendingRaisesThreshold | UNetLib/Channel/UnreliableSequencedChannel.cs:19-34 | the one counter also numbers outgoing frames, so after sending with counter c the peer's frames up to c + 1 are dropped |
| Frames.DrainStep | UNetLib/Channel/ReliableSequencedChannel.cs:40-45 | draining at a buffered number delivers it, then drains from the number after it |
| Frames.DrainStops | UNetLib/Channel/ReliableSequencedChannel.cs:37-45 | draining stops at the first gap, which becomes the expected number; it removes one entry per payload delivered and keeps the other entries |
| Frames.DrainOrder | UNetLib/Channel/ReliableSequencedChannel.cs:39-45 | the i-th payload drained is the one buffered under next + i (mod 256) |
| Frames.Reorder | UNetLib/Channel/ReliableSequencedChannel.cs:47-55 | an unexpected frame is either ignored or stored under its new sequence number, and the expected number stays out of the buffer |
| Frames.LateFramesIgnored | UNetLib/Channel/ReliableSequencedChannel.cs:47-55 | a frame behind the expected number is neither buffered nor delivered, unless the expected number is 255 |
| Frames.FragmentCount | UNetLib/Channel/ReliableFragmentedChannel.cs:54-59 | the announced count is at least 1 and, up to 255 * 512 bytes, enough 512-byte pieces to cover the data |
| Frames.FragmentCountExact | UNetLib/Channel/ReliableFragmentedChannel.cs:54-59 | up to 255 * 512 bytes the count is the ceiling of length / 512, and 1 for no data |
| Frames.ChunksCoverData | UNetLib/Channel/ReliableFragmentedChannel.cs:61-82 | up to 255 * 512 bytes, the fragments concatenate back to the data |
| Frames.StoredFragment | UNetLib/Channel/ReliableFragmentedChannel.cs:62-88 | each fragment frame is stored under its own message ID, first ID + i, with the channel ID |
| Frames.PreparedFragmentsReassemble | UNetLib/Channel/ReliableFragmentedChannel.cs:33-89 | a receiver that holds every fragment the sender made, with the announced count, reassembles exactly the message |
| Frames.CountFromFirstFragment | UNetLib/Channel/ReliableFragmentedChannel.cs:33-37 | a message's total is the count carried by its first fragment; later counts change nothing |
| Frames.DeliveredOnce | UNetLib/Channel/ReliableFragmentedChannel.cs:42-47 | a message is delivered exactly when its entry leaves the table, and the other entries are untouched |
| Frames.LastFragmentDelivers | UNetLib/Channel/ReliableFragmentedChannel.cs:33-47 | with every fragment but the last stored, the last one delivers exactly the message and removes its entry |
| Frames.LastFragmentCompletes | UNetLib/Channel/FragmentedMessage.cs:24-34 | adding the last fragment to all the others completes the message |
| Frames.PacketHeaderFields | UNetLib/UNetClient.cs:218-232 | the short-ack packet header reads back field by field: connection ID, packet ID, session ID, last message ID and mask |
| Frames.MessageFrameFields | UNetLib/UNetClient.cs:200-211 | a message frame reads back as its size (below 65536), its type and the message |
| Messages.EntriesFailIff | UNetLib.HLAPI/Messages/CrcMessage.cs:25-29 | writing the entries fails exactly when some entry's name is too long to write |
| Messages.EncodeCrc | UNetLib.HLAPI/Messages/CrcMessage.cs:22-30 | the output starts with the entry count cut to 16 bits, and fails exactly when the entries cannot be written |
| Messages.DecodeEntries | UNetLib.HLAPI/Messages/CrcMessage.cs:10-19 | a successful read yields exactly `n` entries and consumes no more than the input |
| Messages.DecodeEntry | UNetLib.HLAPI/Messages/CrcMessage.cs:12-16 | a successful read consumes at least one byte and no more than the input |
| Messages.EntryRoundTrip | UNetLib.HLAPI/Messages/CrcMessage.cs:12-16 | a written entry reads back, a null name as the empty string, consuming exactly what was written |
| Messages.EntriesRoundTrip | UNetLib.HLAPI/Messages/CrcMessage.cs:10-19 | written entries read back in order, whatever follows them |
| Messages.CrcRoundTrip | UNetLib.HLAPI/Messages/CrcMessage.cs:7-30 | a list of fewer than 65536 entries whose names all fit reads back in order, null names as empty |
| Messages.CrcCountTruncated | UNetLib.HLAPI/Messages/CrcMessage.cs:7-30 | 65536 entries are announced as none, and reading gives an empty list after two bytes |
| Messages.CrcMessage.constructor | UNetLib.HLAPI/Messages/CrcMessage.cs:5 | a new message has no entries |
| Messages.CrcMessage.Serialize | UNetLib.HLAPI/Messages/CrcMessage.cs:22-30 | appends exactly the count and the entries, and fails exactly when a name is too long |
| Messages.CrcMessage.Deserialize | UNetLib.HLAPI/Messages/CrcMessage.cs:7-20 | appends the entries read to the existing list, consumes exactly what was read, and fails exactly when the bytes do not hold the count and that many entries |
| Messages.ReadEntry | UNetLib.HLAPI/Messages/CrcMessage.cs:12-16 | reads one entry, the name and then the channel, as `DecodeEntry` describes |
| Messages.EncodeAddPlayer | UNetLib.HLAPI/Messages/AddPlayerMessage.cs:23-27 | the output starts with the controller ID as a two's-complement ushort |
| Messages.DecodeAddPlayer | UNetLib.HLAPI/Messages/AddPlayerMessage.cs:9-21 | null data comes with size 0; otherwise the size is the data's length |
| Messages.AddPlayerRoundTrip | UNetLib.HLAPI/Messages/AddPlayerMessage.cs:9-27 | data of 1 to 65535 bytes whose size field matches reads back whole, with every short controller ID |
| Messages.AddPlayerDefaultReadsNull | UNetLib.HLAPI/Messages/AddPlayerMessage.cs:7-16 | the default message, with empty data and size 0, reads back with null data after four bytes |
| Messages.AddPlayerSizeMismatch | UNetLib.HLAPI/Messages/AddPlayerMessage.cs:26 | a size field that differs from the data's length is written as is, and the data read back differs |
| Messages.AddPlayerMessage.constructor | UNetLib.HLAPI/Messages/AddPlayerMessage.cs:5-7 | a new message has controller ID 0, size 0 and empty data |
| Messages.AddPlayerMessage.Serialize | UNetLib.HLAPI/Messages/AddPlayerMessage.cs:23-27 | appends exactly the encoded fields |
| Messages.AddPlayerMessage.Deserialize | UNetLib.HLAPI/Messages/AddPlayerMessage.cs:9-21 | sets the fields to what the bytes decode to and consumes exactly that; fails exactly when they do not decode |
| Messages.NegativeControllerIdTakesFiveBytes | UNetLib.HLAPI/Messages/OwnerMessage.cs:17 | a negative controller ID is sign-extended and takes the five-byte packed form |
| Messages.OwnerRoundTrip | UNetLib.HLAPI/Messages/OwnerMessage.cs:8-18 | every net ID and controller ID read back, consuming exactly what was written |
| Messages.OwnerMessage.constructor | UNetLib.HLAPI/Messages/OwnerMessage.cs:5-6 | a new message has net ID 0 and controller ID 0 |
| Messages.OwnerMessage.Serialize | UNetLib.HLAPI/Messages/OwnerMessage.cs:14-18 | appends exactly the packed net ID and the packed sign-extended controller ID |
| Messages.OwnerMessage.Deserialize | UNetLib.HLAPI/Messages/OwnerMessage.cs:8-12 | sets both fields to what the bytes decode to and consumes exactly that; fails exactly when they do not decode |
| Connection.ReadPayload | UNetLib/Channel/BaseChannel.cs:21-31 | a negative length or one past the datagram's end delivers nothing and leaves the cursor; otherwise exactly `length` bytes are read and delivered once, tagged with the channel ID, and nothing is sent |
| Connection.SkipPayload | UNetLib/Channel/ReliableSequencedChannel.cs:24-28 | the same bounds check as reading a payload; the cursor moves past the payload and nothing is delivered |
| Connection.Acknowledge | UNetLib/Channel/ReliableChannel.cs:13-21 | the length field and message ID are read, the ack window records the ID, and the acks are sent exactly when the window accepts it; a frame shorter than four bytes fails and changes nothing |
| Connection.Admit | UNetLib/Channel/ReliableFragmentedChannel.cs:20-27 | the ack window records the ID; a refused ID sends nothing; an accepted one sends the acks, taking their packet IDs |
| Connection.ReadSequencedHeader | UNetLib/Channel/ReliableSequencedChannel.cs:19-23 | the payload length is the length field less 6, then the message ID and the sequence number; fewer than five bytes fail |
| Connection.UnreliableChannel.constructor | UNetLib/Channel/UnreliableChannel.cs:5-9 | the channel keeps its ID |
| Connection.UnreliableChannel.Process | UNetLib/Channel/UnreliableChannel.cs:11-16 | the payload is the length field less 3; it is delivered when in bounds, and nothing is sent |
| Connection.UnreliableChannel.Prepare | UNetLib/Channel/UnreliableChannel.cs:18-23 | appends exactly the unreliable frame of the data |
| Connection.UnreliableSequencedChannel.constructor | UNetLib/Channel/UnreliableSequencedChannel.cs:7-11 | the counter starts at 0 |
| Connection.UnreliableSequencedChannel.Process | UNetLib/Channel/UnreliableSequencedChannel.cs:13-28 | a sequence number the counter refuses ends the frame after three bytes and changes nothing; an accepted one becomes the counter and the payload (length field less 4) is delivered when in bounds |
| Connection.UnreliableSequencedChannel.Prepare | UNetLib/Channel/UnreliableSequencedChannel.cs:30-36 | appends the frame numbered with the counter, then moves the counter on modulo 256 |
| Connection.ReliableChannel.constructor | UNetLib/Channel/ReliableChannel.cs:5-9 | the channel keeps its ID |
| Connection.ReliableChannel.Process | UNetLib/Channel/ReliableChannel.cs:11-25 | the window records the message ID; a refused one ends the frame after four bytes; an accepted one sends the acks and then delivers the payload (length field less 5) when in bounds |
| Connection.ReliableChannel.Prepare | UNetLib/Channel/ReliableChannel.cs:27-33 | appends the frame under the next message ID and takes that ID; nothing is stored for retransmission |
| Connection.ReliableSequencedChannel.constructor | UNetLib/Channel/ReliableSequencedChannel.cs:7-15 | both sequence numbers start at 1, the buffer is empty, and the expected number is not buffered |
| Connection.ReliableSequencedChannel.Process | UNetLib/Channel/ReliableSequencedChannel.cs:17-56 | a refused message ID skips the payload; after the acks, the expected number delivers its payload and drains the buffer in order; another number is buffered or ignored as the reorder rule says; the expected number never waits in the buffer, before or after |
| Connection.ReliableSequencedChannel.OutOfOrder | UNetLib/Channel/ReliableSequencedChannel.cs:47-55 | an unexpected frame is buffered with its payload when it is ahead and new, else left unread; a negative length fails when it would be buffered |
| Connection.ReliableSequencedChannel.InOrder | UNetLib/Channel/ReliableSequencedChannel.cs:33-46 | the expected frame's payload is delivered, then the buffered run after it, in order, and the expected number moves past the run |
| Connection.ReliableSequencedChannel.DrainBuffer | UNetLib/Channel/ReliableSequencedChannel.cs:40-45 | delivers the buffered run from the expected number in order, removes it, and stops at the first gap, which is then expected |
| Connection.ReliableSequencedChannel.DeliverNext | UNetLib/Channel/ReliableSequencedChannel.cs:42-44 | delivers the payload buffered under the expected number, removes it, and expects the next number |
| Connection.ReliableSequencedChannel.Prepare | UNetLib/Channel/ReliableSequencedChannel.cs:58-74 | appends the frame under the next message ID and the outgoing sequence number, moves both on, and stores the whole frame for retransmission under that ID |
| Connection.ReliableFragmentedChannel.constructor | UNetLib/Channel/ReliableFragmentedChannel.cs:7-15 | the fragmented-message ID starts at 0 and no message is being reassembled |
| Connection.ReliableFragmentedChannel.Process | UNetLib/Channel/ReliableFragmentedChannel.cs:17-48 | a refused message ID ends the frame after four bytes; after the acks, the fragment (length field less 8) goes to its message's reassembler, opened by the first fragment seen; a completed message is delivered once and its reassembler dropped; no reassembler serves two message IDs, before or after |
| Connection.ReliableFragmentedChannel.Collect | UNetLib/Channel/ReliableFragmentedChannel.cs:29-47 | reads the three fragment fields, opens the reassembler and feeds it the fragment, as one fragment step describes |
| Connection.ReliableFragmentedChannel.Gather | UNetLib/Channel/ReliableFragmentedChannel.cs:39-47 | reads the fragment and feeds it to the open reassembler; a negative length fails and changes nothing |
| Connection.ReliableFragmentedChannel.Open | UNetLib/Channel/ReliableFragmentedChannel.cs:33-37 | returns the reassembler stored under the ID, or stores a new one for the count |
| Connection.ReliableFragmentedChannel.Feed | UNetLib/Channel/ReliableFragmentedChannel.cs:42-47 | adds the fragment; a completed message is reassembled, its reassembler dropped, and it is delivered |
| Connection.ReliableFragmentedChannel.Store | UNetLib/Channel/ReliableFragmentedChannel.cs:42 | the reassembler's new state and the completion flag are those of adding the fragment; other reassemblers are unchanged |
| Connection.ReliableFragmentedChannel.Finish | UNetLib/Channel/ReliableFragmentedChannel.cs:44-46 | delivers the reassembled message and drops its reassembler; a failed reassembly changes nothing |
| Connection.ReliableFragmentedChannel.Prepare | UNetLib/Channel/ReliableFragmentedChannel.cs:50-89 | appends the frames of every fragment in order under consecutive message IDs, takes one fragmented-message ID, and stores each frame for retransmission |
| Connection.ReliableFragmentedChannel.PrepareFragments | UNetLib/Channel/ReliableFragmentedChannel.cs:61-88 | the loop appends and stores the frames of all the fragments |
| Connection.ReliableFragmentedChannel.PrepareFragment | UNetLib/Channel/ReliableFragmentedChannel.cs:62-87 | one turn of the loop appends and stores fragment `i`, advances the offset by at most 512 and takes one message ID |
| Connection.ReadFragmentFields | UNetLib/Channel/ReliableFragmentedChannel.cs:29-31 | reads the fragmented-message ID, the index and the count; fewer than three bytes fail |
| Connection.FragmentAt | UNetLib/Channel/ReliableFragmentedChannel.cs:63-81 | fragment `i` is the frame of at most 512 bytes from offset 512 * i, and the offset advances past it |
| Connection.FragmentPayload | UNetLib/Channel/ReliableFragmentedChannel.cs:73-81 | the fragment's frame is its length field (fragment + 8), the message ID, the fragmented-message ID, the index, the count and the fragment |
| Connection.PrepareOn | UNetLib/UNetClient.cs:245 | the channel in the slot appends its frame for the data and updates the connection's message IDs and retransmit store |
| Connection.FrameMessage | UNetLib/UNetClient.cs:202-209 | the message's size and type, little-endian, then the message |
| Connection.UNetClient.constructor | UNetLib/UNetClient.cs:47-75 | one fresh channel per configured QoS type, slot `i` with ID `i` of the class its type maps to, in its initial state; an empty ack window; packet IDs from 0 and message IDs from 1; the handshake state; every channel holds its invariant |
| Connection.UNetClient.NextPacketId | UNetLib/UNetClient.cs:148-151 | returns the counter and advances it modulo 65536 |
| Connection.UNetClient.NextMessageId | UNetLib/UNetClient.cs:153-156 | returns the counter and advances it modulo 65536 |
| Connection.UNetClient.StoreReliableMessage | UNetLib/UNetClient.cs:103-106 | stores the frame under the ID, replacing any earlier one, and changes nothing else |
| Connection.UNetClient.Send | UNetLib/UNetClient.cs:158-166 | sends exactly one datagram with the data to the peer |
| Connection.UNetClient.WritePacketHeader | UNetLib/UNetClient.cs:218-232 | takes one packet ID, and in short-ack mode appends the 12-byte header |
| Connection.UNetClient.SendAcks | UNetLib/UNetClient.cs:138-146 | sends three header-only packets under consecutive packet IDs, and changes nothing else |
| Connection.UNetClient.SendHeader | UNetLib/UNetClient.cs:140-145 | one turn of the loop: sends the header alone under the next packet ID |
| Connection.UNetClient.BuildPacketWithPayload | UNetLib/UNetClient.cs:248-253 | appends the header, the channel ID and the payload verbatim |
| Connection.UNetClient.ResendPacket | UNetLib/UNetClient.cs:131-136 | sends one datagram holding a fresh header, the stored channel ID and the stored frame |
| Connection.UNetClient.ProcessAcks | UNetLib/UNetClient.cs:108-129 | confirmed messages leave the retransmit store first; then each message still stored that the peer reports missing is resent, in order |
| Connection.UNetClient.DropConfirmed | UNetLib/UNetClient.cs:112-115 | the store loses exactly the confirmed IDs |
| Connection.UNetClient.ResendAll | UNetLib/UNetClient.cs:122-128 | sends exactly the retransmissions of the stored messages among the IDs, in order |
| Connection.UNetClient.BuildPacket | UNetLib/UNetClient.cs:234-246 | appends the header; no data stops there; a channel ID past the channels fails after writing it; otherwise the channel ID and the channel's frame follow |
| Connection.UNetClient.AppendFrame | UNetLib/UNetClient.cs:243-245 | appends the channel ID and, when it names a channel, that channel's frame |
| Connection.UNetClient.SendByChannel | UNetLib/UNetClient.cs:168-171 | an ID past the channels fails and changes nothing; otherwise exactly one packet holding the channel's frame is sent |
| Connection.UNetClient.ChannelSend | UNetLib/UNetClient.cs:168-171 | builds one packet with the channel's frame and sends it to the peer |
| Connection.UNetClient.SendMessageByChannel | UNetLib/UNetClient.cs:200-211 | sends one packet whose frame carries the message's size, its type and the message |
| Connection.UNetClient.SendPing | UNetLib/UNetClient.cs:255-276 | sends one ping under the next packet ID and changes nothing else |
| Connection.UNetClient.ProcessPing | UNetLib/UNetClient.cs:77-86 | the first ping moves the handshake to connected and reports the connection once; every ping is answered |
| Connection.UNetClient.SendDisconnect | UNetLib/UNetClient.cs:278-295 | sends one disconnect packet and changes nothing else |
| Connection.UNetClient.ProcessDataPacket | UNetLib/UNetClient.cs:88-101 | a successful run stops only at the end of the body or right after a channel ID that names no channel; every channel keeps its invariant |
| Connection.AckDatagramsNumbered | UNetLib/UNetClient.cs:138-146 | the acks go out as header-only packets under consecutive packet IDs |
| Connection.ResentCount | UNetLib/UNetClient.cs:122-128 | retransmission takes one packet ID per datagram resent, and resends at most one per ID |
| Connection.ResentSkipsUnknown | UNetLib/UNetClient.cs:124 | IDs no longer stored are not resent |
| Connection.ResentFrames | UNetLib/UNetClient.cs:122-136 | with every ID stored, the i-th retransmission is a fresh header under the i-th next packet ID, the stored channel ID and the stored frame, verbatim |
| Connection.PingReplyFields | UNetLib/UNetClient.cs:255-276 | the ping answers the incoming send time (0 without one), names both ends, carries the tick and the peer's session ID byte-swapped, and decodes back to itself |
| Connection.DisconnectNoticeFields | UNetLib/UNetClient.cs:278-295 | the disconnect packet carries the reason and both ends, and decodes back to itself |
| Server.IssuedIdIsCount | UNetLib/UNetServer.cs:204-205 | the n-th connection ID is n modulo 65536: the 32-bit counter's wrap never shows in the 16 bits kept |
| Server.IssuedIdsDistinct | UNetLib/UNetServer.cs:204-205 | any 65536 consecutive connections get pairwise different IDs, and the first 65535 get 1 to 65535 in order |
| Server.IdWrapsToSystem | UNetLib/UNetServer.cs:204-205 | the 65536th connection gets ID 0, the ID that marks system packets |
| Server.CounterStep | UNetLib/UNetServer.cs:205 | incrementing the wrapped counter is wrapping the incremented count |
| Server.ReadAckFields | UNetLib/UNetServer.cs:168-184 | reads the packet ID, the session ID, the last message ID and one ack mask (two in long-ack mode); too few bytes fail |
| Server.Serve | UNetLib/UNetServer.cs:168-194 | the outcome `Served`: too few bytes for the ack fields fail and change nothing; the acks are always processed; a packet that ends after them, or whose acks fail, stops there with the ack processing's outcome and delivers nothing |
| Server.UNetServer.constructor | UNetLib/UNetServer.cs:21-23 | no connections, and the counter at 0 |
| Server.OpenDatagram | UNetLib/UNetServer.cs:115-116 | a fresh reader over the whole datagram, past its first 2 bytes, and the connection ID they hold in network order |
| Server.UNetServer.HandleIncomingPacket | UNetLib/UNetServer.cs:108-126 | a datagram under 2 bytes is ignored; under connection ID 0 the whole datagram has the connect, disconnect and ping outcomes of system handling (`ConnectHandled`, `DisconnectHandled`, `PingHandled`), a missing type byte fails and an unknown type does nothing; any other ID is served, with the outcome `Served` on the bytes after the ID, by the connection registered for the sender under that ID, and is dropped otherwise; the table only gains the sender or loses it; every registered connection's channels keep their invariants |
| Server.UNetServer.HandleSystemPacket | UNetLib/UNetServer.cs:128-159 | an unregistered sender can only connect; a connect request has the outcome `ConnectHandled`: a registered sender is ignored, otherwise the counter advances and an unsupported configuration fails with NotSupported and leaves the table and the network as they were, while a supported one registers, pings and reports a new connection; a disconnect removes and reports a connection not yet disconnected (`DisconnectHandled`); a ping is answered and the first one completes the handshake (`PingHandled`); an unknown type does nothing; a packet that does not decode fails and changes nothing; every registered connection's channels keep their invariants |
| Server.UNetServer.ConnectCase | UNetLib/UNetServer.cs:141-145 | the connect request is decoded from the start of the system packet, with the outcome `ConnectHandled` |
| Server.UNetServer.DisconnectCase | UNetLib/UNetServer.cs:147-151 | the disconnect packet is decoded from the start of the system packet, with the outcome `DisconnectHandled` for the sender's connection |
| Server.UNetServer.PingCase | UNetLib/UNetServer.cs:153-157 | the ping is decoded from the start of the system packet, with the outcome `PingHandled` for the sender's connection; the table is unchanged |
| Server.UNetServer.PeekRequestType | UNetLib/UNetServer.cs:130-131 | the request type is the byte after the connection ID, read before the reader is rewound to the start; a datagram without it fails with EndOfStream |
| Server.UNetServer.HandleDataPacket | UNetLib/UNetServer.cs:161-195 | dropped unless the sender is registered under the connection ID; otherwise the acks are processed before any frame, and an ack-only packet stops there; every registered connection's channels keep their invariants |
| Server.UNetServer.HandleConnectRequest | UNetLib/UNetServer.cs:197-213 | a registered sender is ignored; otherwise the counter advances; then a configuration with a QoS type the connection cannot build fails with NotSupported and registers, sends and reports nothing, and any other registers a new connection under the next ID and a session ID in 1 to 65534, pings it with packet ID 0 and reports it once |
| Server.UNetServer.Register | UNetLib/UNetServer.cs:209-212 | the new connection is stored under its endpoint, pinged once with its next packet ID and reported once; the table gains only that entry and the counter is unchanged; every registered connection's channels keep their invariants |
| Server.UNetServer.Disconnect | UNetLib/UNetServer.cs:215-219 | the disconnect packet is always sent; then a connection not yet disconnected is marked disconnected, removed and reported once |
| Server.UNetServer.RemoveClient | UNetLib/UNetServer.cs:221-232 | the first call marks the connection disconnected, removes its endpoint and reports it once; a later call changes nothing |
| Requests.ConnectionRequest.constructor | UNetLib/ConnectionRequest.cs:22-27 | a new request keeps its server, packet and endpoint and is not handled |
| Requests.ConnectionRequest.Accept | UNetLib/ConnectionRequest.cs:32-41 | the first answer accepts the endpoint with its packet; a request already answered keeps its answer |
| Requests.ConnectionRequest.Reject | UNetLib/ConnectionRequest.cs:47-56 | the first answer denies the endpoint with its packet and the reason, `Ok` by default; a request already answered keeps its answer |

## Left out

- The UDP socket, the receive loop, the channel of received datagrams, the thread pool and the cancellation token are not modelled. A datagram arrives as a call to `HandleIncomingPacket`, one at a time, so concurrent access to `ConcurrentDictionary` and `Interlocked` is not modelled either.
- The event listener and the socket are the `Host.Network` record: `sent` lists the datagrams sent and `events` lists the listener callbacks made, in order.
- `Environment.TickCount` and `Random.Shared` are parameters: `tick` is the clock, and `sessionRoll` is the session ID drawn, in 1 to 65534.
- Logging to the console, and the `ToString` overrides, are left out.
- `BaseChannel.Send` is called but not defined in the source. `Connection.UNetClient.ChannelSend` takes it to build one packet with `BuildPacket` and send it.
- `SkipPayload` and the one-argument `ReadPayload` are called but not defined in the source. They are modelled as reading or skipping `length` bytes at the cursor, with the bounds check of `BaseChannel.ReadPayload`.
- `UNetServer.AcceptConnection` and `DenyConnection` are not part of this model. A `ConnectionRequest` records the action it took as a `Requests.Decision`.
- `ConnectPacket.Deserialize` takes a high-level `NetworkReader`, which is not part of this model. The connect packet is read with the low-level reader's big-endian reads, as every other system packet is.
- Long-ack mode is not implemented in the source. `GetAcks` throws there, so building a packet fails with `NotImplemented` in the model.
- Frames.FragmentCount / Connection.ReliableFragmentedChannel.Prepare: the fragment count is `(byte)Math.Ceiling(...)` of a double. C# leaves an out-of-range double-to-byte cast unspecified, and some runtimes saturate it to 255. The model takes the low 8 bits, so for messages longer than 255 * 512 bytes its count (and the frames `Prepare` writes) is one runtime's choice, not a promise of the code. Up to 255 * 512 bytes the count is exact (`Frames.FragmentCountExact`).
- Hash128.ParseHash / Hash128.Parse: a Dafny `string` counts Unicode scalar values, where C#'s `Length` and indexing count UTF-16 code units. For text with a character outside the Basic Multilingual Plane the padding and the character pairs differ from the code's: `"1"` followed by U+1F600 is padded with 30 zeros here but with 29 in C#. Text made of BMP characters, which includes all hex text, is parsed as the code parses it.
- Connection.UNetClient.constructor: requires at most 255 channels, because the source's byte loop counter never reaches a larger count and the loop would not end. It also requires a supported configuration (`Supported(config)`): the `NotSupportedException` the source throws for an unknown QoS type (UNetLib/UNetClient.cs:70) is modelled at the constructor's only caller, `Server.UNetServer.HandleConnectRequest`, which fails with NotSupported after the counter step, as the source does.
- Server.UNetServer.constructor: requires at most 255 channels, for the same reason.
- Server.UNetServer.Disconnect: requires the connection to belong to this server's network record.
- Connection.UNetClient.ProcessDataPacket: states only where a successful run stops. The effect of each frame is stated by the channels' `Process` methods.
- Server.Serve: states its effect only when the packet ends after the acks or the acks fail. Frames after the acks go to `ProcessDataPacket`, whose contract is weaker.
- Server.UNetServer.HandleDataPacket: the same restriction as `Server.Serve`.
- Server.UNetServer.HandleIncomingPacket: for a data packet, the same restriction as `Server.Serve`.
- `SendReliable`, `SendUnreliable` and the `IMessageBase` overload of `SendByChannel` only serialize the message and pass a fixed channel ID. `Connection.UNetClient.SendMessageByChannel` models the sending.
- `UNetClient.Disconnect` passes the connection to `UNetServer.Disconnect`, which is modelled.
- Floating-point, `char`, `bool`, vector, quaternion, color and matrix writes and reads are left out, as is UTF-8 encoding. Strings are given as their UTF-8 bytes.
- The message classes that only read and write plain fields in order are left out. Their behaviour follows from the reader and writer round trips.
- The proxy and the sample server are left out.
