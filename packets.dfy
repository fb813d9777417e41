/** UNetLib.LLAPI.Packet: the system packets exchanged on connection ID 0. Each packet is
    a record whose fields are written in declaration order with the big-endian writer. */
module Packets {
  import opened Wrappers
  import opened Bytes
  import LLWriter
  import LLReader
  import LLNetworkWriterCopy

  /** SystemRequestType values. The type byte is a plain byte: `ReadEnum` does not check it. */
  const ConnectRequest: Byte := 1
  const Disconnect: Byte := 3
  const Ping: Byte := 4

  /** DisconnectReason values 0 (Ok) to 11 (DNSFailure); any other byte is read as is. */
  const ReasonOk: Byte := 0
  const ReasonWrongHost: Byte := 1
  const ReasonWrongConnection: Byte := 2
  const ReasonWrongChannel: Byte := 3
  const ReasonNoResources: Byte := 4
  const ReasonBadMessage: Byte := 5
  const ReasonTimeout: Byte := 6
  const ReasonMessageToLong: Byte := 7
  const ReasonWrongOperation: Byte := 8
  const ReasonVersionMismatch: Byte := 9
  const ReasonCrcMismatch: Byte := 10
  const ReasonDnsFailure: Byte := 11

  predicate IsNamedReason(b: Byte) { b <= ReasonDnsFailure }

  /** PacketBaseHeader plus SystemPacket's fields. */
  datatype SystemHeader = SystemHeader(
    connectionId: U16,
    requestType: Byte,
    packetId: U16,
    sessionId: U16,
    localConnectionId: U16,
    remoteConnectionId: U16)

  datatype PingPacket = PingPacket(
    header: SystemHeader,
    sentPingTime: U32,
    ackPingTime: U32,
    localTimeCorrection: U32,
    intDropRate: Byte,
    extDropRate: Byte,
    remoteSessionId: U16)

  datatype DisconnectPacket = DisconnectPacket(header: SystemHeader, libVersion: U32, reason: Byte)

  datatype ConnectPacket = ConnectPacket(header: SystemHeader, libVersion: U32, crc: U32)

  const HeaderSize := 11
  const PingSize := 27
  const DisconnectSize := 16
  const ConnectSize := 19

  /** The big-endian 16-bit field at offset `i`. */
  function U16At(s: seq<Byte>, i: nat): U16
    requires i + 2 <= |s|
  {
    FromBE16(s[i..i + 2])
  }

  function U32At(s: seq<Byte>, i: nat): U32
    requires i + 4 <= |s|
  {
    FromBE32(s[i..i + 4])
  }

  /** A field read at offset |p| from any buffer that starts with p and the field's encoding. */
  lemma U16AtPrefix(s: seq<Byte>, p: seq<Byte>, v: U16)
    requires p + BE16(v) <= s
    ensures U16At(s, |p|) == v
  {
    assert s[|p|..|p| + 2] == (p + BE16(v))[|p|..];
  }

  lemma U32AtPrefix(s: seq<Byte>, p: seq<Byte>, v: U32)
    requires p + BE32(v) <= s
    ensures U32At(s, |p|) == v
  {
    assert s[|p|..|p| + 4] == (p + BE32(v))[|p|..];
  }

  // ----- Encodings -----

  function EncodeHeader(h: SystemHeader): (r: seq<Byte>)
    ensures |r| == HeaderSize
  {
    BE16(h.connectionId) + [h.requestType] + BE16(h.packetId) + BE16(h.sessionId)
      + BE16(h.localConnectionId) + BE16(h.remoteConnectionId)
  }

  /** The 16 bytes PingPacket adds after the header. */
  function EncodePingBody(p: PingPacket): (r: seq<Byte>)
    ensures |r| == PingSize - HeaderSize
  {
    BE32(p.sentPingTime) + BE32(p.ackPingTime) + BE32(p.localTimeCorrection)
      + [p.intDropRate, p.extDropRate] + BE16(p.remoteSessionId)
  }

  function EncodePing(p: PingPacket): (r: seq<Byte>)
    ensures |r| == PingSize
    ensures r[..HeaderSize] == EncodeHeader(p.header)
  {
    EncodeHeader(p.header) + EncodePingBody(p)
  }

  function EncodeDisconnect(p: DisconnectPacket): (r: seq<Byte>)
    ensures |r| == DisconnectSize
    ensures r[..HeaderSize] == EncodeHeader(p.header)
  {
    EncodeHeader(p.header) + BE32(p.libVersion) + [p.reason]
  }

  function EncodeConnect(p: ConnectPacket): (r: seq<Byte>)
    ensures |r| == ConnectSize
    ensures r[..HeaderSize] == EncodeHeader(p.header)
  {
    EncodeHeader(p.header) + BE32(p.libVersion) + BE32(p.crc)
  }

  // ----- Decodings of the bytes in front of the cursor -----

  /** The header fields at the front of `s`; the request type is not validated. */
  function DecodeHeader(s: seq<Byte>): Result<SystemHeader>
  {
    if |s| < HeaderSize then Err(EndOfStream)
    else Ok(SystemHeader(U16At(s, 0), s[2], U16At(s, 3), U16At(s, 5), U16At(s, 7), U16At(s, 9)))
  }

  /** The ping fields that follow an already decoded header. */
  function DecodePingBody(h: SystemHeader, s: seq<Byte>): Result<PingPacket>
  {
    if |s| < PingSize - HeaderSize then Err(EndOfStream)
    else Ok(PingPacket(h, U32At(s, 0), U32At(s, 4), U32At(s, 8), s[12], s[13], U16At(s, 14)))
  }

  function DecodePing(s: seq<Byte>): Result<PingPacket>
  {
    var h :- DecodeHeader(s);
    DecodePingBody(h, s[HeaderSize..])
  }

  function DecodeDisconnect(s: seq<Byte>): Result<DisconnectPacket>
  {
    if |s| < DisconnectSize then Err(EndOfStream)
    else
      var h :- DecodeHeader(s);
      Ok(DisconnectPacket(h, U32At(s, 11), s[15]))
  }

  function DecodeConnect(s: seq<Byte>): Result<ConnectPacket>
  {
    if |s| < ConnectSize then Err(EndOfStream)
    else
      var h :- DecodeHeader(s);
      Ok(ConnectPacket(h, U32At(s, 11), U32At(s, 15)))
  }

  // ----- Round trips -----

  /** Every header field round-trips, whatever follows the header. */
  lemma HeaderRoundTrip(h: SystemHeader, rest: seq<Byte>)
    ensures DecodeHeader(EncodeHeader(h) + rest) == Ok(h)
  {
    var s := EncodeHeader(h) + rest;
    var a := BE16(h.connectionId);
    var b := a + [h.requestType];
    var c := b + BE16(h.packetId);
    var d := c + BE16(h.sessionId);
    var e := d + BE16(h.localConnectionId);
    assert e + BE16(h.remoteConnectionId) <= s;
    U16AtPrefix(s, [], h.connectionId);
    assert s[2] == b[2];
    U16AtPrefix(s, b, h.packetId);
    U16AtPrefix(s, c, h.sessionId);
    U16AtPrefix(s, d, h.localConnectionId);
    U16AtPrefix(s, e, h.remoteConnectionId);
  }

  /** Decoding looks only at the header bytes. */
  lemma DecodeHeaderPrefix(s: seq<Byte>, t: seq<Byte>)
    requires |s| >= HeaderSize && |t| >= HeaderSize && s[..HeaderSize] == t[..HeaderSize]
    ensures DecodeHeader(s) == DecodeHeader(t)
  {
    assert forall i :: 0 <= i < HeaderSize ==> s[i] == s[..HeaderSize][i] == t[i];
    assert s[0..2] == t[0..2] && s[3..5] == t[3..5] && s[5..7] == t[5..7];
    assert s[7..9] == t[7..9] && s[9..11] == t[9..11];
  }

  lemma PingRoundTrip(p: PingPacket, rest: seq<Byte>)
    ensures DecodePing(EncodePing(p) + rest) == Ok(p)
  {
    var s := EncodePing(p) + rest;
    var hd := EncodeHeader(p.header);
    HeaderRoundTrip(p.header, EncodePingBody(p) + rest);
    assert hd + (EncodePingBody(p) + rest) == s;
    var b := s[HeaderSize..];
    assert b == EncodePingBody(p) + rest;
    var t1 := BE32(p.sentPingTime);
    var t2 := t1 + BE32(p.ackPingTime);
    var t3 := t2 + BE32(p.localTimeCorrection);
    var t4 := t3 + [p.intDropRate, p.extDropRate];
    assert t4 + BE16(p.remoteSessionId) <= b;
    U32AtPrefix(b, [], p.sentPingTime);
    U32AtPrefix(b, t1, p.ackPingTime);
    U32AtPrefix(b, t2, p.localTimeCorrection);
    assert b[12] == t4[12] && b[13] == t4[13];
    U16AtPrefix(b, t4, p.remoteSessionId);
  }

  lemma DisconnectRoundTrip(p: DisconnectPacket, rest: seq<Byte>)
    ensures DecodeDisconnect(EncodeDisconnect(p) + rest) == Ok(p)
  {
    var s := EncodeDisconnect(p) + rest;
    var hd := EncodeHeader(p.header);
    HeaderRoundTrip(p.header, []);
    assert hd + [] == hd;
    DecodeHeaderPrefix(s, hd);
    var t1 := hd + BE32(p.libVersion);
    assert t1 + [p.reason] <= s;
    U32AtPrefix(s, hd, p.libVersion);
    assert s[15] == (t1 + [p.reason])[15];
  }

  lemma ConnectRoundTrip(p: ConnectPacket, rest: seq<Byte>)
    ensures DecodeConnect(EncodeConnect(p) + rest) == Ok(p)
  {
    var s := EncodeConnect(p) + rest;
    var hd := EncodeHeader(p.header);
    HeaderRoundTrip(p.header, []);
    assert hd + [] == hd;
    DecodeHeaderPrefix(s, hd);
    var t1 := hd + BE32(p.libVersion);
    assert t1 + BE32(p.crc) <= s;
    U32AtPrefix(s, hd, p.libVersion);
    U32AtPrefix(s, t1, p.crc);
  }

  /** A Ping body is read after any header: decoding a ping does not look at the type byte,
      so a packet whose header says Disconnect decodes as a ping just the same. */
  lemma PingIgnoresRequestType(p: PingPacket, t: Byte)
    ensures DecodePing(EncodePing(p.(header := p.header.(requestType := t))))
            == Ok(p.(header := p.header.(requestType := t)))
  {
    PingRoundTrip(p.(header := p.header.(requestType := t)), []);
    assert EncodePing(p.(header := p.header.(requestType := t))) + []
           == EncodePing(p.(header := p.header.(requestType := t)));
  }

  // ----- Serialize / Deserialize over the writer and reader objects -----

  method SerializeHeader(h: SystemHeader, w: LLWriter.LLNetworkWriter)
    modifies w
    ensures w.bytes == old(w.bytes) + EncodeHeader(h)
  {
    w.WriteUInt16(h.connectionId);
    w.WriteEnum(h.requestType);
    w.WriteUInt16(h.packetId);
    w.WriteUInt16(h.sessionId);
    w.WriteUInt16(h.localConnectionId);
    w.WriteUInt16(h.remoteConnectionId);
  }

  /** The `n` bytes at offset `i`, and what follows them, as a reader sees them. */
  lemma Slice(s: seq<Byte>, i: nat, n: nat)
    requires i + n <= |s|
    ensures s[i..][..n] == s[i..i + n] && s[i..][n..] == s[i + n..]
    ensures n == 1 ==> s[i..][0] == s[i]
  {
  }

  method DeserializeHeader(r: LLReader.LLNetworkReader) returns (res: Result<SystemHeader>)
    modifies r
    ensures res == DecodeHeader(old(r.Remaining()))
    ensures res.Ok? ==> r.Remaining() == old(r.Remaining())[HeaderSize..]
  {
    ghost var s := r.Remaining();
    var connectionId :- r.ReadUInt16();
    Slice(s, 0, 2);
    var requestType :- r.ReadEnum();
    Slice(s, 2, 1);
    var packetId :- r.ReadUInt16();
    Slice(s, 3, 2);
    var sessionId :- r.ReadUInt16();
    Slice(s, 5, 2);
    var localConnectionId :- r.ReadUInt16();
    Slice(s, 7, 2);
    var remoteConnectionId :- r.ReadUInt16();
    Slice(s, 9, 2);
    res := Ok(SystemHeader(connectionId, requestType, packetId, sessionId, localConnectionId, remoteConnectionId));
  }

  method SerializePing(p: PingPacket, w: LLWriter.LLNetworkWriter)
    modifies w
    ensures w.bytes == old(w.bytes) + EncodePing(p)
  {
    SerializeHeader(p.header, w);
    w.WriteUInt32(p.sentPingTime);
    w.WriteUInt32(p.ackPingTime);
    w.WriteUInt32(p.localTimeCorrection);
    w.WriteByte(p.intDropRate);
    w.WriteByte(p.extDropRate);
    w.WriteUInt16(p.remoteSessionId);
  }

  method DeserializePing(r: LLReader.LLNetworkReader) returns (res: Result<PingPacket>)
    modifies r
    ensures res == DecodePing(old(r.Remaining()))
    ensures res.Ok? ==> r.Remaining() == old(r.Remaining())[PingSize..]
  {
    ghost var s := r.Remaining();
    var h :- DeserializeHeader(r);
    res := DeserializePingBody(h, r);
    if res.Ok? {
      assert s[HeaderSize..][PingSize - HeaderSize..] == s[PingSize..];
    }
  }

  /** PingPacket.Deserialize after `base.Deserialize`: the body is read whatever the header's type byte. */
  method DeserializePingBody(h: SystemHeader, r: LLReader.LLNetworkReader) returns (res: Result<PingPacket>)
    modifies r
    ensures res == DecodePingBody(h, old(r.Remaining()))
    ensures res.Ok? ==> r.Remaining() == old(r.Remaining())[PingSize - HeaderSize..]
  {
    ghost var s := r.Remaining();
    var times :- DeserializePingTimes(r);
    var intDropRate :- r.ReadByte();
    Slice(s, 12, 1);
    var extDropRate :- r.ReadByte();
    Slice(s, 13, 1);
    var remoteSessionId :- r.ReadUInt16();
    Slice(s, 14, 2);
    res := Ok(PingPacket(h, times.0, times.1, times.2, intDropRate, extDropRate, remoteSessionId));
  }

  /** The three 32-bit times that open a ping body. */
  method DeserializePingTimes(r: LLReader.LLNetworkReader) returns (res: Result<(U32, U32, U32)>)
    modifies r
    ensures var s := old(r.Remaining());
            if |s| < 12 then res == Err(EndOfStream)
            else res == Ok((U32At(s, 0), U32At(s, 4), U32At(s, 8))) && r.Remaining() == s[12..]
  {
    ghost var s := r.Remaining();
    var sentPingTime :- r.ReadUInt32();
    Slice(s, 0, 4);
    var ackPingTime :- r.ReadUInt32();
    Slice(s, 4, 4);
    var localTimeCorrection :- r.ReadUInt32();
    Slice(s, 8, 4);
    res := Ok((sentPingTime, ackPingTime, localTimeCorrection));
  }

  method SerializeDisconnect(p: DisconnectPacket, w: LLWriter.LLNetworkWriter)
    modifies w
    ensures w.bytes == old(w.bytes) + EncodeDisconnect(p)
  {
    SerializeHeader(p.header, w);
    w.WriteUInt32(p.libVersion);
    w.WriteEnum(p.reason);
  }

  method DeserializeDisconnect(r: LLReader.LLNetworkReader) returns (res: Result<DisconnectPacket>)
    modifies r
    ensures res == DecodeDisconnect(old(r.Remaining()))
    ensures res.Ok? ==> r.Remaining() == old(r.Remaining())[DisconnectSize..]
  {
    ghost var s := r.Remaining();
    var h :- DeserializeHeader(r);
    var libVersion :- r.ReadUInt32();
    var reason :- r.ReadEnum();
    res := Ok(DisconnectPacket(h, libVersion, reason));
    assert s[11..][..4] == s[11..15];
  }

  /** ConnectPacket writes through the LLAPI NetworkWriter; the header part is the one
      `SerializeHeader` produces. */
  method SerializeConnect(p: ConnectPacket, w: LLNetworkWriterCopy.NetworkWriter)
    modifies w
    ensures w.bytes == old(w.bytes) + EncodeConnect(p)
  {
    var h := p.header;
    w.WriteUInt16(h.connectionId);
    w.WriteEnum(h.requestType);
    w.WriteUInt16(h.packetId);
    w.WriteUInt16(h.sessionId);
    w.WriteUInt16(h.localConnectionId);
    w.WriteUInt16(h.remoteConnectionId);
    w.WriteUInt32(p.libVersion);
    w.WriteUInt32(p.crc);
  }

  method DeserializeConnect(r: LLReader.LLNetworkReader) returns (res: Result<ConnectPacket>)
    modifies r
    ensures res == DecodeConnect(old(r.Remaining()))
    ensures res.Ok? ==> r.Remaining() == old(r.Remaining())[ConnectSize..]
  {
    ghost var s := r.Remaining();
    var h :- DeserializeHeader(r);
    var libVersion :- r.ReadUInt32();
    var crc :- r.ReadUInt32();
    res := Ok(ConnectPacket(h, libVersion, crc));
    assert s[11..][..4] == s[11..15] && s[15..][..4] == s[15..19];
  }

  // ----- The serialization tests: write with a fresh writer, read back with a fresh reader -----

  method ConnectPacketSerialization(p: ConnectPacket) returns (r: Result<ConnectPacket>)
    ensures r == Ok(p)
  {
    var w := new LLNetworkWriterCopy.NetworkWriter();
    SerializeConnect(p, w);
    var data := w.ToArray();
    var reader := new LLReader.LLNetworkReader(data);
    ConnectRoundTrip(p, []);
    assert reader.Remaining() == EncodeConnect(p) + [];
    r := DeserializeConnect(reader);
  }

  method DisconnectPacketSerialization(p: DisconnectPacket) returns (r: Result<DisconnectPacket>)
    ensures r == Ok(p)
  {
    var w := new LLWriter.LLNetworkWriter();
    SerializeDisconnect(p, w);
    var data := w.ToArray();
    var reader := new LLReader.LLNetworkReader(data);
    DisconnectRoundTrip(p, []);
    assert reader.Remaining() == EncodeDisconnect(p) + [];
    r := DeserializeDisconnect(reader);
  }

  method PingPacketSerialization(p: PingPacket) returns (r: Result<PingPacket>)
    ensures r == Ok(p)
  {
    var w := new LLWriter.LLNetworkWriter();
    SerializePing(p, w);
    var data := w.ToArray();
    var reader := new LLReader.LLNetworkReader(data);
    PingRoundTrip(p, []);
    assert reader.Remaining() == EncodePing(p) + [];
    r := DeserializePing(reader);
  }
}
