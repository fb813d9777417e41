/** UNetLib.UNetServer: the endpoint-to-connection table, the connection-ID counter and the
    dispatch of incoming datagrams to system handling or to a connection. The socket, the
    receive loop and the thread pool are not modelled: a datagram arrives as a call to
    `HandleIncomingPacket`, one at a time. */
module Server {
  import opened Wrappers
  import opened Bytes
  import opened Config
  import opened Host
  import opened Frames
  import LLReader
  import Packets
  import Connection

  // ----- connection IDs -----

  /** The connection ID `HandleConnectRequest` hands out when the counter, started at zero,
      is incremented for the `n`-th time: `Interlocked.Increment` wraps the 32-bit counter and
      the cast to `ushort` keeps its low 16 bits. */
  function IssuedId(n: nat): U16
  {
    ToU16(WrapI32(n))
  }

  /** Incrementing the wrapped counter is wrapping the incremented count. */
  lemma CounterStep(n: nat)
    ensures WrapI32(WrapI32(n) + 1) == WrapI32(n + 1)
  {
    var u := n % 0x1_0000_0000;
    assert ToU32(n) == u;
    if u < 0x7FFF_FFFF {
      assert WrapI32(n) == u;
      assert (n + 1) % 0x1_0000_0000 == u + 1;
    } else if u == 0x7FFF_FFFF {
      assert WrapI32(n) == 0x7FFF_FFFF;
      assert (n + 1) % 0x1_0000_0000 == 0x8000_0000;
    } else if u < 0xFFFF_FFFF {
      assert WrapI32(n) == u - 0x1_0000_0000;
      assert (n + 1) % 0x1_0000_0000 == u + 1;
    } else {
      assert WrapI32(n) == -1;
      assert (n + 1) % 0x1_0000_0000 == 0;
    }
  }

  /** The `n`-th connection ID is `n` modulo 65536: the counter's wrap at 2^31 never shows
      in the 16 bits kept. */
  lemma IssuedIdIsCount(n: nat)
    ensures IssuedId(n) == n % 0x1_0000
  {
    var u := n % 0x1_0000_0000;
    assert u % 0x1_0000 == n % 0x1_0000 by {
      var q := n / 0x1_0000_0000;
      assert n == q * 0x1_0000_0000 + u;
      assert n == (q * 0x1_0000) * 0x1_0000 + u;
    }
    if u >= 0x8000_0000 {
      assert (u - 0x1_0000_0000) % 0x1_0000 == u % 0x1_0000;
    }
  }

  /** Any 65536 consecutive connections get pairwise different IDs; the first 65535 get the
      IDs 1 to 65535 in order, so none of them is 0. */
  lemma IssuedIdsDistinct(i: nat, j: nat)
    requires i < j < i + 0x1_0000
    ensures IssuedId(i) != IssuedId(j)
    ensures 1 <= j <= 0xFFFF ==> IssuedId(j) == j
  {
    IssuedIdIsCount(i);
    IssuedIdIsCount(j);
  }

  /** The 65536th connection gets connection ID 0, the ID that marks system packets: its
      data packets would be handled as system packets. */
  lemma IdWrapsToSystem()
    ensures IssuedId(0x1_0000) == 0 && IssuedId(0x1_0001) == 1
  {
    IssuedIdIsCount(0x1_0000);
    IssuedIdIsCount(0x1_0001);
  }

  // ----- the table -----

  /** How handling one datagram from `from` can change the table: not at all, by registering
      a connection for `from` where there was none, or by removing the one for `from`. */
  predicate TableStep(before: map<Endpoint, Connection.UNetClient>, after: map<Endpoint, Connection.UNetClient>,
                      from: Endpoint)
  {
    || after == before
    || (from in before && after == before - {from})
    || (from !in before && from in after && after == before[from := after[from]])
  }

  /** The objects the handlers of one connection may change: the connection, its ack window,
      its channels, the fragment buffers they hold and the shared network record. */
  function Footprint(c: Connection.UNetClient): set<object>
    reads c.ChannelObjects()
  {
    {c, c.acks, c.host} + c.ChannelObjects() + c.FragmentObjects()
  }

  /** The number of acknowledgement bytes after the connection ID in a data packet: packet
      ID, session ID, last message ID and one ack mask, or two in long-ack mode. */
  function AckFieldsSize(acksLong: bool): nat
  {
    if acksLong then 14 else 10
  }

  /** The ack masks of a data packet whose bytes after the connection ID are `s`. */
  function Masks(s: seq<Byte>, acksLong: bool): seq<U32>
    requires |s| >= AckFieldsSize(acksLong)
  {
    if acksLong then [FromBE32(s[6..10]), FromBE32(s[10..14])] else [FromBE32(s[6..10])]
  }

  /** Reads the packet ID, session ID, last message ID and ack masks at the head of a data
      packet's remaining bytes; the last message ID and the masks are returned. */
  method ReadAckFields(reader: LLReader.LLNetworkReader, acksLong: bool) returns (r: Result<(U16, seq<U32>)>)
    requires Connection.InBounds(reader)
    modifies reader
    ensures Connection.InBounds(reader)
    ensures var s := old(reader.Remaining());
            var n := AckFieldsSize(acksLong);
            if |s| < n then r.Err? && r.fault == EndOfStream
            else && r.Ok? && r.value.0 == FromBE16(s[4..6]) && r.value.1 == Masks(s, acksLong)
                 && reader.Remaining() == s[n..]
  {
    ghost var s := reader.Remaining();
    var packetId :- reader.ReadUInt16();
    var sessionId :- reader.ReadUInt16();
    var ackMessageId :- reader.ReadUInt16();
    assert reader.Remaining() == s[6..];
    var first :- reader.ReadUInt32();
    assert s[6..][..4] == s[6..10];
    if acksLong {
      assert reader.Remaining() == s[10..];
      var second :- reader.ReadUInt32();
      assert s[10..][..4] == s[10..14];
      r := Ok((ackMessageId, [first, second]));
    } else {
      r := Ok((ackMessageId, [first]));
    }
  }

  /** The outcome of `Serve` on the bytes `s` after the connection ID: too few bytes for the
      ack fields fail and change nothing; otherwise the acks are processed, and when that fails
      or no bytes follow, the result, the connection's state and the sent datagrams are those
      of `AcksProcessed`, and nothing is reported. */
  twostate predicate Served(client: Connection.UNetClient, s: seq<Byte>, new r: Status)
    reads client, client.host
  {
    var n := AckFieldsSize(client.config.isAcksLong);
    if |s| < n then r == Err(EndOfStream) && unchanged(client.host) && client.Vars() == old(client.Vars())
    else
      var e := old(client.AcksProcessed(FromBE16(s[4..6]), Masks(s, client.config.isAcksLong), client.host.sent));
      (e.0.Err? || |s| == n) ==>
        && r == e.0 && client.Vars() == e.1 && client.host.sent == e.2
        && client.host.events == old(client.host.events)
  }

  /** The data packet handling of one connection: the acks are always processed, the frames
      only when bytes remain after them. The packet and session IDs are read but not checked. */
  method Serve(client: Connection.UNetClient, reader: LLReader.LLNetworkReader, ghost others: set<object>) returns (r: Status)
    requires client.Wired() && client.ChannelsValid() && Connection.InBounds(reader)
    requires others !! Footprint(client) && reader !in others
    modifies reader, Footprint(client)
    ensures client.ChannelsValid() && unchanged(others)
    ensures Served(client, old(reader.Remaining()), r)
  {
    client.Apart(null, reader);
    var acks :- ReadAckFields(reader, client.config.isAcksLong);
    assert client.ChannelsValid();
    r := client.ProcessAcks(acks.0, acks.1);
    if r.Err? || reader.IsAtEnd() {
      return;
    }
    r := client.ProcessDataPacket(reader);
  }

  /** A reader over a datagram of at least 2 bytes, past its connection ID, and that ID. */
  method OpenDatagram(datagram: seq<Byte>) returns (reader: LLReader.LLNetworkReader, connectionId: U16)
    requires |datagram| >= 2
    ensures fresh(reader) && reader.buffer == datagram && reader.position == 2
    ensures connectionId == FromBE16(datagram[..2])
  {
    reader := new LLReader.LLNetworkReader(datagram);
    var read := reader.ReadUInt16();
    connectionId := read.value;
  }

  class UNetServer {
    const config: ConnectionConfig
    /** The UDP socket and the event listener. */
    const host: Network
    /** `_clients`. */
    var clients: map<Endpoint, Connection.UNetClient>
    /** `_nextConnectionId`, a 32-bit signed counter. */
    var nextConnectionId: I32
    /** How many times the counter has been incremented. */
    ghost var issued: nat

    /** Every registered connection was built by this server with its configuration, for the
        endpoint it is registered under; the counter is the wrapped number of increments. */
    ghost predicate Valid()
      reads this
    {
      && |config.channels| <= 255
      && nextConnectionId == WrapI32(issued)
      && forall e | e in clients ::
           && clients[e].endpoint == e && clients[e].host == host && clients[e].config == config
           && clients[e].Wired()
    }

    /** The channels of every registered connection. */
    ghost function Channels(): set<object>
      reads this
    {
      set e, o | e in clients && o in clients[e].ChannelObjects() :: o
    }

    /** Every registered connection's channels keep their own invariants. */
    ghost predicate ChannelsValid()
      reads this, Channels()
    {
      forall e | e in clients :: clients[e].ChannelsValid()
    }

    /** `c` is the connection `HandleConnectRequest` builds for `packet` from `from`, with
        connection ID `id` and session ID `sessionId`, after its first ping. */
    ghost predicate NewConnection(c: Connection.UNetClient, packet: Packets.ConnectPacket, from: Endpoint,
                                  id: U16, sessionId: U16)
      reads c
    {
      && c.endpoint == from && c.host == host && c.config == config
      && c.connectionId == id && c.remoteConnectionId == packet.header.localConnectionId
      && c.sessionId == sessionId && c.remoteSessionId == packet.header.sessionId
      && c.Vars() == Connection.ClientVars(1, 1, map[], Connection.Handshake)
      && c.Wired()
    }

    /** A server with no connections. A configuration of more than 255 channels would make
        every connection's constructor loop forever, so it is excluded. */
    constructor (config: ConnectionConfig, host: Network)
      requires |config.channels| <= 255
      ensures Valid() && ChannelsValid() && this.config == config && this.host == host
      ensures clients == map[] && nextConnectionId == 0 && issued == 0
    {
      this.config := config;
      this.host := host;
      clients := map[];
      nextConnectionId := 0;
      issued := 0;
    }

    /** A datagram shorter than 2 bytes is ignored. Connection ID 0 marks a system packet;
        any other goes to the connection registered for the sender. */
    method HandleIncomingPacket(datagram: seq<Byte>, from: Endpoint, tick: I32, sessionRoll: U16) returns (r: Status)
      requires Valid() && ChannelsValid() && 1 <= sessionRoll <= 0xFFFE
      modifies this, host, if from in clients then Footprint(clients[from]) else {}
      ensures Valid() && ChannelsValid() && TableStep(old(clients), clients, from)
      ensures from in clients && from !in old(clients) ==> fresh(clients[from])
      ensures |datagram| < 2 ==> r == Done && unchanged(this, host)
      ensures |datagram| >= 2 && FromBE16(datagram[..2]) != 0 ==> unchanged(this)
      ensures |datagram| >= 2 && FromBE16(datagram[..2]) != 0
              && !(from in old(clients) && old(clients)[from].connectionId == FromBE16(datagram[..2])) ==>
                r == Done && unchanged(this, host)
      ensures |datagram| >= 2 && FromBE16(datagram[..2]) != 0 && from in old(clients)
              && old(clients)[from].connectionId == FromBE16(datagram[..2]) ==>
                Served(old(clients[from]), datagram[2..], r)
      ensures |datagram| == 2 && FromBE16(datagram[..2]) == 0 ==> r == Err(EndOfStream) && unchanged(this, host)
      ensures |datagram| >= 3 && FromBE16(datagram[..2]) == 0 && from !in old(clients)
              && datagram[2] != Packets.ConnectRequest ==>
                r == Done && unchanged(this, host)
      ensures |datagram| >= 3 && FromBE16(datagram[..2]) == 0
              && datagram[2] !in {Packets.ConnectRequest, Packets.Disconnect, Packets.Ping} ==>
                r == Done && unchanged(this, host)
      ensures |datagram| >= 3 && FromBE16(datagram[..2]) == 0 && datagram[2] == Packets.ConnectRequest ==>
                ConnectHandled(datagram, from, tick, sessionRoll, r)
      ensures |datagram| >= 3 && FromBE16(datagram[..2]) == 0 && datagram[2] == Packets.Disconnect && from in old(clients) ==>
                DisconnectHandled(datagram, from, old(clients[from]), r)
      ensures |datagram| >= 3 && FromBE16(datagram[..2]) == 0 && datagram[2] == Packets.Ping && from in old(clients) ==>
                PingHandled(datagram, from, tick, old(clients[from]), r)
    {
      if |datagram| < 2 {
        return Done;
      }
      var reader, connectionId := OpenDatagram(datagram);
      if connectionId == 0 {
        r := HandleSystemPacket(reader, from, tick, sessionRoll);
      } else {
        r := HandleDataPacket(reader, connectionId, from);
      }
    }

    /** A system packet, with the reader just past its connection ID: the request type is
        peeked, the reader rewound, and the whole packet decoded by type. An unregistered
        sender can only ask to connect; an unknown type does nothing. */
    method HandleSystemPacket(reader: LLReader.LLNetworkReader, from: Endpoint, tick: I32, sessionRoll: U16)
      returns (r: Status)
      requires Valid() && ChannelsValid() && 1 <= sessionRoll <= 0xFFFE && reader.position == 2 <= |reader.buffer|
      modifies this, host, reader, if from in clients then Footprint(clients[from]) else {}
      ensures Valid() && ChannelsValid() && TableStep(old(clients), clients, from)
      ensures from in clients && from !in old(clients) ==> fresh(clients[from])
      ensures var s := reader.buffer;
              && (|s| < 3 ==> r == Err(EndOfStream) && unchanged(this, host))
              && (|s| >= 3 && from !in old(clients) && s[2] != Packets.ConnectRequest ==> r == Done && unchanged(this, host))
              && (|s| >= 3 && s[2] !in {Packets.ConnectRequest, Packets.Disconnect, Packets.Ping} ==>
                    r == Done && unchanged(this, host))
      ensures var s := reader.buffer;
              |s| >= 3 && s[2] == Packets.ConnectRequest ==> ConnectHandled(s, from, tick, sessionRoll, r)
      ensures var s := reader.buffer;
              |s| >= 3 && s[2] == Packets.Disconnect && from in old(clients) ==>
                DisconnectHandled(s, from, old(clients[from]), r)
      ensures var s := reader.buffer;
              |s| >= 3 && s[2] == Packets.Ping && from in old(clients) ==> PingHandled(s, from, tick, old(clients[from]), r)
    {
      var requestType :- PeekRequestType(reader);
      if from !in clients && requestType != Packets.ConnectRequest {
        return Done;
      }
      if requestType == Packets.ConnectRequest {
        r := ConnectCase(reader, from, tick, sessionRoll);
      } else if requestType == Packets.Disconnect {
        r := DisconnectCase(reader, from);
      } else if requestType == Packets.Ping {
        r := PingCase(reader, from, tick);
      } else {
        r := Done;
      }
    }

    /** The outcome of the connect request `s` (the whole system packet) from `from`: a packet
        that does not decode fails and changes nothing, as does a request from a registered
        endpoint. Otherwise the counter advances; an unsupported configuration then fails with
        `NotSupported` and registers nothing, and a supported one registers a new connection
        under the next connection ID, pings it and reports it. */
    twostate predicate ConnectHandled(s: seq<Byte>, from: Endpoint, tick: I32, sessionRoll: U16, new r: Status)
      reads this, host, if from in clients then {clients[from]} else {}
    {
      var p := Packets.DecodeConnect(s);
      && (p.Err? ==> r == Err(p.fault) && unchanged(this, host))
      && (p.Ok? && from in old(clients) ==> r == Done && unchanged(this, host))
      && (p.Ok? && from !in old(clients) && !Supported(config) ==>
            r == Err(NotSupported) && issued == old(issued) + 1 && clients == old(clients) && unchanged(host))
      && (p.Ok? && from !in old(clients) && Supported(config) ==>
            && r == Done && issued == old(issued) + 1
            && from in clients && clients == old(clients)[from := clients[from]]
            && NewConnection(clients[from], p.value, from, IssuedId(issued), sessionRoll)
            && host.sent == old(host.sent) + [Datagram(from, Packets.EncodePing(clients[from].PingReply(0, None, tick)))]
            && host.events == old(host.events) + [ClientConnected(from, IssuedId(issued))])
    }

    /** The outcome of the disconnect packet `s` from the endpoint `from` of connection `c`: a
        packet that does not decode fails and changes nothing; otherwise a connection already
        disconnected is left alone, and any other is marked disconnected, removed and reported. */
    twostate predicate DisconnectHandled(s: seq<Byte>, from: Endpoint, c: Connection.UNetClient, new r: Status)
      reads this, host, c
    {
      var p := Packets.DecodeDisconnect(s);
      && (p.Err? ==> r == Err(p.fault) && unchanged(this, host))
      && (p.Ok? && old(c.state) == Connection.Disconnected ==> r == Done && unchanged(this, host))
      && (p.Ok? && old(c.state) != Connection.Disconnected ==>
            && r == Done && c.state == Connection.Disconnected && clients == old(clients) - {from}
            && host.sent == old(host.sent)
            && host.events == old(host.events) + [ClientDisconnected(from, c.connectionId, p.value.reason)])
    }

    /** The outcome of the ping packet `s` from the endpoint `from` of connection `c`: a packet
        that does not decode fails and changes nothing; otherwise the table stays, the reply
        ping is sent, and a connection in handshake becomes connected and is reported. */
    twostate predicate PingHandled(s: seq<Byte>, from: Endpoint, tick: I32, c: Connection.UNetClient, new r: Status)
      reads this, host, c
    {
      var p := Packets.DecodePing(s);
      && (p.Err? ==> r == Err(p.fault) && unchanged(this, host))
      && (p.Ok? ==>
            && r == Done && unchanged(this)
            && host.sent == old(host.sent)
                            + [Datagram(from, Packets.EncodePing(c.PingReply(old(c.nextPacketId), Some(p.value), tick)))]
            && (old(c.state) == Connection.Handshake ==>
                  c.state == Connection.Connected && host.events == old(host.events) + [ClientConnected(from, c.connectionId)])
            && (old(c.state) != Connection.Handshake ==> c.state == old(c.state) && host.events == old(host.events)))
    }

    /** The connect case of a system packet: the request is decoded from the reader, then handled. */
    method ConnectCase(reader: LLReader.LLNetworkReader, from: Endpoint, tick: I32, sessionRoll: U16) returns (r: Status)
      requires Valid() && ChannelsValid() && 1 <= sessionRoll <= 0xFFFE
      modifies this, host, reader
      ensures Valid() && ChannelsValid() && TableStep(old(clients), clients, from)
      ensures from in clients && from !in old(clients) ==> fresh(clients[from])
      ensures ConnectHandled(old(reader.Remaining()), from, tick, sessionRoll, r)
    {
      var packet :- ReadConnect(reader);
      r := HandleConnectRequest(packet, from, tick, sessionRoll);
    }

    /** The disconnect case of a system packet from a registered endpoint. */
    method DisconnectCase(reader: LLReader.LLNetworkReader, from: Endpoint) returns (r: Status)
      requires Valid() && ChannelsValid() && from in clients
      modifies this, host, reader, clients[from]
      ensures Valid() && ChannelsValid() && TableStep(old(clients), clients, from)
      ensures DisconnectHandled(old(reader.Remaining()), from, old(clients[from]), r)
    {
      var packet :- ReadDisconnect(reader);
      RemoveClient(clients[from], packet.reason);
      r := Done;
    }

    /** The ping case of a system packet from a registered endpoint. */
    method PingCase(reader: LLReader.LLNetworkReader, from: Endpoint, tick: I32) returns (r: Status)
      requires Valid() && ChannelsValid() && from in clients
      modifies host, reader, clients[from]
      ensures Valid() && ChannelsValid() && clients == old(clients)
      ensures PingHandled(old(reader.Remaining()), from, tick, old(clients[from]), r)
    {
      var packet :- ReadPing(reader);
      PingClient(clients[from], packet, tick);
      r := Done;
    }

    /** The request type of a system packet, with the reader rewound to its start. */
    method PeekRequestType(reader: LLReader.LLNetworkReader) returns (r: Result<Byte>)
      requires ChannelsValid() && reader.position == 2 <= |reader.buffer|
      modifies reader
      ensures ChannelsValid()
      ensures |reader.buffer| < 3 ==> r == Err(EndOfStream)
      ensures |reader.buffer| >= 3 ==> r == Ok(reader.buffer[2]) && reader.Remaining() == reader.buffer
    {
      r := reader.ReadEnum();
      if r.Err? {
        return;
      }
      reader.SetPosition(0);
      assert reader.Remaining() == reader.buffer;
    }

    /** `ProcessPing` on a registered connection, which leaves every channel as it was. */
    method PingClient(client: Connection.UNetClient, incoming: Packets.PingPacket, tick: I32)
      requires Valid() && ChannelsValid() && client in clients.Values
      modifies client, host
      ensures Valid() && ChannelsValid()
      ensures old(client.state) == Connection.Handshake ==>
                client.state == Connection.Connected
                && host.events == old(host.events) + [ClientConnected(client.endpoint, client.connectionId)]
      ensures old(client.state) != Connection.Handshake ==> client.state == old(client.state) && host.events == old(host.events)
      ensures host.sent == old(host.sent)
                           + [Datagram(client.endpoint, Packets.EncodePing(client.PingReply(old(client.nextPacketId), Some(incoming), tick)))]
      ensures client.Vars() == old(client.Vars()).(nextPacketId := ToU16(old(client.nextPacketId) + 1), state := client.state)
    {
      client.ProcessPing(incoming, tick);
      forall e, i | e in clients && 0 <= i < |clients[e].channels|
        ensures clients[e].channels[i].Valid()
      {
        Connection.NotAChannel(clients[e].channels[i], client, null, null);
        assert old(clients[e].channels[i].Valid());
      }
    }

    /** Deserialises a connect packet; the connections' channels are untouched. */
    method ReadConnect(reader: LLReader.LLNetworkReader) returns (r: Result<Packets.ConnectPacket>)
      requires ChannelsValid()
      modifies reader
      ensures ChannelsValid() && r == Packets.DecodeConnect(old(reader.Remaining()))
    {
      r := Packets.DeserializeConnect(reader);
    }

    /** Deserialises a disconnect packet; the connections' channels are untouched. */
    method ReadDisconnect(reader: LLReader.LLNetworkReader) returns (r: Result<Packets.DisconnectPacket>)
      requires ChannelsValid()
      modifies reader
      ensures ChannelsValid() && r == Packets.DecodeDisconnect(old(reader.Remaining()))
    {
      r := Packets.DeserializeDisconnect(reader);
    }

    /** Deserialises a ping packet; the connections' channels are untouched. */
    method ReadPing(reader: LLReader.LLNetworkReader) returns (r: Result<Packets.PingPacket>)
      requires ChannelsValid()
      modifies reader
      ensures ChannelsValid() && r == Packets.DecodePing(old(reader.Remaining()))
    {
      r := Packets.DeserializePing(reader);
    }

    /** A data packet, with the reader just past its connection ID. It is dropped unless the
        sender is registered under that connection ID. */
    method HandleDataPacket(reader: LLReader.LLNetworkReader, connectionId: U16, from: Endpoint) returns (r: Status)
      requires Valid() && ChannelsValid() && Connection.InBounds(reader)
      modifies reader, host, if from in clients then Footprint(clients[from]) else {}
      ensures unchanged(this) && ChannelsValid()
      ensures !(from in clients && clients[from].connectionId == connectionId) ==> r == Done && unchanged(host, reader)
      ensures from in clients && clients[from].connectionId == connectionId ==>
                Served(clients[from], old(reader.Remaining()), r)
    {
      if from !in clients || clients[from].connectionId != connectionId {
        return Done;
      }
      var client := clients[from];
      Outside(client);
      OthersApart(client, reader);
      r := Serve(client, reader, Others(client));
      ChannelsKept(client);
    }

    /** The channels of the registered connections that are not channels of `client`. */
    ghost function Others(client: Connection.UNetClient): set<object>
      reads this
    {
      set e, j | e in clients && 0 <= j < |clients[e].channels| && clients[e].channels[j].Obj() !in client.ChannelObjects()
        :: clients[e].channels[j].Obj()
    }

    /** None of those channels is an object `client`'s handlers change. */
    lemma OthersApart(client: Connection.UNetClient, reader: LLReader.LLNetworkReader)
      ensures Others(client) !! Footprint(client) && reader !in Others(client) && host !in Others(client)
    {
      forall e, j | e in clients && 0 <= j < |clients[e].channels|
        ensures clients[e].channels[j].Obj() !in client.FragmentObjects()
        ensures clients[e].channels[j].Obj() != reader && clients[e].channels[j].Obj() != host
        ensures clients[e].channels[j].Obj() !in {client, client.acks, client.host}
      {
        Connection.NotAFragment(clients[e].channels[j], client);
        Connection.NotAChannel(clients[e].channels[j], client, null, reader);
      }
    }

    /** After `client` has served a packet, every connection's channels are still valid:
        each channel either kept its state or is one of `client`'s. */
    twostate lemma ChannelsKept(client: Connection.UNetClient)
      requires old(ChannelsValid()) && unchanged(this) && client.ChannelsValid() && unchanged(Others(client))
      ensures ChannelsValid()
    {
      forall e, j | e in clients && 0 <= j < |clients[e].channels|
        ensures clients[e].channels[j].Valid()
      {
        var channel := clients[e].channels[j];
        if channel.Obj() in client.ChannelObjects() {
          var i :| 0 <= i < |client.channels| && client.channels[i].Obj() == channel.Obj();
          Connection.SameChannel(client.channels[i], channel);
        } else {
          assert channel.Obj() in Others(client);
        }
      }
    }

    /** The server is not a channel. */
    lemma NotServer(channel: Connection.ChannelRef)
      ensures channel.Obj() != this
    {
      match channel {
        case UnreliableRef(_) =>
        case UnreliableSequencedRef(_) =>
        case ReliableRef(_) =>
        case ReliableSequencedRef(_) =>
        case ReliableFragmentedRef(_) =>
      }
    }

    /** The server is none of the objects a connection's handlers change. */
    lemma Outside(c: Connection.UNetClient)
      ensures this !in Footprint(c)
    {
      forall i | 0 <= i < |c.channels|
        ensures c.channels[i].Obj() != this
      {
      }
    }

    /** A connect request from an unregistered endpoint registers a new connection under the
        next connection ID and a session ID drawn from [1, 65534], pings it and reports it. A
        request from a registered endpoint is ignored. */
    method HandleConnectRequest(packet: Packets.ConnectPacket, from: Endpoint, tick: I32, sessionRoll: U16)
      returns (r: Status)
      requires Valid() && ChannelsValid() && 1 <= sessionRoll <= 0xFFFE
      modifies this, host
      ensures Valid() && ChannelsValid()
      ensures from in old(clients) ==> r == Done && unchanged(this, host)
      ensures from !in old(clients) && !Supported(config) ==>
                && r == Err(NotSupported) && issued == old(issued) + 1
                && clients == old(clients) && unchanged(host)
      ensures from !in old(clients) && Supported(config) ==>
                && r == Done && issued == old(issued) + 1
                && from in clients && fresh(clients[from]) && clients == old(clients)[from := clients[from]]
                && NewConnection(clients[from], packet, from, IssuedId(issued), sessionRoll)
                && host.sent == old(host.sent) + [Datagram(from, Packets.EncodePing(clients[from].PingReply(0, None, tick)))]
                && host.events == old(host.events) + [ClientConnected(from, IssuedId(issued))]
    {
      if from in clients {
        return Done;
      }
      CounterStep(issued);
      nextConnectionId := WrapI32(nextConnectionId + 1);
      issued := issued + 1;
      var newConnectionId := ToU16(nextConnectionId);
      if !Supported(config) {
        // the connection's constructor throws on the first QoS type it cannot build
        return Err(NotSupported);
      }
      var client := new Connection.UNetClient(host, from, newConnectionId, packet.header.localConnectionId,
                                              sessionRoll, packet.header.sessionId, config);
      Register(client, tick);
      r := Done;
    }

    /** Registers a new connection under its endpoint, pings it and reports it. */
    method Register(client: Connection.UNetClient, tick: I32)
      requires Valid() && ChannelsValid() && client.ChannelsValid() && client.endpoint !in clients
      requires client.host == host && client.config == config && client.Wired()
      modifies this, client, host
      ensures Valid() && ChannelsValid()
      ensures clients == old(clients)[client.endpoint := client]
      ensures nextConnectionId == old(nextConnectionId) && issued == old(issued)
      ensures host.sent == old(host.sent)
                           + [Datagram(client.endpoint, Packets.EncodePing(client.PingReply(old(client.nextPacketId), None, tick)))]
      ensures host.events == old(host.events) + [ClientConnected(client.endpoint, client.connectionId)]
      ensures client.Vars() == old(client.Vars()).(nextPacketId := ToU16(old(client.nextPacketId) + 1))
    {
      clients := clients[client.endpoint := client];
      client.SendPing(None, tick);
      host.Report(ClientConnected(client.endpoint, client.connectionId));
      forall e, i | e in clients && 0 <= i < |clients[e].channels|
        ensures clients[e].channels[i].Valid()
      {
        Connection.NotAChannel(clients[e].channels[i], client, null, null);
        NotServer(clients[e].channels[i]);
        if e == client.endpoint {
          assert old(client.channels[i].Valid());
        } else {
          assert old(clients[e].channels[i].Valid());
        }
      }
    }

    /** Sends the disconnect packet, then removes the connection. */
    method Disconnect(client: Connection.UNetClient, reason: Byte)
      requires Valid() && ChannelsValid() && client.host == host
      modifies this, client, host
      ensures Valid() && ChannelsValid() && nextConnectionId == old(nextConnectionId)
      ensures host.sent == old(host.sent) + [Datagram(client.endpoint, Packets.EncodeDisconnect(client.DisconnectNotice(reason)))]
      ensures old(client.state) == Connection.Disconnected ==>
                clients == old(clients) && host.events == old(host.events) && client.Vars() == old(client.Vars())
      ensures old(client.state) != Connection.Disconnected ==>
                && client.Vars() == old(client.Vars()).(state := Connection.Disconnected)
                && clients == old(clients) - {client.endpoint}
                && host.events == old(host.events) + [ClientDisconnected(client.endpoint, client.connectionId, reason)]
    {
      client.SendDisconnect(reason);
      RemoveClient(client, reason);
    }

    /** The first call marks the connection disconnected, removes its endpoint from the table
        and reports it; a later call finds it disconnected and does nothing. */
    method RemoveClient(client: Connection.UNetClient, reason: Byte)
      requires Valid() && ChannelsValid()
      modifies this, client, host
      ensures Valid() && ChannelsValid() && client.state == Connection.Disconnected
      ensures old(client.state) == Connection.Disconnected ==> unchanged(this, client, host)
      ensures old(client.state) != Connection.Disconnected ==>
                && client.Vars() == old(client.Vars()).(state := Connection.Disconnected)
                && clients == old(clients) - {client.endpoint}
                && nextConnectionId == old(nextConnectionId) && issued == old(issued)
                && host.events == old(host.events) + [ClientDisconnected(client.endpoint, client.connectionId, reason)]
                && host.sent == old(host.sent)
    {
      if client.state == Connection.Disconnected {
        return;
      }
      client.state := Connection.Disconnected;
      clients := clients - {client.endpoint};
      host.Report(ClientDisconnected(client.endpoint, client.connectionId, reason));
    }
  }
}
