/** What the connection code does to the world outside it: datagrams handed to the UDP
    socket (`UdpClient.Send`) and callbacks on the `IUNetEventListener`. Both are recorded,
    in order, on one `Network` object that the server and all its clients share. */
module Host {
  import opened Bytes

  /** An `IPEndPoint`: the peer's address bytes and port. */
  datatype Endpoint = Endpoint(address: seq<Byte>, port: U16)

  datatype Datagram = Datagram(to: Endpoint, data: seq<Byte>)

  /** A listener callback. The client it concerns is named by its endpoint and connection ID. */
  datatype Event =
    | ClientConnected(endpoint: Endpoint, connectionId: U16)
    | ClientDisconnected(endpoint: Endpoint, connectionId: U16, reason: Byte)
    | NetworkReceive(endpoint: Endpoint, connectionId: U16, data: seq<Byte>, channelId: Byte)

  class Network {
    var sent: seq<Datagram>
    var events: seq<Event>

    constructor ()
      ensures sent == [] && events == []
    {
      sent := [];
      events := [];
    }

    /** `UNetServer.Send`: one datagram to `to`. */
    method Send(to: Endpoint, data: seq<Byte>)
      modifies this
      ensures sent == old(sent) + [Datagram(to, data)] && events == old(events)
    {
      sent := sent + [Datagram(to, data)];
    }

    /** One listener callback. */
    method Report(e: Event)
      modifies this
      ensures events == old(events) + [e] && sent == old(sent)
    {
      events := events + [e];
    }
  }
}
