/** UNetLib.ConnectionRequest: a connect request handed to the application, which answers it
    once by accepting or rejecting it. The server's accept and deny actions are not part of
    this model; the answer given is recorded as `decision`. */
module Requests {
  import opened Wrappers
  import opened Bytes
  import opened Host
  import Packets
  import Server

  /** The server action a request has taken. */
  datatype Decision =
    | Accepted(endpoint: Endpoint, packet: Packets.ConnectPacket)
    | Denied(endpoint: Endpoint, packet: Packets.ConnectPacket, reason: Byte)

  class ConnectionRequest {
    const server: Server.UNetServer
    const packet: Packets.ConnectPacket
    const endpoint: Endpoint
    /** `_isHandled`. */
    var handled: bool
    /** The one server action this request has taken, once it is handled. */
    ghost var decision: Option<Decision>

    /** A request is handled exactly when it has taken its action. */
    ghost predicate Valid()
      reads this
    {
      handled <==> decision.Some?
    }

    constructor (server: Server.UNetServer, packet: Packets.ConnectPacket, endpoint: Endpoint)
      ensures Valid() && !handled
      ensures this.server == server && this.packet == packet && this.endpoint == endpoint
    {
      this.server := server;
      this.packet := packet;
      this.endpoint := endpoint;
      handled := false;
      decision := None;
    }

    /** The first answer accepts the connection; a request already answered is left as it is. */
    method Accept()
      requires Valid()
      modifies this
      ensures Valid() && handled
      ensures old(handled) ==> decision == old(decision)
      ensures !old(handled) ==> decision == Some(Accepted(endpoint, packet))
    {
      if handled {
        return;
      }
      handled := true;
      decision := Some(Accepted(endpoint, packet));
    }

    /** The first answer denies the connection for `reason`, by default `Ok`; a request already
        answered is left as it is. */
    method Reject(reason: Byte := Packets.ReasonOk)
      requires Valid()
      modifies this
      ensures Valid() && handled
      ensures old(handled) ==> decision == old(decision)
      ensures !old(handled) ==> decision == Some(Denied(endpoint, packet, reason))
    {
      if handled {
        return;
      }
      handled := true;
      decision := Some(Denied(endpoint, packet, reason));
    }
  }
}
