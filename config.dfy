/** UNetLib.LLAPI: the quality-of-service kinds, the channel predicates over them, the
    connection configuration and the session-ID byte swap. */
module Config {
  import opened Bytes

  /** QosType, in declaration order (values 0 to 8). */
  datatype QosType =
    | Unreliable
    | UnreliableFragmented
    | UnreliableSequenced
    | Reliable
    | ReliableFragmented
    | ReliableSequenced
    | StateUpdate
    | ReliableStateUpdate
    | AllCostDelivery

  /** ChannelUtils.IsChannelReliable. */
  predicate IsChannelReliable(q: QosType)
  {
    q.Reliable? || q.ReliableFragmented? || q.ReliableSequenced? || q.ReliableStateUpdate? || q.AllCostDelivery?
  }

  /** ChannelUtils.IsChannelSequenced. */
  predicate IsChannelSequenced(q: QosType)
  {
    q.UnreliableSequenced? || q.ReliableSequenced?
  }

  /** Reliable-sequenced is the one kind that is both. */
  lemma ReliableAndSequenced(q: QosType)
    ensures IsChannelReliable(q) && IsChannelSequenced(q) <==> q == ReliableSequenced
  {
  }

  /** The plain unreliable kinds are neither. */
  lemma NeitherReliableNorSequenced(q: QosType)
    ensures !IsChannelReliable(q) && !IsChannelSequenced(q)
            <==> q in {Unreliable, UnreliableFragmented, StateUpdate}
  {
  }

  /** ConnectionConfig: short acks by default, and the channel kinds by channel ID. */
  datatype ConnectionConfig = ConnectionConfig(isAcksLong: bool, channels: seq<QosType>)

  const DefaultConfig := ConnectionConfig(false, [])

  /** GetChannelType: the configured kind, or Unreliable for an ID past the end of the list. */
  function GetChannelType(c: ConnectionConfig, channelId: Byte): (q: QosType)
    ensures channelId < |c.channels| ==> q == c.channels[channelId]
    ensures channelId >= |c.channels| ==> q == Unreliable
  {
    if channelId >= |c.channels| then Unreliable else c.channels[channelId]
  }

  /** With the default configuration every channel reads as Unreliable. */
  lemma DefaultChannelType(channelId: Byte)
    ensures GetChannelType(DefaultConfig, channelId) == Unreliable
    ensures !DefaultConfig.isAcksLong
  {
  }

  /** ConnectionUtils.CalculateRemoteSessionId: the two bytes of the value swapped. */
  function CalculateRemoteSessionId(clientSessionId: U16): (r: U16)
    ensures r / 256 == clientSessionId % 256 && r % 256 == clientSessionId / 256
  {
    (clientSessionId % 256) * 256 + clientSessionId / 256
  }

  /** Swapping twice gives the value back. */
  lemma {:induction false} RemoteSessionIdInvolution(x: U16)
    ensures CalculateRemoteSessionId(CalculateRemoteSessionId(x)) == x
  {
    var r := CalculateRemoteSessionId(x);
    assert r / 256 == x % 256 && r % 256 == x / 256;
  }

  /** A value whose two bytes are equal (0 among them) is left unchanged. */
  lemma RemoteSessionIdFixedPoints(x: U16)
    ensures CalculateRemoteSessionId(x) == x <==> x / 256 == x % 256
  {
    var r := CalculateRemoteSessionId(x);
    assert r / 256 == x % 256 && r % 256 == x / 256;
  }
}
