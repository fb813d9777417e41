/** UNetLib.UNetClient and UNetLib.Channel: one connection, its channels, its ID counters and
    its retransmit store. Channels and the connection call each other, so they share this
    module. A channel's back-reference to its connection is passed to `Process` and
    `Prepare` as an argument. The connection reaches the UDP socket and the listener through
    the shared `Network` record. */
module Connection {
  import opened Wrappers
  import opened Bytes
  import opened Config
  import opened Host
  import opened Frames
  import Acks
  import Fragments
  import LLWriter
  import LLReader
  import Packets
  import HLWriter

  /** UNetClient.ConnectionState. */
  datatype ConnectionState = Handshake | Connected | Disconnected

  /** The connection's own mutable fields. */
  datatype ClientVars = ClientVars(nextPacketId: U16, nextMessageId: U16,
                                   pending: map<U16, (Byte, seq<Byte>)>, state: ConnectionState)

  /** The connection's fields, its ack window and the network record: what a channel's
      `Process` can change outside the channel. */
  datatype ClientView = ClientView(vars: ClientVars, window: Acks.Window, sent: seq<Datagram>, events: seq<Event>)

  /** `DisconnectPacket.LibVersion` as the connection sends it. */
  const LibVersion: U32 := 16777472

  /** The cursor has not been moved past the end of its datagram. */
  predicate InBounds(reader: LLReader.LLNetworkReader)
    reads reader
  {
    reader.position <= |reader.buffer|
  }

  // ----- BaseChannel -----

  /** `BaseChannel.ReadPayload`: a negative length, or one reaching past the end of the
      datagram, delivers nothing and leaves the cursor alone; otherwise exactly `length`
      bytes are read and delivered, tagged with the channel's ID. */
  method ReadPayload(reader: LLReader.LLNetworkReader, client: UNetClient, channelId: Byte, length: int)
    requires InBounds(reader)
    modifies reader, client.host
    ensures InBounds(reader)
    ensures var p := Payload(old(reader.Remaining()), length);
            && reader.position == old(reader.position) + Consumed(p)
            && client.host.events == client.Delivered(old(client.host.events), p, channelId)
            && client.host.sent == old(client.host.sent)
  {
    if length < 0 || reader.position + length > |reader.buffer| {
      return;
    }
    var payload := reader.ReadBytes(length);
    client.host.Report(client.Receipt(payload.value, channelId));
  }

  /** `SkipPayload` (called by the reliable-sequenced channel; BaseChannel.cs does not define
      it): the same bounds check as `ReadPayload`, moving the cursor without delivering. */
  method SkipPayload(reader: LLReader.LLNetworkReader, length: int)
    requires InBounds(reader)
    modifies reader
    ensures InBounds(reader)
    ensures reader.position == old(reader.position) + Consumed(Payload(old(reader.Remaining()), length))
  {
    if length < 0 || reader.position + length > |reader.buffer| {
      return;
    }
    reader.SetPosition(reader.position + length);
  }

  /** The opening of a reliable frame: its length field and message ID, the ack window's
      verdict on the ID and, for a message not seen before, `SendAcks`. The result is the
      length field and whether the message was accepted. */
  method Acknowledge(reader: LLReader.LLNetworkReader, client: UNetClient) returns (r: Result<(U16, bool)>)
    requires InBounds(reader)
    modifies reader, client, client.acks, client.host
    ensures InBounds(reader) && old(reader.position) <= reader.position
    ensures var s := old(reader.Remaining());
            var snap := old(client.Snapshot());
            if |s| < 4 then r == Err(EndOfStream) && client.Snapshot() == snap
            else
              var received := Acks.Receive(snap.window, FromBE16(s[2..4]));
              && client.acks.State() == received.0
              && reader.position == old(reader.position) + 4 && reader.Remaining() == s[4..]
              && if !received.1 then
                   r == Ok((FromBE16(s[..2]), false)) && client.Snapshot() == snap.(window := received.0)
                 else
                   var acked := client.AcksSent(snap.sent, snap.vars.nextPacketId);
                   && client.host.sent == acked.1
                   && client.Vars() == snap.vars.(nextPacketId := acked.2)
                   && client.host.events == snap.events
                   && r == (if acked.0.Err? then Err(acked.0.fault) else Ok((FromBE16(s[..2]), true)))
  {
    ghost var s := reader.Remaining();
    var length :- reader.ReadUInt16();
    var messageId :- reader.ReadUInt16();
    assert s[2..][..2] == s[2..4] && s[2..][2..] == s[4..];
    var accepted :- Admit(client, messageId);
    r := Ok((length, accepted));
  }

  /** Records a received message ID and, when it is accepted, sends the acks at once. */
  method Admit(client: UNetClient, messageId: U16) returns (r: Result<bool>)
    modifies client, client.acks, client.host
    ensures var snap := old(client.Snapshot());
            var received := Acks.Receive(snap.window, messageId);
            && client.acks.State() == received.0
            && if !received.1 then
                 r == Ok(false) && client.Snapshot() == snap.(window := received.0)
               else
                 var acked := client.AcksSent(snap.sent, snap.vars.nextPacketId);
                 && client.host.sent == acked.1
                 && client.Vars() == snap.vars.(nextPacketId := acked.2)
                 && client.host.events == snap.events
                 && r == (if acked.0.Err? then Err(acked.0.fault) else Ok(true))
  {
    var accepted := client.acks.ReceiveMessage(messageId);
    if !accepted {
      return Ok(false);
    }
    var sent := client.SendAcks();
    if sent.Err? {
      return Err(sent.fault);
    }
    r := Ok(true);
  }

  // ----- the five channels -----

  class UnreliableChannel {
    const channelId: Byte

    constructor (channelId: Byte)
      ensures this.channelId == channelId
    {
      this.channelId := channelId;
    }

    /** A frame is its length field (payload + 3) and the payload. */
    method Process(reader: LLReader.LLNetworkReader, client: UNetClient) returns (r: Status)
      requires InBounds(reader)
      modifies reader, client.host
      ensures InBounds(reader) && old(reader.position) <= reader.position
      ensures client.host.sent == old(client.host.sent)
      ensures var s := old(reader.Remaining());
              if |s| < 2 then r == Err(EndOfStream) && client.host.events == old(client.host.events)
              else
                var p := Payload(s[2..], FromBE16(s[..2]) - 3);
                && r == Done
                && reader.position == old(reader.position) + 2 + Consumed(p)
                && client.host.events == client.Delivered(old(client.host.events), p, channelId)
    {
      var length :- reader.ReadUInt16();
      ReadPayload(reader, client, channelId, length as int - 3);
      r := Done;
    }

    method Prepare(writer: LLWriter.LLNetworkWriter, data: seq<Byte>)
      modifies writer
      ensures writer.bytes == old(writer.bytes) + UnreliableFrame(data)
    {
      var length := |data| + 3;
      writer.WriteUInt16(ToU16(length));
      writer.WriteBytes(data);
    }
  }

  class UnreliableSequencedChannel {
    const channelId: Byte
    /** The one counter both directions use: the last sequence number accepted, and the
        next one to send. */
    var lastOrderedMessageId: Byte

    constructor (channelId: Byte)
      ensures this.channelId == channelId && lastOrderedMessageId == 0
    {
      this.channelId := channelId;
      lastOrderedMessageId := 0;
    }

    /** A frame is its length field (payload + 4), a sequence number and the payload. A
        sequence number the counter does not let through ends the frame after those three
        bytes; an accepted one becomes the counter. */
    method Process(reader: LLReader.LLNetworkReader, client: UNetClient) returns (r: Status)
      requires InBounds(reader)
      modifies reader, this, client.host
      ensures InBounds(reader) && old(reader.position) <= reader.position
      ensures client.host.sent == old(client.host.sent)
      ensures var s := old(reader.Remaining());
              if |s| < 3 then
                && r == Err(EndOfStream)
                && client.host.events == old(client.host.events)
                && lastOrderedMessageId == old(lastOrderedMessageId)
              else if !SequencedAccepts(old(lastOrderedMessageId), s[2]) then
                && r == Done
                && reader.position == old(reader.position) + 3
                && client.host.events == old(client.host.events)
                && lastOrderedMessageId == old(lastOrderedMessageId)
              else
                var p := Payload(s[3..], FromBE16(s[..2]) - 4);
                && r == Done
                && lastOrderedMessageId == s[2]
                && reader.position == old(reader.position) + 3 + Consumed(p)
                && client.host.events == client.Delivered(old(client.host.events), p, channelId)
    {
      ghost var s := reader.Remaining();
      var length :- reader.ReadUInt16();
      var ordered :- reader.ReadByte();
      assert s[2..][1..] == s[3..];
      if ordered <= lastOrderedMessageId && lastOrderedMessageId != 255 {
        return Done;
      }
      lastOrderedMessageId := ordered;
      ReadPayload(reader, client, channelId, length as int - 4);
      r := Done;
    }

    /** Writes the frame with the current counter, then moves the counter on (mod 256). */
    method Prepare(writer: LLWriter.LLNetworkWriter, data: seq<Byte>)
      modifies writer, this
      ensures writer.bytes == old(writer.bytes) + UnreliableSequencedFrame(data, old(lastOrderedMessageId))
      ensures lastOrderedMessageId == ToByte(old(lastOrderedMessageId) + 1)
    {
      var length := |data| + 4;
      writer.WriteUInt16(ToU16(length));
      writer.WriteByte(lastOrderedMessageId);
      lastOrderedMessageId := ToByte(lastOrderedMessageId + 1);
      writer.WriteBytes(data);
    }
  }

  class ReliableChannel {
    const channelId: Byte

    constructor (channelId: Byte)
      ensures this.channelId == channelId
    {
      this.channelId := channelId;
    }

    /** A frame is its length field (payload + 5), a message ID and the payload. A message
        ID the ack window refuses ends the frame after those four bytes; an accepted one is
        acknowledged (`SendAcks`) before the payload is delivered. */
    method Process(reader: LLReader.LLNetworkReader, client: UNetClient) returns (r: Status)
      requires InBounds(reader) && client.Wired()
      modifies reader, client, client.acks, client.host
      ensures InBounds(reader) && old(reader.position) <= reader.position
      ensures var s := old(reader.Remaining());
              var snap := old(client.Snapshot());
              if |s| < 4 then r == Err(EndOfStream) && client.Snapshot() == snap
              else
                var (w, accepted) := Acks.Receive(snap.window, FromBE16(s[2..4]));
                && client.acks.State() == w
                && if !accepted then
                     && r == Done
                     && reader.position == old(reader.position) + 4
                     && client.Snapshot() == snap.(window := w)
                   else
                     var (status, sent, packetId) := client.AcksSent(snap.sent, snap.vars.nextPacketId);
                     && client.host.sent == sent
                     && client.Vars() == snap.vars.(nextPacketId := packetId)
                     && if status.Err? then r == status && client.host.events == snap.events
                        else
                          var p := Payload(s[4..], FromBE16(s[..2]) - 5);
                          && r == Done
                          && reader.position == old(reader.position) + 4 + Consumed(p)
                          && client.host.events == client.Delivered(snap.events, p, channelId)
    {
      ghost var s := reader.Remaining();
      var head :- Acknowledge(reader, client);
      if !head.1 {
        return Done;
      }
      assert reader.Remaining() == s[4..] && head.0 == FromBE16(s[..2]);
      ReadPayload(reader, client, channelId, head.0 as int - 5);
      r := Done;
    }

    /** Writes the frame under a fresh message ID. The frame is not put in the retransmit
        store. */
    method Prepare(writer: LLWriter.LLNetworkWriter, data: seq<Byte>, client: UNetClient)
      modifies writer, client
      ensures writer.bytes == old(writer.bytes) + ReliableFrame(data, old(client.nextMessageId))
      ensures client.Vars() == old(client.Vars()).(nextMessageId := ToU16(old(client.nextMessageId) + 1))
    {
      var length := |data| + 5;
      writer.WriteUInt16(ToU16(length));
      var messageId := client.NextMessageId();
      writer.WriteUInt16(messageId);
      writer.WriteBytes(data);
    }
  }

  /** The header of a reliable sequenced frame: the payload length (the length field less
      six), the message ID and the sequence number, leaving the reader at the payload. */
  method ReadSequencedHeader(reader: LLReader.LLNetworkReader) returns (r: Result<(int, U16, Byte)>)
    requires InBounds(reader)
    modifies reader
    ensures InBounds(reader) && old(reader.position) <= reader.position
    ensures var s := old(reader.Remaining());
            if |s| < 5 then r == Err(EndOfStream)
            else
              && r == Ok((FromBE16(s[..2]) - 6, FromBE16(s[2..4]), s[4]))
              && reader.position == old(reader.position) + 5 && reader.Remaining() == s[5..]
  {
    ghost var s := reader.Remaining();
    var length :- reader.ReadUInt16();
    var messageId :- reader.ReadUInt16();
    var ordered :- reader.ReadByte();
    assert s[2..][..2] == s[2..4] && s[2..][2..] == s[4..] && s[4..][1..] == s[5..];
    r := Ok((length as int - 6, messageId, ordered));
  }

  class ReliableSequencedChannel {
    const channelId: Byte
    /** Payloads received ahead of their turn, by sequence number. */
    var pendingMessages: map<Byte, seq<Byte>>
    var incomingSequenceNumber: Byte
    var outgoingSequenceNumber: Byte

    /** The expected sequence number is never waiting in the buffer. */
    predicate Valid()
      reads this
    {
      incomingSequenceNumber !in pendingMessages
    }

    constructor (channelId: Byte)
      ensures this.channelId == channelId && Valid()
      ensures pendingMessages == map[] && incomingSequenceNumber == 1 && outgoingSequenceNumber == 1
    {
      this.channelId := channelId;
      pendingMessages := map[];
      incomingSequenceNumber := 1;
      outgoingSequenceNumber := 1;
    }

    /** A frame is its length field (payload + 6), a message ID, a sequence number and the
        payload. A refused message ID skips the payload. Otherwise, after `SendAcks`: the
        expected sequence number is delivered and the buffer drained from the next one; a
        new one ahead of it (or any, at 255) is buffered; anything else is left unread. */
    method Process(reader: LLReader.LLNetworkReader, client: UNetClient) returns (r: Status)
      requires InBounds(reader) && client.Wired() && Valid()
      modifies reader, this, client, client.acks, client.host
      ensures InBounds(reader) && old(reader.position) <= reader.position
      ensures Valid()
      ensures outgoingSequenceNumber == old(outgoingSequenceNumber)
      ensures var s := old(reader.Remaining());
              var snap := old(client.Snapshot());
              var buffer := old(pendingMessages);
              var expected := old(incomingSequenceNumber);
              if |s| < 5 then
                && r == Err(EndOfStream) && client.Snapshot() == snap
                && pendingMessages == buffer && incomingSequenceNumber == expected
              else
                var length := FromBE16(s[..2]);
                var ordered := s[4];
                var received := Acks.Receive(snap.window, FromBE16(s[2..4]));
                && client.acks.State() == received.0
                && if !received.1 then
                     && r == Done
                     && reader.position == old(reader.position) + 5 + Consumed(Payload(s[5..], length - 6))
                     && client.Snapshot() == snap.(window := received.0)
                     && pendingMessages == buffer && incomingSequenceNumber == expected
                   else
                     var acked := client.AcksSent(snap.sent, snap.vars.nextPacketId);
                     && client.host.sent == acked.1
                     && client.Vars() == snap.vars.(nextPacketId := acked.2)
                     && if acked.0.Err? then
                          && r == Err(acked.0.fault) && client.host.events == snap.events
                          && pendingMessages == buffer && incomingSequenceNumber == expected
                        else if ordered == expected then
                          var p := Payload(s[5..], length - 6);
                          var drained := Drain(buffer, ToByte(expected + 1));
                          && r == Done
                          && reader.position == old(reader.position) + 5 + Consumed(p)
                          && client.host.events == client.Delivered(snap.events, p, channelId) + client.Receipts(drained.0, channelId)
                          && pendingMessages == drained.1 && incomingSequenceNumber == drained.2
                        else if Buffers(buffer, expected, ordered) && length - 6 < 0 then
                          && r == Err(ArgumentOutOfRange) && client.host.events == snap.events
                          && pendingMessages == buffer && incomingSequenceNumber == expected
                        else
                          var payload := if length - 6 < 0 then [] else LLReader.Take(s[5..], length - 6);
                          && r == Done && client.host.events == snap.events
                          && reader.position == old(reader.position) + 5 + (if Buffers(buffer, expected, ordered) then |payload| else 0)
                          && pendingMessages == Reorder(buffer, expected, ordered, payload)
                          && incomingSequenceNumber == expected
    {
      ghost var s := reader.Remaining();
      var header :- ReadSequencedHeader(reader);
      var (payloadLength, messageId, ordered) := header;
      var accepted :- Admit(client, messageId);
      if !accepted {
        SkipPayload(reader, payloadLength);
        return Done;
      }
      assert pendingMessages == old(pendingMessages) && incomingSequenceNumber == old(incomingSequenceNumber);
      if ordered == incomingSequenceNumber {
        InOrder(reader, client, payloadLength);
        r := Done;
      } else {
        r := OutOfOrder(reader, ordered, payloadLength);
      }
    }

    /** A frame other than the expected one, with the reader just past its sequence number
        `ordered`: buffered when it is ahead (or any, at 255) and not buffered yet. */
    method OutOfOrder(reader: LLReader.LLNetworkReader, ordered: Byte, length: int) returns (r: Status)
      requires InBounds(reader) && ordered != incomingSequenceNumber && Valid()
      modifies reader, this
      ensures InBounds(reader) && old(reader.position) <= reader.position
      ensures Valid()
      ensures outgoingSequenceNumber == old(outgoingSequenceNumber) && incomingSequenceNumber == old(incomingSequenceNumber)
      ensures var buffers := Buffers(old(pendingMessages), old(incomingSequenceNumber), ordered);
              if buffers && length < 0 then
                r == Err(ArgumentOutOfRange) && pendingMessages == old(pendingMessages)
              else
                var payload := if length < 0 then [] else LLReader.Take(old(reader.Remaining()), length);
                && r == Done
                && reader.position == old(reader.position) + (if buffers then |payload| else 0)
                && pendingMessages == Reorder(old(pendingMessages), old(incomingSequenceNumber), ordered, payload)
    {
      if ordered > incomingSequenceNumber || incomingSequenceNumber == 255 {
        if ordered !in pendingMessages {
          var payload :- reader.ReadBytes(length);
          pendingMessages := pendingMessages[ordered := payload];
        }
      }
      r := Done;
    }

    /** The expected frame: deliver its payload, then the buffered run after it. */
    method InOrder(reader: LLReader.LLNetworkReader, client: UNetClient, length: int)
      requires InBounds(reader)
      modifies reader, this, client.host
      ensures InBounds(reader) && incomingSequenceNumber !in pendingMessages
      ensures outgoingSequenceNumber == old(outgoingSequenceNumber) && client.host.sent == old(client.host.sent)
      ensures var p := Payload(old(reader.Remaining()), length);
              var drained := Drain(old(pendingMessages), ToByte(old(incomingSequenceNumber) + 1));
              && reader.position == old(reader.position) + Consumed(p)
              && client.host.events == client.Delivered(old(client.host.events), p, channelId) + client.Receipts(drained.0, channelId)
              && pendingMessages == drained.1 && incomingSequenceNumber == drained.2
    {
      ghost var drained := Drain(pendingMessages, ToByte(incomingSequenceNumber + 1));
      ReadPayload(reader, client, channelId, length);
      ghost var delivered := client.host.events;
      assert pendingMessages == old(pendingMessages) && incomingSequenceNumber == old(incomingSequenceNumber);
      incomingSequenceNumber := ToByte(incomingSequenceNumber + 1);
      DrainBuffer(client);
      assert client.host.events == delivered + client.Receipts(drained.0, channelId);
    }

    /** Delivers the buffered run that starts at the expected sequence number, in order. */
    method DrainBuffer(client: UNetClient)
      modifies this, client.host
      ensures var total := Drain(old(pendingMessages), old(incomingSequenceNumber));
              && client.host.events == old(client.host.events) + client.Receipts(total.0, channelId)
              && pendingMessages == total.1 && incomingSequenceNumber == total.2
      ensures incomingSequenceNumber !in pendingMessages
      ensures outgoingSequenceNumber == old(outgoingSequenceNumber) && client.host.sent == old(client.host.sent)
    {
      ghost var total := Drain(pendingMessages, incomingSequenceNumber);
      ghost var delivered: seq<seq<Byte>> := [];
      assert delivered + total.0 == total.0;
      while incomingSequenceNumber in pendingMessages
        invariant total.0 == delivered + Drain(pendingMessages, incomingSequenceNumber).0
        invariant total.1 == Drain(pendingMessages, incomingSequenceNumber).1
        invariant total.2 == Drain(pendingMessages, incomingSequenceNumber).2
        invariant client.host.events == old(client.host.events) + client.Receipts(delivered, channelId)
        invariant client.host.sent == old(client.host.sent)
        invariant outgoingSequenceNumber == old(outgoingSequenceNumber)
        decreases |pendingMessages.Keys|
      {
        DrainStep(pendingMessages, incomingSequenceNumber);
        ghost var payload := pendingMessages[incomingSequenceNumber];
        ghost var later := Drain(pendingMessages - {incomingSequenceNumber}, ToByte(incomingSequenceNumber + 1)).0;
        assert delivered + ([payload] + later) == (delivered + [payload]) + later;
        DeliverNext(client);
        ReceiptsSnoc(client, delivered, payload, channelId);
        delivered := delivered + [payload];
      }
      assert delivered + [] == delivered;
      DrainStops(old(pendingMessages), old(incomingSequenceNumber));
    }

    /** Delivers the payload buffered under the expected sequence number and expects the next one. */
    method DeliverNext(client: UNetClient)
      requires incomingSequenceNumber in pendingMessages
      modifies this, client.host
      ensures pendingMessages == old(pendingMessages) - {old(incomingSequenceNumber)}
      ensures |pendingMessages.Keys| < |old(pendingMessages).Keys|
      ensures incomingSequenceNumber == ToByte(old(incomingSequenceNumber) + 1)
      ensures client.host.events == old(client.host.events) + [client.Receipt(old(pendingMessages)[old(incomingSequenceNumber)], channelId)]
      ensures outgoingSequenceNumber == old(outgoingSequenceNumber) && client.host.sent == old(client.host.sent)
    {
      var payload := pendingMessages[incomingSequenceNumber];
      assert (pendingMessages - {incomingSequenceNumber}).Keys == pendingMessages.Keys - {incomingSequenceNumber};
      pendingMessages := pendingMessages - {incomingSequenceNumber};
      incomingSequenceNumber := ToByte(incomingSequenceNumber + 1);
      client.host.Report(client.Receipt(payload, channelId));
    }

    /** Writes the frame under a fresh message ID with the outgoing sequence number (mod 256)
        and puts the whole frame in the retransmit store under that ID. */
    method Prepare(writer: LLWriter.LLNetworkWriter, data: seq<Byte>, client: UNetClient)
      modifies writer, this, client
      ensures writer.bytes == old(writer.bytes) + ReliableSequencedFrame(data, old(client.nextMessageId), old(outgoingSequenceNumber))
      ensures outgoingSequenceNumber == ToByte(old(outgoingSequenceNumber) + 1)
      ensures pendingMessages == old(pendingMessages) && incomingSequenceNumber == old(incomingSequenceNumber)
      ensures client.Vars() == old(client.Vars()).(
                nextMessageId := ToU16(old(client.nextMessageId) + 1),
                pending := old(client.pending)[old(client.nextMessageId) :=
                  (channelId, ReliableSequencedFrame(data, old(client.nextMessageId), old(outgoingSequenceNumber)))])
    {
      var messageId := client.NextMessageId();
      var payloadWriter := new LLWriter.LLNetworkWriter();
      var length := |data| + 6;
      payloadWriter.WriteUInt16(ToU16(length));
      payloadWriter.WriteUInt16(messageId);
      payloadWriter.WriteByte(outgoingSequenceNumber);
      outgoingSequenceNumber := ToByte(outgoingSequenceNumber + 1);
      payloadWriter.WriteBytes(data);
      var payload := payloadWriter.ToArray();
      assert payload == ReliableSequencedFrame(data, messageId, old(outgoingSequenceNumber));
      writer.WriteBytes(payload);
      client.StoreReliableMessage(messageId, channelId, payload);
    }
  }

  class ReliableFragmentedChannel {
    const channelId: Byte
    var nextFragmentedMessageId: Byte
    /** The messages being reassembled, by fragmented-message ID. */
    var pendingMessages: map<Byte, Fragments.FragmentedMessage>

    /** No reassembler serves two fragmented-message IDs. */
    predicate Valid()
      reads this
    {
      forall a, b :: a in pendingMessages && b in pendingMessages && a != b ==> pendingMessages[a] != pendingMessages[b]
    }

    /** The reassemblers' states, by fragmented-message ID. */
    function Table(): map<Byte, Fragments.FragmentState>
      reads this, pendingMessages.Values
    {
      map k | k in pendingMessages :: pendingMessages[k].State()
    }

    constructor (channelId: Byte)
      ensures this.channelId == channelId && Valid()
      ensures nextFragmentedMessageId == 0 && pendingMessages == map[]
    {
      this.channelId := channelId;
      nextFragmentedMessageId := 0;
      pendingMessages := map[];
    }

    /** A frame is its length field (fragment + 8), a message ID, the fragmented-message
        ID, the fragment index, the fragment count and the fragment. A refused message ID
        ends the frame after four bytes. Otherwise, after `SendAcks`, the fragment goes to
        its message's reassembler, opened by the first fragment seen; the completed message
        is delivered whole and its reassembler dropped. */
    method Process(reader: LLReader.LLNetworkReader, client: UNetClient) returns (r: Status)
      requires InBounds(reader) && client.Wired() && Valid()
      modifies reader, this, client, client.acks, client.host, pendingMessages.Values
      ensures InBounds(reader) && old(reader.position) <= reader.position
      ensures Valid()
      ensures nextFragmentedMessageId == old(nextFragmentedMessageId)
      ensures forall m :: m in pendingMessages.Values ==> m in old(pendingMessages.Values) || fresh(m)
      ensures var s := old(reader.Remaining());
              var snap := old(client.Snapshot());
              if |s| < 4 then r == Err(EndOfStream) && client.Snapshot() == snap && Table() == old(Table())
              else
                var received := Acks.Receive(snap.window, FromBE16(s[2..4]));
                && client.acks.State() == received.0
                && if !received.1 then
                     && r == Done
                     && reader.position == old(reader.position) + 4
                     && client.Snapshot() == snap.(window := received.0) && Table() == old(Table())
                   else
                     var acked := client.AcksSent(snap.sent, snap.vars.nextPacketId);
                     && client.host.sent == acked.1
                     && client.Vars() == snap.vars.(nextPacketId := acked.2)
                     && if acked.0.Err? then r == acked.0 && client.host.events == snap.events && Table() == old(Table())
                        else if |s| < 7 then r == Err(EndOfStream) && client.host.events == snap.events && Table() == old(Table())
                        else
                          var length := FromBE16(s[..2]) - 8;
                          var start := Opened(old(Table()), s[4], s[6]);
                          if length < 0 then
                            r == Err(ArgumentOutOfRange) && client.host.events == snap.events && Table() == start
                          else
                            var chunk := LLReader.Take(s[7..], length);
                            var step := FragmentStep(start, s[4], s[5], chunk);
                            && reader.position == old(reader.position) + 7 + |chunk|
                            && Table() == step.0
                            && r == StepStatus(step.1)
                            && client.host.events == client.Delivered(snap.events, StepDelivery(step.1), channelId)
    {
      ghost var s := reader.Remaining();
      var head :- Acknowledge(reader, client);
      assert unchanged(this);
      if !head.1 {
        return Done;
      }
      assert reader.Remaining() == s[4..] && head.0 == FromBE16(s[..2]);
      assert |s| >= 7 ==> s[4..][3..] == s[7..];
      assert Table() == old(Table());
      r := Collect(reader, client, head.0 as int - 8);
    }

    /** The part of `Process` after the acks are sent, with the reader at the
        fragmented-message ID and `length` the fragment's length. */
    method Collect(reader: LLReader.LLNetworkReader, client: UNetClient, length: int) returns (r: Status)
      requires InBounds(reader) && Valid()
      modifies reader, this, client.host, pendingMessages.Values
      ensures InBounds(reader) && old(reader.position) <= reader.position
      ensures Valid()
      ensures nextFragmentedMessageId == old(nextFragmentedMessageId) && client.host.sent == old(client.host.sent)
      ensures forall m :: m in pendingMessages.Values ==> m in old(pendingMessages.Values) || fresh(m)
      ensures var s := old(reader.Remaining());
              var events := old(client.host.events);
              if |s| < 3 then r == Err(EndOfStream) && client.host.events == events && Table() == old(Table())
              else
                var start := Opened(old(Table()), s[0], s[2]);
                if length < 0 then
                  r == Err(ArgumentOutOfRange) && client.host.events == events && Table() == start
                else
                  var chunk := LLReader.Take(s[3..], length);
                  var step := FragmentStep(start, s[0], s[1], chunk);
                  && reader.position == old(reader.position) + 3 + |chunk|
                  && Table() == step.0
                  && r == StepStatus(step.1)
                  && client.host.events == client.Delivered(events, StepDelivery(step.1), channelId)
    {
      var fields :- ReadFragmentFields(reader);
      assert Table() == old(Table());
      var message := Open(fields.0, fields.2);
      r := Gather(reader, client, fields.0, fields.1, length);
    }

    /** Reads the fragment and feeds it to the open reassembler for `fragmentedId`. */
    method Gather(reader: LLReader.LLNetworkReader, client: UNetClient, fragmentedId: Byte, index: Byte, length: int)
      returns (r: Status)
      requires InBounds(reader) && fragmentedId in pendingMessages && Valid()
      modifies reader, this, client.host, pendingMessages[fragmentedId]
      ensures InBounds(reader) && old(reader.position) <= reader.position
      ensures Valid()
      ensures pendingMessages.Values <= old(pendingMessages.Values)
      ensures nextFragmentedMessageId == old(nextFragmentedMessageId) && client.host.sent == old(client.host.sent)
      ensures if length < 0 then
                r == Err(ArgumentOutOfRange) && client.host.events == old(client.host.events) && Table() == old(Table())
              else
                var chunk := LLReader.Take(old(reader.Remaining()), length);
                var step := FragmentStep(old(Table()), fragmentedId, index, chunk);
                && reader.position == old(reader.position) + |chunk|
                && Table() == step.0
                && r == StepStatus(step.1)
                && client.host.events == client.Delivered(old(client.host.events), StepDelivery(step.1), channelId)
    {
      var fragment :- reader.ReadBytes(length);
      r := Feed(client, fragmentedId, index, fragment);
    }

    /** `TryGetValue` or a new reassembler for the fragment count, stored under the ID. */
    method Open(fragmentedId: Byte, amount: Byte) returns (message: Fragments.FragmentedMessage)
      requires Valid()
      modifies this
      ensures fragmentedId in pendingMessages && pendingMessages[fragmentedId] == message
      ensures Table() == Opened(old(Table()), fragmentedId, amount)
      ensures Valid()
      ensures message in old(pendingMessages.Values) || fresh(message)
      ensures pendingMessages.Values <= old(pendingMessages.Values) + {message}
      ensures nextFragmentedMessageId == old(nextFragmentedMessageId)
    {
      if fragmentedId in pendingMessages {
        message := pendingMessages[fragmentedId];
      } else {
        message := new Fragments.FragmentedMessage(amount);
        pendingMessages := pendingMessages[fragmentedId := message];
      }
    }

    /** Adds the fragment to its reassembler; once the message is complete, reassembles
        it, drops the reassembler and delivers the message. */
    method Feed(client: UNetClient, fragmentedId: Byte, index: Byte, fragment: seq<Byte>) returns (r: Status)
      requires fragmentedId in pendingMessages && Valid()
      modifies this, pendingMessages[fragmentedId], client.host
      ensures Valid()
      ensures pendingMessages.Values <= old(pendingMessages.Values)
      ensures nextFragmentedMessageId == old(nextFragmentedMessageId) && client.host.sent == old(client.host.sent)
      ensures var step := FragmentStep(old(Table()), fragmentedId, index, fragment);
              && Table() == step.0
              && r == StepStatus(step.1)
              && client.host.events == client.Delivered(old(client.host.events), StepDelivery(step.1), channelId)
    {
      ghost var start := Table();
      ghost var step := FragmentStep(start, fragmentedId, index, fragment);
      ghost var added := Fragments.Add(start[fragmentedId], index, fragment);
      var complete := Store(fragmentedId, index, fragment);
      if !complete {
        assert step == (start[fragmentedId := added.0], Ok(None));
        return Done;
      }
      ghost var mid := Table();
      assert mid == start[fragmentedId := added.0];
      r := Finish(client, fragmentedId);
      ghost var reassembled := Fragments.Reassembled(added.0);
      if reassembled.Ok? {
        assert step == (start - {fragmentedId}, Ok(Some(reassembled.value)));
        assert mid - {fragmentedId} == start - {fragmentedId};
      } else {
        assert step == (mid, Err(reassembled.fault));
      }
    }

    /** `AddFragment` on the reassembler for `fragmentedId`. */
    method Store(fragmentedId: Byte, index: Byte, fragment: seq<Byte>) returns (complete: bool)
      requires fragmentedId in pendingMessages && Valid()
      modifies pendingMessages[fragmentedId]
      ensures (pendingMessages[fragmentedId].State(), complete) == Fragments.Add(old(Table())[fragmentedId], index, fragment)
      ensures Table() == old(Table())[fragmentedId := pendingMessages[fragmentedId].State()]
    {
      var message := pendingMessages[fragmentedId];
      ghost var start := Table();
      complete := message.AddFragment(index, fragment);
      forall k | k in Table()
        ensures Table()[k] == start[fragmentedId := message.State()][k]
      {
        assert k != fragmentedId ==> pendingMessages[k] != message;
      }
      assert Table().Keys == start.Keys;
    }

    /** Reassembles the completed message for `fragmentedId`, drops its reassembler and
        delivers it; a failed reassembly keeps the reassembler. */
    method Finish(client: UNetClient, fragmentedId: Byte) returns (r: Status)
      requires fragmentedId in pendingMessages && Valid()
      modifies this, client.host
      ensures nextFragmentedMessageId == old(nextFragmentedMessageId) && client.host.sent == old(client.host.sent)
      ensures Valid()
      ensures pendingMessages.Values <= old(pendingMessages.Values)
      ensures match Fragments.Reassembled(old(Table())[fragmentedId])
              case Err(f) =>
                && r == Err(f) && client.host.events == old(client.host.events)
                && pendingMessages == old(pendingMessages) && Table() == old(Table())
              case Ok(full) =>
                && r == Done && client.host.events == old(client.host.events) + [client.Receipt(full, channelId)]
                && pendingMessages == old(pendingMessages) - {fragmentedId} && Table() == old(Table()) - {fragmentedId}
    {
      var message := pendingMessages[fragmentedId];
      var reassembled := message.Reassemble();
      if reassembled.Err? {
        return Err(reassembled.fault);
      }
      var full := reassembled.value;
      ghost var start := Table();
      pendingMessages := pendingMessages - {fragmentedId};
      assert Table().Keys == start.Keys - {fragmentedId};
      // the one-argument ReadPayload (not defined in BaseChannel.cs): the message is
      // delivered whole on this channel
      client.host.Report(client.Receipt(full, channelId));
      r := Done;
    }

    /** Splits the data into 512-byte fragments (at least one), each framed under its own
        fresh message ID with the shared fragmented-message ID, its index and the count,
        written back to back and each put in the retransmit store. */
    method Prepare(writer: LLWriter.LLNetworkWriter, data: seq<Byte>, client: UNetClient)
      modifies writer, this, client
      ensures writer.bytes == old(writer.bytes) + FragmentFrames(data, old(nextFragmentedMessageId), old(client.nextMessageId), FragmentCount(|data|))
      ensures nextFragmentedMessageId == ToByte(old(nextFragmentedMessageId) + 1)
      ensures pendingMessages == old(pendingMessages)
      ensures client.Vars() == old(client.Vars()).(
                nextMessageId := ToU16(old(client.nextMessageId) + FragmentCount(|data|)),
                pending := StoreFragments(old(client.pending), channelId, data, old(nextFragmentedMessageId),
                                          old(client.nextMessageId), FragmentCount(|data|)))
    {
      var fragmentedId := nextFragmentedMessageId;
      nextFragmentedMessageId := ToByte(nextFragmentedMessageId + 1);
      PrepareFragments(writer, data, client, fragmentedId);
    }

    /** `Prepare`'s loop over the fragments of `data`. */
    method PrepareFragments(writer: LLWriter.LLNetworkWriter, data: seq<Byte>, client: UNetClient, fragmentedId: Byte)
      modifies writer, client
      ensures writer.bytes == old(writer.bytes) + FragmentFrames(data, fragmentedId, old(client.nextMessageId), FragmentCount(|data|))
      ensures client.Vars() == old(client.Vars()).(
                nextMessageId := ToU16(old(client.nextMessageId) + FragmentCount(|data|)),
                pending := StoreFragments(old(client.pending), channelId, data, fragmentedId,
                                          old(client.nextMessageId), FragmentCount(|data|)))
    {
      var fragmentAmount := FragmentCount(|data|);
      var firstId := client.nextMessageId;
      var dataOffset := 0;
      ghost var bytes := writer.bytes;
      ghost var vars := client.Vars();
      for i := 0 to fragmentAmount
        invariant dataOffset == if MaxFragmentPayloadSize * i < |data| then MaxFragmentPayloadSize * i else |data|
        invariant client.nextMessageId == ToU16(firstId + i)
        invariant writer.bytes == bytes + FragmentFrames(data, fragmentedId, firstId, i)
        invariant client.pending == StoreFragments(vars.pending, channelId, data, fragmentedId, firstId, i)
        invariant client.nextPacketId == vars.nextPacketId && client.state == vars.state
      {
        dataOffset := PrepareFragment(writer, data, client, fragmentedId, fragmentAmount, firstId, i, dataOffset, bytes, vars.pending);
      }
    }

    /** One turn of `Prepare`'s loop: fragment `i`, from `dataOffset`, is framed under the
        next message ID, written and stored for retransmission. */
    method PrepareFragment(writer: LLWriter.LLNetworkWriter, data: seq<Byte>, client: UNetClient, fragmentedId: Byte,
                           fragmentAmount: Byte, firstId: U16, i: nat, dataOffset: nat,
                           ghost bytes: seq<Byte>, ghost pending: map<U16, (Byte, seq<Byte>)>) returns (nextOffset: nat)
      requires fragmentAmount == FragmentCount(|data|) && i < fragmentAmount
      requires dataOffset == if MaxFragmentPayloadSize * i < |data| then MaxFragmentPayloadSize * i else |data|
      requires client.nextMessageId == ToU16(firstId + i)
      requires writer.bytes == bytes + FragmentFrames(data, fragmentedId, firstId, i)
      requires client.pending == StoreFragments(pending, channelId, data, fragmentedId, firstId, i)
      modifies writer, client
      ensures nextOffset == if MaxFragmentPayloadSize * (i + 1) < |data| then MaxFragmentPayloadSize * (i + 1) else |data|
      ensures writer.bytes == bytes + FragmentFrames(data, fragmentedId, firstId, i + 1)
      ensures client.nextMessageId == ToU16(firstId + i + 1)
      ensures client.pending == StoreFragments(pending, channelId, data, fragmentedId, firstId, i + 1)
      ensures client.nextPacketId == old(client.nextPacketId) && client.state == old(client.state)
    {
      var messageId := client.NextMessageId();
      IdShift(firstId + i, 1);
      var payload;
      payload, nextOffset := FragmentAt(data, fragmentedId, fragmentAmount, firstId, messageId, i, dataOffset);
      writer.WriteBytes(payload);
      assert writer.bytes == bytes + (FragmentFrames(data, fragmentedId, firstId, i) + payload);
      client.StoreReliableMessage(messageId, channelId, payload);
    }
  }

  /** The fragmented-message ID, the fragment index and the fragment count, one
      `ReadByte` each. */
  method ReadFragmentFields(reader: LLReader.LLNetworkReader) returns (r: Result<(Byte, Byte, Byte)>)
    requires InBounds(reader)
    modifies reader
    ensures InBounds(reader) && old(reader.position) <= reader.position
    ensures var s := old(reader.Remaining());
            if |s| < 3 then r == Err(EndOfStream)
            else r == Ok((s[0], s[1], s[2])) && reader.position == old(reader.position) + 3 && reader.Remaining() == s[3..]
  {
    ghost var s := reader.Remaining();
    var fragmentedId :- reader.ReadByte();
    var index :- reader.ReadByte();
    var amount :- reader.ReadByte();
    assert s[1..][1..] == s[2..] && s[2..][1..] == s[3..];
    return Ok((fragmentedId, index, amount));
  }

  /** The frame of fragment `i`, cut from `dataOffset`, under `messageId`. */
  method FragmentAt(data: seq<Byte>, fragmentedId: Byte, fragmentAmount: Byte, ghost firstId: U16, messageId: U16,
                    i: nat, dataOffset: nat) returns (payload: seq<Byte>, nextOffset: nat)
    requires fragmentAmount == FragmentCount(|data|) && i < fragmentAmount
    requires dataOffset == if MaxFragmentPayloadSize * i < |data| then MaxFragmentPayloadSize * i else |data|
    requires messageId == ToU16(firstId + i)
    ensures nextOffset == if MaxFragmentPayloadSize * (i + 1) < |data| then MaxFragmentPayloadSize * (i + 1) else |data|
    ensures payload == FragmentFrameAt(data, fragmentedId, firstId, i)
  {
    ChunkStartsInside(|data|, i);
    var remainingData := |data| - dataOffset;
    var fragmentSize := if MaxFragmentPayloadSize < remainingData then MaxFragmentPayloadSize else remainingData;
    var chunk := data[dataOffset..dataOffset + fragmentSize];
    assert chunk == Chunk(data, i);
    payload := FragmentPayload(chunk, messageId, fragmentedId, i as Byte, fragmentAmount);
    nextOffset := dataOffset + fragmentSize;
  }

  /** The frame of one fragment, written as `Prepare` writes it: the length field
      (fragment + 8), the message ID, the fragmented-message ID, the index, the count
      and the fragment. */
  method FragmentPayload(chunk: seq<Byte>, messageId: U16, fragmentedId: Byte, index: Byte, count: Byte)
    returns (payload: seq<Byte>)
    ensures payload == FragmentFrame(chunk, messageId, fragmentedId, index, count)
  {
    var payloadWriter := new LLWriter.LLNetworkWriter();
    payloadWriter.WriteUInt16(ToU16(|chunk| + 8));
    payloadWriter.WriteUInt16(messageId);
    payloadWriter.WriteByte(fragmentedId);
    payloadWriter.WriteByte(index);
    payloadWriter.WriteByte(count);
    payloadWriter.WriteBytes(chunk);
    payload := payloadWriter.ToArray();
  }

  /** What `Process` returns after a fragment step: the reassembly's failure, or success. */
  function StepStatus(outcome: Result<Option<seq<Byte>>>): (r: Status)
    ensures r.Err? <==> outcome.Err?
  {
    if outcome.Err? then Err(outcome.fault) else Done
  }

  /** The message a fragment step completes, if any. */
  function StepDelivery(outcome: Result<Option<seq<Byte>>>): (m: Option<seq<Byte>>)
    ensures m.Some? ==> outcome == Ok(m)
  {
    if outcome.Ok? then outcome.value else None
  }

  /** One slot of `UNetClient._channels`: a channel of one of the five classes. */
  datatype ChannelRef =
    | UnreliableRef(unreliable: UnreliableChannel)
    | UnreliableSequencedRef(unreliableSequenced: UnreliableSequencedChannel)
    | ReliableRef(reliable: ReliableChannel)
    | ReliableSequencedRef(reliableSequenced: ReliableSequencedChannel)
    | ReliableFragmentedRef(reliableFragmented: ReliableFragmentedChannel)
  {
    function Obj(): object
    {
      match this
      case UnreliableRef(c) => c
      case UnreliableSequencedRef(c) => c
      case ReliableRef(c) => c
      case ReliableSequencedRef(c) => c
      case ReliableFragmentedRef(c) => c
    }

    function Id(): Byte
    {
      match this
      case UnreliableRef(c) => c.channelId
      case UnreliableSequencedRef(c) => c.channelId
      case ReliableRef(c) => c.channelId
      case ReliableSequencedRef(c) => c.channelId
      case ReliableFragmentedRef(c) => c.channelId
    }

    function Kind(): ChannelKind
    {
      match this
      case UnreliableRef(_) => UnreliableKind
      case UnreliableSequencedRef(_) => UnreliableSequencedKind
      case ReliableRef(_) => ReliableKind
      case ReliableSequencedRef(_) => ReliableSequencedKind
      case ReliableFragmentedRef(_) => ReliableFragmentedKind
    }

    /** The state a channel is constructed with. */
    predicate Initial()
      reads Obj()
    {
      match this
      case UnreliableRef(_) => true
      case UnreliableSequencedRef(c) => c.lastOrderedMessageId == 0
      case ReliableRef(_) => true
      case ReliableSequencedRef(c) =>
        c.pendingMessages == map[] && c.incomingSequenceNumber == 1 && c.outgoingSequenceNumber == 1
      case ReliableFragmentedRef(c) => c.nextFragmentedMessageId == 0 && c.pendingMessages == map[]
    }

    /** The channel's own invariant, for the two classes that keep one. */
    predicate Valid()
      reads Obj()
    {
      match this
      case ReliableSequencedRef(c) => c.Valid()
      case ReliableFragmentedRef(c) => c.Valid()
      case _ => true
    }

    /** The bytes the channel's `Prepare` appends for `data` in its current state, when the
        connection's next message ID is `messageId`. */
    function Framed(data: seq<Byte>, messageId: U16): seq<Byte>
      reads Obj()
    {
      match this
      case UnreliableRef(_) => UnreliableFrame(data)
      case UnreliableSequencedRef(c) => UnreliableSequencedFrame(data, c.lastOrderedMessageId)
      case ReliableRef(_) => ReliableFrame(data, messageId)
      case ReliableSequencedRef(c) => ReliableSequencedFrame(data, messageId, c.outgoingSequenceNumber)
      case ReliableFragmentedRef(c) => FragmentFrames(data, c.nextFragmentedMessageId, messageId, FragmentCount(|data|))
    }

    /** The connection's fields after the channel's `Prepare` of `data`: the message IDs
        used and the frames stored for retransmission. */
    function Prepared(v: ClientVars, data: seq<Byte>): ClientVars
      reads Obj()
    {
      match this
      case UnreliableRef(_) => v
      case UnreliableSequencedRef(_) => v
      case ReliableRef(_) => v.(nextMessageId := ToU16(v.nextMessageId + 1))
      case ReliableSequencedRef(c) =>
        v.(nextMessageId := ToU16(v.nextMessageId + 1),
           pending := v.pending[v.nextMessageId := (c.channelId, ReliableSequencedFrame(data, v.nextMessageId, c.outgoingSequenceNumber))])
      case ReliableFragmentedRef(c) =>
        v.(nextMessageId := ToU16(v.nextMessageId + FragmentCount(|data|)),
           pending := StoreFragments(v.pending, c.channelId, data, c.nextFragmentedMessageId, v.nextMessageId, FragmentCount(|data|)))
    }
  }

  /** Two slots holding the same channel object hold the same channel. */
  lemma SameChannel(a: ChannelRef, b: ChannelRef)
    requires a.Obj() == b.Obj()
    ensures a == b
  {
    match a {
      case UnreliableRef(_) =>
      case UnreliableSequencedRef(_) =>
      case ReliableRef(_) =>
      case ReliableSequencedRef(_) =>
      case ReliableFragmentedRef(_) =>
    }
  }

  /** No channel is one of the reassemblers a connection's fragmented channels hold. */
  lemma NotAFragment(channel: ChannelRef, client: UNetClient)
    ensures channel.Obj() !in client.FragmentObjects()
  {
    match channel {
      case UnreliableRef(_) =>
      case UnreliableSequencedRef(_) =>
      case ReliableRef(_) =>
      case ReliableSequencedRef(_) =>
      case ReliableFragmentedRef(_) =>
    }
  }

  /** `_channels[channelId].Prepare(writer, data)`: the channel appends its frame for
      `data` and updates its own state and the connection's. */
  method PrepareOn(channel: ChannelRef, writer: LLWriter.LLNetworkWriter, data: seq<Byte>, client: UNetClient)
    requires channel.Valid()
    modifies writer, channel.Obj(), client
    ensures channel.Valid()
    ensures writer.bytes == old(writer.bytes) + old(channel.Framed(data, client.nextMessageId))
    ensures client.Vars() == old(channel.Prepared(client.Vars(), data))
  {
    match channel {
      case UnreliableRef(c) => c.Prepare(writer, data);
      case UnreliableSequencedRef(c) => c.Prepare(writer, data);
      case ReliableRef(c) => c.Prepare(writer, data, client);
      case ReliableSequencedRef(c) => c.Prepare(writer, data, client);
      case ReliableFragmentedRef(c) => c.Prepare(writer, data, client);
    }
  }

  /** A connection, its network, its ack window, a packet writer or a packet reader is
      never a channel. */
  lemma NotAChannel(channel: ChannelRef, client: UNetClient, writer: LLWriter.LLNetworkWriter?, reader: LLReader.LLNetworkReader?)
    ensures channel.Obj() != client && channel.Obj() != writer && channel.Obj() != reader
    ensures channel.Obj() != client.host && channel.Obj() != client.acks
  {
    match channel {
      case UnreliableRef(_) =>
      case UnreliableSequencedRef(_) =>
      case ReliableRef(_) =>
      case ReliableSequencedRef(_) =>
      case ReliableFragmentedRef(_) =>
    }
  }

  /** The high-level framing of `SendByChannel(type, writer, channelId)`: the message's
      size and type, little-endian, then the message. */
  method FrameMessage(msgType: I16, message: HLWriter.NetworkWriter) returns (framed: seq<Byte>)
    ensures framed == MessageFrame(msgType, message.bytes)
  {
    var msgBuffer := message.ToArray();
    var size := ToU16(|msgBuffer|);
    var writer := new HLWriter.NetworkWriter();
    writer.WriteUInt16(size);
    writer.WriteInt16(msgType);
    writer.WriteBytes(msgBuffer);
    framed := writer.ToArray();
  }

  // ----- UNetClient -----

  /** `data == null || data.Length == 0` in `BuildPacket`. */
  predicate Empty(data: Option<seq<Byte>>)
  {
    data.None? || |data.value| == 0
  }

  /** The IDs an ack confirms, as a set. */
  function Confirmed(ids: seq<U16>): set<U16>
  {
    set id | id in ids
  }

  class UNetClient {
    /** The server's socket and listener, shared by all its connections. */
    const host: Network
    const endpoint: Endpoint
    const connectionId: U16
    const remoteConnectionId: U16
    const sessionId: U16
    /** The session ID the peer announced; `pingSessionId` is derived from it. */
    ghost const remoteSessionId: U16
    const pingSessionId: U16
    /** The server's configuration. */
    const config: ConnectionConfig
    const channels: seq<ChannelRef>
    const acks: Acks.PacketAcks
    /** `_pendingReliableMessages`: message ID to channel ID and prepared frame. */
    var pending: map<U16, (Byte, seq<Byte>)>
    var nextPacketId: U16
    var nextMessageId: U16
    var state: ConnectionState

    function Vars(): ClientVars
      reads this
    {
      ClientVars(nextPacketId, nextMessageId, pending, state)
    }

    function Snapshot(): ClientView
      reads this, acks, host
    {
      ClientView(Vars(), acks.State(), host.sent, host.events)
    }

    /** What the constructor establishes and nothing changes: the acks mode follows the
        configuration, slot `i` holds a channel with ID `i` of the class the `i`-th QoS type
        maps to, and the ping session ID is derived from the peer's. */
    ghost predicate Wired()
    {
      && acks.acksLong == config.isAcksLong
      && |channels| == |config.channels| <= 255
      && (forall i :: 0 <= i < |channels| ==>
            channels[i].Id() as int == i && KindOf(config.channels[i]) == Some(channels[i].Kind()))
      && pingSessionId == CalculateRemoteSessionId(remoteSessionId)
    }

    function ChannelObjects(): set<object>
    {
      set i | 0 <= i < |channels| :: channels[i].Obj()
    }

    /** Every channel keeps its own invariant. */
    predicate ChannelsValid()
      reads ChannelObjects()
    {
      forall i | 0 <= i < |channels| :: channels[i].Valid()
    }

    /** None of the connection's other objects, nor a packet writer or reader, is one of its channels. */
    lemma Apart(writer: LLWriter.LLNetworkWriter?, reader: LLReader.LLNetworkReader?)
      ensures writer !in ChannelObjects() && reader !in ChannelObjects() && this !in ChannelObjects()
      ensures host !in ChannelObjects() && acks !in ChannelObjects()
    {
      forall i | 0 <= i < |channels|
        ensures channels[i].Obj() != writer && channels[i].Obj() != reader && channels[i].Obj() != this
        ensures channels[i].Obj() != host && channels[i].Obj() != acks
      {
        NotAChannel(channels[i], this, writer, reader);
      }
    }

    /** The reassemblers held by the fragmented channels. */
    function FragmentObjects(): set<object>
      reads ChannelObjects()
    {
      set i, m | 0 <= i < |channels| && channels[i].ReliableFragmentedRef?
                 && m in channels[i].reliableFragmented.pendingMessages.Values :: m
    }

    /** `OnNetworkReceive` for `data` on a channel of this connection. */
    function Receipt(data: seq<Byte>, channelId: Byte): Event
    {
      NetworkReceive(endpoint, connectionId, data, channelId)
    }

    /** The listener's record after `ReadPayload`: one receipt when the payload was in bounds. */
    function Delivered(events: seq<Event>, p: Option<seq<Byte>>, channelId: Byte): (r: seq<Event>)
    {
      if p.Some? then events + [Receipt(p.value, channelId)] else events
    }

    /** One receipt per payload, in order. */
    function Receipts(payloads: seq<seq<Byte>>, channelId: Byte): (r: seq<Event>)
      ensures |r| == |payloads|
    {
      if |payloads| == 0 then []
      else Receipts(payloads[..|payloads| - 1], channelId) + [Receipt(payloads[|payloads| - 1], channelId)]
    }

    /** The 12-byte data-packet header `WritePacketHeader` writes in short-ack mode with
        packet ID `packetId`. */
    function Header(packetId: U16): seq<Byte>
      reads acks
    {
      PacketHeader(connectionId, packetId, sessionId, acks.last, Acks.ShortMask(acks.State()))
    }

    /** `n` header-only packets, numbered from `packetId`. */
    function AckDatagrams(packetId: U16, n: nat): seq<Datagram>
      reads acks
    {
      if n == 0 then [] else AckDatagrams(packetId, n - 1) + [Datagram(endpoint, Header(ToU16(packetId + n - 1)))]
    }

    /** `SendAcks` from the datagrams sent so far and the next packet ID: the status, the
        datagrams sent afterwards and the next packet ID afterwards. */
    function AcksSent(sent: seq<Datagram>, packetId: U16): (Status, seq<Datagram>, U16)
      reads acks
    {
      if acks.acksLong then (Err(NotImplemented), sent, ToU16(packetId + 1))
      else (Done, sent + AckDatagrams(packetId, 3), ToU16(packetId + 3))
    }

    /** The retransmissions of `ProcessAcks` for the IDs to resend, in order: a stored
        message goes out again with its channel byte under a fresh packet ID, an ID no
        longer stored is skipped. Also the next packet ID afterwards. */
    function Resent(store: map<U16, (Byte, seq<Byte>)>, ids: seq<U16>, packetId: U16): (seq<Datagram>, U16)
      reads acks
    {
      if |ids| == 0 then ([], packetId)
      else
        var (datagrams, next) := Resent(store, ids[..|ids| - 1], packetId);
        var id := ids[|ids| - 1];
        if id in store then (datagrams + [Datagram(endpoint, Header(next) + [store[id].0] + store[id].1)], ToU16(next + 1))
        else (datagrams, next)
    }

    /** `ProcessAcks(ack, masks)` from the current state, `sent` being the datagrams sent so
        far: its status, the connection's fields afterwards and the datagrams sent afterwards.
        Confirmed messages leave the retransmit store before the missing ones are resent. */
    function AcksProcessed(ack: U16, masks: seq<U32>, sent: seq<Datagram>): (Status, ClientVars, seq<Datagram>)
      reads this, acks
    {
      var split := Acks.IncomingAcks(acks.acksLong, ack, masks);
      if split.Err? then (Err(split.fault), Vars(), sent)
      else
        var kept := pending - Confirmed(split.value.1);
        var resent := Resent(kept, split.value.0, nextPacketId);
        (Done, Vars().(pending := kept, nextPacketId := resent.1), sent + resent.0)
    }

    /** The packet `BuildPacket` writes now in short-ack mode: the header alone for no data,
        otherwise the header, the channel ID and the channel's frame. */
    function Built(channelId: Byte, data: Option<seq<Byte>>): seq<Byte>
      requires Empty(data) || channelId as int < |channels|
      reads this, acks, ChannelObjects()
    {
      if Empty(data) then Header(nextPacketId)
      else Header(nextPacketId) + [channelId] + channels[channelId].Framed(data.value, nextMessageId)
    }

    /** The connection's fields after that `BuildPacket`. */
    function Rebuilt(channelId: Byte, data: Option<seq<Byte>>): ClientVars
      requires Empty(data) || channelId as int < |channels|
      reads this, ChannelObjects()
    {
      var v := Vars().(nextPacketId := ToU16(nextPacketId + 1));
      if Empty(data) then v else channels[channelId].Prepared(v, data.value)
    }

    /** The ping `SendPing` sends with packet ID `packetId` at `tick` milliseconds. */
    function PingReply(packetId: U16, incoming: Option<Packets.PingPacket>, tick: I32): Packets.PingPacket
    {
      Packets.PingPacket(
        Packets.SystemHeader(0, Packets.Ping, packetId, sessionId, connectionId, remoteConnectionId),
        ToU32(tick), if incoming.Some? then incoming.value.sentPingTime else 0, 0, 0, 0, pingSessionId)
    }

    /** The packet `SendDisconnect` sends. */
    function DisconnectNotice(reason: Byte): Packets.DisconnectPacket
    {
      Packets.DisconnectPacket(
        Packets.SystemHeader(0, Packets.Disconnect, 0, sessionId, connectionId, remoteConnectionId),
        LibVersion, reason)
    }

    /** Creates one channel per configured QoS type and an empty ack window. Callers check
        the configuration first: an unsupported QoS type throws in the constructor. */
    constructor (host: Network, endpoint: Endpoint, connectionId: U16, remoteConnectionId: U16,
                 sessionId: U16, remoteSessionId: U16, config: ConnectionConfig)
      requires Supported(config) && |config.channels| <= 255
      ensures Wired() && fresh(acks) && acks.State() == Acks.Window({}, 0)
      ensures this.host == host && this.endpoint == endpoint && this.config == config
      ensures this.connectionId == connectionId && this.remoteConnectionId == remoteConnectionId
      ensures this.sessionId == sessionId && this.remoteSessionId == remoteSessionId
      ensures Vars() == ClientVars(0, 1, map[], Handshake)
      ensures forall i :: 0 <= i < |channels| ==> fresh(channels[i].Obj()) && channels[i].Initial()
      ensures ChannelsValid()
    {
      this.host := host;
      this.endpoint := endpoint;
      this.connectionId := connectionId;
      this.remoteConnectionId := remoteConnectionId;
      this.sessionId := sessionId;
      this.remoteSessionId := remoteSessionId;
      this.pingSessionId := CalculateRemoteSessionId(remoteSessionId);
      this.config := config;
      var built: seq<ChannelRef> := [];
      for i := 0 to |config.channels|
        invariant |built| == i
        invariant forall j :: 0 <= j < i ==>
                    && built[j].Id() as int == j && KindOf(config.channels[j]) == Some(built[j].Kind())
                    && fresh(built[j].Obj()) && built[j].Initial() && built[j].Valid()
      {
        var qosType := GetChannelType(config, i as Byte);
        var channel: ChannelRef;
        match KindOf(qosType).value {
          case UnreliableKind =>
            var c := new UnreliableChannel(i as Byte);
            channel := UnreliableRef(c);
          case UnreliableSequencedKind =>
            var c := new UnreliableSequencedChannel(i as Byte);
            channel := UnreliableSequencedRef(c);
          case ReliableKind =>
            var c := new ReliableChannel(i as Byte);
            channel := ReliableRef(c);
          case ReliableSequencedKind =>
            var c := new ReliableSequencedChannel(i as Byte);
            channel := ReliableSequencedRef(c);
          case ReliableFragmentedKind =>
            var c := new ReliableFragmentedChannel(i as Byte);
            channel := ReliableFragmentedRef(c);
        }
        built := built + [channel];
      }
      this.channels := built;
      this.acks := new Acks.PacketAcks(config.isAcksLong);
      pending := map[];
      nextPacketId := 0;
      nextMessageId := 1;
      state := Handshake;
    }

    method NextPacketId() returns (id: U16)
      modifies this
      ensures id == old(nextPacketId) && Vars() == old(Vars()).(nextPacketId := ToU16(id + 1))
    {
      id := nextPacketId;
      nextPacketId := ToU16(nextPacketId + 1);
    }

    method NextMessageId() returns (id: U16)
      modifies this
      ensures id == old(nextMessageId) && Vars() == old(Vars()).(nextMessageId := ToU16(id + 1))
    {
      id := nextMessageId;
      nextMessageId := ToU16(nextMessageId + 1);
    }

    /** Keeps a prepared frame for retransmission, replacing any frame under the same ID. */
    method StoreReliableMessage(messageId: U16, channelId: Byte, data: seq<Byte>)
      modifies this
      ensures Vars() == old(Vars()).(pending := old(pending)[messageId := (channelId, data)])
    {
      pending := pending[messageId := (channelId, data)];
    }

    method Send(data: seq<Byte>)
      modifies host
      ensures host.sent == old(host.sent) + [Datagram(endpoint, data)] && host.events == old(host.events)
    {
      host.Send(endpoint, data);
    }

    method WritePacketHeader(writer: LLWriter.LLNetworkWriter) returns (r: Status)
      modifies this, writer
      ensures Vars() == old(Vars()).(nextPacketId := ToU16(old(nextPacketId) + 1))
      ensures acks.acksLong ==> r == Err(NotImplemented)
      ensures !acks.acksLong ==> r == Done && writer.bytes == old(writer.bytes) + Header(old(nextPacketId))
    {
      writer.WriteUInt16(connectionId);
      var packetId := NextPacketId();
      writer.WriteUInt16(packetId);
      writer.WriteUInt16(sessionId);
      var got :- acks.GetAcks();
      writer.WriteUInt16(got.0);
      writer.WriteUInt32(got.1[0]);
      // the source's long-ack branch follows here; GetAcks has already thrown in that mode
      r := Done;
    }

    /** Three header-only packets that carry the current ack window to the peer. */
    method SendAcks() returns (r: Status)
      modifies this, host
      ensures var acked := AcksSent(old(host.sent), old(nextPacketId));
              r == acked.0 && host.sent == acked.1 && nextPacketId == acked.2
      ensures Vars() == old(Vars()).(nextPacketId := nextPacketId)
      ensures host.events == old(host.events)
    {
      r := Done;
      for i := 0 to 3
        invariant r == Done
        invariant i > 0 ==> !acks.acksLong
        invariant host.sent == old(host.sent) + AckDatagrams(old(nextPacketId), i)
        invariant nextPacketId == ToU16(old(nextPacketId) + i)
        invariant Vars() == old(Vars()).(nextPacketId := nextPacketId)
        invariant host.events == old(host.events)
      {
        IdShift(old(nextPacketId) + i, 1);
        r := SendHeader();
        if r.Err? {
          return;
        }
        assert AckDatagrams(old(nextPacketId), i + 1) == AckDatagrams(old(nextPacketId), i) + [Datagram(endpoint, Header(ToU16(old(nextPacketId) + i)))];
      }
    }

    /** One packet of `SendAcks`: `BuildPacket(writer, 0, null)`, the header alone, sent as it is. */
    method SendHeader() returns (r: Status)
      modifies this, host
      ensures Vars() == old(Vars()).(nextPacketId := ToU16(old(nextPacketId) + 1))
      ensures host.events == old(host.events)
      ensures acks.acksLong ==> r == Err(NotImplemented) && host.sent == old(host.sent)
      ensures !acks.acksLong ==> r == Done && host.sent == old(host.sent) + [Datagram(endpoint, Header(old(nextPacketId)))]
    {
      var writer := new LLWriter.LLNetworkWriter();
      r := WritePacketHeader(writer);
      if r.Err? {
        return;
      }
      var packet := writer.ToArray();
      assert packet == Header(old(nextPacketId));
      Send(packet);
    }

    method BuildPacketWithPayload(writer: LLWriter.LLNetworkWriter, channelId: Byte, payload: seq<Byte>) returns (r: Status)
      modifies this, writer
      ensures Vars() == old(Vars()).(nextPacketId := ToU16(old(nextPacketId) + 1))
      ensures acks.acksLong ==> r == Err(NotImplemented)
      ensures !acks.acksLong ==> r == Done && writer.bytes == old(writer.bytes) + Header(old(nextPacketId)) + [channelId] + payload
    {
      r := WritePacketHeader(writer);
      if r.Err? {
        return;
      }
      writer.WriteByte(channelId);
      writer.WriteBytes(payload);
    }

    method ResendPacket(channelId: Byte, data: seq<Byte>)
      requires !acks.acksLong
      modifies this, host
      ensures host.sent == old(host.sent) + [Datagram(endpoint, Header(old(nextPacketId)) + [channelId] + data)]
      ensures host.events == old(host.events)
      ensures Vars() == old(Vars()).(nextPacketId := ToU16(old(nextPacketId) + 1))
    {
      var writer := new LLWriter.LLNetworkWriter();
      var status := BuildPacketWithPayload(writer, channelId, data);
      var packet := writer.ToArray();
      assert packet == Header(old(nextPacketId)) + [channelId] + data;
      Send(packet);
    }

    /** Drops the messages the peer confirms from the retransmit store, then resends the
        stored messages it reports missing. */
    method ProcessAcks(ack: U16, masks: seq<U32>) returns (r: Status)
      modifies this, host
      ensures ChannelsValid() == old(ChannelsValid())
      ensures host.events == old(host.events)
      ensures var e := old(AcksProcessed(ack, masks, host.sent));
              r == e.0 && Vars() == e.1 && host.sent == e.2
    {
      Apart(null, null);
      var split :- acks.ReadIncomingAcks(ack, masks);
      DropConfirmed(split.1);
      if |split.0| == 0 {
        return Done;
      }
      ResendAll(split.0);
      r := Done;
    }

    /** The first loop of `ProcessAcks`: every confirmed message leaves the retransmit store. */
    method DropConfirmed(received: seq<U16>)
      modifies this
      ensures pending == old(pending) - Confirmed(received)
      ensures Vars() == old(Vars()).(pending := pending)
    {
      for i := 0 to |received|
        invariant pending == old(pending) - Confirmed(received[..i])
        invariant Vars() == old(Vars()).(pending := pending)
      {
        assert Confirmed(received[..i + 1]) == Confirmed(received[..i]) + {received[i]} by {
          assert received[..i + 1] == received[..i] + [received[i]];
        }
        pending := pending - {received[i]};
      }
      assert received[..|received|] == received;
    }

    /** The second loop of `ProcessAcks`: every message still stored under an ID to resend
        goes out again in a packet of its own. */
    method ResendAll(resend: seq<U16>)
      requires !acks.acksLong
      modifies this, host
      ensures var resent := Resent(old(pending), resend, old(nextPacketId));
              host.sent == old(host.sent) + resent.0 && nextPacketId == resent.1
      ensures Vars() == old(Vars()).(nextPacketId := nextPacketId)
      ensures host.events == old(host.events)
    {
      for i := 0 to |resend|
        invariant host.sent == old(host.sent) + Resent(old(pending), resend[..i], old(nextPacketId)).0
        invariant nextPacketId == Resent(old(pending), resend[..i], old(nextPacketId)).1
        invariant Vars() == old(Vars()).(nextPacketId := nextPacketId)
        invariant host.events == old(host.events)
      {
        assert resend[..i + 1][..i] == resend[..i];
        var messageId := resend[i];
        if messageId in pending {
          var message := pending[messageId];
          ResendPacket(message.0, message.1);
        }
      }
      assert resend[..|resend|] == resend;
    }

    method BuildPacket(writer: LLWriter.LLNetworkWriter, channelId: Byte, data: Option<seq<Byte>>) returns (r: Status)
      requires ChannelsValid()
      modifies this, writer, ChannelObjects()
      ensures ChannelsValid()
      ensures acks.acksLong ==> r == Err(NotImplemented) && Vars() == old(Vars()).(nextPacketId := ToU16(old(nextPacketId) + 1))
      ensures !acks.acksLong && !Empty(data) && channelId as int >= |channels| ==>
                && r == Err(IndexOutOfRange)
                && writer.bytes == old(writer.bytes) + Header(old(nextPacketId)) + [channelId]
                && Vars() == old(Vars()).(nextPacketId := ToU16(old(nextPacketId) + 1))
      ensures !acks.acksLong && (Empty(data) || channelId as int < |channels|) ==>
                && r == Done
                && writer.bytes == old(writer.bytes) + old(Built(channelId, data))
                && Vars() == old(Rebuilt(channelId, data))
    {
      Apart(writer, null);
      r := OpenPacket(writer);
      if r.Err? {
        return;
      }
      if data.None? || |data.value| == 0 {
        return;
      }
      r := AppendFrame(writer, channelId, data.value);
    }

    /** The header of `BuildPacket`, which leaves the channels alone. */
    method OpenPacket(writer: LLWriter.LLNetworkWriter) returns (r: Status)
      requires ChannelsValid()
      modifies this, writer
      ensures ChannelsValid()
      ensures Vars() == old(Vars()).(nextPacketId := ToU16(old(nextPacketId) + 1))
      ensures acks.acksLong ==> r == Err(NotImplemented)
      ensures !acks.acksLong ==> r == Done && writer.bytes == old(writer.bytes) + Header(old(nextPacketId))
    {
      Apart(writer, null);
      r := WritePacketHeader(writer);
    }

    /** The part of `BuildPacket` after the header: the channel ID, then the channel's frame. */
    method AppendFrame(writer: LLWriter.LLNetworkWriter, channelId: Byte, data: seq<Byte>) returns (r: Status)
      requires ChannelsValid()
      modifies this, writer, ChannelObjects()
      ensures ChannelsValid()
      ensures channelId as int >= |channels| ==>
                r == Err(IndexOutOfRange) && writer.bytes == old(writer.bytes) + [channelId] && Vars() == old(Vars())
      ensures channelId as int < |channels| ==>
                && r == Done
                && writer.bytes == old(writer.bytes) + [channelId] + old(channels[channelId].Framed(data, nextMessageId))
                && Vars() == old(channels[channelId].Prepared(Vars(), data))
    {
      writer.WriteByte(channelId);
      if channelId as int >= |channels| {
        return Err(IndexOutOfRange);
      }
      var channel := channels[channelId];
      NotAChannel(channel, this, writer, null);
      PrepareOn(channel, writer, data, this);
      r := Done;
    }

    /** `_channels[channelId].Send(data)`: an index past the channels fails before
        anything is built. */
    method SendByChannel(data: seq<Byte>, channelId: Byte) returns (r: Status)
      requires Wired() && ChannelsValid()
      modifies this, host, ChannelObjects()
      ensures ChannelsValid()
      ensures host.events == old(host.events)
      ensures channelId as int >= |channels| ==>
                r == Err(IndexOutOfRange) && host.sent == old(host.sent) && Vars() == old(Vars())
      ensures channelId as int < |channels| && acks.acksLong ==>
                && r == Err(NotImplemented) && host.sent == old(host.sent)
                && Vars() == old(Vars()).(nextPacketId := ToU16(old(nextPacketId) + 1))
      ensures channelId as int < |channels| && !acks.acksLong ==>
                && r == Done
                && host.sent == old(host.sent) + [Datagram(endpoint, old(Built(channelId, Some(data))))]
                && Vars() == old(Rebuilt(channelId, Some(data)))
    {
      if channelId as int >= |channels| {
        return Err(IndexOutOfRange);
      }
      r := ChannelSend(data, channelId);
    }

    /** The channel's `Send`. BaseChannel.Send is not part of this model: it is taken to
        build one packet with `BuildPacket` (the header, then the channel's frame for
        `data`) and send it to the peer. */
    method ChannelSend(data: seq<Byte>, channelId: Byte) returns (r: Status)
      requires Wired() && ChannelsValid() && channelId as int < |channels|
      modifies this, host, ChannelObjects()
      ensures ChannelsValid()
      ensures host.events == old(host.events)
      ensures acks.acksLong ==>
                && r == Err(NotImplemented) && host.sent == old(host.sent)
                && Vars() == old(Vars()).(nextPacketId := ToU16(old(nextPacketId) + 1))
      ensures !acks.acksLong ==>
                && r == Done
                && host.sent == old(host.sent) + [Datagram(endpoint, old(Built(channelId, Some(data))))]
                && Vars() == old(Rebuilt(channelId, Some(data)))
    {
      var packet;
      r, packet := Compose(data, channelId);
      if r.Err? {
        return;
      }
      Apart(null, null);
      Send(packet);
    }

    /** `BuildPacket` into a new writer, and the bytes it holds afterwards. */
    method Compose(data: seq<Byte>, channelId: Byte) returns (r: Status, packet: seq<Byte>)
      requires ChannelsValid() && channelId as int < |channels|
      modifies this, ChannelObjects()
      ensures ChannelsValid()
      ensures acks.acksLong ==> r == Err(NotImplemented) && Vars() == old(Vars()).(nextPacketId := ToU16(old(nextPacketId) + 1))
      ensures !acks.acksLong ==> r == Done && packet == old(Built(channelId, Some(data))) && Vars() == old(Rebuilt(channelId, Some(data)))
    {
      var writer := new LLWriter.LLNetworkWriter();
      FramingKept();
      Apart(writer, null);
      r := BuildPacket(writer, channelId, Some(data));
      packet := writer.ToArray();
    }

    /** Frames a high-level message (its size and type, little-endian) and sends it on the channel. */
    method SendMessageByChannel(msgType: I16, message: HLWriter.NetworkWriter, channelId: Byte) returns (r: Status)
      requires Wired() && ChannelsValid()
      modifies this, host, ChannelObjects()
      ensures ChannelsValid()
      ensures host.events == old(host.events)
      ensures channelId as int >= |channels| ==>
                r == Err(IndexOutOfRange) && host.sent == old(host.sent) && Vars() == old(Vars())
      ensures channelId as int < |channels| && acks.acksLong ==>
                && r == Err(NotImplemented) && host.sent == old(host.sent)
                && Vars() == old(Vars()).(nextPacketId := ToU16(old(nextPacketId) + 1))
      ensures channelId as int < |channels| && !acks.acksLong ==>
                && r == Done
                && host.sent == old(host.sent) + [Datagram(endpoint, old(Built(channelId, Some(MessageFrame(msgType, message.bytes)))))]
                && Vars() == old(Rebuilt(channelId, Some(MessageFrame(msgType, message.bytes))))
    {
      var framed := FrameMessage(msgType, message);
      FramingKept();
      r := SendByChannel(framed, channelId);
    }

    /** A step that changed none of the connection's objects leaves the packet it would build,
        and the state that building it leaves, as they were. */
    twostate lemma FramingKept()
      requires unchanged(this, acks) && forall i | 0 <= i < |channels| :: unchanged(channels[i].Obj())
      ensures forall channelId: Byte, data: seq<Byte> | channelId as int < |channels| ::
                && old(Built(channelId, Some(data))) == Built(channelId, Some(data))
                && old(Rebuilt(channelId, Some(data))) == Rebuilt(channelId, Some(data))
    {
    }

    method SendPing(incoming: Option<Packets.PingPacket>, tick: I32)
      modifies this, host
      ensures host.sent == old(host.sent) + [Datagram(endpoint, Packets.EncodePing(PingReply(old(nextPacketId), incoming, tick)))]
      ensures host.events == old(host.events)
      ensures Vars() == old(Vars()).(nextPacketId := ToU16(old(nextPacketId) + 1))
    {
      var packetId := NextPacketId();
      var packet := PingReply(packetId, incoming, tick);
      var writer := new LLWriter.LLNetworkWriter();
      Packets.SerializePing(packet, writer);
      var bytes := writer.ToArray();
      assert bytes == Packets.EncodePing(PingReply(old(nextPacketId), incoming, tick));
      Send(bytes);
    }

    /** The first ping completes the handshake; every ping is answered. */
    method ProcessPing(incoming: Packets.PingPacket, tick: I32)
      modifies this, host
      ensures old(state) == Handshake ==>
                state == Connected && host.events == old(host.events) + [ClientConnected(endpoint, connectionId)]
      ensures old(state) != Handshake ==> state == old(state) && host.events == old(host.events)
      ensures host.sent == old(host.sent) + [Datagram(endpoint, Packets.EncodePing(PingReply(old(nextPacketId), Some(incoming), tick)))]
      ensures Vars() == old(Vars()).(nextPacketId := ToU16(old(nextPacketId) + 1), state := state)
    {
      if state == Handshake {
        state := Connected;
        host.Report(ClientConnected(endpoint, connectionId));
      }
      SendPing(Some(incoming), tick);
    }

    method SendDisconnect(reason: Byte)
      modifies host
      ensures host.sent == old(host.sent) + [Datagram(endpoint, Packets.EncodeDisconnect(DisconnectNotice(reason)))]
      ensures host.events == old(host.events)
    {
      var packet := DisconnectNotice(reason);
      var writer := new LLWriter.LLNetworkWriter();
      Packets.SerializeDisconnect(packet, writer);
      var bytes := writer.ToArray();
      assert bytes == Packets.EncodeDisconnect(packet);
      Send(bytes);
    }

    /** `_channels[channelId].Process(reader, this)`: the other channels keep their state. */
    method Dispatch(reader: LLReader.LLNetworkReader, channelId: Byte) returns (r: Status)
      requires Wired() && ChannelsValid() && InBounds(reader) && channelId as int < |channels|
      modifies this, acks, host, reader, channels[channelId].Obj(), FragmentObjects()
      ensures InBounds(reader) && old(reader.position) <= reader.position
      ensures ChannelsValid()
      ensures forall m | m in FragmentObjects() :: m in old(FragmentObjects()) || fresh(m)
    {
      var channel := channels[channelId];
      forall i | 0 <= i < |channels|
        ensures channels[i].Obj() !in FragmentObjects()
      {
        NotAFragment(channels[i], this);
      }
      match channel {
        case UnreliableRef(c) => r := c.Process(reader, this);
        case UnreliableSequencedRef(c) => r := c.Process(reader, this);
        case ReliableRef(c) => r := c.Process(reader, this);
        case ReliableSequencedRef(c) => r := c.Process(reader, this);
        case ReliableFragmentedRef(c) => r := c.Process(reader, this);
      }
      assert channel.Valid();
      forall i | 0 <= i < |channels|
        ensures channels[i].Valid()
      {
        if channels[i].Obj() == channel.Obj() {
          SameChannel(channels[i], channel);
        } else {
          NotAChannel(channels[i], this, null, reader);
          assert old(channels[i].Valid());
        }
      }
    }

    /** Hands each frame of a data packet's body to its channel, until the body is used up,
        a channel ID names no channel (the rest is dropped) or a channel fails. */
    method ProcessDataPacket(reader: LLReader.LLNetworkReader) returns (r: Status)
      requires Wired() && ChannelsValid() && InBounds(reader)
      modifies this, acks, host, reader, ChannelObjects(), FragmentObjects()
      ensures InBounds(reader) && old(reader.position) <= reader.position
      ensures ChannelsValid()
      ensures r.Ok? ==>
                || reader.position == |reader.buffer|
                || (0 < reader.position && reader.buffer[reader.position - 1] as int >= |channels|)
    {
      while reader.position < |reader.buffer|
        invariant InBounds(reader) && old(reader.position) <= reader.position
        invariant ChannelsValid()
        invariant forall m | m in FragmentObjects() :: m in old(FragmentObjects()) || fresh(m)
        decreases |reader.buffer| - reader.position
      {
        var known;
        r, known := ProcessFrame(reader);
        if !known || r.Err? {
          return;
        }
      }
      r := Done;
    }

    /** One frame of a data packet's body: its channel ID, then the channel's `Process`;
        `known` is false, and nothing else is read, when the ID names no channel. */
    method ProcessFrame(reader: LLReader.LLNetworkReader) returns (r: Status, known: bool)
      requires Wired() && ChannelsValid() && InBounds(reader) && reader.position < |reader.buffer|
      modifies this, acks, host, reader, ChannelObjects(), FragmentObjects()
      ensures InBounds(reader) && old(reader.position) < reader.position
      ensures ChannelsValid()
      ensures forall m | m in FragmentObjects() :: m in old(FragmentObjects()) || fresh(m)
      ensures known <==> reader.buffer[old(reader.position)] as int < |channels|
      ensures !known ==> r == Done && reader.position == old(reader.position) + 1
    {
      Apart(null, reader);
      var next := reader.ReadByte();
      var channelId := next.value;
      known := channelId as int < |channels|;
      if !known {
        return Done, false;
      }
      r := Dispatch(reader, channelId);
    }
  }

  /** The i-th receipt is for the i-th payload. */
  lemma {:induction false} ReceiptsInOrder(client: UNetClient, payloads: seq<seq<Byte>>, channelId: Byte, i: nat)
    requires i < |payloads|
    ensures client.Receipts(payloads, channelId)[i] == client.Receipt(payloads[i], channelId)
    decreases |payloads|
  {
    if i < |payloads| - 1 {
      var front := payloads[..|payloads| - 1];
      ReceiptsInOrder(client, front, channelId, i);
      assert front[i] == payloads[i];
    }
  }

  /** Appending a payload appends its receipt. */
  lemma ReceiptsSnoc(client: UNetClient, payloads: seq<seq<Byte>>, p: seq<Byte>, channelId: Byte)
    ensures client.Receipts(payloads + [p], channelId) == client.Receipts(payloads, channelId) + [client.Receipt(p, channelId)]
  {
    assert (payloads + [p])[..|payloads|] == payloads;
  }

  /** `SendAcks` sends `n` header-only packets to the peer under consecutive packet IDs. */
  lemma {:induction false} AckDatagramsNumbered(client: UNetClient, packetId: U16, n: nat, i: nat)
    requires i < n
    ensures |client.AckDatagrams(packetId, n)| == n
    ensures client.AckDatagrams(packetId, n)[i] == Datagram(client.endpoint, client.Header(ToU16(packetId + i)))
  {
    AckDatagramsLength(client, packetId, n);
    if i < n - 1 {
      AckDatagramsNumbered(client, packetId, n - 1, i);
    }
  }

  lemma {:induction false} AckDatagramsLength(client: UNetClient, packetId: U16, n: nat)
    ensures |client.AckDatagrams(packetId, n)| == n
  {
    if n > 0 {
      AckDatagramsLength(client, packetId, n - 1);
    }
  }

  /** Retransmission takes one packet ID per datagram resent. */
  lemma {:induction false} ResentCount(client: UNetClient, store: map<U16, (Byte, seq<Byte>)>, ids: seq<U16>, packetId: U16)
    ensures var r := client.Resent(store, ids, packetId);
            |r.0| <= |ids| && r.1 == ToU16(packetId + |r.0|)
  {
    if |ids| > 0 {
      var front := ids[..|ids| - 1];
      ResentCount(client, store, front, packetId);
      var r := client.Resent(store, front, packetId);
      IdShift(packetId + |r.0|, 1);
    }
  }

  /** IDs no longer stored are not resent. */
  lemma {:induction false} ResentSkipsUnknown(client: UNetClient, store: map<U16, (Byte, seq<Byte>)>, ids: seq<U16>, packetId: U16)
    requires forall k | 0 <= k < |ids| :: ids[k] !in store
    ensures client.Resent(store, ids, packetId) == ([], packetId)
  {
    if |ids| > 0 {
      ResentSkipsUnknown(client, store, ids[..|ids| - 1], packetId);
    }
  }

  /** When every ID to resend is still stored, the i-th retransmission is a fresh header under
      the i-th next packet ID, the stored channel byte and the stored frame, verbatim. */
  lemma {:induction false} ResentFrames(client: UNetClient, store: map<U16, (Byte, seq<Byte>)>, ids: seq<U16>,
                                        packetId: U16, i: nat)
    requires forall k | 0 <= k < |ids| :: ids[k] in store
    requires i < |ids|
    ensures var r := client.Resent(store, ids, packetId);
            && |r.0| == |ids|
            && r.0[i] == Datagram(client.endpoint, client.Header(ToU16(packetId + i)) + [store[ids[i]].0] + store[ids[i]].1)
  {
    var front := ids[..|ids| - 1];
    ResentCount(client, store, front, packetId);
    if |front| > 0 {
      ResentFrames(client, store, front, packetId, if i < |front| then i else 0);
    }
    var r := client.Resent(store, front, packetId);
    assert |r.0| == |front|;
    if i < |front| {
      assert front[i] == ids[i];
    } else {
      assert ToU16(packetId + |front|) == ToU16(packetId + i);
    }
  }

  /** The ping a connection sends answers the incoming ping's send time, names both ends of the
      connection, carries the peer's session ID byte-swapped, and decodes back to itself. */
  lemma PingReplyFields(client: UNetClient, packetId: U16, incoming: Option<Packets.PingPacket>, tick: I32)
    requires client.Wired()
    ensures var reply := client.PingReply(packetId, incoming, tick);
            && reply.header == Packets.SystemHeader(0, Packets.Ping, packetId, client.sessionId,
                                                     client.connectionId, client.remoteConnectionId)
            && reply.sentPingTime == ToU32(tick)
            && reply.ackPingTime == (if incoming.Some? then incoming.value.sentPingTime else 0)
            && CalculateRemoteSessionId(reply.remoteSessionId) == client.remoteSessionId
            && Packets.DecodePing(Packets.EncodePing(reply)) == Ok(reply)
  {
    var reply := client.PingReply(packetId, incoming, tick);
    RemoteSessionIdInvolution(client.remoteSessionId);
    Packets.PingRoundTrip(reply, []);
    assert Packets.EncodePing(reply) + [] == Packets.EncodePing(reply);
  }

  /** The disconnect packet a connection sends carries the reason and decodes back to itself. */
  lemma DisconnectNoticeFields(client: UNetClient, reason: Byte)
    ensures var notice := client.DisconnectNotice(reason);
            && notice.header.requestType == Packets.Disconnect && notice.reason == reason
            && notice.header.localConnectionId == client.connectionId
            && notice.header.remoteConnectionId == client.remoteConnectionId
            && Packets.DecodeDisconnect(Packets.EncodeDisconnect(notice)) == Ok(notice)
  {
    var notice := client.DisconnectNotice(reason);
    Packets.DisconnectRoundTrip(notice, []);
    assert Packets.EncodeDisconnect(notice) + [] == Packets.EncodeDisconnect(notice);
  }
}
