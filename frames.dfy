/** The pure side of UNetLib.Channel and UNetClient: which channel class serves which QoS
    type, the frame each channel's `Prepare` writes, the bounds check of `ReadPayload`, the
    accept rules of the sequenced channels, the split of a message into fragments, and the
    12-byte data-packet header. The channel and connection classes are specified by these. */
module Frames {
  import opened Wrappers
  import opened Bytes
  import opened Config
  import Fragments

  // ----- channel kinds -----

  /** The five channel classes. */
  datatype ChannelKind =
    | UnreliableKind
    | UnreliableSequencedKind
    | ReliableKind
    | ReliableSequencedKind
    | ReliableFragmentedKind

  /** The constructor's mapping from QoS type to channel class; `None` where it throws
      NotSupportedException. AllCostDelivery gets a reliable channel. */
  function KindOf(q: QosType): Option<ChannelKind>
  {
    match q
    case Unreliable => Some(UnreliableKind)
    case UnreliableSequenced => Some(UnreliableSequencedKind)
    case Reliable => Some(ReliableKind)
    case ReliableFragmented => Some(ReliableFragmentedKind)
    case ReliableSequenced => Some(ReliableSequencedKind)
    case AllCostDelivery => Some(ReliableKind)
    case UnreliableFragmented => None
    case StateUpdate => None
    case ReliableStateUpdate => None
  }

  /** Every configured channel has a class, so the constructor does not throw. */
  predicate Supported(config: ConnectionConfig)
  {
    forall i :: 0 <= i < |config.channels| ==> KindOf(config.channels[i]).Some?
  }

  predicate AcksMessages(k: ChannelKind)
  {
    k == ReliableKind || k == ReliableSequencedKind || k == ReliableFragmentedKind
  }

  predicate OrdersMessages(k: ChannelKind)
  {
    k == UnreliableSequencedKind || k == ReliableSequencedKind
  }

  /** Exactly three QoS types are refused, AllCostDelivery shares the reliable class, and
      every class built acks and orders messages exactly as its QoS type is classified. */
  lemma KindOfQos(q: QosType)
    ensures KindOf(q).None? <==> q in {UnreliableFragmented, StateUpdate, ReliableStateUpdate}
    ensures KindOf(q) == Some(ReliableKind) <==> q == Reliable || q == AllCostDelivery
    ensures KindOf(q).Some? ==> (AcksMessages(KindOf(q).value) <==> IsChannelReliable(q))
    ensures KindOf(q).Some? ==> (OrdersMessages(KindOf(q).value) <==> IsChannelSequenced(q))
  {
  }

  // ----- reading a payload -----

  /** `ReadPayload`'s check over the bytes after the cursor: a negative length, or one that
      reaches past the end, delivers nothing; otherwise exactly `length` bytes. */
  function Payload(rest: seq<Byte>, length: int): (p: Option<seq<Byte>>)
    ensures p.Some? <==> 0 <= length <= |rest|
    ensures p.Some? ==> |p.value| == length && p.value + rest[length..] == rest
  {
    if length < 0 || length > |rest| then None else Some(rest[..length])
  }

  /** How far `ReadPayload` moves the cursor. */
  function Consumed(p: Option<seq<Byte>>): nat
  {
    if p.Some? then |p.value| else 0
  }

  // ----- channel frames -----

  function UnreliableFrame(data: seq<Byte>): (r: seq<Byte>)
    ensures |r| == 2 + |data|
  {
    BE16(ToU16(|data| + 3)) + data
  }

  function UnreliableSequencedFrame(data: seq<Byte>, sequence: Byte): (r: seq<Byte>)
    ensures |r| == 3 + |data|
  {
    BE16(ToU16(|data| + 4)) + [sequence] + data
  }

  function ReliableFrame(data: seq<Byte>, messageId: U16): (r: seq<Byte>)
    ensures |r| == 4 + |data|
  {
    BE16(ToU16(|data| + 5)) + BE16(messageId) + data
  }

  function ReliableSequencedFrame(data: seq<Byte>, messageId: U16, sequence: Byte): (r: seq<Byte>)
    ensures |r| == 5 + |data|
  {
    BE16(ToU16(|data| + 6)) + BE16(messageId) + [sequence] + data
  }

  function FragmentFrame(chunk: seq<Byte>, messageId: U16, fragmentedId: Byte, index: Byte, count: Byte): (r: seq<Byte>)
    ensures |r| == 7 + |chunk|
  {
    BE16(ToU16(|chunk| + 8)) + BE16(messageId) + [fragmentedId, index, count] + chunk
  }

  /** The first two bytes of `v`'s encoding and what follows them. */
  lemma Field16(v: U16, tail: seq<Byte>)
    ensures (BE16(v) + tail)[..2] == BE16(v) && (BE16(v) + tail)[2..] == tail
    ensures FromBE16((BE16(v) + tail)[..2]) == v
  {
    BE16RoundTrip(v);
  }

  /** Every length field a channel writes counts the 16-bit length itself plus the bytes after
      it and one more (the channel byte in front), so reading `length - overhead` gets the data
      back. The frames below assume the length fits 16 bits. */
  lemma {:induction false} UnreliableRoundTrip(data: seq<Byte>, rest: seq<Byte>)
    requires |data| + 3 <= 0xFFFF
    ensures var s := UnreliableFrame(data) + rest;
            FromBE16(s[..2]) - 3 == |data| && Payload(s[2..], |data|) == Some(data)
            && s[2..][|data|..] == rest
  {
    var s := UnreliableFrame(data) + rest;
    Field16(ToU16(|data| + 3), data + rest);
    assert s == BE16(ToU16(|data| + 3)) + (data + rest);
  }

  lemma {:induction false} UnreliableSequencedRoundTrip(data: seq<Byte>, sequence: Byte, rest: seq<Byte>)
    requires |data| + 4 <= 0xFFFF
    ensures var s := UnreliableSequencedFrame(data, sequence) + rest;
            FromBE16(s[..2]) - 4 == |data| && s[2] == sequence
            && Payload(s[3..], |data|) == Some(data) && s[3..][|data|..] == rest
  {
    var s := UnreliableSequencedFrame(data, sequence) + rest;
    Field16(ToU16(|data| + 4), [sequence] + data + rest);
    assert s == BE16(ToU16(|data| + 4)) + ([sequence] + data + rest);
    assert s[3..] == data + rest;
  }

  lemma {:induction false} ReliableRoundTrip(data: seq<Byte>, messageId: U16, rest: seq<Byte>)
    requires |data| + 5 <= 0xFFFF
    ensures var s := ReliableFrame(data, messageId) + rest;
            FromBE16(s[..2]) - 5 == |data| && FromBE16(s[2..4]) == messageId
            && Payload(s[4..], |data|) == Some(data) && s[4..][|data|..] == rest
  {
    var s := ReliableFrame(data, messageId) + rest;
    Field16(ToU16(|data| + 5), BE16(messageId) + data + rest);
    Field16(messageId, data + rest);
    assert s == BE16(ToU16(|data| + 5)) + (BE16(messageId) + data + rest);
    assert s[2..4] == (BE16(messageId) + (data + rest))[..2];
    assert s[4..] == data + rest;
  }

  lemma {:induction false} ReliableSequencedRoundTrip(data: seq<Byte>, messageId: U16, sequence: Byte, rest: seq<Byte>)
    requires |data| + 6 <= 0xFFFF
    ensures var s := ReliableSequencedFrame(data, messageId, sequence) + rest;
            FromBE16(s[..2]) - 6 == |data| && FromBE16(s[2..4]) == messageId && s[4] == sequence
            && Payload(s[5..], |data|) == Some(data) && s[5..][|data|..] == rest
  {
    var s := ReliableSequencedFrame(data, messageId, sequence) + rest;
    Field16(ToU16(|data| + 6), BE16(messageId) + [sequence] + data + rest);
    Field16(messageId, [sequence] + data + rest);
    assert s == BE16(ToU16(|data| + 6)) + (BE16(messageId) + [sequence] + data + rest);
    assert s[2..4] == (BE16(messageId) + ([sequence] + data + rest))[..2];
    assert s[5..] == data + rest;
  }

  lemma {:induction false} FragmentRoundTrip(chunk: seq<Byte>, messageId: U16, fragmentedId: Byte, index: Byte, count: Byte, rest: seq<Byte>)
    requires |chunk| + 8 <= 0xFFFF
    ensures var s := FragmentFrame(chunk, messageId, fragmentedId, index, count) + rest;
            FromBE16(s[..2]) - 8 == |chunk| && FromBE16(s[2..4]) == messageId
            && s[4] == fragmentedId && s[5] == index && s[6] == count
            && s[7..][..|chunk|] == chunk && s[7..][|chunk|..] == rest
  {
    var s := FragmentFrame(chunk, messageId, fragmentedId, index, count) + rest;
    var tail := [fragmentedId, index, count] + chunk + rest;
    Field16(ToU16(|chunk| + 8), BE16(messageId) + tail);
    Field16(messageId, tail);
    assert s == BE16(ToU16(|chunk| + 8)) + (BE16(messageId) + tail);
    assert s[2..4] == (BE16(messageId) + tail)[..2];
    assert s[7..] == chunk + rest;
  }

  /** Past 65532 bytes the unreliable length field wraps: 65533 bytes are announced as 0, so
      the receiver computes a negative payload length and delivers nothing. */
  lemma UnreliableLengthWraps(data: seq<Byte>)
    requires |data| == 0xFFFD
    ensures FromBE16(UnreliableFrame(data)[..2]) == 0
    ensures Payload(UnreliableFrame(data)[2..], FromBE16(UnreliableFrame(data)[..2]) - 3) == None
  {
    Field16(0, data);
  }

  // ----- the unreliable-sequenced drop rule -----

  /** A sequence number at or below the stored one is dropped, unless the stored one is 255. */
  predicate SequencedAccepts(last: Byte, sequence: Byte)
  {
    !(sequence <= last && last != 255)
  }

  /** A fresh channel (counter 0) drops sequence 0; at 255 everything passes, 255 included;
      once a sequence below 255 is accepted, its repeat is dropped. */
  lemma SequencedAcceptance(last: Byte, sequence: Byte)
    ensures !SequencedAccepts(0, 0)
    ensures SequencedAccepts(255, sequence)
    ensures SequencedAccepts(last, sequence) && sequence != 255 ==> !SequencedAccepts(sequence, sequence)
    ensures last != 255 ==> (SequencedAccepts(last, sequence) <==> sequence > last)
  {
  }

  /** The one counter also numbers outgoing frames: after sending with counter `c` below 254,
      the peer's frames numbered up to `c + 1` are dropped, whatever it last sent. */
  lemma SendingRaisesThreshold(c: Byte, sequence: Byte)
    requires c < 254 && sequence <= c + 1
    ensures !SequencedAccepts(ToByte(c + 1), sequence)
  {
  }

  // ----- the reliable-sequenced reorder buffer -----

  /** Delivering buffered payloads while the buffer holds the expected sequence number:
      the payloads delivered, the buffer left and the next expected number. */
  function Drain(buffer: map<Byte, seq<Byte>>, next: Byte): (seq<seq<Byte>>, map<Byte, seq<Byte>>, Byte)
    decreases |buffer.Keys|
  {
    if next !in buffer then ([], buffer, next)
    else
      assert (buffer - {next}).Keys == buffer.Keys - {next};
      var (d, b, n) := Drain(buffer - {next}, ToByte(next + 1));
      ([buffer[next]] + d, b, n)
  }

  /** Draining at a buffered number delivers it, then drains from the number after it. */
  lemma DrainStep(buffer: map<Byte, seq<Byte>>, next: Byte)
    requires next in buffer
    ensures var r := Drain(buffer, next);
            var after := Drain(buffer - {next}, ToByte(next + 1));
            r.0 == [buffer[next]] + after.0 && r.1 == after.1 && r.2 == after.2
  {
  }

  /** Adding after the 16-bit cast is adding before it. */
  lemma IdShift(x: int, j: int)
    ensures ToU16(ToU16(x) + j) == ToU16(x + j)
  {
  }

  /** Adding after the 8-bit cast is adding before it. */
  lemma ByteShift(x: int, j: int)
    ensures ToByte(ToByte(x) + j) == ToByte(x + j)
  {
  }

  /** Draining stops at the first gap, which becomes the expected number and is outside the
      buffer left behind; it removes one entry per payload delivered and keeps the others. */
  lemma {:induction false} DrainStops(buffer: map<Byte, seq<Byte>>, next: Byte)
    ensures var r := Drain(buffer, next);
            && r.2 == ToByte(next + |r.0|) && r.2 !in r.1
            && r.1.Keys <= buffer.Keys && |r.1.Keys| == |buffer.Keys| - |r.0|
            && (forall k :: k in r.1 ==> r.1[k] == buffer[k])
    decreases |buffer.Keys|
  {
    if next in buffer {
      var rest := buffer - {next};
      assert rest.Keys == buffer.Keys - {next};
      DrainStep(buffer, next);
      DrainStops(rest, ToByte(next + 1));
      ByteShift(next + 1, |Drain(rest, ToByte(next + 1)).0|);
    }
  }

  /** The i-th payload delivered is the one buffered under next + i (mod 256): deliveries
      follow consecutive sequence numbers. */
  lemma {:induction false} DrainOrder(buffer: map<Byte, seq<Byte>>, next: Byte, i: nat)
    requires i < |Drain(buffer, next).0|
    ensures ToByte(next + i) in buffer && Drain(buffer, next).0[i] == buffer[ToByte(next + i)]
    decreases |buffer.Keys|
  {
    assert next in buffer;
    DrainStep(buffer, next);
    if i > 0 {
      var rest := buffer - {next};
      assert rest.Keys == buffer.Keys - {next};
      DrainOrder(rest, ToByte(next + 1), i - 1);
      DrainOrderLater(buffer, next, i);
    }
  }

  /** The step of `DrainOrder` past the first payload, given the order after it. */
  lemma DrainOrderLater(buffer: map<Byte, seq<Byte>>, next: Byte, i: nat)
    requires next in buffer && 0 < i < |Drain(buffer, next).0|
    requires var rest := buffer - {next};
             var k := ToByte(ToByte(next + 1) + (i - 1));
             i - 1 < |Drain(rest, ToByte(next + 1)).0|
             && k in rest && Drain(rest, ToByte(next + 1)).0[i - 1] == rest[k]
    ensures ToByte(next + i) in buffer && Drain(buffer, next).0[i] == buffer[ToByte(next + i)]
  {
    DrainStep(buffer, next);
    ByteShift(next + 1, i - 1);
  }

  /** What the sequenced receive does to the expected number and the buffer when the frame
      is not the expected one: buffer it when it is ahead (or everything is, at 255) and
      new, otherwise leave both alone. Either way the expected number stays out of the buffer. */
  function Reorder(buffer: map<Byte, seq<Byte>>, expected: Byte, sequence: Byte, payload: seq<Byte>): (b: map<Byte, seq<Byte>>)
    requires sequence != expected
    ensures expected !in buffer ==> expected !in b
    ensures b == buffer || (sequence !in buffer && b == buffer[sequence := payload])
  {
    if Buffers(buffer, expected, sequence) then buffer[sequence := payload] else buffer
  }

  /** An unexpected frame is kept for later when it is ahead of the expected number (or the
      expected number is 255) and its sequence number is not buffered yet. */
  predicate Buffers(buffer: map<Byte, seq<Byte>>, expected: Byte, sequence: Byte)
  {
    (sequence > expected || expected == 255) && sequence !in buffer
  }

  /** Frames behind the expected number are neither buffered nor delivered, except when the
      expected number is 255. */
  lemma LateFramesIgnored(buffer: map<Byte, seq<Byte>>, expected: Byte, sequence: Byte, payload: seq<Byte>)
    requires sequence < expected < 255
    ensures Reorder(buffer, expected, sequence, payload) == buffer
  {
  }

  // ----- fragmenting -----

  const MaxFragmentPayloadSize := 512

  /** `(byte)Math.Ceiling(n / 512.0)`, raised to 1 for empty data. C# leaves the result of
      an out-of-range double-to-byte cast unspecified; this model takes the low 8 bits, so a
      message of more than 255 * 512 bytes is announced with a wrapped count. */
  function FragmentCount(n: nat): (c: Byte)
    ensures c >= 1
    ensures n <= 255 * MaxFragmentPayloadSize ==> MaxFragmentPayloadSize * (c - 1) <= n
  {
    var b := ToByte((n + 511) / 512);
    if b == 0 then 1 else b
  }

  /** Up to 255 * 512 bytes, the count is the number of 512-byte pieces, and 1 for no data. */
  lemma FragmentCountExact(n: nat)
    requires n <= 255 * MaxFragmentPayloadSize
    ensures FragmentCount(n) == if n == 0 then 1 else (n + 511) / 512
    ensures n > 0 ==> (FragmentCount(n) - 1) * 512 < n <= FragmentCount(n) * 512
  {
  }

  /** Every fragment the loop makes starts inside the data. */
  lemma ChunkStartsInside(n: nat, i: nat)
    requires i < FragmentCount(n)
    ensures MaxFragmentPayloadSize * i <= n
    ensures i + 1 < FragmentCount(n) ==> MaxFragmentPayloadSize * (i + 1) < n
  {
    var c := (n + 511) / 512;
    if ToByte(c) != 0 {
      assert FragmentCount(n) <= c;
      assert 512 * c <= n + 511;
    }
  }

  /** Fragment `i`: up to 512 bytes from offset 512 * i. */
  function Chunk(data: seq<Byte>, i: nat): (r: seq<Byte>)
    requires MaxFragmentPayloadSize * i <= |data|
    ensures |r| <= MaxFragmentPayloadSize
  {
    var start := MaxFragmentPayloadSize * i;
    var size := if |data| - start < MaxFragmentPayloadSize then |data| - start else MaxFragmentPayloadSize;
    data[start..start + size]
  }

  /** Fragments 0 to k - 1 concatenated. */
  function Chunks(data: seq<Byte>, k: nat): seq<Byte>
    requires k <= FragmentCount(|data|)
  {
    if k == 0 then []
    else
      ChunkStartsInside(|data|, k - 1);
      Chunks(data, k - 1) + Chunk(data, k - 1)
  }

  /** The first k fragments are the data up to offset 512 * k. */
  lemma {:induction false} ChunksPrefix(data: seq<Byte>, k: nat)
    requires k <= FragmentCount(|data|)
    ensures k > 0 ==> MaxFragmentPayloadSize * (k - 1) <= |data|
    ensures Chunks(data, k) == data[..if MaxFragmentPayloadSize * k < |data| then MaxFragmentPayloadSize * k else |data|]
  {
    if k > 0 {
      ChunkStartsInside(|data|, k - 1);
      ChunksPrefix(data, k - 1);
      if k - 1 > 0 {
        ChunkStartsInside(|data|, k - 2);
      }
    }
  }

  /** Up to 255 * 512 bytes, the fragments concatenate back to the data. */
  lemma ChunksCoverData(data: seq<Byte>)
    requires |data| <= 255 * MaxFragmentPayloadSize
    ensures Chunks(data, FragmentCount(|data|)) == data
  {
    FragmentCountExact(|data|);
    ChunksPrefix(data, FragmentCount(|data|));
  }

  /** The frame of fragment `i`, which gets message ID `firstId + i` (mod 65536). */
  function FragmentFrameAt(data: seq<Byte>, fragmentedId: Byte, firstId: U16, i: nat): seq<Byte>
    requires i < FragmentCount(|data|)
  {
    ChunkStartsInside(|data|, i);
    FragmentFrame(Chunk(data, i), ToU16(firstId + i), fragmentedId, i as Byte, FragmentCount(|data|))
  }

  /** The frames `Prepare` writes for fragments 0 to k - 1. */
  function FragmentFrames(data: seq<Byte>, fragmentedId: Byte, firstId: U16, k: nat): seq<Byte>
    requires k <= FragmentCount(|data|)
  {
    if k == 0 then [] else FragmentFrames(data, fragmentedId, firstId, k - 1) + FragmentFrameAt(data, fragmentedId, firstId, k - 1)
  }

  /** The retransmit store after `Prepare` has stored fragments 0 to k - 1. */
  function StoreFragments(pending: map<U16, (Byte, seq<Byte>)>, channelId: Byte, data: seq<Byte>,
                          fragmentedId: Byte, firstId: U16, k: nat): map<U16, (Byte, seq<Byte>)>
    requires k <= FragmentCount(|data|)
  {
    if k == 0 then pending
    else
      StoreFragments(pending, channelId, data, fragmentedId, firstId, k - 1)[ToU16(firstId + k - 1) :=
        (channelId, FragmentFrameAt(data, fragmentedId, firstId, k - 1))]
  }

  /** Fewer than 65536 consecutive message IDs are distinct. */
  lemma DistinctIds(first: U16, i: nat, j: nat)
    requires i < j < 0x1_0000
    ensures ToU16(first + i) != ToU16(first + j)
  {
  }

  /** Every fragment frame is stored under its own message ID: the IDs of one message are
      distinct, since there are at most 255 of them. */
  lemma {:induction false} StoredFragment(pending: map<U16, (Byte, seq<Byte>)>, channelId: Byte, data: seq<Byte>,
                                          fragmentedId: Byte, firstId: U16, k: nat, i: nat)
    requires k <= FragmentCount(|data|) && i < k
    ensures var stored := StoreFragments(pending, channelId, data, fragmentedId, firstId, k);
            ToU16(firstId + i) in stored
            && stored[ToU16(firstId + i)] == (channelId, FragmentFrameAt(data, fragmentedId, firstId, i))
  {
    if i < k - 1 {
      StoredFragment(pending, channelId, data, fragmentedId, firstId, k - 1, i);
      DistinctIds(firstId, i, k - 1);
    }
  }

  /** The receiver's fragment map once it holds fragments 0 to k - 1 of `data`. */
  function FragmentMap(data: seq<Byte>, k: nat): map<Byte, seq<Byte>>
    requires k <= FragmentCount(|data|)
  {
    if k == 0 then map[]
    else
      ChunkStartsInside(|data|, k - 1);
      FragmentMap(data, k - 1)[(k - 1) as Byte := Chunk(data, k - 1)]
  }

  lemma {:induction false} FragmentMapAt(data: seq<Byte>, k: nat, i: nat)
    requires k <= FragmentCount(|data|) && i < k
    ensures MaxFragmentPayloadSize * i <= |data|
    ensures i as Byte in FragmentMap(data, k) && FragmentMap(data, k)[i as Byte] == Chunk(data, i)
  {
    ChunkStartsInside(|data|, i);
    if i < k - 1 {
      FragmentMapAt(data, k - 1, i);
    }
  }

  lemma {:induction false} JoinedChunks(data: seq<Byte>, total: nat, k: nat)
    requires total <= FragmentCount(|data|) && k <= total
    ensures Fragments.Joined(FragmentMap(data, total), k) == Ok(Chunks(data, k))
  {
    if k > 0 {
      JoinedChunks(data, total, k - 1);
      FragmentMapAt(data, total, k - 1);
    }
  }

  /** The sender's split and the receiver's reassembly fit together: once a receiver holds
      every fragment of a message of at most 255 * 512 bytes, with the announced count, it
      reassembles exactly the message. */
  lemma PreparedFragmentsReassemble(data: seq<Byte>)
    requires |data| <= 255 * MaxFragmentPayloadSize
    ensures var count := FragmentCount(|data|);
            Fragments.Reassembled(Fragments.FragmentState(FragmentMap(data, count), count, count)) == Ok(data)
  {
    JoinedChunks(data, FragmentCount(|data|), FragmentCount(|data|));
    ChunksCoverData(data);
  }

  /** The receiver's fragment map for k fragments holds exactly the indices 0 to k - 1. */
  lemma {:induction false} FragmentMapKeys(data: seq<Byte>, k: nat)
    requires k <= FragmentCount(|data|)
    ensures FragmentMap(data, k).Keys == Fragments.Range(k)
  {
    if k > 0 {
      FragmentMapKeys(data, k - 1);
    }
  }

  // ----- the receiver's table of partly received messages -----

  /** The table with an entry for `fragmentedId`: the existing one, or a new empty one whose
      total is the count carried by the fragment that opens it. */
  function Opened(table: map<Byte, Fragments.FragmentState>, fragmentedId: Byte, count: Byte): (t: map<Byte, Fragments.FragmentState>)
    ensures fragmentedId in t
  {
    if fragmentedId in table then table else table[fragmentedId := Fragments.FragmentState(map[], count, 0)]
  }

  /** One fragment stored into its message's entry: while incomplete the entry is updated and
      nothing is delivered; once complete the entry is removed and the whole message
      delivered; a complete message that cannot be reassembled keeps its entry and fails. */
  function FragmentStep(table: map<Byte, Fragments.FragmentState>, fragmentedId: Byte, index: Byte, chunk: seq<Byte>)
    : (map<Byte, Fragments.FragmentState>, Result<Option<seq<Byte>>>)
    requires fragmentedId in table
  {
    var added := Fragments.Add(table[fragmentedId], index, chunk);
    if !added.1 then (table[fragmentedId := added.0], Ok(None))
    else
      match Fragments.Reassembled(added.0)
      case Ok(full) => (table - {fragmentedId}, Ok(Some(full)))
      case Err(f) => (table[fragmentedId := added.0], Err(f))
  }

  /** The total of a message is the count carried by its first fragment: the counts in the
      fragments after it change nothing. */
  lemma CountFromFirstFragment(table: map<Byte, Fragments.FragmentState>, fragmentedId: Byte, count: Byte,
                               index: Byte, chunk: seq<Byte>)
    ensures Opened(table, fragmentedId, count)[fragmentedId].total
            == if fragmentedId in table then table[fragmentedId].total else count
    ensures var t := Opened(table, fragmentedId, count);
            var t' := FragmentStep(t, fragmentedId, index, chunk).0;
            fragmentedId in t' ==> t'[fragmentedId].total == t[fragmentedId].total
  {
  }

  /** A message is delivered exactly when its entry leaves the table, so at most once per
      entry; the other entries are untouched. */
  lemma DeliveredOnce(table: map<Byte, Fragments.FragmentState>, fragmentedId: Byte, index: Byte, chunk: seq<Byte>)
    requires fragmentedId in table
    ensures var (t, outcome) := FragmentStep(table, fragmentedId, index, chunk);
            && (outcome.Ok? && outcome.value.Some? <==> fragmentedId !in t)
            && (forall k :: k != fragmentedId ==> (k in t <==> k in table))
            && (forall k :: k != fragmentedId && k in t ==> t[k] == table[k])
  {
  }

  /** End to end: when a receiver holds every fragment of a message but the last, with the
      count announced, the last fragment delivers exactly the message and clears its entry. */
  lemma LastFragmentDelivers(table: map<Byte, Fragments.FragmentState>, fragmentedId: Byte, data: seq<Byte>)
    requires |data| <= 255 * MaxFragmentPayloadSize
    requires var count := FragmentCount(|data|);
             fragmentedId in table
             && table[fragmentedId] == Fragments.FragmentState(FragmentMap(data, count - 1), count, count - 1)
    ensures var count := FragmentCount(|data|);
            var step := FragmentStep(table, fragmentedId, (count - 1) as Byte, Chunk(data, count - 1));
            step.0 == table - {fragmentedId} && step.1 == Ok(Some(data))
  {
    LastFragmentCompletes(data);
    PreparedFragmentsReassemble(data);
  }

  /** Adding the last fragment to all the others completes the message. */
  lemma LastFragmentCompletes(data: seq<Byte>)
    requires |data| <= 255 * MaxFragmentPayloadSize
    ensures var count := FragmentCount(|data|);
            var added := Fragments.Add(Fragments.FragmentState(FragmentMap(data, count - 1), count, count - 1),
                                       (count - 1) as Byte, Chunk(data, count - 1));
            added.0 == Fragments.FragmentState(FragmentMap(data, count), count, count) && added.1
  {
    var count := FragmentCount(|data|);
    ChunkStartsInside(|data|, count - 1);
    FragmentMapKeys(data, count - 1);
    assert (count - 1) as Byte !in FragmentMap(data, count - 1);
  }

  // ----- the data-packet header -----

  const PacketHeaderSize := 12

  /** `WritePacketHeader` in short-ack mode: connection ID, packet ID, session ID, the last
      message ID received and the ack mask. */
  function PacketHeader(connectionId: U16, packetId: U16, sessionId: U16, last: U16, mask: U32): (r: seq<Byte>)
    ensures |r| == PacketHeaderSize
  {
    BE16(connectionId) + BE16(packetId) + BE16(sessionId) + BE16(last) + BE32(mask)
  }

  /** The server reads the header back field by field. */
  lemma PacketHeaderFields(connectionId: U16, packetId: U16, sessionId: U16, last: U16, mask: U32)
    ensures var h := PacketHeader(connectionId, packetId, sessionId, last, mask);
            FromBE16(h[..2]) == connectionId && FromBE16(h[2..4]) == packetId
            && FromBE16(h[4..6]) == sessionId && FromBE16(h[6..8]) == last && FromBE32(h[8..12]) == mask
  {
    var h := PacketHeader(connectionId, packetId, sessionId, last, mask);
    var front := BE16(connectionId) + BE16(packetId) + BE16(sessionId) + BE16(last);
    assert h == front + BE32(mask);
    assert h[8..12] == BE32(mask);
    assert h[..8] == front;
    assert front[..2] == BE16(connectionId) && front[2..4] == BE16(packetId);
    assert front[4..6] == BE16(sessionId) && front[6..8] == BE16(last);
    BE16RoundTrip(connectionId);
    BE16RoundTrip(packetId);
    BE16RoundTrip(sessionId);
    BE16RoundTrip(last);
    BE32RoundTrip(mask);
  }

  // ----- HLAPI message framing -----

  /** `SendByChannel(type, writer, channelId)`: the message's size and type as little-endian
      16-bit values, then the message. */
  function MessageFrame(msgType: I16, msg: seq<Byte>): (r: seq<Byte>)
    ensures |r| == 4 + |msg|
  {
    ToLE(ToU16(|msg|), 2) + ToLE(ToU16(msgType), 2) + msg
  }

  /** A receiver reading the two little-endian fields gets the size (below 65536) and the
      type back, and the message follows. */
  lemma MessageFrameFields(msgType: I16, msg: seq<Byte>)
    requires |msg| < 0x1_0000
    ensures var f := MessageFrame(msgType, msg);
            FromLE(f[..2]) == |msg| && ToI16(FromLE(f[2..4])) == msgType && f[4..] == msg
  {
    var f := MessageFrame(msgType, msg);
    var size, kind := ToLE(ToU16(|msg|), 2), ToLE(ToU16(msgType), 2);
    assert f == size + kind + msg;
    assert f[..2] == size;
    assert f[2..4] == kind;
    assert f[4..] == msg;
    U16FieldRoundTrip(|msg|);
    U16FieldRoundTrip(ToU16(msgType));
    ShortRoundTrip(msgType);
  }

  /** Two little-endian bytes carry every value below 65536. */
  lemma U16FieldRoundTrip(v: nat)
    requires v < 0x1_0000
    ensures FromLE(ToLE(ToU16(v), 2)) == v
  {
    assert ToU16(v) == v;
    assert Pow256(2) == 256 * Pow256(1) && Pow256(1) == 256;
    FromToLE(v, 2);
  }
}
