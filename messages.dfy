/** UNetLib.HLAPI.Messages: the three messages whose serialisation has logic of its own.
    Each is a class whose fields `Deserialize` assigns from a reader and `Serialize` writes. */
module Messages {
  import opened Wrappers
  import opened Bytes
  import opened HLWriter
  import opened HLReader

  // ----- CrcMessage -----

  /** CrcMessageEntry: a script name (given as its UTF-8 bytes, `None` for null) and a channel. */
  datatype CrcMessageEntry = CrcMessageEntry(name: Option<seq<Byte>>, channel: Byte)

  /** The entries, each a length-prefixed name and the channel byte; fails on the first name that is too long. */
  function EncodeEntries(scripts: seq<CrcMessageEntry>): Result<seq<Byte>>
  {
    if scripts == [] then Ok([])
    else
      var name :- EncodeString(scripts[0].name);
      var tail :- EncodeEntries(scripts[1..]);
      Ok(name + [scripts[0].channel] + tail)
  }

  /** Writing the entries fails exactly when some name is too long. */
  lemma {:induction false} EntriesFailIff(scripts: seq<CrcMessageEntry>)
    ensures EncodeEntries(scripts).Err? <==> exists k :: 0 <= k < |scripts| && EncodeString(scripts[k].name).Err?
  {
    if scripts != [] {
      EntriesFailIff(scripts[1..]);
      assert forall k :: 1 <= k < |scripts| ==> scripts[k] == scripts[1..][k - 1];
      if EncodeString(scripts[0].name).Ok? && EncodeEntries(scripts[1..]).Ok? {
        forall k | 0 <= k < |scripts|
          ensures EncodeString(scripts[k].name).Ok?
        {
          if k > 0 {
            assert scripts[k] == scripts[1..][k - 1];
          }
        }
      }
    }
  }

  /** `CrcMessage.Serialize`: the entry count, cast to 16 bits, then the entries. */
  function EncodeCrc(scripts: seq<CrcMessageEntry>): (r: Result<seq<Byte>>)
    ensures r.Ok? ==> |r.value| >= 2 && FromLE(r.value[..2]) == ToU16(|scripts|)
    ensures r.Err? <==> EncodeEntries(scripts).Err?
  {
    var tail :- EncodeEntries(scripts);
    var prefix := ToLE(ToU16(|scripts|), 2);
    Pow256Values();
    FromToLE(ToU16(|scripts|), 2);
    assert (prefix + tail)[..2] == prefix;
    Ok(prefix + tail)
  }

  /** `n` entries read in turn: a string, then the channel byte. */
  function DecodeEntries(s: seq<Byte>, n: nat): (d: Decoded<seq<CrcMessageEntry>>)
    ensures d.Ok? ==> |d.value.0| == n && d.value.1 <= |s|
    decreases n
  {
    if n == 0 then Ok(([], 0))
    else
      var first :- DecodeEntry(s);
      var rest :- DecodeEntries(s[first.1..], n - 1);
      Ok(([first.0] + rest.0, first.1 + rest.1))
  }

  /** One entry: a string, then the channel byte. */
  function DecodeEntry(s: seq<Byte>): (d: Decoded<CrcMessageEntry>)
    ensures d.Ok? ==> 0 < d.value.1 <= |s|
  {
    var name :- DecodeString(s);
    if |s| <= name.1 then Err(EndOfStream)
    else Ok((CrcMessageEntry(Some(name.0), s[name.1]), name.1 + 1))
  }

  /** `CrcMessage.Deserialize`: a 16-bit count and that many entries. */
  function DecodeCrc(s: seq<Byte>): Decoded<seq<CrcMessageEntry>>
  {
    var count :- DecodeLE(s, 2);
    var entries :- DecodeEntries(s[2..], count.0);
    Ok((entries.0, 2 + entries.1))
  }

  /** What reading gives back for a written entry: a null name reads as the empty string. */
  function AsRead(e: CrcMessageEntry): CrcMessageEntry
  {
    CrcMessageEntry(Some(if e.name.Some? then e.name.value else []), e.channel)
  }

  function AllAsRead(scripts: seq<CrcMessageEntry>): (r: seq<CrcMessageEntry>)
    ensures |r| == |scripts|
  {
    if scripts == [] then [] else [AsRead(scripts[0])] + AllAsRead(scripts[1..])
  }

  lemma EntryRoundTrip(e: CrcMessageEntry, rest: seq<Byte>)
    requires EncodeString(e.name).Ok?
    ensures DecodeEntry(EncodeString(e.name).value + ([e.channel] + rest))
            == Ok((AsRead(e), |EncodeString(e.name).value| + 1))
  {
    var name := EncodeString(e.name).value;
    var s := name + ([e.channel] + rest);
    if e.name.Some? {
      StringRoundTrip(e.name.value, [e.channel] + rest);
    } else {
      NullStringReadsEmpty([e.channel] + rest);
    }
    assert s[|name|] == e.channel;
  }

  /** `EncodeEntries` writes the first entry, then the others after it. */
  lemma EncodeEntriesStep(scripts: seq<CrcMessageEntry>)
    requires scripts != [] && EncodeEntries(scripts).Ok?
    ensures EncodeString(scripts[0].name).Ok? && EncodeEntries(scripts[1..]).Ok?
    ensures EncodeEntries(scripts).value
            == EncodeString(scripts[0].name).value + ([scripts[0].channel] + EncodeEntries(scripts[1..]).value)
  {
  }

  /** Reading `n` entries from a written entry followed by more bytes: that entry, then `n - 1` read from the bytes. */
  lemma DecodeWrittenEntry(e: CrcMessageEntry, after: seq<Byte>, n: nat)
    requires n > 0 && EncodeString(e.name).Ok? && DecodeEntries(after, n - 1).Ok?
    ensures var d := DecodeEntries(EncodeString(e.name).value + ([e.channel] + after), n);
            && d.Ok?
            && d.value.0 == [AsRead(e)] + DecodeEntries(after, n - 1).value.0
            && d.value.1 == |EncodeString(e.name).value| + 1 + DecodeEntries(after, n - 1).value.1
  {
    var s := EncodeString(e.name).value + ([e.channel] + after);
    EntryRoundTrip(e, after);
    assert s[|EncodeString(e.name).value| + 1..] == after;
    DecodeEntriesStep(s, n);
  }

  lemma {:induction false} EntriesRoundTrip(scripts: seq<CrcMessageEntry>, rest: seq<Byte>)
    requires EncodeEntries(scripts).Ok?
    ensures var d := DecodeEntries(EncodeEntries(scripts).value + rest, |scripts|);
            d.Ok? && d.value.0 == AllAsRead(scripts) && d.value.1 == |EncodeEntries(scripts).value|
  {
    if scripts != [] {
      EncodeEntriesStep(scripts);
      var name := EncodeString(scripts[0].name).value;
      var tail := EncodeEntries(scripts[1..]).value;
      assert EncodeEntries(scripts).value + rest == name + ([scripts[0].channel] + (tail + rest));
      EntriesRoundTrip(scripts[1..], rest);
      DecodeWrittenEntry(scripts[0], tail + rest, |scripts|);
    }
  }

  lemma EncodeCrcAfter(start: seq<Byte>, scripts: seq<CrcMessageEntry>)
    requires EncodeEntries(scripts).Ok?
    ensures EncodeCrc(scripts).Ok?
    ensures start + ToLE(ToU16(|scripts|), 2) + EncodeEntries(scripts).value == start + EncodeCrc(scripts).value
  {
    var prefix, tail := ToLE(ToU16(|scripts|), 2), EncodeEntries(scripts).value;
    assert EncodeCrc(scripts).value == prefix + tail;
    assert start + prefix + tail == start + (prefix + tail);
  }

  /** A list with fewer than 65536 entries whose names all fit reads back, null names as empty. */
  lemma CrcRoundTrip(scripts: seq<CrcMessageEntry>, rest: seq<Byte>)
    requires |scripts| < 0x1_0000
    requires EncodeCrc(scripts).Ok?
    ensures var d := DecodeCrc(EncodeCrc(scripts).value + rest);
            d.Ok? && d.value.0 == AllAsRead(scripts) && d.value.1 == |EncodeCrc(scripts).value|
  {
    var tail := EncodeEntries(scripts).value;
    var enc := EncodeCrc(scripts).value;
    var s := enc + rest;
    Pow256Values();
    assert enc == ToLE(|scripts|, 2) + tail;
    assert s == ToLE(|scripts|, 2) + (tail + rest);
    LittleEndianRoundTrip(|scripts|, 2, tail + rest);
    assert DecodeLE(s, 2) == Ok((|scripts|, 2));
    assert s[2..] == tail + rest;
    EntriesRoundTrip(scripts, rest);
  }

  /** The count is cut to 16 bits: 65536 entries are announced as none. */
  lemma CrcCountTruncated(scripts: seq<CrcMessageEntry>)
    requires |scripts| == 0x1_0000 && EncodeCrc(scripts).Ok?
    ensures DecodeCrc(EncodeCrc(scripts).value) == Ok(([], 2))
  {
    var r := EncodeCrc(scripts).value;
    assert r[..2] == ToLE(0, 2) + [];
    assert FromLE(r[..2]) == 0;
  }

  /** `whole` is what reading gives when `got` came from the first `used` bytes and `d` is
      what reading the bytes after them gives. */
  predicate Resumes(whole: Decoded<seq<CrcMessageEntry>>, got: seq<CrcMessageEntry>, used: nat, d: Decoded<seq<CrcMessageEntry>>)
  {
    && (whole.Ok? <==> d.Ok?)
    && (d.Ok? ==> whole.value.0 == got + d.value.0 && whole.value.1 == used + d.value.1)
  }

  lemma ResumesFromStart(d: Decoded<seq<CrcMessageEntry>>)
    ensures Resumes(d, [], 0, d)
  {
    if d.Ok? {
      assert [] + d.value.0 == d.value.0;
    }
  }

  /** `DecodeEntries` reads one entry, then the others after it. */
  lemma DecodeEntriesStep(s: seq<Byte>, n: nat)
    requires n > 0 && DecodeEntry(s).Ok?
    ensures Resumes(DecodeEntries(s, n), [DecodeEntry(s).value.0], DecodeEntry(s).value.1,
                    DecodeEntries(s[DecodeEntry(s).value.1..], n - 1))
  {
  }

  class CrcMessage {
    var scripts: seq<CrcMessageEntry>

    constructor ()
      ensures scripts == []
    {
      scripts := [];
    }

    method Serialize(w: NetworkWriter) returns (r: Status)
      modifies w
      ensures r.Err? <==> EncodeCrc(scripts).Err?
      ensures r.Ok? ==> w.bytes == old(w.bytes) + EncodeCrc(scripts).value
    {
      ghost var before := w.bytes;
      w.WriteUInt16(ToU16(|scripts|));
      ghost var start := w.bytes;
      for k := 0 to |scripts|
        invariant EncodeEntries(scripts[..k]).Ok?
        invariant w.bytes == start + EncodeEntries(scripts[..k]).value
      {
        var script := scripts[k];
        var written := w.WriteString(script.name);
        if written.Err? {
          EntriesPrefixFails(scripts, k);
          return written;
        }
        w.WriteByte(script.channel);
        EntriesExtend(scripts, k);
      }
      assert scripts[..|scripts|] == scripts;
      EncodeCrcAfter(before, scripts);
      r := Done;
    }

    /** Appends the entries it reads to the existing list; the list is not cleared first. */
    method Deserialize(rd: NetworkReader) returns (r: Status)
      requires rd.Valid()
      modifies this, rd
      ensures rd.Valid()
      ensures r.Err? <==> DecodeCrc(old(rd.Remaining())).Err?
      ensures r.Ok? ==> scripts == old(scripts) + DecodeCrc(old(rd.Remaining())).value.0
                        && rd.Remaining() == old(rd.Remaining())[DecodeCrc(old(rd.Remaining())).value.1..]
    {
      ghost var s := rd.Remaining();
      var numScripts := rd.ReadUInt16();
      if numScripts.Err? {
        return Err(numScripts.fault);
      }
      ghost var s2 := rd.Remaining();
      DecodeCrcSplit(s);
      assert s2 == s[2..];
      ghost var whole := DecodeEntries(s2, numScripts.value);
      ghost var used: nat := 0;
      ghost var got: seq<CrcMessageEntry> := [];
      ghost var rest := s2;
      ghost var left: nat := numScripts.value;
      ResumesFromStart(whole);
      for i := 0 to numScripts.value
        invariant rd.Valid()
        invariant used <= |s2| && rest == s2[used..] && rd.Remaining() == rest
        invariant left == numScripts.value - i
        invariant scripts == old(scripts) + got
        invariant Resumes(whole, got, used, DecodeEntries(rest, left))
      {
        var entry := ReadEntry(rd);
        if entry.Err? {
          EntriesStopAt(whole, got, used, rest, left);
          return Err(entry.fault);
        }
        ghost var k := DecodeEntry(rest).value.1;
        ghost var got0, used0, rest0, left0 := got, used, rest, left;
        scripts := scripts + [entry.value];
        got := got + [entry.value];
        assert s2[used..][k..] == s2[used + k..];
        used := used + k;
        rest := rest[k..];
        left := left - 1;
        EntriesAdvance(whole, got0, used0, rest0, left0, entry.value, k, got, used, rest, left);
      }
      assert got + [] == got;
      assert s[2..][used..] == s[2 + used..];
      r := Done;
    }
  }

  /** Reading one more entry extends what has been read by that entry. */
  lemma EntriesAdvance(whole: Decoded<seq<CrcMessageEntry>>, got: seq<CrcMessageEntry>, used: nat, t: seq<Byte>, n: nat,
                       e: CrcMessageEntry, k: nat,
                       got': seq<CrcMessageEntry>, used': nat, t': seq<Byte>, n': nat)
    requires n > 0 && DecodeEntry(t).Ok? && DecodeEntry(t).value.0 == e && DecodeEntry(t).value.1 == k
    requires Resumes(whole, got, used, DecodeEntries(t, n))
    requires got' == got + [e] && used' == used + k && t' == t[k..] && n' == n - 1
    ensures Resumes(whole, got', used', DecodeEntries(t', n'))
  {
    DecodeEntriesStep(t, n);
    var d := DecodeEntries(t', n');
    if d.Ok? {
      assert got + ([e] + d.value.0) == got' + d.value.0;
    }
  }

  /** An entry that cannot be read makes the whole list unreadable. */
  lemma EntriesStopAt(whole: Decoded<seq<CrcMessageEntry>>, got: seq<CrcMessageEntry>, used: nat, t: seq<Byte>, n: nat)
    requires n > 0 && DecodeEntry(t).Err?
    requires Resumes(whole, got, used, DecodeEntries(t, n))
    ensures whole.Err?
  {
  }

  lemma DecodeCrcSplit(s: seq<Byte>)
    ensures DecodeLE(s, 2).Ok? ==> Resumes(DecodeCrc(s), [], 2, DecodeEntries(s[2..], DecodeLE(s, 2).value.0))
    ensures DecodeLE(s, 2).Err? ==> DecodeCrc(s).Err?
  {
    if DecodeLE(s, 2).Ok? {
      var d := DecodeEntries(s[2..], DecodeLE(s, 2).value.0);
      if d.Ok? {
        assert [] + d.value.0 == d.value.0;
      }
    }
  }

  /** One `CrcMessageEntry` as `Deserialize` reads it: the name, then the channel. */
  method ReadEntry(rd: NetworkReader) returns (r: Result<CrcMessageEntry>)
    requires rd.Valid()
    modifies rd
    ensures rd.Valid()
    ensures r == Value(DecodeEntry(old(rd.Remaining())))
    ensures r.Ok? ==> rd.Remaining() == old(rd.Remaining())[DecodeEntry(old(rd.Remaining())).value.1..]
  {
    ghost var s := rd.Remaining();
    var name :- rd.ReadString();
    var channel :- rd.ReadByte();
    r := Ok(CrcMessageEntry(Some(name), channel));
    assert s[2 + |name|..][1..] == s[2 + |name| + 1..];
  }

  lemma EntriesExtend(scripts: seq<CrcMessageEntry>, k: nat)
    requires k < |scripts| && EncodeEntries(scripts[..k]).Ok? && EncodeString(scripts[k].name).Ok?
    ensures EncodeEntries(scripts[..k + 1]).Ok?
    ensures EncodeEntries(scripts[..k + 1]).value
            == EncodeEntries(scripts[..k]).value + EncodeString(scripts[k].name).value + [scripts[k].channel]
  {
    EntriesAppend(scripts[..k], scripts[k]);
    assert scripts[..k + 1] == scripts[..k] + [scripts[k]];
  }

  lemma {:induction false} EntriesAppend(prefix: seq<CrcMessageEntry>, e: CrcMessageEntry)
    requires EncodeEntries(prefix).Ok? && EncodeString(e.name).Ok?
    ensures EncodeEntries(prefix + [e]).Ok?
    ensures EncodeEntries(prefix + [e]).value == EncodeEntries(prefix).value + EncodeString(e.name).value + [e.channel]
  {
    if prefix == [] {
      assert [] + [e] == [e];
      assert [e][1..] == [];
    } else {
      assert (prefix + [e])[1..] == prefix[1..] + [e];
      assert forall k :: 1 <= k < |prefix| ==> prefix[k] == prefix[1..][k - 1];
      EntriesAppend(prefix[1..], e);
    }
  }

  lemma EntriesPrefixFails(scripts: seq<CrcMessageEntry>, k: nat)
    requires k < |scripts| && EncodeString(scripts[k].name).Err?
    ensures EncodeEntries(scripts).Err?
  {
    EntriesFailIff(scripts);
  }

  // ----- AddPlayerMessage -----

  datatype AddPlayerFields = AddPlayerFields(playerControllerId: I16, msgSize: I32, msgData: Option<seq<Byte>>)

  /** `AddPlayerMessage.Serialize`: the controller ID as a two's-complement ushort, then the
      data with the caller's size. */
  function EncodeAddPlayer(m: AddPlayerFields): (r: seq<Byte>)
    ensures |r| >= 4 && r[..2] == ToLE(ToU16(m.playerControllerId), 2)
  {
    var r := ToLE(ToU16(m.playerControllerId), 2) + EncodeBytesAndSize(m.msgData, m.msgSize);
    assert r[..2] == ToLE(ToU16(m.playerControllerId), 2);
    r
  }

  /** `AddPlayerMessage.Deserialize`: a zero size prefix gives null data and size 0; otherwise
      the size is the length of the data read. */
  function DecodeAddPlayer(s: seq<Byte>): (d: Decoded<AddPlayerFields>)
    ensures d.Ok? && d.value.0.msgData.None? ==> d.value.0.msgSize == 0
    ensures d.Ok? && d.value.0.msgData.Some? ==> d.value.0.msgSize == |d.value.0.msgData.value| > 0
  {
    var (id, _) :- DecodeLE(s, 2);
    Pow256Values();
    var (data, n) :- DecodeBytesAndSize(s[2..]);
    var size := if data.None? then 0 else |data.value|;
    Ok((AddPlayerFields(ToI16(id), size, data), 2 + n))
  }

  lemma EncodeAddPlayerSplit(m: AddPlayerFields, rest: seq<Byte>)
    ensures EncodeAddPlayer(m) + rest == ToLE(ToU16(m.playerControllerId), 2) + (EncodeBytesAndSize(m.msgData, m.msgSize) + rest)
  {
  }

  lemma EncodeAddPlayerAfter(start: seq<Byte>, m: AddPlayerFields)
    ensures start + ToLE(ToU16(m.playerControllerId), 2) + EncodeBytesAndSize(m.msgData, m.msgSize)
            == start + EncodeAddPlayer(m)
  {
  }

  /** Data whose size field matches its length (1 to 65535 bytes) round-trips, and so does
      the controller ID for every short. */
  lemma AddPlayerRoundTrip(m: AddPlayerFields, rest: seq<Byte>)
    requires m.msgData.Some? && m.msgSize == |m.msgData.value| && 0 < m.msgSize < 0x1_0000
    ensures DecodeAddPlayer(EncodeAddPlayer(m) + rest) == Ok((m, |EncodeAddPlayer(m)|))
  {
    var s := EncodeAddPlayer(m) + rest;
    Pow256Values();
    EncodeAddPlayerSplit(m, rest);
    LittleEndianRoundTrip(ToU16(m.playerControllerId), 2, EncodeBytesAndSize(m.msgData, m.msgSize) + rest);
    assert s[2..] == EncodeBytesAndSize(m.msgData, m.msgSize) + rest;
    BytesFullRoundTrip(m.msgData.value, rest);
    ShortRoundTrip(m.playerControllerId);
  }

  /** The default message (empty data, size 0) reads back with null data. */
  lemma AddPlayerDefaultReadsNull(id: I16, rest: seq<Byte>)
    ensures DecodeAddPlayer(EncodeAddPlayer(AddPlayerFields(id, 0, Some([]))) + rest)
            == Ok((AddPlayerFields(id, 0, None), 4))
  {
    var m := AddPlayerFields(id, 0, Some([]));
    var s := EncodeAddPlayer(m) + rest;
    Pow256Values();
    EncodeAddPlayerSplit(m, rest);
    LittleEndianRoundTrip(ToU16(id), 2, EncodeBytesAndSize(m.msgData, 0) + rest);
    assert s[2..] == EncodeBytesAndSize(m.msgData, 0) + rest;
    EmptyBytesReadAsNull(rest);
    ShortRoundTrip(id);
  }

  /** A size field that disagrees with the data's length is written as is, so the data read
      back is not the data written. */
  lemma AddPlayerSizeMismatch(m: AddPlayerFields, rest: seq<Byte>)
    requires m.msgData.Some? && 0 < m.msgSize < 0x1_0000 && m.msgSize != |m.msgData.value|
    ensures var d := DecodeAddPlayer(EncodeAddPlayer(m) + rest);
            d.Ok? ==> d.value.0.msgData != m.msgData
  {
    var s := EncodeAddPlayer(m) + rest;
    Pow256Values();
    EncodeAddPlayerSplit(m, rest);
    var body := EncodeBytesAndSize(m.msgData, m.msgSize) + rest;
    assert s[2..] == body;
    assert body[..2] == EncodeBytesAndSize(m.msgData, m.msgSize)[..2];
  }

  class AddPlayerMessage {
    var playerControllerId: I16
    var msgSize: I32
    var msgData: Option<seq<Byte>>

    constructor ()
      ensures playerControllerId == 0 && msgSize == 0 && msgData == Some([])
    {
      playerControllerId := 0;
      msgSize := 0;
      msgData := Some([]);
    }

    function Fields(): AddPlayerFields
      reads this
    {
      AddPlayerFields(playerControllerId, msgSize, msgData)
    }

    method Serialize(w: NetworkWriter)
      modifies w
      ensures w.bytes == old(w.bytes) + EncodeAddPlayer(Fields())
    {
      ghost var start := w.bytes;
      w.WriteUInt16(ToU16(playerControllerId));
      w.WriteBytesAndSize(msgData, msgSize);
      EncodeAddPlayerAfter(start, Fields());
    }

    /** The controller ID is assigned before the data is read, so it stays set if that read fails. */
    method Deserialize(rd: NetworkReader) returns (r: Status)
      requires rd.Valid()
      modifies this, rd
      ensures rd.Valid()
      ensures r.Err? <==> DecodeAddPlayer(old(rd.Remaining())).Err?
      ensures r.Ok? ==> Fields() == DecodeAddPlayer(old(rd.Remaining())).value.0
                        && rd.Remaining() == old(rd.Remaining())[DecodeAddPlayer(old(rd.Remaining())).value.1..]
    {
      ghost var s := rd.Remaining();
      var id :- rd.ReadUInt16();
      playerControllerId := ToI16(id);
      var data :- rd.ReadBytesAndSize();
      msgData := data;
      if data.None? {
        msgSize := 0;
      } else {
        msgSize := |data.value|;
      }
      r := Done;
      assert s[2..][DecodeBytesAndSize(s[2..]).value.1..] == s[2 + DecodeBytesAndSize(s[2..]).value.1..];
    }
  }

  // ----- OwnerMessage -----

  datatype OwnerFields = OwnerFields(netId: U32, playerControllerId: I16)

  /** `OwnerMessage.Serialize`: the net ID packed, then the controller ID sign-extended to a uint and packed. */
  function EncodeOwner(m: OwnerFields): seq<Byte>
  {
    PackedUInt32(m.netId) + PackedUInt32(ToU32(m.playerControllerId))
  }

  /** `OwnerMessage.Deserialize`: two packed uints; the second is cut to a short. */
  function DecodeOwner(s: seq<Byte>): (d: Decoded<OwnerFields>)
  {
    var (netId, n) :- DecodePackedUInt32(s);
    var (id, k) :- DecodePackedUInt32(s[n..]);
    Ok((OwnerFields(netId, ToI16(ToU16(id))), n + k))
  }

  /** A negative controller ID takes the five-byte packed form. */
  lemma NegativeControllerIdTakesFiveBytes(id: I16)
    requires id < 0
    ensures |PackedUInt32(ToU32(id))| == 5
  {
  }

  /** Cutting the sign-extended uint back to a short gives the short. */
  lemma ShortThroughUInt(id: I16)
    ensures ToI16(ToU16(ToU32(id))) == id
  {
  }

  lemma OwnerRoundTrip(m: OwnerFields, rest: seq<Byte>)
    ensures DecodeOwner(EncodeOwner(m) + rest) == Ok((m, |EncodeOwner(m)|))
  {
    var a := PackedUInt32(m.netId);
    var b := PackedUInt32(ToU32(m.playerControllerId));
    var s := EncodeOwner(m) + rest;
    assert s == a + (b + rest);
    PackedUInt32RoundTrip(m.netId, b + rest);
    assert s[|a|..] == b + rest;
    PackedUInt32RoundTrip(ToU32(m.playerControllerId), rest);
    ShortThroughUInt(m.playerControllerId);
  }

  class OwnerMessage {
    var netId: U32
    var playerControllerId: I16

    constructor ()
      ensures netId == 0 && playerControllerId == 0
    {
      netId := 0;
      playerControllerId := 0;
    }

    method Serialize(w: NetworkWriter)
      modifies w
      ensures w.bytes == old(w.bytes) + EncodeOwner(OwnerFields(netId, playerControllerId))
    {
      w.WriteNetworkId(netId);
      w.WritePackedUInt32(ToU32(playerControllerId));
    }

    method Deserialize(rd: NetworkReader) returns (r: Status)
      requires rd.Valid()
      modifies this, rd
      ensures rd.Valid()
      ensures r.Err? <==> DecodeOwner(old(rd.Remaining())).Err?
      ensures r.Ok? ==> OwnerFields(netId, playerControllerId) == DecodeOwner(old(rd.Remaining())).value.0
                        && rd.Remaining() == old(rd.Remaining())[DecodeOwner(old(rd.Remaining())).value.1..]
    {
      ghost var s := rd.Remaining();
      var id :- rd.ReadNetworkId();
      netId := id;
      ghost var n := DecodePackedUInt32(s).value.1;
      var pid :- rd.ReadPackedUInt32();
      playerControllerId := ToI16(ToU16(pid));
      r := Done;
      assert s[n..][DecodePackedUInt32(s[n..]).value.1..] == s[n + DecodePackedUInt32(s[n..]).value.1..];
    }
  }
}
