/** UNetLib.HLAPI.NetworkHash128: a 16-byte asset identifier with a hex text form.
    The C# struct is a value, so it is a datatype here; `Reset`, which overwrites all
    sixteen fields of the struct in place, yields the all-zero value. */
module Hash128 {
  import opened Bytes

  type Bytes16 = s: seq<Byte> | |s| == 16 witness [0, 0, 0, 0, 0, 0, 0, 0, 0, 0, 0, 0, 0, 0, 0, 0]

  /** Fields I0..I15 are i[0]..i[15]. */
  datatype NetworkHash128 = NetworkHash128(i: Bytes16)

  const Zero: Bytes16 := [0, 0, 0, 0, 0, 0, 0, 0, 0, 0, 0, 0, 0, 0, 0, 0]

  /** `Reset`: every field set to 0. */
  function Reset(h: NetworkHash128): (r: NetworkHash128)
    ensures forall k :: 0 <= k < 16 ==> r.i[k] == 0
    ensures !IsValid(r)
  {
    NetworkHash128(Zero)
  }

  /** `IsValid`: the bitwise or of the sixteen bytes is non-zero. */
  predicate IsValid(h: NetworkHash128)
    ensures IsValid(h) <==> exists k :: 0 <= k < 16 && h.i[k] != 0
  {
    if h.i == Zero then
      false
    else
      assert exists k :: 0 <= k < 16 && h.i[k] != Zero[k];
      true
  }

  /** `HexToNumber`: the value of a hex digit of either case; any other character is 0. */
  function HexToNumber(c: char): (n: int)
    ensures 0 <= n < 16
    ensures '0' <= c <= '9' ==> n == c as int - '0' as int
    ensures 'a' <= c <= 'f' ==> n == c as int - 'a' as int + 10
    ensures 'A' <= c <= 'F' ==> n == c as int - 'A' as int + 10
    ensures !('0' <= c <= '9' || 'a' <= c <= 'f' || 'A' <= c <= 'F') ==> n == 0
  {
    if '0' <= c <= '9' then c as int - '0' as int
    else if 'a' <= c <= 'f' then c as int - 'a' as int + 10
    else if 'A' <= c <= 'F' then c as int - 'A' as int + 10
    else 0
  }

  /** The lowercase digit the `x2` format prints for a value below 16. */
  function HexDigit(d: nat): char
    requires d < 16
  {
    "0123456789abcdef"[d]
  }

  /** `HexToNumber` inverts the digit printer. */
  lemma HexDigitRoundTrip(d: nat)
    requires d < 16
    ensures HexToNumber(HexDigit(d)) == d
    ensures '0' <= HexDigit(d) <= '9' || 'a' <= HexDigit(d) <= 'f'
  {
  }

  /** Two lowercase hex digits per byte, most significant digit first. */
  function HexOf(bytes: seq<Byte>): (r: string)
    ensures |r| == 2 * |bytes|
    ensures forall k :: 0 <= k < |bytes| ==> r[2 * k] == HexDigit(bytes[k] / 16) && r[2 * k + 1] == HexDigit(bytes[k] % 16)
  {
    if bytes == [] then []
    else
      var rest := HexOf(bytes[1..]);
      assert forall k :: 1 <= k < |bytes| ==> bytes[k] == bytes[1..][k - 1];
      [HexDigit(bytes[0] / 16), HexDigit(bytes[0] % 16)] + rest
  }

  /** `ToString`: exactly 32 lowercase hex digits, from I0 to I15. */
  function ToString(h: NetworkHash128): (r: string)
    ensures |r| == 32
    ensures forall k :: 0 <= k < 32 ==> '0' <= r[k] <= '9' || 'a' <= r[k] <= 'f'
  {
    var r := HexOf(h.i);
    assert forall k :: 0 <= k < 16 ==> r[2 * k] == HexDigit(h.i[k] / 16) && r[2 * k + 1] == HexDigit(h.i[k] % 16);
    forall k | 0 <= k < 32
      ensures '0' <= r[k] <= '9' || 'a' <= r[k] <= 'f'
    {
      if k % 2 == 0 {
        HexDigitRoundTrip(h.i[k / 2] / 16);
        assert r[2 * (k / 2)] == r[k];
      } else {
        HexDigitRoundTrip(h.i[k / 2] % 16);
        assert r[2 * (k / 2) + 1] == r[k];
      }
    }
    r
  }

  function Zeros(n: nat): (r: string)
    ensures |r| == n && forall k :: 0 <= k < n ==> r[k] == '0'
  {
    if n == 0 then "" else Zeros(n - 1) + "0"
  }

  /** The text `Parse` reads: shorter inputs are left-padded with '0' to 32 characters. */
  function Padded(text: string): (p: string)
    ensures |p| >= 32
    ensures |text| >= 32 ==> p == text
    ensures |text| < 32 ==> p == Zeros(32 - |text|) + text
  {
    if |text| < 32 then Zeros(32 - |text|) + text else text
  }

  /** The byte a pair of hex characters denotes; at most 15 * 16 + 15, so the `(byte)` cast never truncates. */
  function PairValue(hi: char, lo: char): (b: Byte)
    ensures b / 16 == HexToNumber(hi) && b % 16 == HexToNumber(lo)
  {
    HexToNumber(hi) * 16 + HexToNumber(lo)
  }

  /** What `Parse` returns: byte k from characters 2k and 2k+1 of the padded text; characters
      past the first 32 are ignored. */
  function ParseHash(text: string): (h: NetworkHash128)
    ensures forall k :: 0 <= k < 16 ==> h.i[k] == PairValue(Padded(text)[2 * k], Padded(text)[2 * k + 1])
  {
    var p := Padded(text);
    NetworkHash128(seq(16, k requires 0 <= k < 16 => PairValue(p[2 * k], p[2 * k + 1])))
  }

  /** Printing then parsing gives the hash back. */
  lemma ParseToString(h: NetworkHash128)
    ensures ParseHash(ToString(h)) == h
  {
    var t := ToString(h);
    assert t == HexOf(h.i);
    var r := ParseHash(t);
    forall k | 0 <= k < 16
      ensures r.i[k] == h.i[k]
    {
      HexDigitRoundTrip(h.i[k] / 16);
      HexDigitRoundTrip(h.i[k] % 16);
    }
  }

  /** Only the first 32 characters matter. */
  lemma ParseIgnoresTail(text: string, tail: string)
    requires |text| == 32
    ensures ParseHash(text + tail) == ParseHash(text)
  {
    var a := ParseHash(text + tail);
    var b := ParseHash(text);
    forall k | 0 <= k < 16
      ensures a.i[k] == b.i[k]
    {
      assert (text + tail)[2 * k] == text[2 * k] && (text + tail)[2 * k + 1] == text[2 * k + 1];
    }
  }

  /** `Parse`, with the padding loop of the source. */
  method Parse(text: string) returns (hash: NetworkHash128)
    ensures hash == ParseHash(text)
  {
    var t := text;
    var length := |text|;
    if length < 32 {
      var tmp := "";
      for i := 0 to 32 - length
        invariant tmp == Zeros(i)
      {
        tmp := tmp + "0";
      }
      t := tmp + t;
    }
    var bytes: seq<Byte> := [];
    for k := 0 to 16
      invariant |bytes| == k
      invariant forall j :: 0 <= j < k ==> bytes[j] == PairValue(t[2 * j], t[2 * j + 1])
    {
      bytes := bytes + [PairValue(t[2 * k], t[2 * k + 1])];
    }
    hash := NetworkHash128(bytes);
    assert t == Padded(text);
  }
}
