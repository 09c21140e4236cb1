/** Base16 text, as written by Go's `fmt.Sprintf("%x", []byte)` and read back by
    `hex.DecodeString` (section 8 of RFC 4648). */
module Hex {
  import opened Bytes
  import opened Results

  /** The lower-case digit for a nibble; `%x` never emits upper case. */
  function Digit(v: int): (c: char)
    requires 0 <= v < 16
    ensures IsLowerHexChar(c)
  {
    if v < 10 then ('0' as int + v) as char else ('a' as int + (v - 10)) as char
  }

  predicate IsLowerHexChar(c: char) {
    ('0' <= c <= '9') || ('a' <= c <= 'f')
  }

  predicate IsLowerHex(s: string) {
    forall i :: 0 <= i < |s| ==> IsLowerHexChar(s[i])
  }

  /** The value of one hex digit; `hex.DecodeString` accepts both cases. */
  function DigitValue(c: char): Option<int>
  {
    if '0' <= c <= '9' then Some(c as int - '0' as int)
    else if 'a' <= c <= 'f' then Some(c as int - 'a' as int + 10)
    else if 'A' <= c <= 'F' then Some(c as int - 'A' as int + 10)
    else None
  }

  predicate IsHexChar(c: char) {
    DigitValue(c).Some?
  }

  lemma DigitValueRange(c: char)
    ensures DigitValue(c).Some? ==> 0 <= DigitValue(c).value < 16
  {
  }

  lemma DigitRoundTrip(v: int)
    requires 0 <= v < 16
    ensures DigitValue(Digit(v)) == Some(v)
  {
  }

  lemma ValueDigitRoundTrip(c: char)
    requires IsLowerHexChar(c)
    ensures DigitValue(c).Some? && 0 <= DigitValue(c).value < 16
    ensures Digit(DigitValue(c).value) == c
  {
  }

  /** `fmt.Sprintf("%x", b)`: two lower-case digits per byte, high nibble first. */
  function Encode(b: seq<byte>): (s: string)
    ensures |s| == 2 * |b|
    ensures IsLowerHex(s)
    decreases |b|
  {
    if |b| == 0 then ""
    else [Digit(b[0] / 16), Digit(b[0] % 16)] + Encode(b[1..])
  }

  /** What `hex.DecodeString` hands back: the bytes decoded before the first bad
      digit or the dangling odd digit, and whether the error was nil. */
  datatype Decoded = Decoded(bytes: seq<byte>, ok: bool)

  function DecodeString(s: string): (r: Decoded)
    ensures 2 * |r.bytes| <= |s|
    ensures r.ok <==> |s| % 2 == 0 && forall i :: 0 <= i < |s| ==> IsHexChar(s[i])
    ensures r.ok ==> 2 * |r.bytes| == |s|
    decreases |s|
  {
    if |s| == 0 then Decoded([], true)
    else if |s| == 1 then Decoded([], false)
    else
      match (DigitValue(s[0]), DigitValue(s[1]))
      case (Some(hi), Some(lo)) =>
        DigitValueRange(s[0]);
        DigitValueRange(s[1]);
        var rest := DecodeString(s[2..]);
        assert forall i :: 2 <= i < |s| ==> s[i] == s[2..][i - 2];
        Decoded([hi * 16 + lo] + rest.bytes, rest.ok)
      case _ => Decoded([], false)
  }

  /** `bytes[k]` is the value of the digit pair `s[2k]`, `s[2k+1]`, high digit
      first, for every `k`. */
  predicate PairsDecoded(s: string, bytes: seq<byte>)
  {
    forall k :: 0 <= k < |bytes| ==>
      && 2 * k + 1 < |s| && IsHexChar(s[2 * k]) && IsHexChar(s[2 * k + 1])
      && bytes[k] == DigitValue(s[2 * k]).value * 16 + DigitValue(s[2 * k + 1]).value
  }

  /** Each decoded byte is the value of the digit pair at its position, high
      digit first, in either case. */
  lemma {:induction false} DecodedPairs(s: string)
    ensures PairsDecoded(s, DecodeString(s).bytes)
    decreases |s|
  {
    if |s| >= 2 && DigitValue(s[0]).Some? && DigitValue(s[1]).Some? {
      DecodedPairs(s[2..]);
      DecodeHead(s);
      PairsCons(s, DecodeString(s[2..]).bytes);
    } else {
      assert DecodeString(s).bytes == [];
    }
  }

  /** A valid leading pair in front of decoded pairs gives decoded pairs. */
  lemma PairsCons(s: string, rest: seq<byte>)
    requires |s| >= 2 && IsHexChar(s[0]) && IsHexChar(s[1]) && PairsDecoded(s[2..], rest)
    ensures 0 <= DigitValue(s[0]).value * 16 + DigitValue(s[1]).value < 256
    ensures PairsDecoded(s, [DigitValue(s[0]).value * 16 + DigitValue(s[1]).value] + rest)
  {
    DigitValueRange(s[0]);
    DigitValueRange(s[1]);
    var b := [DigitValue(s[0]).value * 16 + DigitValue(s[1]).value] + rest;
    forall k | 1 <= k < |b|
      ensures 2 * k + 1 < |s| && IsHexChar(s[2 * k]) && IsHexChar(s[2 * k + 1])
      ensures b[k] == DigitValue(s[2 * k]).value * 16 + DigitValue(s[2 * k + 1]).value
    {
      assert b[k] == rest[k - 1];
      PairShift(s, k);
    }
  }

  /** The `k`-th pair of `s` is the `(k-1)`-th pair of `s[2..]`. */
  lemma PairShift(s: string, k: int)
    requires 1 <= k && 2 * (k - 1) + 1 < |s| - 2
    ensures s[2..][2 * (k - 1)] == s[2 * k] && s[2..][2 * (k - 1) + 1] == s[2 * k + 1]
  {
  }

  /** A failed decode stops at the first bad pair: right after the decoded
      prefix there is a lone trailing digit or a pair holding a non-hex
      character. */
  lemma {:induction false} DecodeStopsAtBadPair(s: string)
    ensures var d := DecodeString(s); var n := 2 * |d.bytes|;
      !d.ok ==> n < |s| && (n + 1 == |s| || !IsHexChar(s[n]) || !IsHexChar(s[n + 1]))
    decreases |s|
  {
    var d := DecodeString(s);
    if |s| >= 2 && DigitValue(s[0]).Some? && DigitValue(s[1]).Some? {
      var t := s[2..];
      DecodeStopsAtBadPair(t);
      var rest := DecodeString(t);
      assert |d.bytes| == 1 + |rest.bytes|;
      var m := 2 * |rest.bytes|;
      if !d.ok {
        assert m < |t|;
        if m + 1 < |t| {
          assert t[m] == s[m + 2] && t[m + 1] == s[m + 3];
        }
      }
    }
  }

  /** Decoding what `%x` wrote recovers every byte, with no error. */
  lemma {:induction false} DecodeEncode(b: seq<byte>)
    ensures DecodeString(Encode(b)) == Decoded(b, true)
    decreases |b|
  {
    if |b| > 0 {
      var s := Encode(b);
      DigitRoundTrip(b[0] / 16);
      DigitRoundTrip(b[0] % 16);
      assert s[2..] == Encode(b[1..]);
      DecodeEncode(b[1..]);
      assert [b[0]] + b[1..] == b;
    }
  }

  /** Re-encoding the decoding of well-formed lower-case hex gives the text back,
      so `Encode` is onto the even-length lower-case hex strings. */
  lemma {:induction false} EncodeDecode(s: string)
    requires IsLowerHex(s) && |s| % 2 == 0
    ensures Encode(DecodeString(s).bytes) == s
    decreases |s|
  {
    if |s| > 0 {
      var t := s[2..];
      LowerHexTail(s);
      EncodeDecode(t);
      PairRoundTrip(s[0], s[1]);
      var v := DigitValue(s[0]).value * 16 + DigitValue(s[1]).value;
      DecodeHead(s);
      EncodeHead(v, DecodeString(t).bytes);
      assert s == [s[0], s[1]] + t;
    }
  }

  lemma LowerHexTail(s: string)
    requires IsLowerHex(s) && |s| >= 2
    ensures IsLowerHex(s[2..])
  {
    forall i | 0 <= i < |s[2..]| ensures IsLowerHexChar(s[2..][i]) {
      assert s[2..][i] == s[i + 2];
    }
  }

  /** A leading pair of digits decodes to one byte in front of the rest. */
  lemma DecodeHead(s: string)
    requires |s| >= 2 && IsHexChar(s[0]) && IsHexChar(s[1])
    ensures DecodeString(s).bytes == [DigitValue(s[0]).value * 16 + DigitValue(s[1]).value] + DecodeString(s[2..]).bytes
  {
  }

  lemma EncodeHead(v: byte, rest: seq<byte>)
    ensures Encode([v] + rest) == [Digit(v / 16), Digit(v % 16)] + Encode(rest)
  {
    assert ([v] + rest)[1..] == rest;
  }

  /** Two lower-case digits read as a byte and written back give the digits. */
  lemma PairRoundTrip(c0: char, c1: char)
    requires IsLowerHexChar(c0) && IsLowerHexChar(c1)
    ensures var v := DigitValue(c0).value * 16 + DigitValue(c1).value;
      0 <= v < 256 && Digit(v / 16) == c0 && Digit(v % 16) == c1
  {
    ValueDigitRoundTrip(c0);
    ValueDigitRoundTrip(c1);
    var hi, lo := DigitValue(c0).value, DigitValue(c1).value;
    assert (hi * 16 + lo) / 16 == hi && (hi * 16 + lo) % 16 == lo;
  }

  /** Distinct byte strings have distinct `%x` renderings. */
  lemma EncodeInjective(a: seq<byte>, b: seq<byte>)
    requires Encode(a) == Encode(b)
    ensures a == b
  {
    DecodeEncode(a);
    DecodeEncode(b);
  }
}
