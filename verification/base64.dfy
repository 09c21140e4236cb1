/** Standard padded base64 (section 4 of RFC 4648), the text form that
    `base64.StdEncoding.EncodeToString` writes. The decoder is strict: it refuses
    characters outside the alphabet, padding anywhere but at the end, and non-zero
    bits hidden under the padding, so that it is an exact inverse of the encoder. */
module Base64 {
  import opened Bytes
  import opened Results

  /** A base64 digit value: six bits. */
  type sextet = v: int | 0 <= v < 64

  const Pad: char := '='

  /** The character for a sextet: A-Z, a-z, 0-9, '+', '/' (Table 1 of RFC 4648). */
  function Char(v: sextet): (c: char)
    ensures c != Pad
  {
    if v < 26 then ('A' as int + v) as char
    else if v < 52 then ('a' as int + (v - 26)) as char
    else if v < 62 then ('0' as int + (v - 52)) as char
    else if v == 62 then '+'
    else '/'
  }

  function Value(c: char): Option<sextet>
  {
    if 'A' <= c <= 'Z' then Some(c as int - 'A' as int)
    else if 'a' <= c <= 'z' then Some(c as int - 'a' as int + 26)
    else if '0' <= c <= '9' then Some(c as int - '0' as int + 52)
    else if c == '+' then Some(62)
    else if c == '/' then Some(63)
    else None
  }

  lemma CharValue(v: sextet)
    ensures Value(Char(v)) == Some(v)
  {
  }

  lemma ValueChar(c: char)
    requires Value(c).Some?
    ensures Char(Value(c).value) == c
  {
  }

  /** Three bytes become four characters. */
  function EncodeGroup(b0: byte, b1: byte, b2: byte): string
  {
    [Char(b0 / 4), Char((b0 % 4) * 16 + b1 / 16), Char((b1 % 16) * 4 + b2 / 64), Char(b2 % 64)]
  }

  /** One trailing byte: two characters and two pad characters. */
  function EncodeOne(b0: byte): string
  {
    [Char(b0 / 4), Char((b0 % 4) * 16), Pad, Pad]
  }

  /** Two trailing bytes: three characters and one pad character. */
  function EncodeTwo(b0: byte, b1: byte): string
  {
    [Char(b0 / 4), Char((b0 % 4) * 16 + b1 / 16), Char((b1 % 16) * 4), Pad]
  }

  /** The last zero, one or two bytes. */
  function EncodeTail(b: seq<byte>): (s: string)
    requires |b| < 3
    ensures |s| == if |b| == 0 then 0 else 4
  {
    if |b| == 0 then ""
    else if |b| == 1 then EncodeOne(b[0])
    else EncodeTwo(b[0], b[1])
  }

  function Encode(b: seq<byte>): (s: string)
    ensures |s| == 4 * ((|b| + 2) / 3)
    decreases |b|
  {
    if |b| < 3 then EncodeTail(b)
    else EncodeGroup(b[0], b[1], b[2]) + Encode(b[3..])
  }

  /** The three bytes packed into four sextets, high bits first. */
  function Byte0(c0: sextet, c1: sextet): byte { (c0 as int) * 4 + (c1 as int) / 16 }
  function Byte1(c1: sextet, c2: sextet): byte { ((c1 as int) % 16) * 16 + (c2 as int) / 4 }
  function Byte2(c2: sextet, c3: sextet): byte { ((c2 as int) % 4) * 64 + c3 as int }

  /** Splitting 24 bits into sextets and packing them back are inverse. */
  lemma BitsRoundTrip(b0: byte, b1: byte, b2: byte)
    ensures Byte0(b0 / 4, (b0 % 4) * 16 + b1 / 16) == b0
    ensures Byte1((b0 % 4) * 16 + b1 / 16, (b1 % 16) * 4 + b2 / 64) == b1
    ensures Byte2((b1 % 16) * 4 + b2 / 64, b2 % 64) == b2
  {
  }

  lemma SextetsRoundTrip(c0: sextet, c1: sextet, c2: sextet, c3: sextet)
    ensures var b0, b1, b2 := Byte0(c0, c1), Byte1(c1, c2), Byte2(c2, c3);
      b0 / 4 == c0 && (b0 % 4) * 16 + b1 / 16 == c1 && (b1 % 16) * 4 + b2 / 64 == c2 && b2 % 64 == c3
  {
  }

  /** A quadruple of alphabet characters, no padding. */
  function DecodeGroup(q: string): (r: Option<seq<byte>>)
    requires |q| == 4
    ensures r.Some? ==> |r.value| == 3
  {
    match (Value(q[0]), Value(q[1]), Value(q[2]), Value(q[3]))
    case (Some(c0), Some(c1), Some(c2), Some(c3)) =>
      Some([Byte0(c0, c1), Byte1(c1, c2), Byte2(c2, c3)])
    case _ => None
  }

  /** The last quadruple, which may carry one or two pad characters. */
  function DecodeLast(q: string): (r: Option<seq<byte>>)
    requires |q| == 4
    ensures r.Some? ==> 1 <= |r.value| <= 3
  {
    if q[2] == Pad && q[3] == Pad then
      match (Value(q[0]), Value(q[1]))
      case (Some(c0), Some(c1)) =>
        if c1 % 16 == 0 then Some([Byte0(c0, c1)]) else None
      case _ => None
    else if q[3] == Pad then
      match (Value(q[0]), Value(q[1]), Value(q[2]))
      case (Some(c0), Some(c1), Some(c2)) =>
        if c2 % 4 == 0 then Some([Byte0(c0, c1), Byte1(c1, c2)]) else None
      case _ => None
    else DecodeGroup(q)
  }

  function Decode(s: string): (r: Option<seq<byte>>)
    ensures r.Some? ==> |s| == 4 * ((|r.value| + 2) / 3)
    ensures r.Some? ==> (|r.value| == 0 <==> |s| == 0)
    decreases |s|
  {
    if |s| == 0 then Some([])
    else if |s| < 4 then None
    else if |s| == 4 then DecodeLast(s)
    else Append(DecodeGroup(s[..4]), Decode(s[4..]))
  }

  function Append(h: Option<seq<byte>>, t: Option<seq<byte>>): (r: Option<seq<byte>>)
    ensures r.Some? <==> h.Some? && t.Some?
    ensures r.Some? ==> r.value == h.value + t.value
  {
    if h.Some? && t.Some? then Some(h.value + t.value) else None
  }

  lemma GroupRoundTrip(b0: byte, b1: byte, b2: byte)
    ensures DecodeGroup(EncodeGroup(b0, b1, b2)) == Some([b0, b1, b2])
  {
    BitsRoundTrip(b0, b1, b2);
    CharValue(b0 / 4);
    CharValue((b0 % 4) * 16 + b1 / 16);
    CharValue((b1 % 16) * 4 + b2 / 64);
    CharValue(b2 % 64);
  }

  lemma OneRoundTrip(b0: byte)
    ensures DecodeLast(EncodeOne(b0)) == Some([b0])
  {
    BitsRoundTrip(b0, 0, 0);
    CharValue(b0 / 4);
    CharValue((b0 % 4) * 16);
  }

  lemma TwoRoundTrip(b0: byte, b1: byte)
    ensures DecodeLast(EncodeTwo(b0, b1)) == Some([b0, b1])
  {
    BitsRoundTrip(b0, b1, 0);
    CharValue(b0 / 4);
    CharValue((b0 % 4) * 16 + b1 / 16);
    CharValue((b1 % 16) * 4);
  }

  /** Decoding what the encoder wrote gives the bytes back. */
  lemma {:induction false} DecodeEncode(b: seq<byte>)
    ensures Decode(Encode(b)) == Some(b)
    decreases |b|
  {
    if |b| == 1 {
      OneRoundTrip(b[0]);
      assert b == [b[0]];
    } else if |b| == 2 {
      TwoRoundTrip(b[0], b[1]);
      assert b == [b[0], b[1]];
    } else if |b| == 3 {
      GroupRoundTrip(b[0], b[1], b[2]);
      assert b == [b[0], b[1], b[2]];
    } else if |b| > 3 {
      DecodeEncode(b[3..]);
      LongRoundTrip(b);
    }
  }

  lemma LongRoundTrip(b: seq<byte>)
    requires |b| > 3 && Decode(Encode(b[3..])) == Some(b[3..])
    ensures Decode(Encode(b)) == Some(b)
  {
    var s, t := Encode(b), Encode(b[3..]);
    var h := [b[0], b[1], b[2]];
    GroupRoundTrip(b[0], b[1], b[2]);
    EncodeSplit(b);
    FirstGroup(b);
    DecodeSplit(s, h, b[3..]);
  }

  lemma FirstGroup(b: seq<byte>)
    requires |b| >= 3
    ensures b == [b[0], b[1], b[2]] + b[3..]
  {
  }

  /** Decoding more than four characters decodes the first group, then the rest. */
  lemma DecodeSplit(s: string, h: seq<byte>, t: seq<byte>)
    requires |s| > 4 && DecodeGroup(s[..4]) == Some(h) && Decode(s[4..]) == Some(t)
    ensures Decode(s) == Some(h + t)
  {
  }

  /** Every text the decoder accepts is the encoding of what it decodes to:
      with `DecodeEncode`, the encoder is a bijection onto the accepted texts. */
  lemma {:induction false} EncodeDecode(s: string)
    requires Decode(s).Some?
    ensures Encode(Decode(s).value) == s
    decreases |s|
  {
    if |s| == 4 {
      LastRoundTrip(s);
    } else if |s| > 4 {
      var h, t := DecodeGroup(s[..4]).value, Decode(s[4..]).value;
      EncodeDecode(s[4..]);
      GroupInverse(s[..4]);
      assert (h + t)[..3] == h && (h + t)[3..] == t;
      assert s == s[..4] + s[4..];
    }
  }

  lemma GroupInverse(q: string)
    requires |q| == 4 && DecodeGroup(q).Some?
    ensures var b := DecodeGroup(q).value; EncodeGroup(b[0], b[1], b[2]) == q
  {
    ValueChar(q[0]);
    ValueChar(q[1]);
    ValueChar(q[2]);
    ValueChar(q[3]);
    SextetsRoundTrip(Value(q[0]).value, Value(q[1]).value, Value(q[2]).value, Value(q[3]).value);
  }

  lemma LastRoundTrip(q: string)
    requires |q| == 4 && DecodeLast(q).Some?
    ensures Encode(DecodeLast(q).value) == q
  {
    ValueChar(q[0]);
    ValueChar(q[1]);
    if q[2] == Pad && q[3] == Pad {
      SextetsRoundTrip(Value(q[0]).value, Value(q[1]).value, 0, 0);
    } else if q[3] == Pad {
      ValueChar(q[2]);
      SextetsRoundTrip(Value(q[0]).value, Value(q[1]).value, Value(q[2]).value, 0);
    } else {
      GroupInverse(q);
      var b := DecodeLast(q).value;
      assert Encode(b) == EncodeGroup(b[0], b[1], b[2]);
    }
  }

  /** Encoding more than three bytes writes the first group, then the rest. */
  lemma EncodeSplit(b: seq<byte>)
    requires |b| > 3
    ensures var s, t := Encode(b), Encode(b[3..]);
      && |t| >= 4 && |s| == |t| + 4 && s[4..] == t && s[..4] == EncodeGroup(b[0], b[1], b[2])
      && s[|s| - 1] == t[|t| - 1] && s[|s| - 2] == t[|t| - 2]
  {
  }

  lemma DropGroupLength(b: seq<byte>)
    requires |b| >= 3
    ensures |b[3..]| % 3 == |b| % 3
  {
    var n := |b| - 3;
    assert |b| == n + 3;
  }

  /** A multiple of three bytes needs no padding. */
  lemma {:induction false} NoPadding(b: seq<byte>)
    requires |b| % 3 == 0
    ensures forall i :: 0 <= i < |Encode(b)| ==> Encode(b)[i] != Pad
    decreases |b|
  {
    if |b| == 3 {
      assert Encode(b) == EncodeGroup(b[0], b[1], b[2]);
    } else if |b| > 3 {
      var s, t := Encode(b), Encode(b[3..]);
      EncodeSplit(b);
      DropGroupLength(b);
      NoPadding(b[3..]);
      forall i | 0 <= i < |s| ensures s[i] != Pad {
        if i < 4 {
          assert s[i] == EncodeGroup(b[0], b[1], b[2])[i];
        } else {
          assert s[i] == t[i - 4];
        }
      }
    }
  }

  /** One leftover byte is padded with "==". */
  lemma {:induction false} DoublePadding(b: seq<byte>)
    requires |b| % 3 == 1
    ensures |Encode(b)| >= 4
    ensures var s := Encode(b); s[|s| - 2] == Pad && s[|s| - 1] == Pad
    decreases |b|
  {
    if |b| == 1 {
      assert Encode(b) == EncodeOne(b[0]);
    } else {
      assert |b| > 3;
      EncodeSplit(b);
      DropGroupLength(b);
      DoublePadding(b[3..]);
    }
  }

  /** Two leftover bytes are padded with a single "=". */
  lemma {:induction false} SinglePadding(b: seq<byte>)
    requires |b| % 3 == 2
    ensures |Encode(b)| >= 4
    ensures var s := Encode(b); s[|s| - 1] == Pad && s[|s| - 2] != Pad
    decreases |b|
  {
    if |b| == 2 {
      assert Encode(b) == EncodeTwo(b[0], b[1]);
    } else {
      assert |b| > 3;
      EncodeSplit(b);
      DropGroupLength(b);
      SinglePadding(b[3..]);
    }
  }
}
