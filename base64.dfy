/**
 * The base 64 encoding of section 4 of RFC 4648 ("Base 64 Encoding"), over byte strings:
 * groups of three bytes become four characters of the 64-character alphabet of Table 1,
 * and a final group of one or two bytes is completed with '=' padding.
 */
module Base64 {
  import opened Basics

  /** '=' */
  const Pad: byte := 61

  /** Table 1 of RFC 4648: the character that encodes a 6-bit value. */
  function Char(v: byte): (c: byte)
    requires v < 64
    ensures c != Pad
  {
    if v < 26 then v + 65        // 'A' .. 'Z'
    else if v < 52 then v + 71   // 'a' .. 'z'
    else if v < 62 then v - 4    // '0' .. '9'
    else if v == 62 then 43      // '+'
    else 47                      // '/'
  }

  /** The inverse of Table 1: the 6-bit value of an alphabet character, None for any other byte. */
  function Value(c: byte): (r: Option<byte>)
    ensures r.Some? ==> r.value < 64 && Char(r.value) == c
    ensures c == Pad ==> r.None?
  {
    if 65 <= c <= 90 then Some(c - 65)
    else if 97 <= c <= 122 then Some(c - 71)
    else if 48 <= c <= 57 then Some(c + 4)
    else if c == 43 then Some(62)
    else if c == 47 then Some(63)
    else None
  }

  /** Every value of Table 1 is read back from its character. */
  lemma ValueOfChar(v: byte)
    requires v < 64
    ensures Value(Char(v)) == Some(v)
  {
  }

  /** Three bytes, 24 bits, as four 6-bit values (the first bits of the group are the first character). */
  function EncodeGroup(b0: byte, b1: byte, b2: byte): (t: Bytes)
    ensures |t| == 4
  {
    [Char(b0 >> 2), Char(((b0 & 3) << 4) | (b1 >> 4)), Char(((b1 & 15) << 2) | (b2 >> 6)), Char(b2 & 63)]
  }

  /** Encoding: full groups first, then the padded final quantum of one or two bytes. */
  function Encode(s: Bytes): (t: Bytes)
    ensures |t| == 4 * ((|s| + 2) / 3)
    decreases |s|
  {
    if |s| == 0 then []
    else if |s| == 1 then [Char(s[0] >> 2), Char((s[0] & 3) << 4), Pad, Pad]
    else if |s| == 2 then [Char(s[0] >> 2), Char(((s[0] & 3) << 4) | (s[1] >> 4)), Char((s[1] & 15) << 2), Pad]
    else EncodeGroup(s[0], s[1], s[2]) + Encode(s[3..])
  }

  /** Four alphabet characters back to three bytes. */
  function DecodeGroup(c0: byte, c1: byte, c2: byte, c3: byte): (r: Option<Bytes>)
    ensures r.Some? ==> |r.value| == 3
  {
    match (Value(c0), Value(c1), Value(c2), Value(c3))
    case (Some(v0), Some(v1), Some(v2), Some(v3)) =>
      Some([(v0 << 2) | (v1 >> 4), ((v1 & 15) << 4) | (v2 >> 2), ((v2 & 3) << 6) | v3])
    case _ => None
  }

  /**
   * The last quantum of an encoding: "xx==" carries one byte, "xxx=" two, "xxxx" three.
   * Like PHP's strict decoder, the bits that padding leaves unused are not required to be zero.
   */
  function DecodeLast(c0: byte, c1: byte, c2: byte, c3: byte): (r: Option<Bytes>)
  {
    if c2 == Pad && c3 == Pad then
      match (Value(c0), Value(c1))
      case (Some(v0), Some(v1)) => Some([(v0 << 2) | (v1 >> 4)])
      case _ => None
    else if c3 == Pad then
      match (Value(c0), Value(c1), Value(c2))
      case (Some(v0), Some(v1), Some(v2)) => Some([(v0 << 2) | (v1 >> 4), ((v1 & 15) << 4) | (v2 >> 2)])
      case _ => None
    else DecodeGroup(c0, c1, c2, c3)
  }

  /**
   * Strict decoding: None unless the input is a whole number of quanta over the alphabet,
   * with padding only at the end.
   */
  function Decode(t: Bytes): (r: Option<Bytes>)
    ensures |t| % 4 != 0 ==> r.None?
    ensures r.Some? ==> |r.value| <= 3 * (|t| / 4)
    decreases |t|
  {
    if |t| == 0 then Some([])
    else if |t| < 4 then None
    else if |t| == 4 then DecodeLast(t[0], t[1], t[2], t[3])
    else
      match (DecodeGroup(t[0], t[1], t[2], t[3]), Decode(t[4..]))
      case (Some(g), Some(rest)) => Some(g + rest)
      case _ => None
  }

  /** One group survives encoding and decoding. */
  lemma GroupRoundTrip(b0: byte, b1: byte, b2: byte)
    ensures DecodeGroup(EncodeGroup(b0, b1, b2)[0], EncodeGroup(b0, b1, b2)[1],
                        EncodeGroup(b0, b1, b2)[2], EncodeGroup(b0, b1, b2)[3]) == Some([b0, b1, b2])
  {
    ValueOfChar(b0 >> 2);
    ValueOfChar(((b0 & 3) << 4) | (b1 >> 4));
    ValueOfChar(((b1 & 15) << 2) | (b2 >> 6));
    ValueOfChar(b2 & 63);
  }

  /** Decoding inverts encoding: the round trip of RFC 4648, section 4. */
  lemma {:induction false} DecodeEncode(s: Bytes)
    ensures Decode(Encode(s)) == Some(s)
    decreases |s|
  {
    if |s| == 1 {
      ValueOfChar(s[0] >> 2);
      ValueOfChar((s[0] & 3) << 4);
      assert s == [s[0]];
    } else if |s| == 2 {
      ValueOfChar(s[0] >> 2);
      ValueOfChar(((s[0] & 3) << 4) | (s[1] >> 4));
      ValueOfChar((s[1] & 15) << 2);
      var t := Encode(s);
      assert t[2] != Pad && t[3] == Pad;
      assert DecodeLast(t[0], t[1], t[2], t[3]) == Some([s[0], s[1]]);
      assert s == [s[0], s[1]];
    } else if |s| >= 3 {
      var g := EncodeGroup(s[0], s[1], s[2]);
      var rest := s[3..];
      var t := Encode(s);
      assert t == g + Encode(rest);
      GroupRoundTrip(s[0], s[1], s[2]);
      assert s == [s[0], s[1], s[2]] + rest;
      if |rest| == 0 {
        assert t == g && s == [s[0], s[1], s[2]];
        assert DecodeLast(g[0], g[1], g[2], g[3]) == DecodeGroup(g[0], g[1], g[2], g[3]);
      } else {
        DecodeEncode(rest);
        assert t[4..] == Encode(rest);
        assert t[0] == g[0] && t[1] == g[1] && t[2] == g[2] && t[3] == g[3];
      }
    }
  }

  /** Encoding is injective, so an encoded string determines the bytes it encodes. */
  lemma EncodeInjective(s1: Bytes, s2: Bytes)
    requires Encode(s1) == Encode(s2)
    ensures s1 == s2
  {
    DecodeEncode(s1);
    DecodeEncode(s2);
  }

  /** Every encoding is a whole number of quanta. */
  lemma EncodedLengthIsQuanta(s: Bytes)
    ensures |Encode(s)| % 4 == 0
    ensures |s| > 0 ==> |Encode(s)| > |s|
  {
  }

  /** A string is canonical when it is the encoding of some byte string. */
  ghost predicate IsCanonical(t: Bytes) {
    exists s :: Encode(s) == t
  }

  /**
   * Strict decoding alone accepts non-canonical text: the unused bits of "YR==" are not zero,
   * so it decodes to "a", whose encoding is "YQ==".
   */
  lemma StrictDecodingAcceptsNonCanonical()
    ensures Decode([89, 82, 61, 61]) == Some([97])
    ensures Encode([97]) == [89, 81, 61, 61]
    ensures !IsCanonical([89, 82, 61, 61])
  {
    var t: Bytes := [89, 82, 61, 61];
    if s :| Encode(s) == t {
      DecodeEncode(s);
      assert false;
    }
  }
}
