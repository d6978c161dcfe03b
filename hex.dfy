/**
 * Lower-case hexadecimal encoding of bytes, as encoding/hex.EncodeToString
 * writes it: two digits per byte, high nibble first. `DecodeLower` is its inverse,
 * used to show that distinct byte strings never share an encoding.
 */
module Hex {
  import opened Streams

  predicate IsHexDigit(c: char) {
    '0' <= c <= '9' || 'a' <= c <= 'f'
  }

  function Digit(v: bv8): (c: char)
    requires v < 16
    ensures IsHexDigit(c)
  {
    if v < 10 then ('0' as int + v as int) as char else ('a' as int + v as int - 10) as char
  }

  /** The value of a lower-case hex digit; None for any other character. */
  function DigitValue(c: char): (v: Option<bv8>)
    ensures v.Some? <==> IsHexDigit(c)
    ensures v.Some? ==> v.value < 16
  {
    if '0' <= c <= '9' then Some((c as int - '0' as int) as bv8)
    else if 'a' <= c <= 'f' then Some((c as int - 'a' as int + 10) as bv8)
    else None
  }

  lemma DigitRoundTrip(v: bv8)
    requires v < 16
    ensures DigitValue(Digit(v)) == Some(v)
  {
  }

  lemma NibblesRebuild(b: bv8)
    ensures b >> 4 < 16 && b & 15 < 16
    ensures ((b >> 4) << 4) | (b & 15) == b
  {
  }

  /** Two digits per byte, high nibble first. */
  function EncodeToString(b: Bytes): (s: string)
    ensures |s| == 2 * |b|
    ensures forall i :: 0 <= i < |s| ==> IsHexDigit(s[i])
  {
    if |b| == 0 then ""
    else
      NibblesRebuild(b[0]);
      [Digit(b[0] >> 4), Digit(b[0] & 15)] + EncodeToString(b[1..])
  }

  /** The inverse of EncodeToString, for even-length lower-case input. */
  function DecodeLower(s: string): (r: Option<Bytes>)
    ensures r.Some? ==> 2 * |r.value| == |s|
  {
    if |s| == 0 then Some([])
    else if |s| == 1 then None
    else
      match (DigitValue(s[0]), DigitValue(s[1]), DecodeLower(s[2..]))
      case (Some(hi), Some(lo), Some(rest)) => Some([(hi << 4) | lo] + rest)
      case _ => None
  }

  /** The first two digits of an encoding decode to its first byte. */
  lemma DecodeStep(b: bv8, rest: string)
    ensures DecodeLower([Digit(b >> 4), Digit(b & 15)] + rest) ==
              match DecodeLower(rest)
              case None => None
              case Some(r) => Some([b] + r)
  {
    NibblesRebuild(b);
    DigitRoundTrip(b >> 4);
    DigitRoundTrip(b & 15);
    var s := [Digit(b >> 4), Digit(b & 15)] + rest;
    assert s[0] == Digit(b >> 4) && s[1] == Digit(b & 15);
    assert s[2..] == rest;
  }

  lemma SplitFirst(b: Bytes)
    requires |b| > 0
    ensures b == [b[0]] + b[1..]
  {
  }

  /** Decoding inverts encoding. */
  lemma {:induction false} DecodeEncode(b: Bytes)
    ensures DecodeLower(EncodeToString(b)) == Some(b)
  {
    if |b| > 0 {
      NibblesRebuild(b[0]);
      DecodeStep(b[0], EncodeToString(b[1..]));
      DecodeEncode(b[1..]);
      SplitFirst(b);
    }
  }

  /** Distinct byte strings have distinct encodings. */
  lemma EncodeInjective(a: Bytes, b: Bytes)
    requires EncodeToString(a) == EncodeToString(b)
    ensures a == b
  {
    DecodeEncode(a);
    DecodeEncode(b);
  }
}
