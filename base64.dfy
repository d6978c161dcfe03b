/**
 * The base64 transformer: Go's `base64.StdEncoding`, the padded standard
 * alphabet of section 4 of RFC 4648.
 *
 * `Encode` and `Decode` are the specification; `EncodeInto` and `DecodeInto`
 * fill a caller-allocated buffer the way the library does, and `Transform` /
 * `ReverseTransform` are the transformer's two directions.
 */
module Base64 {
  import opened Streams

  const Pad: bv8 := 61        // '='
  const Invalid: bv8 := 0xFF  // the decode table's mark for a byte outside the alphabet
  const CR: bv8 := 13
  const LF: bv8 := 10

  /** Length of the padded encoding of n bytes: 4 * ceil(n / 3). */
  function EncodedLen(n: nat): (l: nat)
    ensures l % 4 == 0 && n <= l / 4 * 3 < n + 3
  {
    (n + 2) / 3 * 4
  }

  /** Upper bound on the bytes decoded from n input bytes. */
  function DecodedLen(n: nat): (d: nat)
    ensures d % 3 == 0 && d / 3 * 4 <= n < d / 3 * 4 + 4
  {
    n / 4 * 3
  }

  /** The encoding table of RFC 4648 Table 1: A-Z, a-z, 0-9, '+', '/'. */
  function Symbol(v: bv8): (c: bv8)
    requires v < 64
    ensures InAlphabet(c)
  {
    if v < 26 then v + 65        // 'A'..'Z'
    else if v < 52 then v + 71   // 'a'..'z'
    else if v < 62 then v - 4    // '0'..'9'
    else if v == 62 then 43      // '+'
    else 47                      // '/'
  }

  /** The decode table: the 6-bit value of an alphabet byte, Invalid for every other byte. */
  function Value(c: bv8): (v: bv8)
    ensures v == Invalid || v < 64
  {
    if 65 <= c <= 90 then c - 65
    else if 97 <= c <= 122 then c - 71
    else if 48 <= c <= 57 then c + 4
    else if c == 43 then 62
    else if c == 47 then 63
    else Invalid
  }

  predicate InAlphabet(c: bv8) {
    Value(c) != Invalid
  }

  /** The two tables are inverse, and no symbol is the pad byte or a line break. */
  lemma SymbolValue(v: bv8)
    requires v < 64
    ensures Value(Symbol(v)) == v
    ensures Symbol(v) != Pad && Symbol(v) != CR && Symbol(v) != LF
  {
  }

  lemma ValueSymbol(c: bv8)
    requires InAlphabet(c)
    ensures Symbol(Value(c)) == c
  {
  }

  // ---------------------------------------------------------------- encoding

  /** Three bytes become four symbols, six bits each, most significant first. */
  function EncodeGroup(b0: bv8, b1: bv8, b2: bv8): seq<bv8> {
    [Symbol(b0 >> 2), Symbol(((b0 & 3) << 4) | (b1 >> 4)), Symbol(((b1 & 15) << 2) | (b2 >> 6)), Symbol(b2 & 63)]
  }

  function EncodeTail1(b0: bv8): seq<bv8> {
    [Symbol(b0 >> 2), Symbol((b0 & 3) << 4), Pad, Pad]
  }

  function EncodeTail2(b0: bv8, b1: bv8): seq<bv8> {
    [Symbol(b0 >> 2), Symbol(((b0 & 3) << 4) | (b1 >> 4)), Symbol((b1 & 15) << 2), Pad]
  }

  /** The padded encoding: whole groups first, then a padded final group for one or two leftover bytes. */
  function Encode(s: Bytes): (e: Bytes)
    ensures |e| == EncodedLen(|s|)
    decreases |s|
  {
    if |s| == 0 then []
    else if |s| == 1 then EncodeTail1(s[0])
    else if |s| == 2 then EncodeTail2(s[0], s[1])
    else EncodeGroup(s[0], s[1], s[2]) + Encode(s[3..])
  }

  /** Every output byte is an alphabet symbol or '=', and '=' appears only in the last two positions. */
  lemma {:induction false} EncodeAlphabet(s: Bytes)
    ensures forall i :: 0 <= i < |Encode(s)| ==> InAlphabet(Encode(s)[i]) || Encode(s)[i] == Pad
    ensures forall i :: 0 <= i < |Encode(s)| - 2 ==> InAlphabet(Encode(s)[i])
    decreases |s|
  {
    var e := Encode(s);
    if |s| == 0 {
    } else if |s| <= 2 {
      SymbolValue(s[0] >> 2);
      SymbolValue((s[0] & 3) << 4);
      if |s| == 2 {
        SymbolValue(((s[0] & 3) << 4) | (s[1] >> 4));
        SymbolValue((s[1] & 15) << 2);
      }
    } else {
      var g := EncodeGroup(s[0], s[1], s[2]);
      SymbolValue(s[0] >> 2);
      SymbolValue(((s[0] & 3) << 4) | (s[1] >> 4));
      SymbolValue(((s[1] & 15) << 2) | (s[2] >> 6));
      SymbolValue(s[2] & 63);
      EncodeAlphabet(s[3..]);
      var rest := Encode(s[3..]);
      assert e == g + rest;
      forall i | 0 <= i < |e|
        ensures InAlphabet(e[i]) || e[i] == Pad
        ensures i < |e| - 2 ==> InAlphabet(e[i])
      {
        if i >= 4 {
          assert e[i] == rest[i - 4];
        }
      }
    }
  }

  // ---------------------------------------------------------------- decoding

  /** The decoder skips carriage returns and line feeds wherever they occur. */
  function Strip(s: Bytes): (t: Bytes)
    ensures |t| <= |s|
    ensures forall i :: 0 <= i < |t| ==> t[i] != CR && t[i] != LF
    decreases |s|
  {
    if |s| == 0 then []
    else if s[0] == CR || s[0] == LF then Strip(s[1..])
    else [s[0]] + Strip(s[1..])
  }

  /** Four 6-bit values become three bytes; a value's bits beyond the output are dropped. */
  function DecodeGroup(v0: bv8, v1: bv8, v2: bv8, v3: bv8): seq<bv8> {
    [(v0 << 2) | (v1 >> 4), (v1 << 4) | (v2 >> 2), (v2 << 6) | v3]
  }

  /** How many symbols the last quantum carries: 4, or 3 before "=", or 2 before "=="; 0 when it is malformed. */
  function QuantumLength(c0: bv8, c1: bv8, c2: bv8, c3: bv8): (dlen: nat)
    ensures dlen == 0 || 2 <= dlen <= 4
  {
    if !InAlphabet(c0) || !InAlphabet(c1) then 0
    else if c2 == Pad then (if c3 == Pad then 2 else 0)
    else if !InAlphabet(c2) then 0
    else if c3 == Pad then 3
    else if !InAlphabet(c3) then 0
    else 4
  }

  /** The last quantum yields one byte fewer than it has symbols; missing symbols count as zero bits. */
  function DecodeFinal(c0: bv8, c1: bv8, c2: bv8, c3: bv8): (r: Option<Bytes>)
    ensures r.Some? ==> 1 <= |r.value| <= 3
  {
    var dlen := QuantumLength(c0, c1, c2, c3);
    if dlen == 0 then None
    else
      var v2 := if dlen >= 3 then Value(c2) else 0;
      var v3 := if dlen == 4 then Value(c3) else 0;
      Some(DecodeGroup(Value(c0), Value(c1), v2, v3)[..dlen - 1])
  }

  /** Decoding of input free of line breaks: whole quanta of four symbols, padding only in the last. */
  function DecodeQuanta(t: Bytes): (r: Option<Bytes>)
    ensures r.Some? ==> |r.value| <= |t| / 4 * 3
    decreases |t|
  {
    if |t| == 0 then Some([])
    else if |t| < 4 then None
    else if |t| == 4 then DecodeFinal(t[0], t[1], t[2], t[3])
    else if InAlphabet(t[0]) && InAlphabet(t[1]) && InAlphabet(t[2]) && InAlphabet(t[3]) then
      match DecodeQuanta(t[4..])
      case None => None
      case Some(rest) => Some(DecodeGroup(Value(t[0]), Value(t[1]), Value(t[2]), Value(t[3])) + rest)
    else None
  }

  /** base64.StdEncoding.Decode: None is a CorruptInputError. */
  function Decode(s: Bytes): (r: Option<Bytes>)
    ensures r.Some? ==> |r.value| <= DecodedLen(|s|)
  {
    var t := Strip(s);
    assert |t| / 4 * 3 <= |s| / 4 * 3;
    DecodeQuanta(t)
  }

  function Prepend(p: Bytes, o: Option<Bytes>): Option<Bytes> {
    match o
    case None => None
    case Some(v) => Some(p + v)
  }

  // ---------------------------------------------------------------- properties

  lemma {:induction false} StripKeeps(t: Bytes)
    requires forall i :: 0 <= i < |t| ==> t[i] != CR && t[i] != LF
    ensures Strip(t) == t
    decreases |t|
  {
    if |t| > 0 {
      StripKeeps(t[1..]);
    }
  }

  /** Every byte that is not a line break survives Strip. */
  lemma {:induction false} StripRetains(s: Bytes, c: bv8)
    requires c in s && c != CR && c != LF
    ensures c in Strip(s)
    decreases |s|
  {
    if s[0] != c {
      StripRetains(s[1..], c);
    }
  }

  /** One whole group decodes to the three bytes it encodes. */
  lemma GroupDecodes(b0: bv8, b1: bv8, b2: bv8)
    ensures var g := EncodeGroup(b0, b1, b2);
      InAlphabet(g[0]) && InAlphabet(g[1]) && InAlphabet(g[2]) && InAlphabet(g[3]) &&
      DecodeGroup(Value(g[0]), Value(g[1]), Value(g[2]), Value(g[3])) == [b0, b1, b2] &&
      DecodeFinal(g[0], g[1], g[2], g[3]) == Some([b0, b1, b2])
  {
    SymbolValue(b0 >> 2);
    SymbolValue(((b0 & 3) << 4) | (b1 >> 4));
    SymbolValue(((b1 & 15) << 2) | (b2 >> 6));
    SymbolValue(b2 & 63);
    var g := EncodeGroup(b0, b1, b2);
    assert QuantumLength(g[0], g[1], g[2], g[3]) == 4;
    assert DecodeGroup(Value(g[0]), Value(g[1]), Value(g[2]), Value(g[3]))[..3] == [b0, b1, b2];
  }

  lemma Tail1Decodes(b0: bv8)
    ensures var g := EncodeTail1(b0); DecodeFinal(g[0], g[1], g[2], g[3]) == Some([b0])
  {
    var g := EncodeTail1(b0);
    SymbolValue(b0 >> 2);
    SymbolValue((b0 & 3) << 4);
    assert QuantumLength(g[0], g[1], g[2], g[3]) == 2;
    assert DecodeGroup(Value(g[0]), Value(g[1]), 0, 0)[..1] == [b0];
  }

  /** The bit arithmetic behind Tail2Decodes. */
  lemma Tail2Bits(b0: bv8, b1: bv8)
    ensures DecodeGroup(b0 >> 2, ((b0 & 3) << 4) | (b1 >> 4), (b1 & 15) << 2, 0)[..2] == [b0, b1]
  {
  }

  lemma Tail2Decodes(b0: bv8, b1: bv8)
    ensures var g := EncodeTail2(b0, b1); DecodeFinal(g[0], g[1], g[2], g[3]) == Some([b0, b1])
  {
    var g := EncodeTail2(b0, b1);
    var v0, v1, v2 := b0 >> 2, ((b0 & 3) << 4) | (b1 >> 4), (b1 & 15) << 2;
    SymbolValue(v0);
    SymbolValue(v1);
    SymbolValue(v2);
    assert Value(g[0]) == v0 && Value(g[1]) == v1 && Value(g[2]) == v2;
    assert QuantumLength(g[0], g[1], g[2], g[3]) == 3;
    Tail2Bits(b0, b1);
  }

  /** A whole quantum followed by more input decodes to its group, then the rest. */
  lemma QuantaCons(g: Bytes, rest: Bytes)
    requires |g| == 4 && |rest| > 0
    requires InAlphabet(g[0]) && InAlphabet(g[1]) && InAlphabet(g[2]) && InAlphabet(g[3])
    ensures DecodeQuanta(g + rest) == Prepend(DecodeGroup(Value(g[0]), Value(g[1]), Value(g[2]), Value(g[3])), DecodeQuanta(rest))
  {
    var t := g + rest;
    assert t[0] == g[0] && t[1] == g[1] && t[2] == g[2] && t[3] == g[3];
    assert t[4..] == rest;
  }

  /** An encoded group, alone or followed by more input, decodes to its three bytes first. */
  lemma GroupThenRest(b0: bv8, b1: bv8, b2: bv8, rest: Bytes)
    ensures |rest| == 0 ==> DecodeQuanta(EncodeGroup(b0, b1, b2) + rest) == Some([b0, b1, b2])
    ensures |rest| > 0 ==> DecodeQuanta(EncodeGroup(b0, b1, b2) + rest) == Prepend([b0, b1, b2], DecodeQuanta(rest))
  {
    var g := EncodeGroup(b0, b1, b2);
    GroupDecodes(b0, b1, b2);
    if |rest| == 0 {
      assert g + rest == g;
    } else {
      QuantaCons(g, rest);
    }
  }

  lemma SplitThree(s: Bytes)
    requires |s| > 3
    ensures s == [s[0], s[1], s[2]] + s[3..]
  {
  }

  lemma {:induction false} DecodeQuantaEncode(s: Bytes)
    ensures DecodeQuanta(Encode(s)) == Some(s)
    decreases |s|
  {
    if |s| == 0 {
    } else if |s| == 1 {
      Tail1Decodes(s[0]);
      assert [s[0]] == s;
    } else if |s| == 2 {
      Tail2Decodes(s[0], s[1]);
      assert [s[0], s[1]] == s;
    } else {
      var rest := Encode(s[3..]);
      assert Encode(s) == EncodeGroup(s[0], s[1], s[2]) + rest;
      GroupThenRest(s[0], s[1], s[2], rest);
      if |s| == 3 {
        assert s == [s[0], s[1], s[2]];
      } else {
        DecodeQuantaEncode(s[3..]);
        SplitThree(s);
      }
    }
  }

  /** The empty input encodes to nothing and decodes to nothing. */
  lemma EmptyInput()
    ensures Encode([]) == []
    ensures Decode([]) == Some([])
  {
  }

  /** Round trip: decoding an encoding gives back exactly the original bytes. */
  lemma RoundTrip(s: Bytes)
    ensures Decode(Encode(s)) == Some(s)
  {
    EncodeAlphabet(s);
    var e := Encode(s);
    forall i | 0 <= i < |e|
      ensures e[i] != CR && e[i] != LF
    {
      if e[i] != Pad {
        ValueSymbol(e[i]);
        SymbolValue(Value(e[i]));
      }
    }
    StripKeeps(e);
    DecodeQuantaEncode(s);
  }

  /** A byte that is neither a symbol nor '=' makes quantum decoding fail. */
  lemma {:induction false} QuantaRejectForeign(t: Bytes, c: bv8)
    requires c in t && !InAlphabet(c) && c != Pad
    ensures DecodeQuanta(t) == None
    decreases |t|
  {
    if |t| > 4 && InAlphabet(t[0]) && InAlphabet(t[1]) && InAlphabet(t[2]) && InAlphabet(t[3]) {
      assert t == t[..4] + t[4..];
      assert c in t[4..];
      QuantaRejectForeign(t[4..], c);
    }
  }

  /** Malformed input, a byte outside the alphabet: decoding fails. */
  lemma DecodeRejectsForeign(s: Bytes, i: nat)
    requires i < |s| && !InAlphabet(s[i]) && s[i] != Pad && s[i] != CR && s[i] != LF
    ensures Decode(s) == None
  {
    StripRetains(s, s[i]);
    QuantaRejectForeign(Strip(s), s[i]);
  }

  lemma {:induction false} QuantaRejectPartial(t: Bytes)
    requires |t| % 4 != 0
    ensures DecodeQuanta(t) == None
    decreases |t|
  {
    if |t| > 4 {
      QuantaRejectPartial(t[4..]);
    }
  }

  /** Malformed input, a missing or incomplete padding: outside line breaks, the length must be a multiple of 4. */
  lemma DecodeRejectsPartialQuantum(s: Bytes)
    requires |Strip(s)| % 4 != 0
    ensures Decode(s) == None
  {
    QuantaRejectPartial(Strip(s));
  }

  /** The shape the decoder accepts, once line breaks are gone: whole quanta of four; every byte
      before the last two is an alphabet symbol; each of the last two is a symbol or '=', and a '='
      in the second-to-last place is followed by another. */
  predicate WellFormed(t: Bytes) {
    && |t| % 4 == 0
    && (forall i :: 0 <= i < |t| - 2 ==> InAlphabet(t[i]))
    && (|t| > 0 ==>
          && (InAlphabet(t[|t| - 2]) || t[|t| - 2] == Pad)
          && (InAlphabet(t[|t| - 1]) || t[|t| - 1] == Pad)
          && (t[|t| - 2] == Pad ==> t[|t| - 1] == Pad))
  }

  /** A longer input is well formed exactly when its first quantum is four symbols and the rest is well formed. */
  lemma WellFormedCons(t: Bytes)
    requires |t| > 4
    ensures WellFormed(t) <==>
              InAlphabet(t[0]) && InAlphabet(t[1]) && InAlphabet(t[2]) && InAlphabet(t[3]) && WellFormed(t[4..])
  {
    var r := t[4..];
    assert forall j :: 0 <= j < |r| ==> r[j] == t[j + 4];
    if WellFormed(t) {
      assert forall j :: 0 <= j < |r| - 2 ==> InAlphabet(r[j]) by {
        forall j | 0 <= j < |r| - 2
          ensures InAlphabet(r[j])
        {
          assert r[j] == t[j + 4];
        }
      }
    }
    if InAlphabet(t[0]) && InAlphabet(t[1]) && InAlphabet(t[2]) && InAlphabet(t[3]) && WellFormed(r) {
      forall i | 0 <= i < |t| - 2
        ensures InAlphabet(t[i])
      {
        if i >= 4 {
          assert t[i] == r[i - 4];
        }
      }
    }
  }

  /** The quantum decoder succeeds exactly on well-formed input. */
  lemma {:induction false} QuantaWellFormed(t: Bytes)
    ensures DecodeQuanta(t).Some? <==> WellFormed(t)
    decreases |t|
  {
    if |t| % 4 != 0 {
      QuantaRejectPartial(t);
    } else if |t| > 4 {
      WellFormedCons(t);
      QuantaWellFormed(t[4..]);
    }
  }

  /** base64 decoding succeeds exactly when the input without its line breaks is well formed: whole
      quanta, no foreign byte, and padding only at the very end, as "=" or "==". */
  lemma DecodeWellFormed(s: Bytes)
    ensures Decode(s).Some? <==> WellFormed(Strip(s))
  {
    QuantaWellFormed(Strip(s));
  }

  /** Malformed input, a misplaced '=': one before the last two places ("=QQQ", "QQ==QUJD"), or a
      second-to-last '=' followed by something else ("QQ=A"), makes decoding fail. */
  lemma DecodeRejectsMisplacedPad(s: Bytes)
    requires var t := Strip(s);
             (exists i :: 0 <= i < |t| - 2 && t[i] == Pad) || (|t| >= 2 && t[|t| - 2] == Pad && t[|t| - 1] != Pad)
    ensures Decode(s) == None
  {
    DecodeWellFormed(s);
  }

  // ---------------------------------------------------------------- buffers

  lemma EncodedLenStep(n: nat)
    requires n >= 3
    ensures EncodedLen(n) == 4 + EncodedLen(n - 3)
  {
  }

  lemma {:induction false} EncodeStep(s: Bytes, i: nat)
    requires i + 3 <= |s|
    ensures Encode(s[i..]) == EncodeGroup(s[i], s[i + 1], s[i + 2]) + Encode(s[i + 3..])
  {
    assert s[i..][3..] == s[i + 3..];
  }

  lemma EncodeAdvance(src: Bytes, i: nat, before: Bytes)
    requires i + 3 <= |src|
    requires before + Encode(src[i..]) == Encode(src)
    ensures (before + EncodeGroup(src[i], src[i + 1], src[i + 2])) + Encode(src[i + 3..]) == Encode(src)
  {
    EncodeStep(src, i);
    var group := EncodeGroup(src[i], src[i + 1], src[i + 2]);
    assert (before + group) + Encode(src[i + 3..]) == before + (group + Encode(src[i + 3..]));
  }

  /** Writes four bytes at dst[j..j+4] and leaves the rest of dst alone. */
  method Put4(dst: array<bv8>, j: nat, q: seq<bv8>)
    requires |q| == 4 && j + 4 <= dst.Length
    modifies dst
    ensures dst[..j + 4] == old(dst[..j]) + q
    ensures forall k :: j + 4 <= k < dst.Length ==> dst[k] == old(dst[k])
  {
    dst[j] := q[0];
    dst[j + 1] := q[1];
    dst[j + 2] := q[2];
    dst[j + 3] := q[3];
  }

  /** The main loop of the encoder: whole groups of three bytes, four symbols each. */
  method EncodeGroups(dst: array<bv8>, src: Bytes) returns (i: nat, j: nat)
    requires dst.Length >= EncodedLen(|src|)
    modifies dst
    ensures i <= |src| < i + 3
    ensures j + EncodedLen(|src| - i) == EncodedLen(|src|)
    ensures dst[..j] + Encode(src[i..]) == Encode(src)
    ensures forall k :: EncodedLen(|src|) <= k < dst.Length ==> dst[k] == old(dst[k])
  {
    i, j := 0, 0;
    while |src| - i >= 3
      invariant 0 <= i <= |src|
      invariant j + EncodedLen(|src| - i) == EncodedLen(|src|)
      invariant dst[..j] + Encode(src[i..]) == Encode(src)
      invariant forall k :: EncodedLen(|src|) <= k < dst.Length ==> dst[k] == old(dst[k])
    {
      EncodedLenStep(|src| - i);
      EncodeAdvance(src, i, dst[..j]);
      Put4(dst, j, EncodeGroup(src[i], src[i + 1], src[i + 2]));
      i, j := i + 3, j + 4;
    }
  }

  /** base64.StdEncoding.Encode: writes EncodedLen(|src|) bytes at the front of dst. */
  method EncodeInto(dst: array<bv8>, src: Bytes)
    requires dst.Length >= EncodedLen(|src|)
    modifies dst
    ensures dst[..EncodedLen(|src|)] == Encode(src)
    ensures forall k :: EncodedLen(|src|) <= k < dst.Length ==> dst[k] == old(dst[k])
  {
    var i, j := EncodeGroups(dst, src);
    if |src| - i == 1 {
      Put4(dst, j, EncodeTail1(src[i]));
      assert Encode(src[i..]) == EncodeTail1(src[i]);
    } else if |src| - i == 2 {
      Put4(dst, j, EncodeTail2(src[i], src[i + 1]));
      assert Encode(src[i..]) == EncodeTail2(src[i], src[i + 1]);
    } else {
      assert Encode(src[i..]) == [];
    }
  }

  /** Writes `bytes` at dst[n..], one at a time. */
  method WriteBytes(dst: array<bv8>, n: nat, bytes: seq<bv8>)
    requires n + |bytes| <= dst.Length
    modifies dst
    ensures dst[..n + |bytes|] == old(dst[..n]) + bytes
  {
    ghost var prefix := dst[..n];
    var k := 0;
    while k < |bytes|
      invariant 0 <= k <= |bytes|
      invariant dst[..n + k] == prefix + bytes[..k]
    {
      dst[n + k] := bytes[k];
      assert bytes[..k + 1] == bytes[..k] + [bytes[k]];
      k := k + 1;
    }
    assert bytes[..k] == bytes;
  }

  /** Decodes the last quantum into dst[n..]; m is the number of bytes it yields. */
  method DecodeLast(dst: array<bv8>, n: nat, c0: bv8, c1: bv8, c2: bv8, c3: bv8) returns (m: nat, ok: bool)
    requires n + 3 <= dst.Length
    modifies dst
    ensures ok <==> DecodeFinal(c0, c1, c2, c3).Some?
    ensures ok ==> m == |DecodeFinal(c0, c1, c2, c3).value| && dst[..n + m] == old(dst[..n]) + DecodeFinal(c0, c1, c2, c3).value
  {
    var last := DecodeFinal(c0, c1, c2, c3);
    if last.None? {
      return 0, false;
    }
    WriteBytes(dst, n, last.value);
    return |last.value|, true;
  }

  /** Writes the three bytes of a whole quantum at dst[n..n+3]. */
  method DecodeWhole(dst: array<bv8>, n: nat, v0: bv8, v1: bv8, v2: bv8, v3: bv8)
    requires n + 3 <= dst.Length
    modifies dst
    ensures dst[..n + 3] == old(dst[..n]) + DecodeGroup(v0, v1, v2, v3)
  {
    dst[n] := (v0 << 2) | (v1 >> 4);
    dst[n + 1] := (v1 << 4) | (v2 >> 2);
    dst[n + 2] := (v2 << 6) | v3;
  }

  lemma DecodedLenBound(t: nat, s: nat, q: nat)
    requires t <= s && 4 * q + 4 <= t
    ensures 3 * q + 3 <= DecodedLen(s)
  {
  }

  /** One step of quantum decoding, read off the definition at offset i. */
  lemma QuantaAt(t: Bytes, i: nat)
    requires i < |t|
    ensures |t| - i < 4 ==> DecodeQuanta(t[i..]) == None
    ensures |t| - i == 4 ==> DecodeQuanta(t[i..]) == DecodeFinal(t[i], t[i + 1], t[i + 2], t[i + 3])
    ensures |t| - i > 4 ==>
      DecodeQuanta(t[i..]) ==
        if InAlphabet(t[i]) && InAlphabet(t[i + 1]) && InAlphabet(t[i + 2]) && InAlphabet(t[i + 3])
        then Prepend(DecodeGroup(Value(t[i]), Value(t[i + 1]), Value(t[i + 2]), Value(t[i + 3])), DecodeQuanta(t[i + 4..]))
        else None
  {
    if |t| - i > 4 {
      assert t[i..][4..] == t[i + 4..];
    }
  }

  lemma PrependNothing(o: Option<Bytes>)
    ensures Prepend([], o) == o
  {
    if o.Some? {
      assert [] + o.value == o.value;
    }
  }

  lemma PrependPrepend(a: Bytes, b: Bytes, o: Option<Bytes>)
    ensures Prepend(a + b, o) == Prepend(a, Prepend(b, o))
  {
    if o.Some? {
      assert (a + b) + o.value == a + (b + o.value);
    }
  }

  /** base64.StdEncoding.Decode: writes the decoded bytes at the front of dst and returns their count,
      or reports corrupt input. */
  method DecodeInto(dst: array<bv8>, src: Bytes) returns (n: nat, ok: bool)
    requires dst.Length >= DecodedLen(|src|)
    modifies dst
    ensures ok <==> Decode(src).Some?
    ensures ok ==> n <= DecodedLen(|src|) <= dst.Length && dst[..n] == Decode(src).value
  {
    var t := Strip(src);
    var i := 0;
    ghost var q := 0;
    n := 0;
    assert t[i..] == t;
    PrependNothing(DecodeQuanta(t));
    assert dst[..n] == [];
    while i < |t|
      invariant 0 <= i <= |t| && i == 4 * q && n == 3 * q
      invariant n <= DecodedLen(|src|)
      invariant Decode(src) == Prepend(dst[..n], DecodeQuanta(t[i..]))
    {
      QuantaAt(t, i);
      if |t| - i < 4 {
        return 0, false;
      }
      DecodedLenBound(|t|, |src|, q);
      ghost var before := dst[..n];
      var c0, c1, c2, c3 := t[i], t[i + 1], t[i + 2], t[i + 3];
      if |t| - i == 4 {
        var m;
        m, ok := DecodeLast(dst, n, c0, c1, c2, c3);
        return n + m, ok;
      }
      var v0, v1, v2, v3 := Value(c0), Value(c1), Value(c2), Value(c3);
      if v0 == Invalid || v1 == Invalid || v2 == Invalid || v3 == Invalid {
        return 0, false;
      }
      DecodeWhole(dst, n, v0, v1, v2, v3);
      PrependPrepend(before, DecodeGroup(v0, v1, v2, v3), DecodeQuanta(t[i + 4..]));
      i, n, q := i + 4, n + 3, q + 1;
    }
    return n, true;
  }

  // ---------------------------------------------------------------- the transformer

  /** Forward: read all input, allocate EncodedLen bytes, encode into them. */
  method Transform(input: Reader) returns (out: Result<Reader>)
    ensures out.Ok? <==> input.fault == None
    ensures out.Err? ==> out.error == input.fault.value
    ensures out.Ok? ==> out.value == FromBytes(Encode(input.data))
    ensures out.Ok? ==> |out.value.data| == EncodedLen(|input.data|)
  {
    var read := ReadAll(input);
    if read.Err? {
      return Err(read.error);
    }
    var plaintext := read.value;
    var encoded := new bv8[EncodedLen(|plaintext|)];
    EncodeInto(encoded, plaintext);
    assert encoded[..] == encoded[..EncodedLen(|plaintext|)];
    return Ok(FromBytes(encoded[..]));
  }

  /** Reverse: read all input, allocate DecodedLen bytes, decode, keep the n bytes actually decoded. */
  method ReverseTransform(input: Reader) returns (out: Result<Reader>)
    ensures input.fault.Some? ==> out == Err(input.fault.value)
    ensures input.fault == None ==> (out.Ok? <==> Decode(input.data).Some?)
    ensures input.fault == None && out.Ok? ==> out.value == FromBytes(Decode(input.data).value)
    ensures input.fault == None && out.Err? ==> out.error == CorruptBase64
  {
    var read := ReadAll(input);
    if read.Err? {
      return Err(read.error);
    }
    var encoded := read.value;
    var decoded := new bv8[DecodedLen(|encoded|)];
    var n, ok := DecodeInto(decoded, encoded);
    if !ok {
      return Err(CorruptBase64);
    }
    return Ok(FromBytes(decoded[..n]));
  }
}
