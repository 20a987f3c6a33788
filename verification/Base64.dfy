/**
 Bounded canonical base64 (sections 3.5 and 4 of RFC 4648). The underlying
 decoder checks padding and trailing bits but skips carriage returns and line
 feeds wherever they stand; encoding the result again is what rejects them.
 */
module Base64 {
  import opened Prelude

  const PAD: Byte := 61      // '='
  const CR: Byte := 13
  const LF: Byte := 10

  type Sextet = v: int | 0 <= v < 64

  function Symbol(v: Sextet): Byte
  {
    if v < 26 then 65 + v else if v < 52 then 97 + (v - 26) else if v < 62 then 48 + (v - 52) else if v == 62 then 43 else 47
  }

  function Value(c: Byte): (v: Option<Sextet>)
  {
    if 65 <= c <= 90 then Some(c - 65)
    else if 97 <= c <= 122 then Some(c - 97 + 26)
    else if 48 <= c <= 57 then Some(c - 48 + 52)
    else if c == 43 then Some(62)
    else if c == 47 then Some(63)
    else None
  }

  /** The standard alphabet: capital letters, small letters, digits, plus and slash. */
  lemma SymbolsAreStandard(v: Sextet)
    ensures v < 26 ==> Symbol(v) == 'A' as int + v
    ensures 26 <= v < 52 ==> Symbol(v) == 'a' as int + v - 26
    ensures 52 <= v < 62 ==> Symbol(v) == '0' as int + v - 52
    ensures Symbol(62) == '+' as int && Symbol(63) == '/' as int && PAD == '=' as int
  {
  }

  // Three octets are four sextets.

  function First(a: Byte): Sextet { a / 4 }
  function Second(a: Byte, b: Byte): Sextet { a % 4 * 16 + b / 16 }
  function Third(b: Byte, c: Byte): Sextet { b % 16 * 4 + c / 64 }
  function Fourth(c: Byte): Sextet { c % 64 }

  function High(v: Sextet, w: Sextet): Byte { v * 4 + w / 16 }
  function Middle(v: Sextet, w: Sextet): Byte { v % 16 * 16 + w / 4 }
  function Low(v: Sextet, w: Sextet): Byte { v % 4 * 64 + w }

  lemma OctetsSurvive(a: Byte, b: Byte, c: Byte)
    ensures High(First(a), Second(a, b)) == a && Middle(Second(a, b), Third(b, c)) == b && Low(Third(b, c), Fourth(c)) == c
    ensures Second(a, 0) % 16 == 0 && Third(b, 0) % 4 == 0
  {
  }

  lemma SextetsSurvive(v: Sextet, w: Sextet, x: Sextet, y: Sextet)
    ensures First(High(v, w)) == v && Second(High(v, w), Middle(w, x)) == w && Third(Middle(w, x), Low(x, y)) == x
    ensures Fourth(Low(x, y)) == y
    ensures w % 16 == 0 ==> Second(High(v, w), 0) == w
    ensures x % 4 == 0 ==> Third(Middle(w, x), 0) == x
  {
  }

  function Encode(b: Bytes): Bytes
  {
    if b == [] then []
    else if |b| == 1 then [Symbol(First(b[0])), Symbol(Second(b[0], 0)), PAD, PAD]
    else if |b| == 2 then [Symbol(First(b[0])), Symbol(Second(b[0], b[1])), Symbol(Third(b[1], 0)), PAD]
    else [Symbol(First(b[0])), Symbol(Second(b[0], b[1])), Symbol(Third(b[1], b[2])), Symbol(Fourth(b[2]))] + Encode(b[3..])
  }

  /** Three octets and the four sextets they are written as are one number, most significant first. */
  lemma QuantumIsOneNumber(a: Byte, b: Byte, c: Byte)
    ensures a * 65536 + b * 256 + c == First(a) * 262144 + Second(a, b) * 4096 + Third(b, c) * 64 + Fourth(c)
  {
  }

  function EncodedLen(n: nat): nat { (n + 2) / 3 * 4 }

  /** The final quantum: one or two bytes, unused bits zero. */
  function DecodeLast(s: Bytes): Option<Bytes>
    requires |s| == 4 && s[3] == PAD
  {
    var v0, v1, v2 := Value(s[0]), Value(s[1]), Value(s[2]);
    if v0.None? || v1.None? then None
    else if s[2] == PAD then
      if v1.value % 16 != 0 then None else Some([High(v0.value, v1.value)])
    else if v2.None? || v2.value % 4 != 0 then None
    else Some([High(v0.value, v1.value), Middle(v1.value, v2.value)])
  }

  /** The strict decoder on text without line breaks. */
  function DecodeQuanta(s: Bytes): Option<Bytes>
  {
    if s == [] then Some([])
    else if |s| < 4 then None
    else if s[3] == PAD then if |s| == 4 then DecodeLast(s) else None
    else
      var v0, v1, v2, v3 := Value(s[0]), Value(s[1]), Value(s[2]), Value(s[3]);
      if v0.None? || v1.None? || v2.None? || v3.None? then None
      else
        match DecodeQuanta(s[4..])
        case None => None
        case Some(rest) =>
          Some([High(v0.value, v1.value), Middle(v1.value, v2.value), Low(v2.value, v3.value)] + rest)
  }

  function Strip(s: Bytes): Bytes
  {
    if s == [] then [] else if s[0] == CR || s[0] == LF then Strip(s[1..]) else [s[0]] + Strip(s[1..])
  }

  function DecodeString(s: Bytes): Option<Bytes> { DecodeQuanta(Strip(s)) }

  /** decodeBase64Bounded. */
  function DecodeBounded(s: Bytes, maximum: nat): Option<Bytes>
  {
    if |s| > EncodedLen(maximum) then None
    else
      match DecodeString(s)
      case None => None
      case Some(decoded) => if |decoded| > maximum || Encode(decoded) != s then None else Some(decoded)
  }

  lemma SymbolRoundTrip(v: Sextet)
    ensures Value(Symbol(v)) == Some(v) && Symbol(v) !in {PAD, CR, LF}
  {
  }

  lemma ValueRoundTrip(c: Byte)
    requires Value(c).Some?
    ensures Symbol(Value(c).value) == c && c !in {PAD, CR, LF}
  {
  }

  lemma {:induction false} EncodeLength(b: Bytes)
    ensures |Encode(b)| == EncodedLen(|b|)
  {
    hide Symbol;
    if |b| > 2 { EncodeLength(b[3..]); }
  }

  lemma EncodedIsUnbroken(b: Bytes)
    ensures Strip(Encode(b)) == Encode(b)
  {
    EncodedHasNoBreaks(b);
    StripUnbroken(Encode(b));
  }

  lemma {:induction false} EncodedHasNoBreaks(b: Bytes)
    ensures CR !in Encode(b) && LF !in Encode(b)
  {
    if |b| > 2 { EncodedHasNoBreaks(b[3..]); }
  }

  lemma {:induction false} StripUnbroken(s: Bytes)
    requires CR !in s && LF !in s
    ensures Strip(s) == s
  {
    if s != [] {
      assert s[0] in s;
      StripUnbroken(s[1..]);
    }
  }

  /** The bytes skipped are 13 and 10, wherever they stand. */
  lemma {:induction false} StripNext(s: Bytes, c: Byte)
    ensures Strip(s + [c]) == if c == 13 || c == 10 then Strip(s) else Strip(s) + [c]
  {
    if s == [] {
      assert [c][1..] == [] && s + [c] == [c];
    } else {
      StripNext(s[1..], c);
      assert (s + [c])[1..] == s[1..] + [c];
    }
  }

  lemma {:induction false} DecodeOfEncode(b: Bytes)
    ensures DecodeQuanta(Encode(b)) == Some(b)
  {
    hide Symbol, Value, First, Second, Third, Fourth, High, Middle, Low;
    if b == [] {
    } else if |b| == 1 {
      SymbolRoundTrip(First(b[0]));
      SymbolRoundTrip(Second(b[0], 0));
      OctetsSurvive(b[0], 0, 0);
      PadIsNoSymbol();
      assert b == [b[0]];
    } else if |b| == 2 {
      SymbolRoundTrip(First(b[0]));
      SymbolRoundTrip(Second(b[0], b[1]));
      SymbolRoundTrip(Third(b[1], 0));
      OctetsSurvive(b[0], b[1], 0);
      assert b == [b[0], b[1]];
    } else {
      DecodeOfEncode(b[3..]);
      SymbolRoundTrip(First(b[0]));
      SymbolRoundTrip(Second(b[0], b[1]));
      SymbolRoundTrip(Third(b[1], b[2]));
      SymbolRoundTrip(Fourth(b[2]));
      OctetsSurvive(b[0], b[1], b[2]);
      assert Encode(b)[4..] == Encode(b[3..]);
      assert b == [b[0], b[1], b[2]] + b[3..];
    }
  }

  lemma PadIsNoSymbol()
    ensures Value(PAD) == None
  {
  }

  lemma ValuesRoundTrip(s: Bytes)
    ensures forall c :: c in s && Value(c).Some? ==> Symbol(Value(c).value) == c
  {
    forall c | c in s && Value(c).Some? ensures Symbol(Value(c).value) == c { ValueRoundTrip(c); }
  }

  lemma EncodeOfLast(s: Bytes, b: Bytes)
    requires |s| == 4 && s[3] == PAD && DecodeLast(s) == Some(b)
    ensures Encode(b) == s
  {
    hide Symbol, Value, First, Second, Third, Fourth, High, Middle, Low;
    ValuesRoundTrip(s);
    assert s[0] in s && s[1] in s && s[2] in s;
    var v0, v1 := Value(s[0]).value, Value(s[1]).value;
    if s[2] == PAD {
      SextetsSurvive(v0, v1, 0, 0);
    } else {
      SextetsSurvive(v0, v1, Value(s[2]).value, 0);
    }
    assert s == [s[0], s[1], s[2], s[3]];
  }

  lemma {:induction false} EncodeOfDecode(s: Bytes, b: Bytes)
    requires DecodeQuanta(s) == Some(b)
    ensures Encode(b) == s
  {
    hide Symbol, Value, First, Second, Third, Fourth, High, Middle, Low, DecodeLast;
    if s != [] {
      if s[3] == PAD {
        EncodeOfLast(s, b);
      } else {
        ValuesRoundTrip(s);
        assert s[0] in s && s[1] in s && s[2] in s && s[3] in s;
        SextetsSurvive(Value(s[0]).value, Value(s[1]).value, Value(s[2]).value, Value(s[3]).value);
        var rest := DecodeQuanta(s[4..]).value;
        EncodeOfDecode(s[4..], rest);
        assert b[3..] == rest;
        assert s == [s[0], s[1], s[2], s[3]] + s[4..];
      }
    }
  }

  /** The strict decoder accepts exactly the standard encodings with line breaks put in anywhere. */
  lemma StrictDecoderSkipsLineBreaks(s: Bytes, b: Bytes)
    ensures DecodeString(s) == Some(b) <==> Strip(s) == Encode(b)
  {
    if DecodeString(s) == Some(b) { EncodeOfDecode(Strip(s), b); }
    if Strip(s) == Encode(b) { DecodeOfEncode(b); }
  }

  /** The bounded decoder accepts exactly the standard encoding of something that fits: the length
      check up front never turns such a text away, and nothing else gets through. */
  lemma AcceptsExactlyTheCanonical(s: Bytes, maximum: nat, b: Bytes)
    ensures DecodeBounded(s, maximum) == Some(b) <==> s == Encode(b) && |b| <= maximum
  {
    hide Encode, Strip, DecodeQuanta;
    if s == Encode(b) && |b| <= maximum {
      EncodedIsUnbroken(b);
      StrictDecoderSkipsLineBreaks(s, b);
      EncodeLength(b);
    }
  }

  /** So no two accepted texts decode to the same bytes. */
  lemma OneTextPerValue(s: Bytes, t: Bytes, maximum: nat)
    requires DecodeBounded(s, maximum).Some? && DecodeBounded(s, maximum) == DecodeBounded(t, maximum)
    ensures s == t
  {
    hide DecodeBounded;
    AcceptsExactlyTheCanonical(s, maximum, DecodeBounded(s, maximum).value);
    AcceptsExactlyTheCanonical(t, maximum, DecodeBounded(s, maximum).value);
  }
}
