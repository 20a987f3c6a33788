/**
 The pre-authentication encoding of DSSE (section "Signature Definition" of the
 DSSE protocol): what is signed is the pair of a payload type and a payload,
 each preceded by its length in decimal.
 */
module Dsse {
  import opened Prelude

  const SPACE: Byte := 32
  const PREFIX: Bytes := [68, 83, 83, 69, 118, 49, 32]   // "DSSEv1 "

  /** strconv.Itoa for a length. */
  function Decimal(n: nat): (digits: Bytes)
    ensures digits != [] && SPACE !in digits
  {
    if n < 10 then [48 + n] else Decimal(n / 10) + [48 + n % 10]
  }

  function Pae(payloadType: Bytes, payload: Bytes): Bytes
  {
    PREFIX + Decimal(|payloadType|) + [SPACE] + payloadType + [SPACE] + Decimal(|payload|) + [SPACE] + payload
  }

  /** The number some decimal digits stand for. */
  function Number(digits: Bytes): int
  {
    if digits == [] then 0 else Number(digits[..|digits| - 1]) * 10 + (digits[|digits| - 1] as int - 48)
  }

  /** The digits of a number stand for it, and there is no needless zero in front. */
  lemma {:induction false} DecimalMeans(n: nat)
    ensures var digits := Decimal(n);
            && (forall i :: 0 <= i < |digits| ==> 48 <= digits[i] <= 57)
            && Number(digits) == n
            && (digits[0] == 48 ==> n == 0)
  {
    if n >= 10 {
      DecimalMeans(n / 10);
      assert Decimal(n)[..|Decimal(n)| - 1] == Decimal(n / 10);
    } else {
      assert Decimal(n)[..0] == [];
    }
  }

  function Ascii(s: string): Bytes
    requires forall i :: 0 <= i < |s| ==> s[i] as int < 0x80
  {
    seq(|s|, i requires 0 <= i < |s| => s[i] as int)
  }

  /** What is signed: the version, and the type before the payload. */
  lemma PaeIs(payloadType: Bytes, payload: Bytes)
    ensures Pae(payloadType, payload) ==
            Ascii("DSSEv1 ") + Decimal(|payloadType|) + Ascii(" ") + payloadType + Ascii(" ") + Decimal(|payload|) + Ascii(" ") + payload
  {
    hide Decimal;
    var version := "DSSEv1 ";
    assert version == ['D', 'S', 'S', 'E', 'v', '1', ' '];
    assert Ascii(version) == PREFIX;
    assert Ascii(" ") == [SPACE];
  }

  lemma {:induction false} DecimalIsInjective(m: nat, n: nat)
    requires Decimal(m) == Decimal(n)
    ensures m == n
  {
    if m >= 10 && n >= 10 {
      var front, rear := Decimal(m / 10), Decimal(n / 10);
      assert Decimal(m)[..|Decimal(m)| - 1] == front && Decimal(n)[..|Decimal(n)| - 1] == rear;
      DecimalIsInjective(m / 10, n / 10);
      assert Decimal(m)[|Decimal(m)| - 1] == 48 + m % 10 && Decimal(n)[|Decimal(n)| - 1] == 48 + n % 10;
    }
  }

  /** A word without spaces followed by a space can be told apart from what comes after it. */
  lemma WordsAgree(a: Bytes, b: Bytes, restA: Bytes, restB: Bytes)
    requires SPACE !in a && SPACE !in b
    requires a + [SPACE] + restA == b + [SPACE] + restB
    ensures a == b && restA == restB
  {
    IndexOfPrepend(a, SPACE, restA);
    IndexOfPrepend(b, SPACE, restB);
    var s, t := a + [SPACE] + restA, b + [SPACE] + restB;
    assert s[..|a|] == a && t[..|b|] == b && s[|a| + 1..] == restA && t[|b| + 1..] == restB;
  }

  /** A number, a space and as many bytes as the number says: both parts can be recovered. */
  lemma CountedAgree(x: Bytes, y: Bytes, restX: Bytes, restY: Bytes)
    requires Decimal(|x|) + [SPACE] + (x + restX) == Decimal(|y|) + [SPACE] + (y + restY)
    ensures x == y && restX == restY
  {
    WordsAgree(Decimal(|x|), Decimal(|y|), x + restX, y + restY);
    DecimalIsInjective(|x|, |y|);
    assert (x + restX)[..|x|] == x && (y + restY)[..|y|] == y;
    assert (x + restX)[|x|..] == restX && (y + restY)[|y|..] == restY;
  }

  lemma PaeShape(payloadType: Bytes, payload: Bytes)
    ensures Pae(payloadType, payload)
         == PREFIX + (Decimal(|payloadType|) + [SPACE] + (payloadType + ([SPACE] + (Decimal(|payload|) + [SPACE] + (payload + [])))))
  {
    var a, c := Decimal(|payloadType|) + [SPACE], Decimal(|payload|) + [SPACE];
    var front := PREFIX + a + payloadType;
    hide Decimal;
    assert payload + [] == payload;
    Associate(PREFIX, Decimal(|payloadType|), [SPACE]);
    Associate(front + [SPACE], Decimal(|payload|), [SPACE]);
    Associate(front + [SPACE], c, payload);
    Associate(front, [SPACE], c + payload);
    Associate(PREFIX + a, payloadType, [SPACE] + (c + payload));
    Associate(PREFIX, a, payloadType + ([SPACE] + (c + payload)));
  }

  /** Two messages have the same encoding only if they are the same message, whatever bytes they
      contain, spaces and digits included. */
  lemma PaeIsInjective(type1: Bytes, payload1: Bytes, type2: Bytes, payload2: Bytes)
    requires Pae(type1, payload1) == Pae(type2, payload2)
    ensures type1 == type2 && payload1 == payload2
  {
    PaeShape(type1, payload1);
    PaeShape(type2, payload2);
    hide Pae, Decimal;
    var rest1 := [SPACE] + (Decimal(|payload1|) + [SPACE] + (payload1 + []));
    var rest2 := [SPACE] + (Decimal(|payload2|) + [SPACE] + (payload2 + []));
    assert Pae(type1, payload1)[|PREFIX|..] == Decimal(|type1|) + [SPACE] + (type1 + rest1);
    assert Pae(type2, payload2)[|PREFIX|..] == Decimal(|type2|) + [SPACE] + (type2 + rest2);
    CountedAgree(type1, type2, rest1, rest2);
    assert rest1[1..] == Decimal(|payload1|) + [SPACE] + (payload1 + []);
    assert rest2[1..] == Decimal(|payload2|) + [SPACE] + (payload2 + []);
    CountedAgree(payload1, payload2, [], []);
  }
}
