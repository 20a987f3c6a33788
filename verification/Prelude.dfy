/** Shared vocabulary: optional values, bytes and a few sequence facts. */
module Prelude {

  datatype Option<+T> = None | Some(value: T)

  /** One octet. Go's `byte`. */
  type Byte = b: int | 0 <= b < 256

  type Bytes = seq<Byte>

  /** A value of Go's int64. */
  const MAX_INT64: int := 0x7FFF_FFFF_FFFF_FFFF

  type Int64 = x: int | -MAX_INT64 - 1 <= x <= MAX_INT64

  const TWO_TO_64: int := 0x1_0000_0000_0000_0000

  /** Go's int64 arithmetic: the value modulo 2^64. */
  function Wrap(x: int): Int64
  {
    var low := x % TWO_TO_64;
    if low > MAX_INT64 then low - TWO_TO_64 else low
  }

  lemma WrapExact(x: int)
    requires -MAX_INT64 - 1 <= x <= MAX_INT64
    ensures Wrap(x) == x
  {
  }

  lemma WrapShift(x: int, k: int)
    ensures Wrap(x + k * TWO_TO_64) == Wrap(x)
  {
    assert (x + k * TWO_TO_64) % TWO_TO_64 == x % TWO_TO_64;
  }

  lemma WrapAdds(a: int, b: int)
    ensures Wrap(Wrap(a) + b) == Wrap(a + b)
  {
    var k := if a % TWO_TO_64 > MAX_INT64 then -(a / TWO_TO_64) - 1 else -(a / TWO_TO_64);
    assert Wrap(a) == a + k * TWO_TO_64;
    hide Wrap;
    WrapShift(a + b, k);
    assert Wrap(a) + b == a + b + k * TWO_TO_64;
  }

  function Min(a: int, b: int): int { if a <= b then a else b }

  predicate HasPrefix<T(==)>(s: seq<T>, p: seq<T>) { |p| <= |s| && s[..|p|] == p }

  predicate HasSuffix<T(==)>(s: seq<T>, p: seq<T>) { |p| <= |s| && s[|s| - |p|..] == p }

  /** The position of the first `x`, or `|s|` when there is none. */
  function IndexOf<T(==)>(s: seq<T>, x: T): (i: nat)
    ensures i <= |s|
    ensures i < |s| ==> s[i] == x
    ensures forall k :: 0 <= k < i ==> s[k] != x
  {
    if s == [] then 0
    else if s[0] == x then 0
    else 1 + IndexOf(s[1..], x)
  }

  lemma IndexOfPrepend<T>(p: seq<T>, x: T, rest: seq<T>)
    requires x !in p
    ensures IndexOf(p + [x] + rest, x) == |p|
  {
    var s := p + [x] + rest;
    assert s[|p|] == x;
    assert forall k :: 0 <= k < |p| ==> s[k] == p[k];
  }

  function Flatten<T>(parts: seq<seq<T>>): seq<T>
  {
    if parts == [] then [] else parts[0] + Flatten(parts[1..])
  }

  lemma Associate<T>(a: seq<T>, b: seq<T>, c: seq<T>)
    ensures a + b + c == a + (b + c)
  {
  }

  /** The elements of a sequence, as a set. */
  function Elements<T>(s: seq<T>): set<T> { set x | x in s }

  predicate Distinct<T(==)>(s: seq<T>) { forall i, j :: 0 <= i < j < |s| ==> s[i] != s[j] }

  /** Taking off the last of distinct elements. */
  lemma DropLast<T>(s: seq<T>)
    requires s != [] && Distinct(s)
    ensures var front, last := s[..|s| - 1], s[|s| - 1];
            Distinct(front) && last !in Elements(front) && Elements(s) == Elements(front) + {last}
            && Elements(s) - {last} == Elements(front)
  {
    var front, last := s[..|s| - 1], s[|s| - 1];
    assert forall k :: 0 <= k < |front| ==> front[k] == s[k];
    assert s == front + [last];
  }

  lemma {:induction false} DistinctCount<T>(s: seq<T>)
    requires Distinct(s)
    ensures |Elements(s)| == |s|
  {
    if s != [] {
      DropLast(s);
      DistinctCount(s[..|s| - 1]);
    }
  }

  lemma {:induction false} SubsetCount<T>(a: set<T>, b: set<T>)
    requires a <= b
    ensures |a| <= |b|
    ensures |a| == |b| ==> a == b
  {
    if a != {} {
      var x :| x in a;
      SubsetCount(a - {x}, b - {x});
      assert a == a - {x} + {x} && b == b - {x} + {x};
    }
  }

  /** A sum over a set, in whatever order. */
  ghost function SumSet<T(!new)>(s: set<T>, f: T -> nat): nat
  {
    if s == {} then 0 else var x :| x in s; f(x) + SumSet(s - {x}, f)
  }

  lemma {:induction false} SumSetAny<T(!new)>(s: set<T>, f: T -> nat, x: T)
    requires x in s
    ensures SumSet(s, f) == f(x) + SumSet(s - {x}, f)
  {
    var y :| y in s && SumSet(s, f) == f(y) + SumSet(s - {y}, f);
    if x != y {
      SumSetAny(s - {y}, f, x);
      SumSetAny(s - {x}, f, y);
      assert s - {x} - {y} == s - {y} - {x};
    }
  }

  lemma {:induction false} SumSetSame<T(!new)>(s: set<T>, f: T -> nat, g: T -> nat)
    requires forall x :: x in s ==> f(x) == g(x)
    ensures SumSet(s, f) == SumSet(s, g)
  {
    if s != {} {
      var x :| x in s;
      SumSetSame(s - {x}, f, g);
      SumSetAny(s, f, x);
      SumSetAny(s, g, x);
    }
  }

  // Go's case mapping wherever an ASCII letter is involved. Beyond ASCII, dotless i and long s have
  // ASCII capitals, dotted I and the Kelvin sign have ASCII small letters, and long s and the Kelvin
  // sign fold to s and k.

  const DOTTED_I: char := '\U{0130}'
  const DOTLESS_I: char := '\U{0131}'
  const LONG_S: char := '\U{017F}'
  const KELVIN: char := '\U{212A}'

  function Upper(c: char): char
  {
    if 'a' <= c <= 'z' then (c as int - 32) as char else if c == DOTLESS_I then 'I' else if c == LONG_S then 'S' else c
  }

  function Lower(c: char): char
  {
    if 'A' <= c <= 'Z' then (c as int + 32) as char else if c == DOTTED_I then 'i' else if c == KELVIN then 'k' else c
  }

  function Fold(c: char): char
  {
    if 'A' <= c <= 'Z' then (c as int + 32) as char else if c == LONG_S then 's' else if c == KELVIN then 'k' else c
  }

  /** In ASCII two characters fold together when they are the two cases of one letter, and Upper and Lower
      pass from one case to the other. */
  lemma AsciiCases(c: char, d: char)
    requires c as int < 0x80 && d as int < 0x80
    ensures Fold(c) == Fold(d) <==>
            c == d || ('a' <= c <= 'z' && c as int == d as int + 32) || ('a' <= d <= 'z' && d as int == c as int + 32)
    ensures d == Upper(c) <==> if 'a' <= c <= 'z' then c as int == d as int + 32 else c == d
    ensures d == Lower(c) <==> if 'A' <= c <= 'Z' then d as int == c as int + 32 else c == d
  {
  }

  /** The letters beyond ASCII that meet an ASCII letter in some case. */
  lemma OtherCases()
    ensures Upper('\U{131}') == 'I' && Upper('\U{17F}') == 'S' && Lower('\U{130}') == 'i' && Lower('\U{212A}') == 'k'
    ensures Fold('\U{17F}') == 's' && Fold('\U{212A}') == 'k'
    ensures forall c: char :: c as int >= 0x80 && c !in ['\U{131}', '\U{17F}'] ==> Upper(c) == c
    ensures forall c: char :: c as int >= 0x80 && c !in ['\U{130}', '\U{212A}'] ==> Lower(c) == c
    ensures forall c: char :: c as int >= 0x80 && c !in ['\U{17F}', '\U{212A}'] ==> Fold(c) == c
  {
  }

  /** strings.EqualFold, when one side has no letter beyond those above. */
  predicate EqualFold(s: string, t: string) { |s| == |t| && forall i :: 0 <= i < |s| ==> Fold(s[i]) == Fold(t[i]) }

  function ToUpper(s: string): string { seq(|s|, i requires 0 <= i < |s| => Upper(s[i])) }

  function ToLower(s: string): string { seq(|s|, i requires 0 <= i < |s| => Lower(s[i])) }
}
