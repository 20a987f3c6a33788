/**
 The ustar Interchange Format (pax section of IEEE Std 1003.1) as the bundle
 writer produces it and the archive reader takes it apart: 512-byte blocks, a
 header of seventeen fixed-width fields with an octal checksum, contents padded
 to a whole block, two zero blocks at the end.
 */
module Ustar {
  import opened Prelude

  const BLOCK := 512
  const WIDTHS: seq<nat> := [100, 8, 8, 8, 12, 12, 8, 1, 100, 6, 2, 32, 32, 8, 8, 155, 12]
  const CHECKSUM := 6                    // index of the checksum field

  datatype Header = Header(
    name: string, mode: nat, uid: nat, gid: nat, size: nat, mtime: nat, typeflag: Byte, linkname: string,
    ustar: bool, uname: string, gname: string, devmajor: nat, devminor: nat)

  /** A string of one-byte characters and its bytes. */
  function Octets(s: string): Bytes { seq(|s|, i requires 0 <= i < |s| => (s[i] as int) % 256) }

  function Text(b: Bytes): string { seq(|b|, i requires 0 <= i < |b| => b[i] as char) }

  predicate Ascii(s: string) { forall c :: c in s ==> 0 < c as int < 128 }

  lemma TextOfOctets(s: string)
    requires Ascii(s)
    ensures Text(Octets(s)) == s
  {
    assert forall i :: 0 <= i < |s| ==> s[i] in s;
  }

  function Zeros(n: nat): Bytes { seq(n, _ => 0) }

  predicate IsZero(b: Bytes) { forall x :: x in b ==> x == 0 }

  // ---------------------------------------------------------------------
  // Octal numbers
  // ---------------------------------------------------------------------

  function Pow8(digits: nat): nat { if digits == 0 then 1 else 8 * Pow8(digits - 1) }

  function Octal(n: nat, digits: nat): (ds: Bytes)
    ensures |ds| == digits
  {
    if digits == 0 then [] else Octal(n / 8, digits - 1) + [48 + n % 8]
  }

  predicate OctalDigits(ds: Bytes) { forall i :: 0 <= i < |ds| ==> 48 <= ds[i] < 56 }

  function OctalValue(ds: Bytes): nat
    requires OctalDigits(ds)
  {
    if ds == [] then 0
    else 8 * OctalValue(ds[..|ds| - 1]) + (ds[|ds| - 1] as int - 48)
  }

  lemma {:induction false} OctalRoundTrip(n: nat, digits: nat)
    requires n < Pow8(digits)
    ensures OctalDigits(Octal(n, digits)) && OctalValue(Octal(n, digits)) == n
  {
    if digits > 0 {
      OctalRoundTrip(n / 8, digits - 1);
      var front := Octal(n / 8, digits - 1);
      assert Octal(n, digits)[..digits - 1] == front;
    }
  }

  predicate Filler(b: Byte) { b == 0 || b == 32 }

  function TrimLeft(b: Bytes): Bytes { if b != [] && Filler(b[0]) then TrimLeft(b[1..]) else b }

  function TrimRight(b: Bytes): Bytes { if b != [] && Filler(b[|b| - 1]) then TrimRight(b[..|b| - 1]) else b }

  /** A numeric field: spaces and NULs around octal digits. An all-blank field is zero. */
  function ParseOctal(field: Bytes): Option<nat>
  {
    var digits := TrimLeft(TrimRight(field));
    if OctalDigits(digits) then Some(OctalValue(digits)) else None
  }

  lemma {:induction false} TrimRightDigits(ds: Bytes, tail: Bytes)
    requires ds != [] && OctalDigits(ds) && forall b :: b in tail ==> Filler(b)
    ensures TrimRight(ds + tail) == ds
  {
    if tail == [] {
      assert ds + tail == ds;
    } else {
      var all := ds + tail;
      assert all[|all| - 1] == tail[|tail| - 1] && tail[|tail| - 1] in tail;
      assert all[..|all| - 1] == ds + tail[..|tail| - 1];
      TrimRightDigits(ds, tail[..|tail| - 1]);
    }
  }

  lemma NumberRoundTrip(n: nat, digits: nat, tail: Bytes)
    requires 0 < digits && n < Pow8(digits) && forall b :: b in tail ==> Filler(b)
    ensures ParseOctal(Octal(n, digits) + tail) == Some(n)
  {
    OctalRoundTrip(n, digits);
    var ds := Octal(n, digits);
    TrimRightDigits(ds, tail);
  }

  // ---------------------------------------------------------------------
  // Headers
  // ---------------------------------------------------------------------

  function Sum(b: Bytes): (s: nat)
    ensures s <= 255 * |b|
  {
    if b == [] then 0 else b[0] + Sum(b[1..])
  }

  /** Cutting a block into fields of the given widths. */
  function SplitWidths(b: Bytes, widths: seq<nat>): (fields: seq<Bytes>)
    ensures |fields| == |widths|
    decreases |widths|
  {
    if widths == [] then []
    else if widths[0] > |b| then [b] + SplitWidths([], widths[1..])
    else [b[..widths[0]]] + SplitWidths(b[widths[0]..], widths[1..])
  }

  function Lengths(fields: seq<Bytes>): seq<nat> { seq(|fields|, i requires 0 <= i < |fields| => |fields[i]|) }

  lemma {:induction false} SplitFlatten(fields: seq<Bytes>)
    ensures SplitWidths(Flatten(fields), Lengths(fields)) == fields
  {
    if fields != [] {
      SplitFlatten(fields[1..]);
      assert Lengths(fields)[1..] == Lengths(fields[1..]);
      var all := fields[0] + Flatten(fields[1..]);
      assert all[..|fields[0]|] == fields[0] && all[|fields[0]|..] == Flatten(fields[1..]);
    }
  }

  function Total(widths: seq<nat>): nat { if widths == [] then 0 else widths[0] + Total(widths[1..]) }

  lemma {:induction false} FlattenLength(fields: seq<Bytes>)
    ensures |Flatten(fields)| == Total(Lengths(fields))
  {
    if fields != [] {
      FlattenLength(fields[1..]);
      assert Lengths(fields)[1..] == Lengths(fields[1..]);
    }
  }

  function Padded(s: Bytes, width: nat): (field: Bytes)
    requires |s| <= width
    ensures |field| == width
  {
    s + Zeros(width - |s|)
  }

  const MAGIC: Bytes := [117, 115, 116, 97, 114, 0]   // "ustar", NUL
  const VERSION: Bytes := [48, 48]
  const REGULAR: Byte := 48
  const SPACES: Bytes := [32, 32, 32, 32, 32, 32, 32, 32]

  /** The fields the writer fills for a regular file of mode 0600 owned by nobody at time zero. */
  function Fields(name: string, size: nat, checksum: Bytes): seq<Bytes>
    requires |name| <= 100
  {
    [Padded(Octets(name), 100), Octal(0x180, 7) + [0], Octal(0, 7) + [0], Octal(0, 7) + [0],
     Octal(size, 11) + [0], Octal(0, 11) + [0], checksum, [REGULAR], Zeros(100), MAGIC, VERSION,
     Zeros(32), Zeros(32), Octal(0, 7) + [0], Octal(0, 7) + [0], Zeros(155), Zeros(12)]
  }

  function ChecksumOf(fields: seq<Bytes>): nat
    requires |fields| == |WIDTHS|
  {
    Sum(Flatten(fields[CHECKSUM := SPACES]))
  }

  function ChecksumField(name: string, size: nat): Bytes
    requires |name| <= 100
  {
    Octal(ChecksumOf(Fields(name, size, SPACES)), 6) + [0, 32]
  }

  function HeaderBlock(name: string, size: nat): Bytes
    requires |name| <= 100
  {
    Flatten(Fields(name, size, ChecksumField(name, size)))
  }

  /** A text field ends at its first NUL. */
  function ParseText(field: Bytes): string { Text(field[..IndexOf(field, 0)]) }

  function FullName(prefix: string, name: string): string { if prefix == "" then name else prefix + "/" + name }

  /** Taking a header block apart; None when the checksum is wrong or a number does not parse. */
  function ParseHeader(block: Bytes): Option<Header>
  {
    var f := SplitWidths(block, WIDTHS);
    if ParseOctal(f[CHECKSUM]) != Some(ChecksumOf(f)) then None
    else if ParseOctal(f[1]) == None || ParseOctal(f[2]) == None || ParseOctal(f[3]) == None || ParseOctal(f[4]) == None
            || ParseOctal(f[5]) == None || ParseOctal(f[13]) == None || ParseOctal(f[14]) == None || f[7] == []
    then None
    else
      Some(Header(FullName(ParseText(f[15]), ParseText(f[0])), ParseOctal(f[1]).value, ParseOctal(f[2]).value,
                  ParseOctal(f[3]).value, ParseOctal(f[4]).value, ParseOctal(f[5]).value, f[7][0], ParseText(f[8]),
                  f[9] == MAGIC && f[10] == VERSION, ParseText(f[11]), ParseText(f[12]),
                  ParseOctal(f[13]).value, ParseOctal(f[14]).value))
  }

  function CanonicalHeader(name: string, size: nat): Header
  {
    Header(name, 0x180, 0, 0, size, 0, REGULAR, "", true, "", "", 0, 0)
  }

  lemma FieldLengths(name: string, size: nat, checksum: Bytes)
    requires |name| <= 100 && |checksum| == 8
    ensures Lengths(Fields(name, size, checksum)) == WIDTHS
  {
    hide Octal, Padded, Zeros;
    assert |Zeros(100)| == 100 && |Zeros(32)| == 32 && |Zeros(155)| == 155 && |Zeros(12)| == 12 by { ZerosLengths(); }
  }

  lemma ZerosLengths()
    ensures |Zeros(100)| == 100 && |Zeros(32)| == 32 && |Zeros(155)| == 155 && |Zeros(12)| == 12
  {
  }

  lemma TotalFrom(widths: seq<nat>, i: nat)
    requires i < |widths|
    ensures Total(widths[i..]) == widths[i] + Total(widths[i + 1..])
  {
    assert widths[i..][1..] == widths[i + 1..];
  }

  lemma SeventeenWidths(w: seq<nat>)
    requires |w| == 17
    ensures Total(w) == w[0] + w[1] + w[2] + w[3] + w[4] + w[5] + w[6] + w[7] + w[8] + w[9] + w[10] + w[11] + w[12]
                        + w[13] + w[14] + w[15] + w[16]
  {
    assert w[0..] == w;
    assert Total(w[17..]) == 0;
    hide Total;
    forall i | 0 <= i < 17
      ensures Total(w[i..]) == w[i] + Total(w[i + 1..])
    {
      TotalFrom(w, i);
    }
  }

  lemma WidthsFillBlock()
    ensures Total(WIDTHS) == BLOCK
  {
    hide Total;
    SeventeenWidths(WIDTHS);
  }

  lemma ParseTextPadded(name: string, width: nat)
    requires Ascii(name) && |name| < width
    ensures ParseText(Padded(Octets(name), width)) == name
  {
    var field := Padded(Octets(name), width);
    assert field[|name|] == 0;
    assert forall k :: 0 <= k < |name| ==> field[k] == Octets(name)[k] && name[k] in name;
    assert IndexOf(field, 0) == |name|;
    assert field[..|name|] == Octets(name);
    TextOfOctets(name);
  }

  lemma ParseTextZeros(width: nat)
    requires 0 < width
    ensures ParseText(Zeros(width)) == ""
  {
    assert Zeros(width)[0] == 0;
    assert IndexOf(Zeros(width), 0) == 0;
  }

  lemma Powers()
    ensures Pow8(6) == 262144 && Pow8(7) == 2097152 && Pow8(11) == 8589934592
  {
    assert Pow8(2) == 64;
    assert Pow8(4) == 4096;
    assert Pow8(8) == 16777216;
  }

  lemma BlockLength(name: string, size: nat)
    requires |name| <= 100
    ensures |HeaderBlock(name, size)| == BLOCK
  {
    hide Fields, Octal, Sum, ChecksumOf;
    var fields := Fields(name, size, ChecksumField(name, size));
    FieldLengths(name, size, ChecksumField(name, size));
    FlattenLength(fields);
    WidthsFillBlock();
  }

  lemma ChecksumRoundTrip(name: string, size: nat)
    requires |name| <= 100
    ensures var f := Fields(name, size, ChecksumField(name, size));
            ChecksumOf(f) == ChecksumOf(Fields(name, size, SPACES)) &&
            ParseOctal(f[CHECKSUM]) == Some(ChecksumOf(f))
  {
    hide Octal, Padded, Zeros, ParseOctal, Sum, Flatten, Fields, Pow8, Octets, Total, Lengths;
    var blank := Fields(name, size, SPACES);
    var f := Fields(name, size, ChecksumField(name, size));
    FieldsDifferInChecksum(name, size, ChecksumField(name, size), SPACES);
    FieldsDifferInChecksum(name, size, SPACES, SPACES);
    FieldLengths(name, size, SPACES);
    FlattenLength(blank);
    WidthsFillBlock();
    Powers();
    NumberRoundTrip(ChecksumOf(blank), 6, [0, 32]);
  }

  lemma FieldsDifferInChecksum(name: string, size: nat, one: Bytes, other: Bytes)
    requires |name| <= 100
    ensures |Fields(name, size, one)| == |WIDTHS|
    ensures Fields(name, size, one)[CHECKSUM] == one
    ensures Fields(name, size, one)[CHECKSUM := other] == Fields(name, size, other)
  {
    hide Octal, Padded, Zeros, Octets;
  }

  /** Reading back a written header gives exactly what was written. */
  lemma HeaderRoundTrip(name: string, size: nat)
    requires Ascii(name) && |name| < 100 && size < Pow8(11)
    ensures ParseHeader(HeaderBlock(name, size)) == Some(CanonicalHeader(name, size))
  {
    hide Octal, Padded, Zeros, ParseOctal, Sum, ParseText, Octets, ChecksumOf, ChecksumField, Pow8, Flatten, SplitWidths;
    var f := Fields(name, size, ChecksumField(name, size));
    ChecksumFieldLength(name, size);
    FieldLengths(name, size, ChecksumField(name, size));
    SplitFlatten(f);
    assert SplitWidths(HeaderBlock(name, size), WIDTHS) == f;
    ChecksumRoundTrip(name, size);
    Powers();
    NumberRoundTrip(0x180, 7, [0]);
    NumberRoundTrip(0, 7, [0]);
    NumberRoundTrip(0, 11, [0]);
    NumberRoundTrip(size, 11, [0]);
    ParseTextPadded(name, 100);
    ParseTextZeros(100);
    ParseTextZeros(32);
    ParseTextZeros(155);
  }

  lemma ChecksumFieldLength(name: string, size: nat)
    requires |name| <= 100
    ensures |ChecksumField(name, size)| == 8
  {
  }

  // ---------------------------------------------------------------------
  // A header block, byte by byte
  // ---------------------------------------------------------------------

  lemma Peel(b: Bytes, widths: seq<nat>)
    requires widths != [] && widths[0] <= |b|
    ensures SplitWidths(b, widths) == [b[..widths[0]]] + SplitWidths(b[widths[0]..], widths[1..])
  {
  }

  /** Where the fields start. */
  const OFFSETS: seq<nat> := [0, 100, 108, 116, 124, 136, 148, 156, 157, 257, 263, 265, 297, 329, 337, 345, 500, 512]

  lemma OffsetsAdd(k: nat)
    requires k < 17
    ensures OFFSETS[k + 1] == OFFSETS[k] + WIDTHS[k] <= 512
  {
  }

  lemma {:induction false} FieldsFrom(block: Bytes, k: nat)
    requires |block| == 512 && k <= 17
    ensures OFFSETS[k] <= 512
    ensures SplitWidths(block, WIDTHS)[k..] == SplitWidths(block[OFFSETS[k]..], WIDTHS[k..])
  {
    if k == 0 {
      assert block[0..] == block && WIDTHS[0..] == WIDTHS;
    } else {
      hide SplitWidths;
      FieldsFrom(block, k - 1);
      OffsetsAdd(k - 1);
      var here, there := OFFSETS[k - 1], OFFSETS[k];
      assert WIDTHS[k - 1..][0] == WIDTHS[k - 1] && WIDTHS[k - 1..][1..] == WIDTHS[k..];
      Peel(block[here..], WIDTHS[k - 1..]);
      assert block[here..][WIDTHS[k - 1]..] == block[there..];
      assert SplitWidths(block, WIDTHS)[k - 1..][1..] == SplitWidths(block, WIDTHS)[k..];
    }
  }

  /** Field `k` of a block is the bytes between two offsets. */
  lemma FieldAt(block: Bytes, k: nat)
    requires |block| == 512 && k < 17
    ensures OFFSETS[k] <= OFFSETS[k + 1] <= 512
    ensures SplitWidths(block, WIDTHS)[k] == block[OFFSETS[k]..OFFSETS[k + 1]]
  {
    hide SplitWidths;
    FieldsFrom(block, k);
    OffsetsAdd(k);
    assert WIDTHS[k..][0] == WIDTHS[k];
    Peel(block[OFFSETS[k]..], WIDTHS[k..]);
    assert SplitWidths(block, WIDTHS)[k] == SplitWidths(block, WIDTHS)[k..][0];
  }

  lemma {:induction false} SumAppend(a: Bytes, b: Bytes)
    ensures Sum(a + b) == Sum(a) + Sum(b)
  {
    if a == [] {
      assert a + b == b;
    } else {
      SumAppend(a[1..], b);
      assert (a + b)[1..] == a[1..] + b;
    }
  }

  lemma SumOfOne(x: Byte)
    ensures Sum([]) == 0 && Sum([x]) == x
  {
    assert [x][1..] == [];
  }

  lemma {:induction false} FlattenAppend<T>(xs: seq<seq<T>>, ys: seq<seq<T>>)
    ensures Flatten(xs + ys) == Flatten(xs) + Flatten(ys)
  {
    if xs == [] {
      assert xs + ys == ys;
    } else {
      FlattenAppend(xs[1..], ys);
      assert (xs + ys)[1..] == xs[1..] + ys;
      Associate(xs[0], Flatten(xs[1..]), Flatten(ys));
    }
  }

  lemma EightSpaces(field: Bytes)
    requires |field| == 8 && forall i :: 0 <= i < 8 ==> field[i] == 32
    ensures Sum(field) == 8 * 32
  {
    hide Sum;
    SumOfOne(32);
    var two, four := [32, 32], [32, 32, 32, 32];
    SumAppend([32], [32]);
    assert [32] + [32] == two;
    SumAppend(two, two);
    assert two + two == four;
    SumAppend(four, four);
    assert field == four + four;
  }

  /** The sum that a header carries: all 512 bytes, the eight of the checksum itself taken as spaces. */
  lemma ChecksumIsSum(block: Bytes)
    requires |block| == 512 && Flatten(SplitWidths(block, WIDTHS)) == block
    ensures ChecksumOf(SplitWidths(block, WIDTHS)) == Sum(block[..148]) + 8 * 32 + Sum(block[156..])
  {
    hide Sum, SplitWidths, Flatten;
    var f := SplitWidths(block, WIDTHS);
    FieldAt(block, CHECKSUM);
    assert OFFSETS[6] == 148 && OFFSETS[7] == 156;
    var front, back := f[..6], f[7..];
    assert f == front + ([f[6]] + back) && f[CHECKSUM := SPACES] == front + ([SPACES] + back);
    FlattenAppend(front, [f[6]] + back);
    FlattenAppend(front, [SPACES] + back);
    FlattenAppend([f[6]], back);
    FlattenAppend([SPACES], back);
    FlattenOneField(f[6]);
    FlattenOneField(SPACES);
    FrontIs148(block, front, f[6] + Flatten(back));
    assert block[148..] == f[6] + Flatten(back);
    assert Flatten(back) == block[148..][8..] == block[156..];
    SumAppend(block[..148], SPACES + block[156..]);
    SumAppend(SPACES, block[156..]);
    EightSpaces(SPACES);
  }

  lemma FlattenOneField(field: Bytes)
    ensures Flatten([field]) == field
  {
    assert [field][1..] == [];
  }

  lemma FrontIs148(block: Bytes, front: seq<Bytes>, rest: Bytes)
    requires |block| == 512 && front == SplitWidths(block, WIDTHS)[..6] && block == Flatten(front) + rest
    ensures Flatten(front) == block[..148]
  {
    hide SplitWidths;
    forall k | 0 <= k < 6 ensures |front[k]| == WIDTHS[k] {
      FieldAt(block, k);
      OffsetsAdd(k);
    }
    assert Lengths(front) == [100, 8, 8, 8, 12, 12];
    FlattenLength(front);
    assert Total([100, 8, 8, 8, 12, 12]) == 148 by { SixWidths(); }
  }

  lemma SixWidths()
    ensures Total([100, 8, 8, 8, 12, 12]) == 148
  {
    assert Total([8, 8, 12, 12]) == 40;
  }

  lemma {:induction false} FieldsMakeUp(b: Bytes, widths: seq<nat>)
    requires |b| == Total(widths)
    ensures Flatten(SplitWidths(b, widths)) == b
    decreases |widths|
  {
    if widths != [] {
      var field, rest := b[..widths[0]], b[widths[0]..];
      FieldsMakeUp(rest, widths[1..]);
      assert SplitWidths(b, widths) == [field] + SplitWidths(rest, widths[1..]);
      FlattenFirst(field, SplitWidths(rest, widths[1..]));
      hide SplitWidths, Total;
      assert field + rest == b;
    }
  }

  lemma FlattenFirst(field: Bytes, rest: seq<Bytes>)
    ensures Flatten([field] + rest) == field + Flatten(rest)
  {
    assert ([field] + rest)[1..] == rest;
  }

  lemma AnyBlockIsItsFields(block: Bytes)
    requires |block| == 512
    ensures Flatten(SplitWidths(block, WIDTHS)) == block
  {
    WidthsFillBlock();
    hide Total;
    FieldsMakeUp(block, WIDTHS);
  }

  /** A header the reader accepts carries, as the octal number in bytes 148 to 155, the sum of all its
      other bytes and of eight spaces. */
  lemma AcceptedChecksum(block: Bytes)
    requires |block| == 512 && ParseHeader(block).Some?
    ensures ParseOctal(block[148..156]) == Some(Sum(block[..148]) + 8 * 32 + Sum(block[156..]))
  {
    hide SplitWidths, Sum, ChecksumOf, ParseText, Flatten;
    assert ParseOctal(SplitWidths(block, WIDTHS)[CHECKSUM]) == Some(ChecksumOf(SplitWidths(block, WIDTHS)));
    hide ParseHeader, ParseOctal;
    AnyBlockIsItsFields(block);
    ChecksumIsSum(block);
    FieldAt(block, CHECKSUM);
    assert OFFSETS[6] == 148 && OFFSETS[7] == 156;
  }

  /** So does every header the writer makes. */
  lemma WrittenChecksum(name: string, size: nat)
    requires |name| <= 100
    ensures |HeaderBlock(name, size)| == 512
    ensures var block := HeaderBlock(name, size);
            ParseOctal(block[148..156]) == Some(Sum(block[..148]) + 8 * 32 + Sum(block[156..]))
  {
    hide SplitWidths, Sum, ChecksumOf, ParseOctal, Fields, ChecksumField, Octal;
    var f := Fields(name, size, ChecksumField(name, size));
    BlockLength(name, size);
    ChecksumFieldLength(name, size);
    FieldLengths(name, size, ChecksumField(name, size));
    SplitFlatten(f);
    ChecksumRoundTrip(name, size);
    ChecksumIsSum(HeaderBlock(name, size));
    FieldAt(HeaderBlock(name, size), CHECKSUM);
    assert OFFSETS[6] == 148 && OFFSETS[7] == 156;
  }

  lemma {:induction false} OctalZero(digits: nat)
    ensures forall i :: 0 <= i < digits ==> Octal(0, digits)[i] == 48
  {
    if digits > 0 { OctalZero(digits - 1); }
  }

  lemma OctalMode()
    ensures Octal(0x180, 7) == [48, 48, 48, 48, 54, 48, 48]
  {
    OctalZero(4);
    assert Octal(6, 5) == Octal(0, 4) + [54];
    assert Octal(48, 6) == Octal(6, 5) + [48];
  }

  /** A number and the NUL behind it. */
  predicate IsNumber(field: Bytes, n: nat) { field != [] && field[|field| - 1] == 0 && ParseOctal(field) == Some(n) }

  /** The header a file gets, byte by byte: its name; mode 0600; owner, group and time zero; its size;
      an ordinary file; plain ustar, and nothing else. */
  ghost predicate LaidOut(block: Bytes, name: string, size: nat)
    requires |block| == 512 && |name| <= 100
  {
    && block[..|name|] == Octets(name) && IsZero(block[|name|..100])
    && block[100..108] == [48, 48, 48, 48, 54, 48, 48, 0]
    && IsNumber(block[108..116], 0) && IsNumber(block[116..124], 0)
    && IsNumber(block[124..136], size)
    && IsNumber(block[136..148], 0)
    && block[156] == 48 && IsZero(block[157..257])
    && block[257..263] == [117, 115, 116, 97, 114, 0] && block[263..265] == [48, 48]
    && IsZero(block[265..329])
    && IsNumber(block[329..337], 0) && IsNumber(block[337..345], 0)
    && IsZero(block[345..])
  }

  ghost predicate FieldIs(block: Bytes, k: nat, field: Bytes)
    requires |block| == 512 && k < 17
  {
    OFFSETS[k] <= OFFSETS[k + 1] <= 512 && block[OFFSETS[k]..OFFSETS[k + 1]] == field
  }

  lemma WrittenFieldAt(name: string, size: nat, k: nat)
    requires |name| <= 100 && k < 17
    ensures |HeaderBlock(name, size)| == 512
    ensures FieldIs(HeaderBlock(name, size), k, Fields(name, size, ChecksumField(name, size))[k])
  {
    hide SplitWidths, ChecksumField, Octal, Fields;
    var f := Fields(name, size, ChecksumField(name, size));
    BlockLength(name, size);
    ChecksumFieldLength(name, size);
    FieldLengths(name, size, ChecksumField(name, size));
    SplitFlatten(f);
    FieldAt(HeaderBlock(name, size), k);
  }

  lemma NumberField(n: nat, digits: nat)
    requires 0 < digits && n < Pow8(digits)
    ensures IsNumber(Octal(n, digits) + [0], n)
  {
    hide Octal, ParseOctal, Pow8;
    NumberRoundTrip(n, digits, [0]);
  }

  lemma WrittenLayout(name: string, size: nat)
    requires |name| <= 100 && size < Pow8(11)
    ensures |HeaderBlock(name, size)| == 512 && LaidOut(HeaderBlock(name, size), name, size)
  {
    hide HeaderBlock, Octal, ChecksumField, Pow8, ParseOctal, IsNumber, Octets;
    hide FieldIs;
    var block := HeaderBlock(name, size);
    BlockLength(name, size);
    forall k: nat | k < 17 ensures FieldIs(block, k, Fields(name, size, ChecksumField(name, size))[k]) {
      WrittenFieldAt(name, size, k);
    }
    Powers();
    OctalMode();
    NumberField(0, 7);
    NumberField(size, 11);
    NumberField(0, 11);
    LayoutOf(block, name, size);
  }

  lemma LayoutOf(block: Bytes, name: string, size: nat)
    requires |name| <= 100 && |block| == 512
    requires forall k: nat :: k < 17 ==> FieldIs(block, k, Fields(name, size, ChecksumField(name, size))[k])
    requires Octal(0x180, 7) == [48, 48, 48, 48, 54, 48, 48]
    requires IsNumber(Octal(0, 7) + [0], 0) && IsNumber(Octal(size, 11) + [0], size) && IsNumber(Octal(0, 11) + [0], 0)
    ensures LaidOut(block, name, size)
  {
    hide Octal, ChecksumField, ParseOctal, IsNumber;
    var f := Fields(name, size, ChecksumField(name, size));
    assert forall k: nat :: k < 17 ==> FieldIs(block, k, f[k]);
    assert FieldIs(block, 0, f[0]) && FieldIs(block, 1, f[1]) && FieldIs(block, 2, f[2]) && FieldIs(block, 3, f[3]);
    assert FieldIs(block, 4, f[4]) && FieldIs(block, 5, f[5]) && FieldIs(block, 7, f[7]) && FieldIs(block, 8, f[8]);
    assert FieldIs(block, 9, f[9]) && FieldIs(block, 10, f[10]) && FieldIs(block, 11, f[11]) && FieldIs(block, 12, f[12]);
    assert FieldIs(block, 13, f[13]) && FieldIs(block, 14, f[14]) && FieldIs(block, 15, f[15]) && FieldIs(block, 16, f[16]);
    assert block[0..100] == f[0] && block[100..108] == f[1] && block[108..116] == f[2] && block[116..124] == f[3];
    assert block[124..136] == f[4] && block[136..148] == f[5] && block[156..157] == f[7] && block[157..257] == f[8];
    assert block[257..263] == f[9] && block[263..265] == f[10] && block[265..297] == f[11] && block[297..329] == f[12];
    assert block[329..337] == f[13] && block[337..345] == f[14] && block[345..500] == f[15] && block[500..512] == f[16];
    assert block[..|name|] == block[0..100][..|name|] && block[|name|..100] == block[0..100][|name|..];
    assert block[156] == block[156..157][0];
    assert block[265..329] == block[265..297] + block[297..329] && block[345..] == block[345..500] + block[500..512];
  }

  // ---------------------------------------------------------------------
  // Entries
  // ---------------------------------------------------------------------

  /** Bytes of padding after `size` bytes of content. */
  function Padding(size: nat): (p: nat)
    ensures p < BLOCK && (size + p) % BLOCK == 0
  {
    if size % BLOCK == 0 then 0 else BLOCK - size % BLOCK
  }

  function Entry(name: string, content: Bytes): Bytes
    requires |name| <= 100
  {
    HeaderBlock(name, |content|) + content + Zeros(Padding(|content|))
  }

  function Trailer(): Bytes { Zeros(2 * BLOCK) }

  datatype Next = End | Bad | Found(header: Header, rest: Bytes)

  /** The reader's step to the next header. */
  function NextHeader(data: Bytes): (next: Next)
    ensures next.Found? ==> |next.rest| + BLOCK == |data|
  {
    if data == [] then End
    else if |data| < BLOCK then Bad
    else if IsZero(data[..BLOCK]) then
      if |data| == BLOCK then End
      else if |data| < 2 * BLOCK then Bad
      else if IsZero(data[BLOCK..2 * BLOCK]) then End
      else Bad
    else
      match ParseHeader(data[..BLOCK])
      case None => Bad
      case Some(header) => Found(header, data[BLOCK..])
  }

  lemma TrailerEnds()
    ensures NextHeader(Trailer()) == End
  {
    hide ParseHeader;
    assert Trailer()[..BLOCK] == Zeros(BLOCK) && Trailer()[BLOCK..2 * BLOCK] == Zeros(BLOCK);
  }

  lemma NextOfEntry(name: string, content: Bytes, more: Bytes)
    requires name != "" && Ascii(name) && |name| < 100 && |content| < Pow8(11)
    ensures NextHeader(Entry(name, content) + more)
         == Found(CanonicalHeader(name, |content|), content + Zeros(Padding(|content|)) + more)
  {
    hide ParseHeader, Padding, Pow8, HeaderBlock, Zeros;
    var block := HeaderBlock(name, |content|);
    var tail := content + Zeros(Padding(|content|)) + more;
    BlockLength(name, |content|);
    assert Entry(name, content) + more == block + tail;
    assert (block + tail)[..BLOCK] == block && (block + tail)[BLOCK..] == tail;
    HeaderRoundTrip(name, |content|);
    HeaderStartsWithName(name, |content|);
    assert block[0] in block;
  }

  lemma HeaderStartsWithName(name: string, size: nat)
    requires name != "" && Ascii(name) && |name| <= 100
    ensures HeaderBlock(name, size) != [] && HeaderBlock(name, size)[0] != 0
  {
    hide Octal, Zeros, ChecksumField, Sum;
    var f := Fields(name, size, ChecksumField(name, size));
    assert Flatten(f) == f[0] + Flatten(f[1..]);
    assert f[0][0] == Octets(name)[0] && name[0] in name;
  }
}
