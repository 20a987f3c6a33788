/**
 Text and slash-separated paths, as Go and the Python helper see them. A
 string is a sequence of Unicode scalar values; its length in bytes is that of
 its UTF-8 encoding.
 */
module Paths {
  import opened Prelude

  const CONTAINER_OUTPUTS := "/outputs"
  const PATH_LIMIT := 1024

  function Utf8Width(c: char): nat
  {
    if c as int < 0x80 then 1 else if c as int < 0x800 then 2 else if c as int < 0x10000 then 3 else 4
  }

  /** len([]byte(s)). */
  function ByteLength(s: string): nat
  {
    if s == "" then 0 else Utf8Width(s[0]) + ByteLength(s[1..])
  }

  lemma {:induction false} ByteLengthAppend(s: string, t: string)
    ensures ByteLength(s + t) == ByteLength(s) + ByteLength(t)
  {
    if s == "" {
      assert s + t == t;
    } else {
      ByteLengthAppend(s[1..], t);
      assert (s + t)[1..] == s[1..] + t;
    }
  }

  lemma {:induction false} ByteLengthAtMost(s: string)
    ensures |s| <= ByteLength(s) <= 4 * |s|
  {
    if s != "" { ByteLengthAtMost(s[1..]); }
  }

  /** No character below U+0020 and no U+007F. */
  predicate Printable(s: string) { forall c :: c in s ==> ' ' <= c && c as int != 0x7f }

  function Split(s: string, separator: char): (segments: seq<string>)
    ensures segments != []
    decreases |s|
  {
    var i := IndexOf(s, separator);
    if i == |s| then [s] else [s[..i]] + Split(s[i + 1..], separator)
  }

  predicate CleanSegment(segment: string) { segment != "" && segment != "." && segment != ".." }

  /** The absolute paths that `path.Clean` (and Python's `os.path.normpath`) leave unchanged. */
  predicate IsCleanAbsolute(p: string)
  {
    && p != ""
    && p[0] == '/'
    && (p == "/" || forall k :: 0 <= k < |Split(p[1..], '/')| ==> CleanSegment(Split(p[1..], '/')[k]))
  }

  predicate BelowOutputs(p: string) { HasPrefix(p, CONTAINER_OUTPUTS + "/") }

  lemma {:induction false} TrailingSlashSplits(s: string)
    requires s != "" && s[|s| - 1] == '/'
    ensures Split(s, '/')[|Split(s, '/')| - 1] == ""
    decreases |s|
  {
    var i := IndexOf(s, '/');
    if i + 1 < |s| {
      TrailingSlashSplits(s[i + 1..]);
    } else {
      assert s[i + 1..] == "";
    }
  }

  /** A clean path other than the root does not end in a separator. */
  lemma CleanHasNoTrailingSlash(p: string)
    requires IsCleanAbsolute(p) && p != "/"
    ensures p[|p| - 1] != '/'
  {
    if p[|p| - 1] == '/' {
      TrailingSlashSplits(p[1..]);
    }
  }

  // ---------------------------------------------------------------------
  // The same, character by character
  // ---------------------------------------------------------------------

  /** At `i` a name begins that is neither empty nor one or two dots. */
  predicate NameAt(p: string, i: nat)
  {
    && i < |p| && p[i] != '/'
    && !(p[i] == '.' && (i + 1 == |p| || p[i + 1] == '/'))
    && !(p[i] == '.' && i + 1 < |p| && p[i + 1] == '.' && (i + 2 == |p| || p[i + 2] == '/'))
  }

  predicate NameBehindEverySlash(p: string) { forall i :: 0 <= i < |p| && p[i] == '/' ==> NameAt(p, i + 1) }

  predicate AllClean(segments: seq<string>) { forall k :: 0 <= k < |segments| ==> CleanSegment(segments[k]) }

  lemma AllCleanFirst(first: string, rest: seq<string>)
    ensures AllClean([first] + rest) <==> CleanSegment(first) && AllClean(rest)
  {
    hide CleanSegment;
    var all := [first] + rest;
    if AllClean(all) {
      assert CleanSegment(all[0]);
      forall k | 0 <= k < |rest| ensures CleanSegment(rest[k]) { assert CleanSegment(all[k + 1]); }
    }
  }

  lemma FirstNameIsClean(s: string)
    ensures CleanSegment(s[..IndexOf(s, '/')]) <==> NameAt(s, 0)
  {
    var i := IndexOf(s, '/');
    var first := s[..i];
    assert forall k :: 0 <= k < i ==> first[k] == s[k];
    assert first == "." <==> |first| == 1 && first[0] == '.';
    assert first == ".." <==> |first| == 2 && first[0] == '.' && first[1] == '.';
  }

  lemma NamesOfRest(s: string, n: nat)
    requires n <= |s| && forall k :: 0 <= k < n ==> s[k] != '/'
    ensures n < |s| && s[n] == '/' ==> (NameBehindEverySlash(s) <==> NameAt(s[n + 1..], 0) && NameBehindEverySlash(s[n + 1..]))
    ensures n == |s| ==> NameBehindEverySlash(s)
  {
    if n < |s| && s[n] == '/' {
      var rest := s[n + 1..];
      forall j | 0 <= j <= |rest| ensures NameAt(rest, j) <==> NameAt(s, n + 1 + j) {
        assert forall k :: 0 <= k < |rest| ==> rest[k] == s[n + 1 + k];
      }
      hide NameAt;
      if NameBehindEverySlash(s) {
        assert NameAt(s, n + 1 + 0);
        forall i | 0 <= i < |rest| && rest[i] == '/' ensures NameAt(rest, i + 1) {
          assert s[n + 1 + i] == '/';
          assert NameAt(s, n + 1 + (i + 1));
        }
      }
      if NameAt(rest, 0) && NameBehindEverySlash(rest) {
        forall i | 0 <= i < |s| && s[i] == '/' ensures NameAt(s, i + 1) {
          if i == n {
            assert NameAt(s, n + 1 + 0);
          } else {
            assert rest[i - n - 1] == '/';
            assert NameAt(s, n + 1 + (i - n));
          }
        }
      }
    }
  }

  lemma {:induction false} SplitByCharacters(s: string)
    ensures AllClean(Split(s, '/')) <==> NameAt(s, 0) && NameBehindEverySlash(s)
    decreases |s|
  {
    hide NameAt, NameBehindEverySlash, CleanSegment, AllClean;
    var i := IndexOf(s, '/');
    FirstNameIsClean(s);
    NamesOfRest(s, i);
    if i < |s| {
      SplitByCharacters(s[i + 1..]);
      AllCleanFirst(s[..i], Split(s[i + 1..], '/'));
    } else {
      AllCleanFirst(s, []);
      assert [s] + [] == [s] && s[..i] == s;
      NoneIsClean();
    }
  }

  lemma NoneIsClean()
    ensures AllClean([])
  {
  }

  /** A clean absolute path begins with a separator, and behind every separator stands a name. */
  lemma CleanByCharacters(p: string)
    ensures IsCleanAbsolute(p) <==> p == "/" || (p != "" && p[0] == '/' && NameBehindEverySlash(p))
  {
    if p != "" && p[0] == '/' {
      SplitByCharacters(p[1..]);
      NamesOfRest(p, 0);
    }
  }

  function From(s: string, low: int): set<int> { set i | 0 <= i < |s| && s[i] as int >= low }

  lemma FromNext(s: string, c: char, low: int)
    ensures |From(s + [c], low)| == |From(s, low)| + if c as int >= low then 1 else 0
  {
    assert forall i :: 0 <= i < |s| ==> (s + [c])[i] == s[i];
    assert From(s + [c], low) == From(s, low) + (if c as int >= low then {|s|} else {});
    assert |s| !in From(s, low);
  }

  /** One byte for each character and one more at each of U+0080, U+0800 and U+10000. */
  lemma {:induction false} ByteLengthIs(s: string)
    ensures ByteLength(s) == |s| + |From(s, 0x80)| + |From(s, 0x800)| + |From(s, 0x10000)|
    decreases |s|
  {
    if s == "" {
      assert From(s, 0x80) == {} && From(s, 0x800) == {} && From(s, 0x10000) == {};
    } else {
      hide From;
      var front, c := s[..|s| - 1], s[|s| - 1];
      assert s == front + [c];
      ByteLengthIs(front);
      ByteLengthAppend(front, [c]);
      assert ByteLength([c]) == Utf8Width(c) + ByteLength([c][1..]);
      FromNext(front, c, 0x80);
      FromNext(front, c, 0x800);
      FromNext(front, c, 0x10000);
    }
  }
}
