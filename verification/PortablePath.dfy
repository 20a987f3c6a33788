/**
 Names an output archive may use: relative, normalised, printable ASCII, free of
 characters and device names that some file system treats specially.
 */
module PortablePath {
  import opened Prelude
  import opened Paths

  const LENGTH_LIMIT := 4096
  const SEGMENT_LIMIT := 255
  const FORBIDDEN := "\\:*?\"<>|"
  const RESERVED: set<string> := {
    "CON", "PRN", "AUX", "NUL", "CONIN$", "CONOUT$", "CLOCK$",
    "COM1", "COM2", "COM3", "COM4", "COM5", "COM6", "COM7", "COM8", "COM9",
    "LPT1", "LPT2", "LPT3", "LPT4", "LPT5", "LPT6", "LPT7", "LPT8", "LPT9"}

  predicate PortableSegment(segment: string, first: bool)
  {
    && segment != "" && segment != "." && segment != ".."
    && ByteLength(segment) <= SEGMENT_LIMIT
    && segment[|segment| - 1] != '.' && segment[|segment| - 1] != ' '
    && !(first && (segment == ".home" || segment == ".tmp"))
    && (forall c :: c in segment ==> ' ' <= c <= '~' && c !in FORBIDDEN)
    && ToUpper(segment[..IndexOf(segment, '.')]) !in RESERVED
  }

  function StripDots(value: string): (stripped: string)
    ensures !HasPrefix(stripped, "./")
  {
    if HasPrefix(value, "./") then StripDots(value[2..]) else value
  }

  /** What is left after leading "./"; that it is unchanged by path.Clean follows from its segments. */
  predicate PortableRelative(value: string)
  {
    && value != "" && ByteLength(value) <= LENGTH_LIMIT && value[0] != '/' && '\\' !in value
    && var segments := Split(value, '/');
       forall k :: 0 <= k < |segments| ==> PortableSegment(segments[k], k == 0)
  }

  /** portableArchivePath: the relative path, empty for the root itself. */
  function PortableArchivePath(value: string): Option<string>
  {
    if value == "." || value == "./" then Some("")
    else if PortableRelative(StripDots(value)) then Some(StripDots(value))
    else None
  }

  /** portableArchiveHeaderPath: a directory may carry one trailing separator, nothing else any. */
  function PortableHeaderPath(value: string, isDirectory: bool): Option<string>
  {
    if HasSuffix(value, "/") then
      if !isDirectory || HasSuffix(value[..|value| - 1], "/") then None
      else PortableArchivePath(value[..|value| - 1])
    else PortableArchivePath(value)
  }

  /** An accepted path is accepted again, unchanged: what the stream named is what the walk will see. */
  lemma AcceptedIsFixed(value: string, relative: string)
    requires PortableArchivePath(value) == Some(relative) && relative != ""
    ensures PortableArchivePath(relative) == Some(relative)
    ensures relative[0] != '/' && forall k :: 0 <= k < |Split(relative, '/')| ==> CleanSegment(Split(relative, '/')[k])
  {
    assert relative == StripDots(value);
    assert StripDots(relative) == relative;
    if relative == "." { DotIsOneSegment(); }
    assert relative != "./";
    forall k | 0 <= k < |Split(relative, '/')| ensures CleanSegment(Split(relative, '/')[k]) {
      assert PortableSegment(Split(relative, '/')[k], k == 0);
    }
  }

  lemma DotIsOneSegment()
    ensures Split(".", '/') == ["."] && !PortableRelative(".")
  {
    assert Split(".", '/')[0] == ".";
  }

  lemma HeaderPathIsFixed(value: string, isDirectory: bool, relative: string)
    requires PortableHeaderPath(value, isDirectory) == Some(relative) && relative != ""
    ensures PortableArchivePath(relative) == Some(relative)
  {
    hide PortableArchivePath;
    if HasSuffix(value, "/") { AcceptedIsFixed(value[..|value| - 1], relative); } else { AcceptedIsFixed(value, relative); }
  }

  /** The directory a relative path lives in; empty for the root. */
  function Parent(path: string): (parent: string)
    ensures |parent| <= |path| && (path != "" ==> |parent| < |path|)
  {
    if path == "" then "" else if path[|path| - 1] == '/' then path[..|path| - 1] else Parent(path[..|path| - 1])
  }

  // ---------------------------------------------------------------------
  // The names, character by character
  // ---------------------------------------------------------------------

  /** From `i` to `j` stands one segment. */
  predicate SegmentAt(p: string, i: int, j: int)
  {
    && 0 <= i <= j <= |p|
    && (i == 0 || p[i - 1] == '/') && (j == |p| || p[j] == '/')
    && forall k :: i <= k < j ==> p[k] != '/'
  }

  predicate AllPortable(segments: seq<string>, first: bool)
  {
    forall k :: 0 <= k < |segments| ==> PortableSegment(segments[k], first && k == 0)
  }

  lemma AllPortableNext(segment: string, rest: seq<string>, first: bool)
    ensures AllPortable([segment] + rest, first) <==> PortableSegment(segment, first) && AllPortable(rest, false)
  {
    hide PortableSegment;
    var all := [segment] + rest;
    if AllPortable(all, first) {
      assert PortableSegment(all[0], first);
      forall k | 0 <= k < |rest| ensures PortableSegment(rest[k], false) { assert PortableSegment(all[k + 1], false); }
    }
  }

  predicate PortableAt(p: string, i: int, j: int, first: bool)
  {
    SegmentAt(p, i, j) ==> PortableSegment(p[i..j], first && i == 0)
  }

  ghost predicate PortableThroughout(p: string, first: bool) { forall i, j :: PortableAt(p, i, j, first) }

  lemma FirstSegment(p: string, n: nat, i: int, j: int)
    requires n < |p| && p[n] == '/' && forall k :: 0 <= k < n ==> p[k] != '/'
    ensures SegmentAt(p, 0, n)
    ensures SegmentAt(p, i, j) ==> (i == 0 && j == n) || i > n
  {
  }

  /** Behind the first separator the segments are those of the rest. */
  lemma RestSegment(p: string, n: nat, i: int, j: int)
    requires n < |p| && p[n] == '/'
    ensures 0 <= i ==> (SegmentAt(p[n + 1..], i, j) <==> SegmentAt(p, n + 1 + i, n + 1 + j))
    ensures 0 <= i <= j <= |p| - n - 1 ==> p[n + 1..][i..j] == p[n + 1 + i..n + 1 + j]
  {
    var rest := p[n + 1..];
    if 0 <= i <= j <= |rest| {
      assert forall k :: 0 <= k < |rest| ==> rest[k] == p[n + 1 + k];
      if SegmentAt(rest, i, j) {
        assert forall k :: n + 1 + i <= k < n + 1 + j ==> p[k] == rest[k - n - 1];
      }
      if SegmentAt(p, n + 1 + i, n + 1 + j) {
        assert forall k :: i <= k < j ==> rest[k] == p[k + n + 1];
      }
    }
  }

  lemma ThroughoutNext(p: string, n: nat, first: bool)
    requires n < |p| && p[n] == '/' && forall k :: 0 <= k < n ==> p[k] != '/'
    ensures PortableThroughout(p, first) <==> PortableSegment(p[..n], first) && PortableThroughout(p[n + 1..], false)
  {
    hide PortableSegment, SegmentAt;
    var rest := p[n + 1..];
    FirstSegment(p, n, 0, n);
    assert p[0..n] == p[..n];
    if PortableThroughout(p, first) {
      assert PortableAt(p, 0, n, first);
      forall i, j ensures PortableAt(rest, i, j, false) {
        if SegmentAt(rest, i, j) {
          SegmentWithin(rest, i, j);
          RestSegment(p, n, i, j);
          assert PortableAt(p, n + 1 + i, n + 1 + j, first);
        }
      }
    }
    if PortableSegment(p[..n], first) && PortableThroughout(rest, false) {
      forall i, j ensures PortableAt(p, i, j, first) {
        if SegmentAt(p, i, j) {
          SegmentWithin(p, i, j);
          FirstSegment(p, n, i, j);
          if i > n {
            RestSegment(p, n, i - n - 1, j - n - 1);
            assert PortableAt(rest, i - n - 1, j - n - 1, false);
          }
        }
      }
    }
  }

  lemma SegmentWithin(p: string, i: int, j: int)
    requires SegmentAt(p, i, j)
    ensures 0 <= i <= j <= |p|
  {
  }

  lemma OnlySegment(p: string, first: bool)
    requires '/' !in p
    ensures PortableThroughout(p, first) <==> PortableSegment(p, first)
  {
    hide PortableSegment;
    assert SegmentAt(p, 0, |p|) && p[0..|p|] == p;
    if PortableThroughout(p, first) { assert PortableAt(p, 0, |p|, first); }
  }

  lemma {:induction false} SplitPortable(p: string, first: bool)
    ensures AllPortable(Split(p, '/'), first) <==> PortableThroughout(p, first)
    decreases |p|
  {
    hide AllPortable, PortableThroughout, PortableSegment;
    var n := IndexOf(p, '/');
    if n < |p| {
      SplitPortable(p[n + 1..], false);
      AllPortableNext(p[..n], Split(p[n + 1..], '/'), first);
      ThroughoutNext(p, n, first);
    } else {
      AllPortableNext(p, [], first);
      assert [p] + [] == [p];
      NoSegments();
      OnlySegment(p, first);
    }
  }

  lemma NoSegments()
    ensures AllPortable([], false)
  {
  }

  const DEVICE_WORDS := ["CON", "PRN", "AUX", "NUL", "CONIN$", "CONOUT$", "CLOCK$"]
  const COM_PORTS := ["COM1", "COM2", "COM3", "COM4", "COM5", "COM6", "COM7", "COM8", "COM9"]
  const LPT_PORTS := ["LPT1", "LPT2", "LPT3", "LPT4", "LPT5", "LPT6", "LPT7", "LPT8", "LPT9"]

  predicate IsDevice(name: string) { name in DEVICE_WORDS || name in COM_PORTS || name in LPT_PORTS }

  /** Up to its first dot, and in either case of letters, the segment names a device. */
  predicate NamesDevice(segment: string, device: string)
  {
    && |segment| >= |device|
    && (|segment| == |device| || segment[|device|] == '.')
    && forall k :: 0 <= k < |device| ==>
         segment[k] == device[k] || ('A' <= device[k] <= 'Z' && segment[k] as int == device[k] as int + 32)
  }

  predicate Device(segment: string)
  {
    || (exists device :: device in DEVICE_WORDS && NamesDevice(segment, device))
    || (exists device :: device in COM_PORTS && NamesDevice(segment, device))
    || (exists device :: device in LPT_PORTS && NamesDevice(segment, device))
  }

  /** One segment: 1 to 255 printable ASCII characters but for eight, not ending in a dot or a space. */
  predicate PlainSegment(segment: string, first: bool)
  {
    && 1 <= |segment| <= 255
    && (forall k :: 0 <= k < |segment| ==> ' ' <= segment[k] <= '~' && segment[k] !in "\\:*?\"<>|")
    && segment[|segment| - 1] !in ". "
    && !(first && segment in [".home", ".tmp"])
    && !Device(segment)
  }

  lemma CapitalIs(c: char, capital: char)
    requires ' ' <= c <= '~'
    ensures Upper(c) == capital <==>
            (c == capital && !('a' <= c <= 'z')) || ('A' <= capital <= 'Z' && c as int == capital as int + 32)
  {
  }

  lemma DeviceIs(segment: string, device: string)
    requires forall k :: 0 <= k < |segment| ==> ' ' <= segment[k] <= '~'
    requires Capital(device)
    ensures ToUpper(segment[..IndexOf(segment, '.')]) == device <==> NamesDevice(segment, device)
  {
    var n := IndexOf(segment, '.');
    var upper := ToUpper(segment[..n]);
    assert |upper| == n && forall k :: 0 <= k < n ==> upper[k] == Upper(segment[k]);
    if NamesDevice(segment, device) {
      forall k | 0 <= k < |device| ensures segment[k] != '.' && Upper(segment[k]) == device[k] {
        CapitalIs(segment[k], device[k]);
      }
      assert n == |device|;
      assert upper == device;
    }
    if upper == device {
      forall k | 0 <= k < n
        ensures segment[k] == device[k] || ('A' <= device[k] <= 'Z' && segment[k] as int == device[k] as int + 32)
      {
        assert upper[k] == device[k];
        CapitalIs(segment[k], device[k]);
      }
    }
  }

  lemma ReservedAre(name: string)
    ensures name in RESERVED <==> IsDevice(name)
  {
  }

  predicate Capital(device: string) { forall k :: 0 <= k < |device| ==> device[k] != '.' && !('a' <= device[k] <= 'z') }

  lemma DevicesAreCapitals(device: string)
    ensures IsDevice(device) ==> Capital(device)
  {
    if device in DEVICE_WORDS { WordsAreCapitals(device); }
    if device in COM_PORTS { ComPortsAreCapitals(device); }
    if device in LPT_PORTS { LptPortsAreCapitals(device); }
    hide *;
  }

  lemma WordsAreCapitals(device: string)
    requires device in DEVICE_WORDS
    ensures Capital(device)
  {
  }

  lemma ComPortsAreCapitals(device: string)
    requires device in COM_PORTS
    ensures Capital(device)
  {
  }

  lemma LptPortsAreCapitals(device: string)
    requires device in LPT_PORTS
    ensures Capital(device)
  {
  }

  lemma DeviceMeans(segment: string)
    requires forall k :: 0 <= k < |segment| ==> ' ' <= segment[k] <= '~'
    ensures ToUpper(segment[..IndexOf(segment, '.')]) in RESERVED <==> Device(segment)
  {
    hide NamesDevice, ToUpper, RESERVED, DEVICE_WORDS, COM_PORTS, LPT_PORTS, Capital;
    var name := ToUpper(segment[..IndexOf(segment, '.')]);
    ReservedAre(name);
    forall device | IsDevice(device) ensures name == device <==> NamesDevice(segment, device) {
      DevicesAreCapitals(device);
      DeviceIs(segment, device);
    }
  }

  lemma {:induction false} AsciiBytes(s: string)
    requires forall k :: 0 <= k < |s| ==> s[k] as int < 0x80
    ensures ByteLength(s) == |s|
  {
    if s != "" {
      assert forall k :: 0 <= k < |s[1..]| ==> s[1..][k] == s[k + 1];
      AsciiBytes(s[1..]);
    }
  }

  lemma SegmentIsPlain(segment: string, first: bool)
    ensures PortableSegment(segment, first) <==> PlainSegment(segment, first)
  {
    hide ByteLength, ToUpper, Device;
    assert (forall c :: c in segment ==> ' ' <= c <= '~' && c !in FORBIDDEN) <==>
           forall k :: 0 <= k < |segment| ==> ' ' <= segment[k] <= '~' && segment[k] !in "\\:*?\"<>|" by {
      forall k | 0 <= k < |segment| ensures segment[k] in segment { }
    }
    if forall k :: 0 <= k < |segment| ==> ' ' <= segment[k] <= '~' {
      AsciiBytes(segment);
      DeviceMeans(segment);
    }
  }

  ghost predicate PlainRelative(p: string)
  {
    && 1 <= |p| <= 4096
    && forall i, j :: PlainAt(p, i, j)
  }

  function DotSlashes(n: nat): string { if n == 0 then "" else "./" + DotSlashes(n - 1) }

  lemma {:induction false} StripDotsMeans(value: string) returns (n: nat)
    ensures value == DotSlashes(n) + StripDots(value)
    decreases |value|
  {
    if HasPrefix(value, "./") {
      var k := StripDotsMeans(value[2..]);
      assert value == "./" + value[2..];
      n := k + 1;
      Associate("./", DotSlashes(k), StripDots(value));
    } else {
      n := 0;
    }
  }

  lemma {:induction false} StripDotsOf(n: nat, relative: string)
    ensures StripDots(DotSlashes(n) + relative) == StripDots(relative)
  {
    if n > 0 {
      StripDotsOf(n - 1, relative);
      Associate("./", DotSlashes(n - 1), relative);
      assert ("./" + (DotSlashes(n - 1) + relative))[2..] == DotSlashes(n - 1) + relative;
    } else {
      assert "" + relative == relative;
    }
  }

  predicate PlainAt(p: string, i: int, j: int) { SegmentAt(p, i, j) ==> PlainSegment(p[i..j], i == 0) }

  lemma RelativeIsPlain(p: string)
    ensures PortableRelative(p) <==> PlainRelative(p)
  {
    hide PortableSegment, PlainSegment, ByteLength, SegmentAt, AllPortable, PortableThroughout;
    SplitPortable(p, true);
    ThroughoutIsPlain(p);
    AllPortableMeans(p);
    if PortableThroughout(p, true) && p != "" { CharactersArePlain(p, true); }
  }

  lemma AllPortableMeans(p: string)
    ensures AllPortable(Split(p, '/'), true) <==>
            var segments := Split(p, '/'); forall k :: 0 <= k < |segments| ==> PortableSegment(segments[k], k == 0)
  {
    hide PortableSegment, Split;
  }

  lemma ThroughoutIsPlain(p: string)
    ensures PortableThroughout(p, true) <==> forall i, j :: PlainAt(p, i, j)
  {
    hide PortableSegment, PlainSegment;
    forall i, j ensures PortableAt(p, i, j, true) <==> PlainAt(p, i, j) {
      if SegmentAt(p, i, j) { SegmentIsPlain(p[i..j], i == 0); }
    }
  }

  /** The characters of a path are those of its segments and separators. */
  lemma {:induction false} CharactersArePlain(p: string, first: bool)
    requires AllPortable(Split(p, '/'), first)
    ensures forall k :: 0 <= k < |p| ==> ' ' <= p[k] <= '~' && p[k] != '\\'
    ensures ByteLength(p) == |p| && '\\' !in p
    ensures p != "" && p[0] != '/'
    decreases |p|
  {
    hide PortableSegment, ByteLength, AllPortable;
    var n := IndexOf(p, '/');
    var segment := p[..n];
    if n < |p| {
      var rest := p[n + 1..];
      AllPortableNext(segment, Split(rest, '/'), first);
      SegmentCharacters(segment, first);
      CharactersArePlain(rest, false);
      assert forall k :: n < k < |p| ==> p[k] == rest[k - n - 1];
    } else {
      assert p == segment;
      assert [segment] + [] == [segment];
      AllPortableNext(segment, [], first);
      SegmentCharacters(segment, first);
    }
    assert forall k :: 0 <= k < n ==> p[k] == segment[k];
    AsciiBytes(p);
  }

  lemma SegmentCharacters(segment: string, first: bool)
    requires PortableSegment(segment, first)
    ensures segment != "" && forall k :: 0 <= k < |segment| ==> ' ' <= segment[k] <= '~' && segment[k] != '\\'
  {
    hide ByteLength;
    assert FORBIDDEN[0] == '\\';
    forall k | 0 <= k < |segment| ensures segment[k] in segment { }
  }

  /** The paths that are accepted: the root, or a plain relative path behind any number of "./". */
  lemma PortableMeans(value: string, relative: string)
    ensures PortableArchivePath(value) == Some(relative) <==>
            || (relative == "" && (value == "." || value == "./"))
            || (PlainRelative(relative) && exists n :: value == DotSlashes(n) + relative)
  {
    hide PortableRelative, PlainRelative;
    var n := StripDotsMeans(value);
    RelativeIsPlain(StripDots(value));
    RelativeIsPlain(relative);
    if PlainRelative(relative) {
      PlainStart(relative);
      forall n | value == DotSlashes(n) + relative ensures StripDots(value) == relative && value != "." && value != "./" {
        StripDotsOf(n, relative);
      }
    }
  }

  lemma PlainStart(p: string)
    requires PlainRelative(p)
    ensures p != "" && p != "." && !HasPrefix(p, "./") && StripDots(p) == p
  {
    assert PlainAt(p, 0, 1);
    assert |p| >= 1 && p[0..1][0] == p[0];
    assert |p| >= 2 ==> p[..2][1] == p[1];
    hide Device;
  }

  /** An entry's name: a directory's may end in one separator. */
  lemma HeaderPathMeans(value: string, isDirectory: bool, relative: string)
    ensures PortableHeaderPath(value, isDirectory) == Some(relative) <==>
            || (PortableArchivePath(value) == Some(relative) && (value == "" || value[|value| - 1] != '/'))
            || (isDirectory && value != "" && value[|value| - 1] == '/'
                && (|value| == 1 || value[|value| - 2] != '/') && PortableArchivePath(value[..|value| - 1]) == Some(relative))
  {
    hide PortableArchivePath;
  }
}
