/**
 The attestation bundle: a canonical tar of five, six or seven known files. The
 reader takes an archive apart, picks the model from the names it found, builds
 that model again and insists on the same bytes.
 */
module Bundle {
  import opened Prelude
  import opened Ustar

  const ATTESTATION := "attestation.json"
  const MANIFEST := "bundle-manifest.json"
  const VERIFICATION := "payload/verification.json"
  const SBOM := "payload/sbom.spdx.json"
  const PROVENANCE := "payload/sbom-provenance.json"
  const SIGNATURE := "signature.dsse.json"
  const PUBLIC_KEY := "signer-public-key.pem"

  const MAX_BUNDLE := 0x140_0000         // 20 MiB
  const MAX_VERIFICATION := 0x100_0000   // 16 MiB
  const MAX_JSON := 0x10_0000            // 1 MiB
  const MAX_SBOM := 0x10_0000
  const MAX_PROVENANCE := 0x4000         // 16 KiB
  const MAX_PUBLIC_KEY := 0x4000
  const MAX_FILES := 7

  type Files = map<string, Bytes>

  /** bundleFileLimit. */
  function Limit(name: string): (limit: Option<nat>)
    ensures limit.Some? ==> 0 < |name| < 100 && limit.value <= MAX_VERIFICATION
  {
    if name == ATTESTATION || name == MANIFEST || name == SIGNATURE then Some(MAX_JSON)
    else if name == VERIFICATION then Some(MAX_VERIFICATION)
    else if name == SBOM then Some(MAX_SBOM)
    else if name == PROVENANCE then Some(MAX_PROVENANCE)
    else if name == PUBLIC_KEY then Some(MAX_PUBLIC_KEY)
    else None
  }

  function Paths(hasSbom: bool): seq<string>
  {
    if hasSbom then [ATTESTATION, MANIFEST, VERIFICATION, SBOM, SIGNATURE, PUBLIC_KEY]
    else [ATTESTATION, MANIFEST, VERIFICATION, SIGNATURE, PUBLIC_KEY]
  }

  function PathsV2(): seq<string>
  {
    [ATTESTATION, MANIFEST, PROVENANCE, SBOM, VERIFICATION, SIGNATURE, PUBLIC_KEY]
  }

  /** One of the three fixed lists. */
  predicate IsModel(paths: seq<string>) { paths == Paths(false) || paths == Paths(true) || paths == PathsV2() }

  // ---------------------------------------------------------------------
  // Building
  // ---------------------------------------------------------------------

  predicate Fits(files: Files, name: string)
  {
    name in files && Limit(name).Some? && |files[name]| <= Limit(name).value
  }

  predicate AllFit(files: Files, paths: seq<string>) { forall i :: 0 <= i < |paths| ==> Fits(files, paths[i]) }

  function Body(files: Files, paths: seq<string>): Bytes
    requires AllFit(files, paths)
  {
    if paths == [] then []
    else
      assert Fits(files, paths[0]);
      Entry(paths[0], files[paths[0]]) + Body(files, paths[1..])
  }

  function Build(files: Files, paths: seq<string>): Option<Bytes>
  {
    if |files| != |paths| || !AllFit(files, paths) then None
    else
      var archive := Body(files, paths) + Trailer();
      if |archive| > MAX_BUNDLE then None else Some(archive)
  }

  lemma BodyAppend(files: Files, paths: seq<string>, i: nat)
    requires i < |paths| && AllFit(files, paths[..i + 1])
    ensures AllFit(files, paths[..i]) && Fits(files, paths[i])
    ensures Body(files, paths[..i + 1]) == Body(files, paths[..i]) + Entry(paths[i], files[paths[i]])
  {
    assert Fits(files, paths[..i + 1][i]);
    assert forall k :: 0 <= k < i ==> paths[..i][k] == paths[..i + 1][k];
    BodySplit(files, paths[..i], [paths[i]]);
    assert paths[..i] + [paths[i]] == paths[..i + 1];
    assert Body(files, [paths[i]]) == Entry(paths[i], files[paths[i]]) by { OneEntry(files, paths[i]); }
  }

  lemma OneEntry(files: Files, name: string)
    requires Fits(files, name)
    ensures Body(files, [name]) == Entry(name, files[name])
  {
    hide Entry;
    assert [name][1..] == [];
    assert Entry(name, files[name]) + [] == Entry(name, files[name]);
  }

  lemma BodyHead(files: Files, paths: seq<string>)
    requires paths != [] && AllFit(files, paths)
    ensures Fits(files, paths[0]) && AllFit(files, paths[1..])
    ensures Body(files, paths) == Entry(paths[0], files[paths[0]]) + Body(files, paths[1..])
  {
    hide Entry;
    assert forall k :: 0 <= k < |paths| - 1 ==> paths[1..][k] == paths[k + 1];
  }

  lemma {:induction false} BodySplit(files: Files, front: seq<string>, rest: seq<string>)
    requires AllFit(files, front + rest)
    ensures AllFit(files, front) && AllFit(files, rest)
    ensures Body(files, front + rest) == Body(files, front) + Body(files, rest)
  {
    hide Entry, Fits;
    var all := front + rest;
    assert forall k :: 0 <= k < |front| ==> front[k] == all[k];
    assert forall k :: 0 <= k < |rest| ==> rest[k] == all[|front| + k];
    hide AllFit;
    if front == [] {
      assert all == rest;
    } else {
      assert all[1..] == front[1..] + rest;
      BodyHead(files, all);
      BodyHead(files, front);
      FittingNameIsShort(files, front[0]);
      BodySplit(files, front[1..], rest);
      var entry := Entry(front[0], files[front[0]]);
      hide Body;
      Associate(entry, Body(files, front[1..]), Body(files, rest));
    }
  }

  lemma FittingNameIsShort(files: Files, name: string)
    requires Fits(files, name)
    ensures name in files && 0 < |name| < 100 && |files[name]| <= MAX_VERIFICATION
  {
  }

  /** buildCanonicalTarPaths. */
  method BuildCanonicalTarPaths(files: Files, paths: seq<string>) returns (archive: Option<Bytes>)
    ensures archive == Build(files, paths)
  {
    hide Entry, Fits, Trailer;
    if |files| != |paths| { return None; }
    var output: Bytes := [];
    assert paths[..0] == [];
    for i := 0 to |paths|
      invariant AllFit(files, paths[..i])
      invariant output == Body(files, paths[..i])
    {
      var name := paths[i];
      if !Fits(files, name) { return None; }
      FittingNameIsShort(files, name);
      assert forall k :: 0 <= k < i + 1 ==> paths[..i + 1][k] == if k < i then paths[..i][k] else name;
      BodyAppend(files, paths, i);
      output := output + Entry(name, files[name]);
    }
    assert paths[..|paths|] == paths;
    output := output + Trailer();
    if |output| > MAX_BUNDLE { return None; }
    return Some(output);
  }

  // ---------------------------------------------------------------------
  // Parsing
  // ---------------------------------------------------------------------

  /** validBundlePath; its other conditions hold of every name on the list. */
  predicate ValidBundlePath(name: string) { name in PathsV2() }

  predicate CanonicalMetadata(h: Header)
  {
    && h.typeflag == REGULAR && h.ustar && h.mode == 0x180 && h.uid == 0 && h.gid == 0 && h.mtime == 0
    && h.linkname == "" && h.uname == "" && h.gname == "" && h.devmajor == 0 && h.devminor == 0
  }

  /** The checks on one header, given what was collected before it. */
  predicate Admits(h: Header, files: Files, folded: set<string>)
  {
    && |files| < MAX_FILES
    && ValidBundlePath(h.name)
    && ToLower(h.name) !in folded
    && Limit(h.name).Some?
    && h.name !in files
    && CanonicalMetadata(h)
    && h.size <= Limit(h.name).value
  }

  function ReadEntries(data: Bytes, files: Files, folded: set<string>): Option<Files>
    decreases |data|
  {
    match NextHeader(data)
    case End => Some(files)
    case Bad => None
    case Found(h, rest) =>
      if !Admits(h, files, folded) || |rest| < h.size + Padding(h.size) then None
      else ReadEntries(rest[h.size + Padding(h.size)..], files[h.name := rest[..h.size]], folded + {ToLower(h.name)})
  }

  /** The path list the names found select, if they make up exactly one of the three models. */
  function Select(files: Files): Option<seq<string>>
  {
    if PROVENANCE in files && SBOM !in files then None
    else
      var paths := if PROVENANCE in files then PathsV2() else Paths(SBOM in files);
      if |files| != |paths| || exists p :: p in paths && p !in files then None else Some(paths)
  }

  datatype Parsed = Parsed(files: Files, hasSbom: bool)

  function Parse(bundle: Bytes): Option<Parsed>
  {
    if bundle == [] || |bundle| > MAX_BUNDLE then None
    else
      match ReadEntries(bundle, map[], {})
      case None => None
      case Some(files) =>
        match Select(files)
        case None => None
        case Some(paths) => if Build(files, paths) == Some(bundle) then Some(Parsed(files, SBOM in files)) else None
  }

  /** The names found decide which model the archive must be. */
  method SelectPaths(files: Files) returns (selected: Option<seq<string>>)
    ensures selected == Select(files)
  {
    hide Paths, PathsV2;
    var hasSbom, derived := SBOM in files, PROVENANCE in files;
    var paths := Paths(hasSbom);
    if derived {
      if !hasSbom { return None; }
      paths := PathsV2();
    }
    if |files| != |paths| { return None; }
    for i := 0 to |paths|
      invariant forall k :: 0 <= k < i ==> paths[k] in files
    {
      if paths[i] !in files { return None; }
    }
    return Some(paths);
  }

  /** parseCanonicalTarModel. */
  method ParseCanonicalTarModel(bundle: Bytes) returns (parsed: Option<Parsed>)
    ensures parsed == Parse(bundle)
  {
    hide Limit, ValidBundlePath, ToLower, CanonicalMetadata, Build, Select, NextHeader, Padding;
    if bundle == [] || |bundle| > MAX_BUNDLE { return None; }
    var data, files, folded := bundle, map[], {};
    while true
      invariant ReadEntries(bundle, map[], {}) == ReadEntries(data, files, folded)
      decreases |data|
    {
      var next := NextHeader(data);
      if next.End? { break; }
      if next.Bad? || |files| >= MAX_FILES { return None; }
      var h := next.header;
      if !ValidBundlePath(h.name) { return None; }
      if ToLower(h.name) in folded { return None; }
      var limit := Limit(h.name);
      if limit == None { return None; }
      if h.name in files { return None; }
      if !CanonicalMetadata(h) || h.size > limit.value { return None; }
      if |next.rest| < h.size + Padding(h.size) { return None; }
      assert Admits(h, files, folded);
      folded := folded + {ToLower(h.name)};
      files := files[h.name := next.rest[..h.size]];
      data := next.rest[h.size + Padding(h.size)..];
    }
    var selected := SelectPaths(files);
    if selected == None { return None; }
    var canonical := BuildCanonicalTarPaths(files, selected.value);
    if canonical != Some(bundle) { return None; }
    return Some(Parsed(files, SBOM in files));
  }

  // ---------------------------------------------------------------------
  // The two agree
  // ---------------------------------------------------------------------

  /** Printable ASCII without capitals. */
  predicate Plain(s: string) { forall i :: 0 <= i < |s| ==> ' ' <= s[i] <= '~' && !('A' <= s[i] <= 'Z') }

  lemma AttestationIsPlain() ensures Plain(ATTESTATION) { }
  lemma ManifestIsPlain() ensures Plain(MANIFEST) { }
  lemma VerificationIsPlain() ensures Plain(VERIFICATION) { }
  lemma SbomIsPlain() ensures Plain(SBOM) { }
  lemma ProvenanceIsPlain() ensures Plain(PROVENANCE) { }
  lemma SignatureIsPlain() ensures Plain(SIGNATURE) { }
  lemma PublicKeyIsPlain() ensures Plain(PUBLIC_KEY) { }

  lemma PlainNames(name: string)
    requires Limit(name).Some?
    ensures Plain(name)
  {
    AttestationIsPlain(); ManifestIsPlain(); VerificationIsPlain(); SbomIsPlain();
    ProvenanceIsPlain(); SignatureIsPlain(); PublicKeyIsPlain();
    hide Plain;
  }

  lemma PlainIsLowerAscii(s: string)
    requires Plain(s)
    ensures Ascii(s) && ToLower(s) == s
  {
  }

  lemma LimitedIsValid(name: string)
    requires Limit(name).Some?
    ensures ValidBundlePath(name)
  {
    var all := PathsV2();
    assert all[0] in all && all[1] in all && all[2] in all && all[3] in all && all[4] in all && all[5] in all && all[6] in all;
  }

  lemma KnownNames(name: string)
    requires Limit(name).Some?
    ensures Ascii(name) && ToLower(name) == name && ValidBundlePath(name)
  {
    hide *;
    PlainNames(name);
    PlainIsLowerAscii(name);
    LimitedIsValid(name);
  }

  lemma NamesDiffer()
    ensures Distinct(PathsV2()) && Distinct(Paths(true)) && Distinct(Paths(false))
    ensures forall paths :: IsModel(paths) ==> |paths| <= MAX_FILES
  {
    assert |ATTESTATION| == 16 && |MANIFEST| == 20 && |VERIFICATION| == 25 && |SBOM| == 22 && |PROVENANCE| == 28
           && |SIGNATURE| == 19 && |PUBLIC_KEY| == 21;
  }

  function Restrict(files: Files, paths: seq<string>): Files { map p | p in paths && p in files :: files[p] }

  /** One entry the builder wrote, read back. */
  lemma ReadEntry(files: Files, name: string, acc: Files, more: Bytes)
    requires Fits(files, name) && name !in acc && |acc| < MAX_FILES
    ensures 0 < |name| < 100
    ensures ReadEntries(Entry(name, files[name]) + more, acc, acc.Keys)
         == ReadEntries(more, acc[name := files[name]], acc[name := files[name]].Keys)
  {
    hide Entry, NextHeader, Limit, ToLower, ValidBundlePath, Padding, Pow8, Ascii;
    var content := files[name];
    FittingNameIsShort(files, name);
    KnownNames(name);
    SizesFit(|content|);
    NextOfEntry(name, content, more);
    SkipContent(content, more);
    var next := acc[name := content];
    assert next.Keys == acc.Keys + {name};
    assert Admits(CanonicalHeader(name, |content|), acc, acc.Keys);
  }

  lemma RestrictNext(files: Files, paths: seq<string>, acc: Files)
    requires paths != [] && paths[0] in files
    ensures acc[paths[0] := files[paths[0]]] + Restrict(files, paths[1..]) == acc + Restrict(files, paths)
  {
    var name, rest := paths[0], paths[1..];
    assert forall p :: p in paths <==> p == name || p in rest;
  }

  /** What reading a builder's output yields, from any point on. */
  lemma {:induction false} ReadBody(files: Files, paths: seq<string>, acc: Files)
    requires AllFit(files, paths) && Distinct(paths)
    requires forall p :: p in paths ==> p !in acc
    requires |acc| + |paths| <= MAX_FILES
    ensures ReadEntries(Body(files, paths) + Trailer(), acc, acc.Keys) == Some(acc + Restrict(files, paths))
  {
    hide Entry, NextHeader, Trailer, Admits, Padding;
    if paths == [] {
      assert Body(files, paths) + Trailer() == Trailer();
      TrailerEnds();
      assert acc + Restrict(files, paths) == acc;
    } else {
      var name, rest := paths[0], paths[1..];
      BodyHead(files, paths);
      hide Body, ReadEntries, AllFit, Restrict;
      var more := Body(files, rest) + Trailer();
      assert name !in acc;
      ReadEntry(files, name, acc, more);
      assert Body(files, paths) + Trailer() == Entry(name, files[name]) + more;
      NotRepeated(paths);
      assert forall p :: p in rest ==> p in paths;
      ReadBody(files, rest, acc[name := files[name]]);
      RestrictNext(files, paths, acc);
    }
  }

  lemma SizesFit(size: nat)
    requires size <= MAX_VERIFICATION
    ensures size < Pow8(11)
  {
    Powers();
  }

  lemma NotRepeated<T>(s: seq<T>)
    requires s != [] && Distinct(s)
    ensures Distinct(s[1..]) && s[0] !in s[1..]
  {
    assert forall k :: 0 <= k < |s| - 1 ==> s[1..][k] == s[k + 1];
  }

  lemma SkipContent(content: Bytes, more: Bytes)
    ensures var rest, n := content + Zeros(Padding(|content|)) + more, |content|;
            |rest| >= n + Padding(n) && rest[..n] == content && rest[n + Padding(n)..] == more
  {
  }

  /** A file map a model builds has that model's names and no others, so the model can be told from it. */
  lemma BuiltIsSelected(files: Files, paths: seq<string>)
    requires IsModel(paths) && |files| == |paths| && AllFit(files, paths)
    ensures files.Keys == Elements(paths) && Select(files) == Some(paths) && Distinct(paths)
  {
    NamesDiffer();
    assert Distinct(paths);
    DistinctCount(paths);
    assert Elements(paths) <= files.Keys by {
      forall p | p in paths ensures p in files { var i :| 0 <= i < |paths| && paths[i] == p; assert Fits(files, paths[i]); }
    }
    SubsetCount(Elements(paths), files.Keys);
    ModelMarkers();
    hide Paths, PathsV2, Limit;
  }

  lemma ModelMarkers()
    ensures PROVENANCE in PathsV2() && SBOM in PathsV2() && SBOM in Paths(true)
    ensures PROVENANCE !in Paths(true) && PROVENANCE !in Paths(false) && SBOM !in Paths(false)
  {
    assert PROVENANCE == PathsV2()[2] && SBOM == PathsV2()[3] && SBOM == Paths(true)[3];
    assert |ATTESTATION| == 16 && |MANIFEST| == 20 && |VERIFICATION| == 25 && |SBOM| == 22 && |PROVENANCE| == 28
           && |SIGNATURE| == 19 && |PUBLIC_KEY| == 21;
  }

  lemma RestrictToAll(files: Files, paths: seq<string>)
    requires files.Keys == Elements(paths)
    ensures Restrict(files, paths) == files
  {
    assert forall p :: p in files <==> p in Elements(paths);
  }

  /** What the builder writes for a model, the parser reads back. */
  lemma BuiltParses(files: Files, paths: seq<string>, bundle: Bytes)
    requires IsModel(paths) && Build(files, paths) == Some(bundle)
    ensures Parse(bundle) == Some(Parsed(files, SBOM in files)) && files.Keys == Elements(paths)
  {
    hide Entry, NextHeader, Limit, Paths, PathsV2, ReadEntries, Body, Select, AllFit;
    BuiltIsSelected(files, paths);
    NamesDiffer();
    var nothing: Files := map[];
    assert nothing.Keys == {};
    ReadBody(files, paths, nothing);
    assert bundle == Body(files, paths) + Trailer() && |Trailer()| == 2 * BLOCK;
    RestrictToAll(files, paths);
    hide Restrict;
    assert nothing + Restrict(files, paths) == files;
  }

  /** Parsing is the exact inverse of building: an archive is accepted with a file map if and only if
      it is what one of the three models builds from that map. */
  lemma ParsesIffBuilt(bundle: Bytes, files: Files, hasSbom: bool)
    ensures Parse(bundle) == Some(Parsed(files, hasSbom)) <==>
            hasSbom == (SBOM in files) && exists paths :: IsModel(paths) && Build(files, paths) == Some(bundle)
  {
    hide Build, ReadEntries;
    if hasSbom == (SBOM in files) {
      if paths :| IsModel(paths) && Build(files, paths) == Some(bundle) {
        hide Parse;
        BuiltParses(files, paths, bundle);
      }
    }
  }

  /** Two accepted archives with the same contents are the same bytes. */
  lemma EqualContentsEqualBytes(one: Bytes, other: Bytes)
    requires Parse(one).Some? && Parse(other).Some?
    ensures Parse(one).value.files == Parse(other).value.files <==> one == other
  {
    hide ReadEntries, Build, Select;
    SelectedByContents(one);
    SelectedByContents(other);
  }

  lemma SelectedByContents(bundle: Bytes)
    requires Parse(bundle).Some?
    ensures Select(Parse(bundle).value.files).Some?
    ensures Build(Parse(bundle).value.files, Select(Parse(bundle).value.files).value) == Some(bundle)
  {
    hide ReadEntries, Build, Select;
  }

  // ---------------------------------------------------------------------
  // A bundle, byte by byte
  // ---------------------------------------------------------------------

  function RoundUp(n: nat): nat { (n + 511) / 512 * 512 }

  /** Where the entry of the `i`th path starts. */
  function Start(files: Files, paths: seq<string>, i: nat): nat
    requires i <= |paths|
  {
    if i == 0 then 0
    else Start(files, paths, i - 1) + 512 + (if paths[i - 1] in files then RoundUp(|files[paths[i - 1]]|) else 0)
  }

  /** An entry: its header, its content and zeros up to a whole block. */
  ghost predicate EntryAt(bundle: Bytes, start: nat, name: string, content: Bytes)
  {
    && |name| <= 100
    && start + 512 + RoundUp(|content|) <= |bundle|
    && LaidOut(bundle[start..start + 512], name, |content|)
    && ParseOctal(bundle[start + 148..start + 156])
       == Some(Sum(bundle[start..start + 148]) + 8 * 32 + Sum(bundle[start + 156..start + 512]))
    && bundle[start + 512..start + 512 + |content|] == content
    && IsZero(bundle[start + 512 + |content|..start + 512 + RoundUp(|content|)])
  }

  lemma PaddingRoundsUp(n: nat)
    ensures n + Padding(n) == RoundUp(n)
  {
  }

  lemma EntryIsLaidOut(name: string, content: Bytes)
    requires 0 < |name| < 100 && |content| <= MAX_VERIFICATION
    ensures |Entry(name, content)| == 512 + RoundUp(|content|)
    ensures EntryAt(Entry(name, content), 0, name, content)
  {
    hide HeaderBlock, LaidOut, ParseOctal, Sum, Pow8, Padding, RoundUp;
    SizesFit(|content|);
    WrittenLayout(name, |content|);
    WrittenChecksum(name, |content|);
    PaddingRoundsUp(|content|);
    var block, entry := HeaderBlock(name, |content|), Entry(name, content);
    assert entry[0..512] == block;
    assert entry[148..156] == block[148..156] && entry[0..148] == block[..148] && entry[156..512] == block[156..];
    assert entry[512..512 + |content|] == content;
    assert entry[512 + |content|..] == Zeros(Padding(|content|));
  }

  lemma EntryShifted(front: Bytes, entry: Bytes, back: Bytes, name: string, content: Bytes)
    requires EntryAt(entry, 0, name, content)
    ensures EntryAt(front + entry + back, |front|, name, content)
  {
    hide LaidOut, ParseOctal, Sum, IsZero, RoundUp, Padding;
    PaddingRoundsUp(|content|);
    var whole, k := front + entry + back, |front|;
    forall i: nat, j: nat | i <= j <= |entry| ensures whole[k + i..k + j] == entry[i..j] { }
    assert whole[k + 0..k + 512] == entry[0..512];
    assert whole[k + 148..k + 156] == entry[148..156];
    assert whole[k + 0..k + 148] == entry[0..148];
    assert whole[k + 156..k + 512] == entry[156..512];
    assert whole[k + 512..k + (512 + |content|)] == entry[512..512 + |content|];
    assert whole[k + (512 + |content|)..k + (512 + RoundUp(|content|))] == entry[512 + |content|..512 + RoundUp(|content|)];
  }

  lemma {:induction false} BodyLength(files: Files, paths: seq<string>, i: nat)
    requires AllFit(files, paths) && i <= |paths|
    ensures AllFit(files, paths[..i]) && |Body(files, paths[..i])| == Start(files, paths, i)
  {
    hide Entry, RoundUp, Limit, Body;
    if i > 0 {
      BodyLength(files, paths, i - 1);
      assert forall k :: 0 <= k < i ==> paths[..i][k] == paths[k];
      assert paths[..i - 1 + 1] == paths[..i];
      BodyAppend(files, paths, i - 1);
      FittingNameIsShort(files, paths[i - 1]);
      EntryIsLaidOut(paths[i - 1], files[paths[i - 1]]);
    } else {
      NothingInBody(files, paths);
    }
  }

  lemma NothingInBody(files: Files, paths: seq<string>)
    ensures AllFit(files, paths[..0]) && Body(files, paths[..0]) == []
  {
  }

  /** What a bundle is made of: the files in the order of the list, each under its own header with its
      own length and checksum, padded to blocks, and two blocks of zeros at the end. */
  lemma BuiltLayout(files: Files, paths: seq<string>, bundle: Bytes, i: nat)
    requires Build(files, paths) == Some(bundle) && i < |paths|
    ensures paths[i] in files && EntryAt(bundle, Start(files, paths, i), paths[i], files[paths[i]])
    ensures |bundle| == Start(files, paths, |paths|) + 1024 && IsZero(bundle[|bundle| - 1024..])
  {
    hide Entry, RoundUp, Limit, Body, EntryAt;
    var name := paths[i];
    BodyLength(files, paths, i);
    BodyLength(files, paths, |paths|);
    assert paths[..|paths|] == paths && paths == paths[..i + 1] + paths[i + 1..];
    assert |Trailer()| == 1024 && bundle == Body(files, paths) + Trailer();
    assert bundle[|bundle| - 1024..] == Trailer();
    BodySplit(files, paths[..i + 1], paths[i + 1..]);
    BodyAppend(files, paths, i);
    FittingNameIsShort(files, name);
    EntryIsLaidOut(name, files[name]);
    var front, entry, back := Body(files, paths[..i]), Entry(name, files[name]), Body(files, paths[i + 1..]) + Trailer();
    assert bundle == front + entry + back;
    EntryShifted(front, entry, back, name, files[name]);
  }

  /** How large each file may be. */
  predicate WithinLimit(name: string, size: nat)
  {
    || (name == "payload/verification.json" && size <= 16 * 1024 * 1024)
    || (name in ["attestation.json", "bundle-manifest.json", "signature.dsse.json", "payload/sbom.spdx.json"] && size <= 1024 * 1024)
    || (name in ["payload/sbom-provenance.json", "signer-public-key.pem"] && size <= 16 * 1024)
  }

  lemma LimitIs(name: string, size: nat)
    ensures Limit(name).Some? && size <= Limit(name).value <==> WithinLimit(name, size)
  {
    assert |ATTESTATION| == 16 && |MANIFEST| == 20 && |VERIFICATION| == 25 && |SBOM| == 22 && |PROVENANCE| == 28
           && |SIGNATURE| == 19 && |PUBLIC_KEY| == 21;
  }

  /** The builder refuses a file map exactly for a missing or additional file, one over its limit, or an
      archive over 20 MiB. */
  lemma BuildsIff(files: Files, paths: seq<string>)
    requires IsModel(paths)
    ensures Build(files, paths).Some? <==>
            && files.Keys == Elements(paths)
            && (forall name :: name in files ==> WithinLimit(name, |files[name]|))
            && Start(files, paths, |paths|) + 1024 <= 20 * 1024 * 1024
  {
    hide Body, Limit, Paths, PathsV2, WithinLimit, RoundUp, Entry;
    forall name | name in files
      ensures Limit(name).Some? && |files[name]| <= Limit(name).value <==> WithinLimit(name, |files[name]|)
    {
      LimitIs(name, |files[name]|);
    }
    NamesDiffer();
    DistinctCount(paths);
    if |files| == |paths| && AllFit(files, paths) {
      BuiltIsSelected(files, paths);
      BodyLength(files, paths, |paths|);
      assert paths[..|paths|] == paths;
      forall name | name in files ensures WithinLimit(name, |files[name]|) {
        assert name in Elements(paths);
        var i :| 0 <= i < |paths| && paths[i] == name;
        assert Fits(files, paths[i]);
      }
    } else if files.Keys == Elements(paths) && (forall name :: name in files ==> WithinLimit(name, |files[name]|)) {
      forall i | 0 <= i < |paths| ensures Fits(files, paths[i]) { assert paths[i] in Elements(paths); }
    }
  }

  /** Which file lists there are. */
  lemma ModelsAre(paths: seq<string>)
    ensures IsModel(paths) <==>
            || paths == ["attestation.json", "bundle-manifest.json", "payload/verification.json", "signature.dsse.json", "signer-public-key.pem"]
            || paths == ["attestation.json", "bundle-manifest.json", "payload/verification.json", "payload/sbom.spdx.json",
                         "signature.dsse.json", "signer-public-key.pem"]
            || paths == ["attestation.json", "bundle-manifest.json", "payload/sbom-provenance.json", "payload/sbom.spdx.json",
                         "payload/verification.json", "signature.dsse.json", "signer-public-key.pem"]
  {
  }
}
