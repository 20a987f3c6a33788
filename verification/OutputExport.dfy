/**
 Exporting the sandbox's outputs: the entries of a tar stream are materialised
 under an empty staging root, then the tree is walked again and its inventory
 must equal the stream's. The staging root is a map from relative paths to nodes.
 */
module OutputExport {
  import opened Prelude
  import opened PortablePath
  import ArchiveLimit

  datatype TypeFlag = Directory | Regular | Unsupported

  /** A header as the archive reader yields it, with the content the stream goes on to supply: at most
      `size` bytes, fewer when it is cut short. `plain` is USTAR without extended records. */
  datatype Entry = Entry(
    plain: bool, name: string, typeflag: TypeFlag, linkname: string, size: int, content: Bytes, executable: bool)

  datatype Node = DirectoryNode | FileNode(content: Bytes, executable: bool) | LinkNode | SpecialNode

  type Tree = map<string, Node>

  datatype Summary = Summary(fileCount: nat, totalBytes: int)

  datatype Limits = Limits(maxEntries: int, diskBytes: int)

  datatype Extraction = Extraction(summary: Summary, seen: map<string, string>, tree: Tree)

  /** mkdir, and open with O_EXCL: the parent must be a directory and the name must be free. */
  predicate CanCreate(tree: Tree, path: string)
  {
    path !in tree && (Parent(path) == "" || (Parent(path) in tree && tree[Parent(path)].DirectoryNode?))
  }

  /** May a file of this size be added? In the order of the source, so that no int64 expression wraps. */
  predicate SizeFits(size: int, total: int, limit: int)
  {
    size >= 0 && total <= MAX_INT64 - size && size <= limit - total
  }

  function Relative(e: Entry): Option<string> { PortableHeaderPath(e.name, e.typeflag == Directory) }

  function NodeOf(e: Entry): Node { if e.typeflag == Directory then DirectoryNode else FileNode(e.content, e.executable) }

  // ---------------------------------------------------------------------
  // Extraction
  // ---------------------------------------------------------------------

  /** One turn of the extraction loop; None when it fails. */
  function Materialize(st: Extraction, e: Entry, limits: Limits): Option<Extraction>
  {
    if !e.plain || Relative(e).None? then None
    else
      var path := Relative(e).value;
      if path == "" then if e.typeflag == Directory then Some(st) else None
      else if ToLower(path) in st.seen || st.summary.fileCount + 1 > limits.maxEntries || e.linkname != "" then None
      else
        var size := if e.typeflag == Directory then 0 else e.size;
        var accepted := match e.typeflag {
          case Directory => e.size == 0
          case Regular => SizeFits(e.size, st.summary.totalBytes, limits.diskBytes) && |e.content| == e.size
          case Unsupported => false
        };
        if !accepted || !CanCreate(st.tree, path) then None
        else Some(Extraction(Summary(st.summary.fileCount + 1, st.summary.totalBytes + size),
                             st.seen[ToLower(path) := path], st.tree[path := NodeOf(e)]))
  }

  const Nothing := Extraction(Summary(0, 0), map[], map[])

  function Extract(entries: seq<Entry>, limits: Limits): Option<Extraction>
  {
    if entries == [] then Some(Nothing)
    else
      match Extract(entries[..|entries| - 1], limits)
      case None => None
      case Some(st) => Materialize(st, entries[|entries| - 1], limits)
  }

  lemma {:induction false} PrefixExtracts(entries: seq<Entry>, limits: Limits, i: nat)
    requires i <= |entries| && Extract(entries[..i], limits).None?
    ensures Extract(entries, limits).None?
    decreases |entries| - i
  {
    if i < |entries| {
      assert entries[..i + 1][..i] == entries[..i];
      PrefixExtracts(entries, limits, i + 1);
    } else {
      assert entries[..i] == entries;
    }
  }

  /** extractOutputArchive. `cleanEnd` is whether the stream ends with nothing but zero padding. */
  method ExtractOutputArchive(entries: seq<Entry>, cleanEnd: bool, limits: Limits) returns (extracted: Option<Extraction>)
    ensures extracted == if cleanEnd then Extract(entries, limits) else None
  {
    hide PortableHeaderPath, ToLower, Parent;
    var fileCount, totalBytes := 0, 0;
    var seen: map<string, string>, tree: Tree := map[], map[];
    assert entries[..0] == [];
    for i := 0 to |entries|
      invariant fileCount >= 0
      invariant Extract(entries[..i], limits) == Some(Extraction(Summary(fileCount, totalBytes), seen, tree))
    {
      var header := entries[i];
      assert entries[..i + 1][..i] == entries[..i];
      assert Extract(entries[..i + 1], limits)
          == Materialize(Extraction(Summary(fileCount, totalBytes), seen, tree), header, limits);
      if Materialize(Extraction(Summary(fileCount, totalBytes), seen, tree), header, limits) == None {
        PrefixExtracts(entries, limits, i + 1);
      }
      if !header.plain { return None; }
      var relative := Relative(header);
      if relative == None { return None; }
      var path := relative.value;
      if path == "" {
        if header.typeflag != Directory { return None; }
        continue;
      }
      var key := ToLower(path);
      if key in seen { return None; }
      seen := seen[key := path];
      fileCount := fileCount + 1;
      if fileCount > limits.maxEntries { return None; }
      if header.linkname != "" { return None; }
      match header.typeflag {
        case Directory =>
          if header.size != 0 { return None; }
          if !CanCreate(tree, path) { return None; }
          tree := tree[path := DirectoryNode];
        case Regular =>
          if header.size < 0 || totalBytes > MAX_INT64 - header.size || header.size > limits.diskBytes - totalBytes {
            return None;
          }
          if !CanCreate(tree, path) { return None; }
          if |header.content| != header.size { return None; }
          tree := tree[path := FileNode(header.content, header.executable)];
          totalBytes := totalBytes + header.size;
        case Unsupported =>
          return None;
      }
    }
    assert entries[..|entries|] == entries;
    if !cleanEnd { return None; }
    return Some(Extraction(Summary(fileCount, totalBytes), seen, tree));
  }

  // ---------------------------------------------------------------------
  // The second look
  // ---------------------------------------------------------------------

  datatype Walk = Walk(summary: Summary, names: map<string, string>)

  /** One node visited by the walk. */
  function Visit(w: Walk, tree: Tree, path: string, limits: Limits): Option<Walk>
    requires path in tree
  {
    var key := ToLower(path);
    if PortableArchivePath(path) == None then None
    else if key in w.names && w.names[key] != path then None
    else if w.summary.fileCount + 1 > limits.maxEntries then None
    else
      var names := w.names[key := path];
      match tree[path]
      case LinkNode => None
      case SpecialNode => None
      case DirectoryNode => Some(Walk(Summary(w.summary.fileCount + 1, w.summary.totalBytes), names))
      case FileNode(content, _) =>
        if !SizeFits(|content|, w.summary.totalBytes, limits.diskBytes) then None
        else Some(Walk(Summary(w.summary.fileCount + 1, w.summary.totalBytes + |content|), names))
  }

  function VisitAll(tree: Tree, order: seq<string>, limits: Limits): Option<Walk>
    requires forall p :: p in order ==> p in tree
  {
    if order == [] then Some(Walk(Summary(0, 0), map[]))
    else
      match VisitAll(tree, order[..|order| - 1], limits)
      case None => None
      case Some(w) => Visit(w, tree, order[|order| - 1], limits)
  }

  /** The inventory of a walk that visits the nodes in the given order. */
  function Inventory(tree: Tree, order: seq<string>, limits: Limits): Option<Summary>
    requires forall p :: p in order ==> p in tree
  {
    if limits.diskBytes <= 0 || VisitAll(tree, order, limits).None? then None
    else Some(VisitAll(tree, order, limits).value.summary)
  }

  lemma {:induction false} PrefixVisits(tree: Tree, order: seq<string>, limits: Limits, i: nat)
    requires i <= |order| && forall p :: p in order ==> p in tree
    requires VisitAll(tree, order[..i], limits).None?
    ensures VisitAll(tree, order, limits).None?
    decreases |order| - i
  {
    if i < |order| {
      assert order[..i + 1][..i] == order[..i];
      PrefixVisits(tree, order, limits, i + 1);
    } else {
      assert order[..i] == order;
    }
  }

  /** validateExportedOutputs. */
  method ValidateExportedOutputs(tree: Tree, order: seq<string>, limits: Limits) returns (summary: Option<Summary>)
    requires forall p :: p in order ==> p in tree
    ensures summary == Inventory(tree, order, limits)
  {
    hide PortableArchivePath, ToLower;
    if limits.diskBytes <= 0 { return None; }
    var fileCount, totalBytes := 0, 0;
    var portableNames: map<string, string> := map[];
    assert order[..0] == [];
    for i := 0 to |order|
      invariant fileCount >= 0
      invariant VisitAll(tree, order[..i], limits) == Some(Walk(Summary(fileCount, totalBytes), portableNames))
    {
      var portable := order[i];
      assert order[..i + 1][..i] == order[..i];
      if Visit(Walk(Summary(fileCount, totalBytes), portableNames), tree, portable, limits) == None {
        PrefixVisits(tree, order, limits, i + 1);
      }
      if PortableArchivePath(portable) == None { return None; }
      var key := ToLower(portable);
      if key in portableNames && portableNames[key] != portable { return None; }
      portableNames := portableNames[key := portable];
      fileCount := fileCount + 1;
      if fileCount > limits.maxEntries { return None; }
      match tree[portable] {
        case LinkNode => return None;
        case DirectoryNode =>
        case FileNode(content, _) =>
          if totalBytes > MAX_INT64 - |content| || |content| > limits.diskBytes - totalBytes { return None; }
          totalBytes := totalBytes + |content|;
        case SpecialNode => return None;
      }
    }
    assert order[..|order|] == order;
    return Some(Summary(fileCount, totalBytes));
  }

  // ---------------------------------------------------------------------
  // What extraction leaves behind
  // ---------------------------------------------------------------------

  function SizeAt(tree: Tree, path: string): nat
  {
    if path in tree && tree[path].FileNode? then |tree[path].content| else 0
  }

  function SumOver(tree: Tree, order: seq<string>): nat
  {
    if order == [] then 0 else SumOver(tree, order[..|order| - 1]) + SizeAt(tree, order[|order| - 1])
  }

  ghost function SumOf(tree: Tree, paths: set<string>): nat { SumSet(paths, p => SizeAt(tree, p)) }

  lemma SumOfAny(tree: Tree, paths: set<string>, p: string)
    requires p in paths
    ensures SumOf(tree, paths) == SizeAt(tree, p) + SumOf(tree, paths - {p})
  {
    SumSetAny(paths, p => SizeAt(tree, p), p);
  }

  lemma SumOfSame(one: Tree, other: Tree, paths: set<string>)
    requires forall p :: p in paths ==> SizeAt(one, p) == SizeAt(other, p)
    ensures SumOf(one, paths) == SumOf(other, paths)
  {
    SumSetSame(paths, p => SizeAt(one, p), p => SizeAt(other, p));
  }

  lemma {:induction false} SumOverIsSumOf(tree: Tree, order: seq<string>)
    requires Distinct(order)
    ensures SumOver(tree, order) == SumOf(tree, Elements(order))
  {
    if order != [] {
      var front, last := order[..|order| - 1], order[|order| - 1];
      SumOverIsSumOf(tree, front);
      assert forall k :: 0 <= k < |front| ==> front[k] == order[k];
      assert Elements(order) == Elements(front) + {last};
      assert Elements(order) - {last} == Elements(front);
      SumOfAny(tree, Elements(order), last);
    }
  }

  /** A path the walk gets to: every directory above it is there and is a directory. */
  predicate Reached(tree: Tree, path: string)
    decreases |path|
  {
    && path in tree && path != ""
    && (Parent(path) == "" || (Parent(path) in tree && tree[Parent(path)].DirectoryNode? && Reached(tree, Parent(path))))
  }

  ghost predicate Indexed(st: Extraction)
  {
    && (forall p :: p in st.tree ==> ToLower(p) in st.seen && st.seen[ToLower(p)] == p)
    && (forall key :: key in st.seen ==> st.seen[key] in st.tree)
  }

  /** What was counted and summed is what is there. */
  ghost predicate Measured(st: Extraction, limits: Limits)
  {
    && st.summary.fileCount == |st.tree| && (st.tree != map[] ==> |st.tree| <= limits.maxEntries)
    && st.summary.totalBytes == SumOf(st.tree, st.tree.Keys) <= MAX_INT64
    && (st.summary.totalBytes > 0 ==> st.summary.totalBytes <= limits.diskBytes)
  }

  /** Every node has a portable name, its directories above it, and is a directory or a file. */
  ghost predicate Placed(tree: Tree)
  {
    forall p :: p in tree ==>
      PortableArchivePath(p) == Some(p) && Reached(tree, p) && (tree[p].DirectoryNode? || tree[p].FileNode?)
  }

  ghost predicate Sound(st: Extraction, limits: Limits) { Measured(st, limits) && Indexed(st) && Placed(st.tree) }

  lemma {:induction false} ReachedStays(tree: Tree, path: string, node: Node, p: string)
    requires path !in tree && Reached(tree, p)
    ensures Reached(tree[path := node], p)
    decreases |p|
  {
    if Parent(p) != "" { ReachedStays(tree, path, node, Parent(p)); }
  }

  lemma SumGrows(tree: Tree, path: string, node: Node)
    requires path !in tree
    ensures var next := tree[path := node]; SumOf(next, next.Keys) == SumOf(tree, tree.Keys) + SizeAt(next, path)
  {
    var next := tree[path := node];
    assert next.Keys == tree.Keys + {path};
    assert next.Keys - {path} == tree.Keys;
    SumOfAny(next, next.Keys, path);
    SumOfSame(tree, next, tree.Keys);
  }

  lemma IndexedNext(st: Extraction, path: string, node: Node)
    requires Indexed(st) && ToLower(path) !in st.seen
    ensures path !in st.tree
    ensures Indexed(Extraction(st.summary, st.seen[ToLower(path) := path], st.tree[path := node]))
  {
    hide ToLower;
  }

  lemma PlacedNext(tree: Tree, path: string, node: Node)
    requires Placed(tree) && CanCreate(tree, path) && path != ""
    requires PortableArchivePath(path) == Some(path) && (node.DirectoryNode? || node.FileNode?)
    ensures Placed(tree[path := node])
  {
    hide PortableArchivePath, Parent;
    var next := tree[path := node];
    assert Reached(next, path) by {
      if Parent(path) != "" { ReachedStays(tree, path, node, Parent(path)); }
    }
    forall p | p in tree ensures Reached(next, p) { ReachedStays(tree, path, node, p); }
    hide Reached;
  }

  lemma MeasuredNext(st: Extraction, e: Entry, limits: Limits)
    requires Measured(st, limits) && Materialize(st, e, limits).Some?
    ensures Measured(Materialize(st, e, limits).value, limits)
  {
    hide SumOf, Relative, Parent, ToLower;
    var path := Relative(e).value;
    if path != "" {
      SumGrows(st.tree, path, NodeOf(e));
      assert st.tree[path := NodeOf(e)].Keys == st.tree.Keys + {path};
    }
  }

  lemma SoundStep(st: Extraction, e: Entry, limits: Limits)
    requires Sound(st, limits) && Materialize(st, e, limits).Some?
    ensures Sound(Materialize(st, e, limits).value, limits)
  {
    hide PortableHeaderPath, PortableArchivePath, Indexed, ToLower, Parent, Measured, Placed;
    var path := Relative(e).value;
    MeasuredNext(st, e, limits);
    if path != "" {
      HeaderPathIsFixed(e.name, e.typeflag == Directory, path);
      IndexedNext(st, path, NodeOf(e));
      PlacedNext(st.tree, path, NodeOf(e));
      IndexedIgnoresSummary(st, Materialize(st, e, limits).value, path, NodeOf(e));
    }
  }

  lemma IndexedIgnoresSummary(st: Extraction, next: Extraction, path: string, node: Node)
    requires Indexed(Extraction(st.summary, st.seen[ToLower(path) := path], st.tree[path := node]))
    requires next.seen == st.seen[ToLower(path) := path] && next.tree == st.tree[path := node]
    ensures Indexed(next)
  {
  }

  /** The entries of an accepted stream name distinct places, and each place holds what its entry says. */
  ghost predicate Holds(st: Extraction, entries: seq<Entry>)
  {
    && (forall e :: e in entries ==> Relative(e).Some?)
    && (forall e :: e in entries && Relative(e).value != "" ==>
          Relative(e).value in st.tree && st.tree[Relative(e).value] == NodeOf(e))
    && (forall p :: p in st.tree ==> exists e :: e in entries && Relative(e) == Some(p))
  }

  lemma HoldsStep(st: Extraction, entries: seq<Entry>, e: Entry, limits: Limits)
    requires Holds(st, entries) && Sound(st, limits) && Materialize(st, e, limits).Some?
    ensures Holds(Materialize(st, e, limits).value, entries + [e])
  {
    hide ToLower, PortableHeaderPath, Reached, SumOf, PortableArchivePath;
    var next := Materialize(st, e, limits).value;
    assert forall x :: x in entries + [e] <==> x in entries || x == e;
    forall p | p in next.tree ensures exists x :: x in entries + [e] && Relative(x) == Some(p) {
      if p in st.tree {
        var x :| x in entries && Relative(x) == Some(p);
        assert x in entries + [e];
      } else {
        assert e in entries + [e];
      }
    }
  }

  lemma {:induction false} ExtractionIsSound(entries: seq<Entry>, limits: Limits, st: Extraction)
    requires Extract(entries, limits) == Some(st)
    ensures Sound(st, limits) && Holds(st, entries)
  {
    hide Materialize, Sound, Holds;
    if entries == [] {
      NothingIsSound(limits);
    } else {
      var front := entries[..|entries| - 1];
      var before := Extract(front, limits).value;
      ExtractionIsSound(front, limits, before);
      SoundStep(before, entries[|entries| - 1], limits);
      HoldsStep(before, front, entries[|entries| - 1], limits);
      assert front + [entries[|entries| - 1]] == entries;
    }
  }

  lemma NothingIsSound(limits: Limits)
    ensures Sound(Nothing, limits) && Holds(Nothing, [])
  {
  }

  // ---------------------------------------------------------------------
  // Which streams are accepted
  // ---------------------------------------------------------------------

  predicate Named(e: Entry) { Relative(e).Some? && Relative(e).value != "" }

  function NamedCount(entries: seq<Entry>): nat
  {
    if entries == [] then 0 else NamedCount(entries[..|entries| - 1]) + if Named(entries[|entries| - 1]) then 1 else 0
  }

  /** The bytes of the regular files among some entries. */
  function FileBytes(entries: seq<Entry>): int
  {
    if entries == [] then 0
    else
      var last := entries[|entries| - 1];
      FileBytes(entries[..|entries| - 1]) + if Named(last) && last.typeflag == Regular then last.size else 0
  }

  /** What one entry must satisfy, given the entries before it and nothing else: plain, portably named,
      no link; not a name seen before in any case; below a directory seen before; a complete regular
      file within the byte limits or an empty directory; and not one entry too many. */
  ghost predicate Lawful(before: seq<Entry>, e: Entry, limits: Limits)
  {
    && e.plain && Relative(e).Some?
    && (Relative(e).value == "" ==> e.typeflag == Directory)
    && (Named(e) ==>
          var path := Relative(e).value;
          && e.linkname == ""
          && (forall b :: b in before && Named(b) ==> ToLower(Relative(b).value) != ToLower(path))
          && (Parent(path) == "" || exists b :: b in before && Relative(b) == Some(Parent(path)) && b.typeflag == Directory)
          && NamedCount(before) + 1 <= limits.maxEntries
          && (e.typeflag == Directory ==> e.size == 0)
          && (e.typeflag == Regular ==>
                |e.content| == e.size && FileBytes(before) + e.size <= MAX_INT64 && FileBytes(before) + e.size <= limits.diskBytes)
          && e.typeflag != Unsupported)
  }

  /** The loop's variables hold what the entries before say. */
  ghost predicate Recalls(st: Extraction, before: seq<Entry>)
  {
    st.summary == Summary(NamedCount(before), FileBytes(before)) && RecallsNames(st.seen, before)
  }

  ghost predicate RecallsNames(seen: map<string, string>, before: seq<Entry>)
  {
    forall key :: key in seen <==> exists b :: b in before && Named(b) && ToLower(Relative(b).value) == key
  }

  lemma LawfulIffMaterializes(st: Extraction, before: seq<Entry>, e: Entry, limits: Limits)
    requires Sound(st, limits) && Holds(st, before) && Recalls(st, before)
    ensures Materialize(st, e, limits).Some? <==> Lawful(before, e, limits)
  {
    hide ToLower, PortableHeaderPath, Reached, SumOf, PortableArchivePath, NamedCount, FileBytes, Parent;
    if Named(e) {
      var path := Relative(e).value;
      FreeIff(st, before, path);
      ParentIff(st, before, path);
      hide Sound, Holds, Recalls;
      RecallsTotals(st, before);
      RecallsSeen(st, before, path);
    }
  }

  lemma RecallsTotals(st: Extraction, before: seq<Entry>)
    requires Recalls(st, before)
    ensures st.summary == Summary(NamedCount(before), FileBytes(before))
  {
  }

  lemma RecallsSeen(st: Extraction, before: seq<Entry>, path: string)
    requires Recalls(st, before)
    ensures ToLower(path) in st.seen <==> !forall b :: b in before && Named(b) ==> ToLower(Relative(b).value) != ToLower(path)
  {
    hide ToLower, Relative;
  }

  /** A name not seen in any case is free in the tree. */
  lemma FreeIff(st: Extraction, before: seq<Entry>, path: string)
    requires Recalls(st, before) && Holds(st, before) && path != ""
    ensures ToLower(path) !in st.seen ==> path !in st.tree
  {
    hide ToLower, PortableHeaderPath;
    if path in st.tree {
      var b :| b in before && Relative(b) == Some(path);
      assert Named(b);
    }
  }

  lemma ParentIff(st: Extraction, before: seq<Entry>, path: string)
    requires Holds(st, before)
    ensures Parent(path) != "" ==>
              ((Parent(path) in st.tree && st.tree[Parent(path)].DirectoryNode?)
               <==> exists b :: b in before && Relative(b) == Some(Parent(path)) && b.typeflag == Directory)
  {
    hide PortableHeaderPath, Parent;
    if Parent(path) in st.tree && st.tree[Parent(path)].DirectoryNode? {
      var b :| b in before && Relative(b) == Some(Parent(path));
      if Parent(path) != "" { assert st.tree[Parent(path)] == NodeOf(b); }
    }
  }

  lemma RecallsNamesNext(seen: map<string, string>, before: seq<Entry>, e: Entry)
    requires RecallsNames(seen, before)
    ensures Named(e) ==> RecallsNames(seen[ToLower(Relative(e).value) := Relative(e).value], before + [e])
    ensures !Named(e) ==> RecallsNames(seen, before + [e])
  {
    hide ToLower, Relative;
    var next := if Named(e) then seen[ToLower(Relative(e).value) := Relative(e).value] else seen;
    assert forall b :: b in before + [e] <==> b in before || b == e;
    forall key ensures key in next <==> exists b :: b in before + [e] && Named(b) && ToLower(Relative(b).value) == key {
      if key in seen {
        var b :| b in before && Named(b) && ToLower(Relative(b).value) == key;
        assert b in before + [e];
      }
      if Named(e) && key == ToLower(Relative(e).value) { assert e in before + [e]; }
    }
  }

  lemma TotalsNext(before: seq<Entry>, e: Entry)
    ensures NamedCount(before + [e]) == NamedCount(before) + if Named(e) then 1 else 0
    ensures FileBytes(before + [e]) == FileBytes(before) + if Named(e) && e.typeflag == Regular then e.size else 0
  {
    hide Relative;
    assert (before + [e])[..|before|] == before;
  }

  lemma RecallsNext(st: Extraction, before: seq<Entry>, e: Entry, limits: Limits)
    requires Recalls(st, before) && Materialize(st, e, limits).Some?
    ensures Recalls(Materialize(st, e, limits).value, before + [e])
  {
    hide ToLower, Relative, CanCreate, RecallsNames, NamedCount, FileBytes;
    RecallsNamesNext(st.seen, before, e);
    TotalsNext(before, e);
  }

  ghost predicate AllLawful(entries: seq<Entry>, limits: Limits)
  {
    forall i :: 0 <= i < |entries| ==> Lawful(entries[..i], entries[i], limits)
  }

  lemma AllLawfulNext(front: seq<Entry>, last: Entry, limits: Limits)
    ensures AllLawful(front + [last], limits) <==> AllLawful(front, limits) && Lawful(front, last, limits)
  {
    hide Lawful;
    var entries := front + [last];
    assert entries[..|front|] == front && entries[|front|] == last;
    assert forall i :: 0 <= i < |front| ==> front[..i] == entries[..i] && front[i] == entries[i];
  }

  /** A stream is accepted exactly when every entry is lawful after those before it. */
  lemma {:induction false} ExtractsIffLawful(entries: seq<Entry>, limits: Limits)
    ensures Extract(entries, limits).Some? <==> AllLawful(entries, limits)
    ensures Extract(entries, limits).Some? ==> Recalls(Extract(entries, limits).value, entries)
  {
    hide Materialize, Lawful, Recalls, Sound, Holds;
    if entries == [] {
      NothingRecalled();
    } else {
      var front, last := entries[..|entries| - 1], entries[|entries| - 1];
      ExtractsIffLawful(front, limits);
      AllLawfulNext(front, last, limits);
      assert entries == front + [last];
      hide AllLawful;
      if Extract(front, limits).Some? {
        var before := Extract(front, limits).value;
        ExtractionIsSound(front, limits, before);
        LawfulIffMaterializes(before, front, last, limits);
        if Materialize(before, last, limits).Some? { RecallsNext(before, front, last, limits); }
      }
    }
  }

  lemma NothingRecalled()
    ensures Recalls(Nothing, [])
  {
  }

  // ---------------------------------------------------------------------
  // What an accepted stream leaves behind
  // ---------------------------------------------------------------------

  lemma EntriesAreHeld(entries: seq<Entry>, limits: Limits, st: Extraction, e: Entry)
    requires Extract(entries, limits) == Some(st) && e in entries && Relative(e) != Some("")
    ensures Relative(e).Some? && Relative(e).value in st.tree
    ensures e.typeflag == Directory || e.typeflag == Regular
    ensures e.typeflag == Directory ==> e.size == 0 && st.tree[Relative(e).value] == DirectoryNode
    ensures e.typeflag == Regular ==>
              && |e.content| == e.size
              && st.tree[Relative(e).value].FileNode?
              && st.tree[Relative(e).value].content == e.content
              && st.tree[Relative(e).value].executable == e.executable
  {
    hide Extract, ToLower, PortableHeaderPath, PortableArchivePath, Reached, SumOf, Recalls, NamedCount, FileBytes, Parent, Sound;
    ExtractionIsSound(entries, limits, st);
    ExtractsIffLawful(entries, limits);
    var i :| 0 <= i < |entries| && entries[i] == e;
    assert Lawful(entries[..i], entries[i], limits);
  }

  /** What an accepted stream leaves behind: exactly its entries, each under its own portable path
      below the root with all its parent directories, a directory for a directory and for a regular
      file one of that content, executable or not; no two names alike when case is ignored, as many nodes
      as were counted, as many bytes as were summed, and no more of either than allowed. */
  lemma ExtractedTree(entries: seq<Entry>, limits: Limits, st: Extraction)
    requires Extract(entries, limits) == Some(st)
    ensures forall e :: e in entries && Relative(e) != Some("") ==>
              && Relative(e).Some? && Relative(e).value in st.tree
              && (e.typeflag == Directory || e.typeflag == Regular)
              && (e.typeflag == Directory ==> st.tree[Relative(e).value] == DirectoryNode)
              && (e.typeflag == Regular ==>
                    && st.tree[Relative(e).value].FileNode?
                    && st.tree[Relative(e).value].content == e.content
                    && st.tree[Relative(e).value].executable == e.executable)
    ensures forall p :: p in st.tree ==> exists e :: e in entries && Relative(e) == Some(p)
    ensures forall p, q :: p in st.tree && q in st.tree && ToLower(p) == ToLower(q) ==> p == q
    ensures forall p :: p in st.tree ==> PortableArchivePath(p) == Some(p) && Reached(st.tree, p)
    ensures |st.tree| == st.summary.fileCount && (st.tree != map[] ==> |st.tree| <= limits.maxEntries)
    ensures SumOf(st.tree, st.tree.Keys) == st.summary.totalBytes
    ensures st.summary.totalBytes > 0 ==> st.summary.totalBytes <= limits.diskBytes
  {
    hide Extract, Relative, NodeOf, ToLower, PortableArchivePath, Reached, SumOf;
    ExtractionIsSound(entries, limits, st);
    forall e | e in entries && Relative(e) != Some("")
      ensures Relative(e).Some? && Relative(e).value in st.tree
      ensures e.typeflag == Directory || e.typeflag == Regular
      ensures e.typeflag == Directory ==> st.tree[Relative(e).value] == DirectoryNode
      ensures e.typeflag == Regular ==>
                && st.tree[Relative(e).value].FileNode?
                && st.tree[Relative(e).value].content == e.content
                && st.tree[Relative(e).value].executable == e.executable
    {
      EntriesAreHeld(entries, limits, st, e);
    }
  }

  // ---------------------------------------------------------------------
  // The two inventories agree
  // ---------------------------------------------------------------------

  lemma {:induction false} SumOverMonotone(tree: Tree, order: seq<string>, i: nat)
    requires i <= |order|
    ensures SumOver(tree, order[..i]) <= SumOver(tree, order)
    decreases |order| - i
  {
    if i < |order| {
      assert order[..i + 1][..i] == order[..i];
      SumOverMonotone(tree, order, i + 1);
    } else {
      assert order[..i] == order;
    }
  }

  lemma {:induction false} VisitsSucceed(st: Extraction, limits: Limits, order: seq<string>, i: nat)
    requires Sound(st, limits) && limits.diskBytes > 0
    requires Distinct(order) && Elements(order) == st.tree.Keys && i <= |order|
    ensures forall p :: p in order ==> p in st.tree
    ensures var w := VisitAll(st.tree, order[..i], limits);
            && w.Some? && w.value.summary == Summary(i, SumOver(st.tree, order[..i]))
            && forall key :: key in w.value.names ==> w.value.names[key] in st.tree && ToLower(w.value.names[key]) == key
  {
    hide ToLower, PortableArchivePath, Reached, SumOf, Visit, SumOver, Distinct;
    forall p | p in order ensures p in st.tree { assert p in Elements(order); }
    if i > 0 {
      VisitsSucceed(st, limits, order, i - 1);
      var front, path := order[..i - 1], order[i - 1];
      assert order[..i][..i - 1] == front && order[..i][i - 1] == path;
      PartialSums(st, limits, order, i);
      var w := VisitAll(st.tree, front, limits).value;
      assert path in order;
      VisitSucceeds(st, limits, w, path);
    } else {
      assert order[..i] == [];
      assert SumOver(st.tree, []) == 0 by { SumOverNothing(st.tree); }
    }
  }

  lemma SumOverNothing(tree: Tree)
    ensures SumOver(tree, []) == 0
  {
  }

  lemma PartialSums(st: Extraction, limits: Limits, order: seq<string>, i: nat)
    requires Sound(st, limits) && limits.diskBytes > 0
    requires Distinct(order) && Elements(order) == st.tree.Keys && 0 < i <= |order|
    ensures SumOver(st.tree, order[..i]) == SumOver(st.tree, order[..i - 1]) + SizeAt(st.tree, order[i - 1])
    ensures SumOver(st.tree, order[..i]) <= MAX_INT64 && SumOver(st.tree, order[..i]) <= limits.diskBytes
    ensures i <= limits.maxEntries
  {
    hide Indexed, Reached, PortableArchivePath, SumOf, Distinct, Elements;
    assert order[..i][..i - 1] == order[..i - 1];
    DistinctCount(order);
    SumOverMonotone(st.tree, order, i);
    SumOverIsSumOf(st.tree, order);
  }

  lemma VisitSucceeds(st: Extraction, limits: Limits, w: Walk, path: string)
    requires Sound(st, limits) && path in st.tree
    requires w.summary.fileCount + 1 <= limits.maxEntries && w.summary.totalBytes >= 0
    requires w.summary.totalBytes + SizeAt(st.tree, path) <= Min(MAX_INT64, limits.diskBytes)
    requires forall key :: key in w.names ==> w.names[key] in st.tree && ToLower(w.names[key]) == key
    ensures var next := Visit(w, st.tree, path, limits);
            && next.Some? && next.value.names == w.names[ToLower(path) := path]
            && next.value.summary == Summary(w.summary.fileCount + 1, w.summary.totalBytes + SizeAt(st.tree, path))
  {
    hide ToLower, PortableArchivePath, Reached, SumOf;
  }

  /** Whatever order the second walk takes, it reaches every extracted node and no other, and its
      inventory is the stream's own, if and only if the disk limit is positive. (Extraction alone
      accepts an empty tree under any limit.) */
  lemma WalkAgreesWithStream(entries: seq<Entry>, limits: Limits, st: Extraction, order: seq<string>)
    requires Extract(entries, limits) == Some(st)
    requires Distinct(order) && forall p :: p in order <==> Reached(st.tree, p)
    ensures Elements(order) == st.tree.Keys
    ensures forall p :: p in order ==> p in st.tree
    ensures Inventory(st.tree, order, limits) == if limits.diskBytes > 0 then Some(st.summary) else None
  {
    hide Extract, Materialize;
    ExtractionIsSound(entries, limits, st);
    forall p ensures p in Elements(order) <==> p in st.tree.Keys { }
    if limits.diskBytes > 0 {
      VisitsSucceed(st, limits, order, |order|);
      assert order[..|order|] == order;
      SumOverIsSumOf(st.tree, order);
      DistinctCount(order);
      hide VisitAll, Reached;
    }
  }

  /** The empty stream under no limit at all: extraction accepts it, the second walk does not. */
  lemma EmptyStreamUnderNoLimit()
    ensures var limits := Limits(1, 0);
            Extract([], limits) == Some(Nothing) && Inventory(Nothing.tree, [], limits) == None
  {
  }

  /** In the whole export the archive ceiling is computed first, so the final comparison of the two
      inventories can never be what fails it. */
  lemma InventoriesNeverDiffer(entries: seq<Entry>, limits: Limits, st: Extraction, order: seq<string>)
    requires ArchiveLimit.ByteLimit(limits.diskBytes, limits.maxEntries).Some?
    requires Extract(entries, limits) == Some(st)
    requires Distinct(order) && forall p :: p in order <==> Reached(st.tree, p)
    ensures forall p :: p in order ==> p in st.tree
    ensures Inventory(st.tree, order, limits) == Some(st.summary)
  {
    hide Extract, Reached, Inventory;
    WalkAgreesWithStream(entries, limits, st, order);
  }
}
