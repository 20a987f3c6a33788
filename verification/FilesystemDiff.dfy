/**
 Retained state: two snapshots of /outputs, the list of changes between them,
 and the comparison of those changes with the write scope granted during the
 run.
 */
module FilesystemDiff {
  import opened Prelude
  import opened Ordering

  const CHANGE_LIMIT := 256
  const PATTERN_LIMIT := 256

  datatype Entry = Entry(path: string, kind: string, mode: int, size: int, digest: string)

  datatype ChangeKind = Create | Delete | Modify | TypeChange

  datatype Change = Change(path: string, kind: ChangeKind, before: Option<Entry>, after: Option<Entry>)

  type Index = map<string, Entry>

  /** Entries by path; a later entry for the same path wins. */
  function IndexOfEntries(entries: seq<Entry>): Index
  {
    if entries == [] then map[]
    else var last := entries[|entries| - 1]; IndexOfEntries(entries[..|entries| - 1])[last.path := last]
  }

  // ---------------------------------------------------------------------
  // Changes
  // ---------------------------------------------------------------------

  /** The change at one path, if its entries differ. */
  function ChangeAt(before: Index, after: Index, path: string): (change: Option<Change>)
    ensures change.Some? ==> change.value.path == path
  {
    if path !in before && path !in after then None
    else if path !in before then Some(Change(path, Create, None, Some(after[path])))
    else if path !in after then Some(Change(path, Delete, Some(before[path]), None))
    else if before[path] == after[path] then None
    else Some(Change(path, if before[path].kind != after[path].kind then TypeChange else Modify,
                     Some(before[path]), Some(after[path])))
  }

  /** Of several entries for one path the last is kept. */
  lemma {:induction false} LastEntryIsKept(entries: seq<Entry>, path: string, e: Entry)
    ensures var index := IndexOfEntries(entries);
            && (path in index <==> exists i :: 0 <= i < |entries| && entries[i].path == path)
            && (path in index && index[path] == e <==>
                exists i :: 0 <= i < |entries| && entries[i].path == path && entries[i] == e
                         && forall k :: i < k < |entries| ==> entries[k].path != path)
  {
    if entries != [] {
      var n := |entries| - 1;
      var front := entries[..n];
      LastEntryIsKept(front, path, e);
      assert forall k :: 0 <= k < n ==> front[k] == entries[k];
      if entries[n].path != path {
        if i :| 0 <= i < n && front[i].path == path && front[i] == e && forall k :: i < k < n ==> front[k].path != path {
          assert forall k :: i < k < |entries| ==> entries[k].path != path;
        }
      }
    }
  }

  function PathsOf(changes: seq<Change>): seq<string>
  {
    seq(|changes|, i requires 0 <= i < |changes| => changes[i].path)
  }

  function ChangedPaths(before: Index, after: Index): set<string>
  {
    set p | p in before.Keys + after.Keys && ChangeAt(before, after, p).Some?
  }

  /** A change list is the diff when its paths strictly increase, they are exactly the paths that
      differ, and each change records what happened there. */
  ghost predicate IsDiff(before: Index, after: Index, changes: seq<Change>)
  {
    && StrictlySorted(PathsOf(changes), StringLess)
    && Elements(PathsOf(changes)) == ChangedPaths(before, after)
    && forall k :: 0 <= k < |changes| ==> ChangeAt(before, after, changes[k].path) == Some(changes[k])
  }

  /** The entries at `p` are not the same. */
  predicate Differs(before: Index, after: Index, p: string)
  {
    (p in before || p in after) && !(p in before && p in after && before[p] == after[p])
  }

  /** What the diff says, path by path: a path is listed once exactly when its entries differ, in increasing
      order, and the change tells whether it appeared, vanished, became another kind of file or only changed. */
  lemma DiffMeans(before: Index, after: Index, changes: seq<Change>)
    requires IsDiff(before, after, changes)
    ensures forall i, j :: 0 <= i < j < |changes| ==> StringLess(changes[i].path, changes[j].path)
    ensures forall p :: Differs(before, after, p) <==> exists i :: 0 <= i < |changes| && changes[i].path == p
    ensures forall i :: 0 <= i < |changes| ==> ChangeSays(before, after, changes[i])
  {
    hide StringLess;
    var paths := PathsOf(changes);
    forall i, j | 0 <= i < j < |changes| ensures StringLess(changes[i].path, changes[j].path) {
      assert StringLess(paths[i], paths[j]);
    }
    forall p ensures Differs(before, after, p) <==> exists i :: 0 <= i < |changes| && changes[i].path == p {
      assert Differs(before, after, p) <==> p in ChangedPaths(before, after);
      if p in ChangedPaths(before, after) {
        assert p in Elements(paths);
        var i :| 0 <= i < |paths| && paths[i] == p;
        assert changes[i].path == p;
      }
      if i :| 0 <= i < |changes| && changes[i].path == p {
        assert paths[i] in Elements(paths);
      }
    }
  }

  predicate ChangeSays(before: Index, after: Index, c: Change)
  {
    && c.before == (if c.path in before then Some(before[c.path]) else None)
    && c.after == (if c.path in after then Some(after[c.path]) else None)
    && (c.kind == Create <==> c.before.None?)
    && (c.kind == Delete <==> c.after.None?)
    && (c.kind == TypeChange <==> c.before.Some? && c.after.Some? && c.before.value.kind != c.after.value.kind)
    && (c.kind == Modify <==> c.before.Some? && c.after.Some? && c.before.value.kind == c.after.value.kind)
  }

  /** The changes at a list of paths, in that order. */
  function ChangesAlong(before: Index, after: Index, paths: seq<string>): seq<Change>
  {
    if paths == [] then []
    else
      var change := ChangeAt(before, after, paths[|paths| - 1]);
      ChangesAlong(before, after, paths[..|paths| - 1]) + (if change.Some? then [change.value] else [])
  }

  lemma {:induction false} ChangesAlongSorted(before: Index, after: Index, paths: seq<string>)
    requires StrictlySorted(paths, StringLess)
    ensures var changes := ChangesAlong(before, after, paths);
            && StrictlySorted(PathsOf(changes), StringLess)
            && (forall p :: p in PathsOf(changes) <==> p in paths && ChangeAt(before, after, p).Some?)
            && forall k :: 0 <= k < |changes| ==> ChangeAt(before, after, changes[k].path) == Some(changes[k])
  {
    hide ChangeAt, StringLess;
    if paths != [] {
      var init, item := paths[..|paths| - 1], paths[|paths| - 1];
      ChangesAlongSorted(before, after, init);
      var first := ChangesAlong(before, after, init);
      var changes := ChangesAlong(before, after, paths);
      assert forall p :: p in paths <==> p in init || p == item;
      if ChangeAt(before, after, item).Some? {
        assert PathsOf(changes) == PathsOf(first) + [item];
        forall p | p in PathsOf(first) ensures StringLess(p, item) {
          assert p in init;
        }
        assert forall p :: p in PathsOf(changes) <==> p in PathsOf(first) || p == item;
      } else {
        assert changes == first;
      }
    }
  }

  /** diffFilesystemSnapshots. */
  method DiffSnapshots(baseline: seq<Entry>, final: seq<Entry>) returns (changes: seq<Change>)
    ensures IsDiff(IndexOfEntries(baseline), IndexOfEntries(final), changes)
  {
    var before := IndexEntries(baseline);
    var after := IndexEntries(final);
    StringLessIsStrictOrder();
    hide *;
    var ordered := SortedElements(before.Keys + after.Keys, StringLess);
    changes := [];
    assert ordered[..0] == [];
    ChangesAlongNone(before, after);
    for i := 0 to |ordered|
      invariant changes == ChangesAlong(before, after, ordered[..i])
    {
      var change := ChangeAt(before, after, ordered[i]);
      ChangesAlongNext(before, after, ordered, i);
      if change.Some? {
        changes := changes + [change.value];
      }
    }
    assert ordered[..|ordered|] == ordered;
    ChangesAlongIsDiff(before, after, ordered);
  }

  lemma ChangesAlongNone(before: Index, after: Index)
    ensures ChangesAlong(before, after, []) == []
  {
  }

  lemma ChangesAlongNext(before: Index, after: Index, paths: seq<string>, i: nat)
    requires i < |paths|
    ensures var change := ChangeAt(before, after, paths[i]);
            ChangesAlong(before, after, paths[..i + 1])
            == if change.Some? then ChangesAlong(before, after, paths[..i]) + [change.value]
               else ChangesAlong(before, after, paths[..i])
  {
    assert paths[..i + 1][..i] == paths[..i];
  }

  lemma ChangesAlongIsDiff(before: Index, after: Index, ordered: seq<string>)
    requires StrictlySorted(ordered, StringLess) && Elements(ordered) == before.Keys + after.Keys
    ensures IsDiff(before, after, ChangesAlong(before, after, ordered))
  {
    hide ChangeAt, StringLess, ChangesAlong;
    var changes := ChangesAlong(before, after, ordered);
    ChangesAlongSorted(before, after, ordered);
    forall p ensures p in PathsOf(changes) <==> p in ChangedPaths(before, after) {
      assert p in ordered <==> p in before.Keys + after.Keys by {
        assert p in ordered <==> p in Elements(ordered);
      }
    }
    assert Elements(PathsOf(changes)) == ChangedPaths(before, after);
  }

  method IndexEntries(entries: seq<Entry>) returns (index: Index)
    ensures index == IndexOfEntries(entries)
  {
    index := map[];
    for i := 0 to |entries|
      invariant index == IndexOfEntries(entries[..i])
    {
      assert entries[..i + 1][..i] == entries[..i];
      index := index[entries[i].path := entries[i]];
    }
    assert entries[..|entries|] == entries;
  }

  // ---------------------------------------------------------------------
  // The diff as a patch
  // ---------------------------------------------------------------------

  function ApplyChange(index: Index, change: Change): Index
  {
    if change.after.Some? then index[change.path := change.after.value] else index - {change.path}
  }

  function ApplyAll(index: Index, changes: seq<Change>): Index
    decreases |changes|
  {
    if changes == [] then index else ApplyAll(ApplyChange(index, changes[0]), changes[1..])
  }

  function Undo(changes: seq<Change>): seq<Change>
  {
    seq(|changes|, i requires 0 <= i < |changes| =>
      changes[i].(before := changes[i].after, after := changes[i].before))
  }

  /** One path after a list of changes at distinct paths. */
  lemma {:induction false} ApplyAllAt(index: Index, changes: seq<Change>, path: string)
    requires Distinct(PathsOf(changes))
    ensures path !in PathsOf(changes) ==>
              (path in ApplyAll(index, changes) <==> path in index)
              && (path in index ==> ApplyAll(index, changes)[path] == index[path])
    ensures forall k :: 0 <= k < |changes| && changes[k].path == path ==>
              (path in ApplyAll(index, changes) <==> changes[k].after.Some?)
              && (changes[k].after.Some? ==> ApplyAll(index, changes)[path] == changes[k].after.value)
    decreases |changes|
  {
    if changes != [] {
      var rest := changes[1..];
      assert PathsOf(changes) == [changes[0].path] + PathsOf(rest);
      assert Distinct(PathsOf(rest)) by {
        forall i, j | 0 <= i < j < |rest| ensures PathsOf(rest)[i] != PathsOf(rest)[j] {
          assert PathsOf(changes)[i + 1] != PathsOf(changes)[j + 1];
        }
      }
      ApplyAllAt(ApplyChange(index, changes[0]), rest, path);
      forall k | 0 <= k < |changes| && changes[k].path == path
        ensures (path in ApplyAll(index, changes) <==> changes[k].after.Some?)
                && (changes[k].after.Some? ==> ApplyAll(index, changes)[path] == changes[k].after.value)
      {
        if k == 0 {
          forall j | 0 <= j < |rest| ensures PathsOf(rest)[j] != path {
            assert PathsOf(changes)[0] != PathsOf(changes)[j + 1];
          }
        } else {
          assert rest[k - 1] == changes[k];
        }
      }
    }
  }

  /** The diff is an exact patch: applied to the baseline it gives the final state. */
  lemma DiffIsPatch(before: Index, after: Index, changes: seq<Change>)
    requires IsDiff(before, after, changes)
    ensures ApplyAll(before, changes) == after
  {
    SortedIsDistinct(PathsOf(changes));
    var result := ApplyAll(before, changes);
    forall p
      ensures p in result <==> p in after
      ensures p in result && p in after ==> result[p] == after[p]
    {
      ApplyAllAt(before, changes, p);
      if p in PathsOf(changes) {
        var k :| 0 <= k < |changes| && changes[k].path == p;
      } else {
        assert p !in ChangedPaths(before, after);
      }
    }
  }

  /** And it can be undone: with each change turned round it takes the final state back. */
  lemma DiffUndoes(before: Index, after: Index, changes: seq<Change>)
    requires IsDiff(before, after, changes)
    ensures ApplyAll(ApplyAll(before, changes), Undo(changes)) == before
  {
    DiffIsPatch(before, after, changes);
    var undo := Undo(changes);
    assert PathsOf(undo) == PathsOf(changes);
    SortedIsDistinct(PathsOf(undo));
    var result := ApplyAll(after, undo);
    forall p
      ensures p in result <==> p in before
      ensures p in result && p in before ==> result[p] == before[p]
    {
      ApplyAllAt(after, undo, p);
      if p in PathsOf(changes) {
        var k :| 0 <= k < |changes| && changes[k].path == p;
        assert undo[k].path == p;
      } else {
        assert p !in ChangedPaths(before, after);
      }
    }
  }

  /** It is empty exactly when nothing changed. */
  lemma DiffEmptyIffEqual(before: Index, after: Index, changes: seq<Change>)
    requires IsDiff(before, after, changes)
    ensures changes == [] <==> before == after
  {
    if changes == [] { DiffIsPatch(before, after, changes); }
    if changes != [] {
      assert PathsOf(changes)[0] in Elements(PathsOf(changes));
      assert changes[0].path in ChangedPaths(before, after);
    }
  }

  /** There is only one diff, so the two calls made during a comparison return the same list. */
  lemma DiffIsUnique(before: Index, after: Index, left: seq<Change>, right: seq<Change>)
    requires IsDiff(before, after, left) && IsDiff(before, after, right)
    ensures left == right
  {
    StringLessIsStrictOrder();
    SortedIsUnique(PathsOf(left), PathsOf(right), StringLess);
    assert |left| == |PathsOf(left)| == |right|;
    forall k | 0 <= k < |left| ensures left[k] == right[k] {
      assert PathsOf(left)[k] == PathsOf(right)[k];
    }
  }

  /** A snapshot as the decoder leaves it has strictly increasing paths; equal indexes then mean equal snapshots. */
  lemma SortedSnapshotsEqual(left: seq<Entry>, right: seq<Entry>)
    requires StrictlySorted(EntryPaths(left), StringLess) && StrictlySorted(EntryPaths(right), StringLess)
    requires IndexOfEntries(left) == IndexOfEntries(right)
    ensures left == right
  {
    SortedIsDistinct(EntryPaths(left));
    SortedIsDistinct(EntryPaths(right));
    IndexKeys(left);
    IndexKeys(right);
    StringLessIsStrictOrder();
    SortedIsUnique(EntryPaths(left), EntryPaths(right), StringLess);
    assert |left| == |EntryPaths(left)| == |right|;
    forall k | 0 <= k < |left| ensures left[k] == right[k] {
      assert EntryPaths(left)[k] == EntryPaths(right)[k];
      IndexAt(left, k);
      IndexAt(right, k);
    }
  }

  function EntryPaths(entries: seq<Entry>): seq<string>
  {
    seq(|entries|, i requires 0 <= i < |entries| => entries[i].path)
  }

  lemma {:induction false} IndexKeys(entries: seq<Entry>)
    ensures IndexOfEntries(entries).Keys == Elements(EntryPaths(entries))
  {
    if entries != [] {
      var init, last := entries[..|entries| - 1], entries[|entries| - 1];
      IndexKeys(init);
      assert EntryPaths(entries) == EntryPaths(init) + [last.path];
    }
  }

  lemma {:induction false} IndexAt(entries: seq<Entry>, k: nat)
    requires Distinct(EntryPaths(entries)) && k < |entries|
    ensures entries[k].path in IndexOfEntries(entries) && IndexOfEntries(entries)[entries[k].path] == entries[k]
  {
    var n := |entries| - 1;
    if k < n {
      assert EntryPaths(entries)[..n] == EntryPaths(entries[..n]);
      DropLast(EntryPaths(entries));
      assert EntryPaths(entries)[k] != EntryPaths(entries)[n];
      hide Distinct;
      IndexAt(entries[..n], k);
    }
  }
}
