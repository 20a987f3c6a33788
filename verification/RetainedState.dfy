/**
 The retained-state observer: which write patterns the executed phases granted,
 and how the observed changes compare with them.
 */
module RetainedState {
  import opened Prelude
  import opened Ordering
  import opened WriteScope
  import opened FilesystemDiff

  // ---------------------------------------------------------------------
  // The granted scope
  // ---------------------------------------------------------------------

  /** The scope after some phases ran: a set of patterns, or ambiguous for good. */
  datatype Scope = Scope(patterns: set<string>) | Ambiguous

  function Grant(scope: Scope, declared: seq<string>): Scope
  {
    if scope.Ambiguous? then Ambiguous
    else if (forall p :: p in declared ==> ValidPattern(p)) && |scope.patterns + Elements(declared)| <= PATTERN_LIMIT then
      Scope(scope.patterns + Elements(declared))
    else Ambiguous
  }

  function GrantAll(phases: seq<seq<string>>): Scope
  {
    if phases == [] then Scope({}) else Grant(GrantAll(phases[..|phases| - 1]), phases[|phases| - 1])
  }

  function Declared(phases: seq<seq<string>>): set<string>
  {
    set k, p | 0 <= k < |phases| && p in phases[k] :: p
  }

  /** The scope of a run does not depend on the order of its phases or on repeats: it is the union of
      everything they declared, unless some pattern is invalid or the union is too large. */
  lemma {:induction false} ScopeIsUnion(phases: seq<seq<string>>)
    ensures var all := Declared(phases);
            GrantAll(phases) ==
            if (forall p :: p in all ==> ValidPattern(p)) && |all| <= 256 then Scope(all) else Ambiguous
  {
    if phases == [] {
      assert Declared(phases) == {};
    } else {
      var init, last := phases[..|phases| - 1], phases[|phases| - 1];
      ScopeIsUnion(init);
      assert Declared(phases) == Declared(init) + Elements(last) by {
        forall p ensures p in Declared(phases) <==> p in Declared(init) || p in last {
          if k :| 0 <= k < |phases| && p in phases[k] {
            assert k < |init| ==> init[k] == phases[k];
          }
          if k :| 0 <= k < |init| && p in init[k] { assert phases[k] == init[k]; }
          if p in last { assert phases[|phases| - 1] == last; }
        }
      }
      SubsetCount(Declared(init), Declared(phases));
    }
  }

  lemma ElementsNext<T>(xs: seq<T>, i: nat)
    requires i < |xs|
    ensures Elements(xs[..i + 1]) == Elements(xs[..i]) + {xs[i]}
    ensures Elements(xs[..i + 1]) <= Elements(xs) && xs[i] in xs
    ensures forall x :: x in xs[..i + 1] <==> x in xs[..i] || x == xs[i]
  {
    assert xs[..i + 1] == xs[..i] + [xs[i]];
  }

  // ---------------------------------------------------------------------
  // The comparison
  // ---------------------------------------------------------------------

  datatype Result = NotTested | Conforming | Nonconforming

  datatype Comparison = Comparison(
    result: Result, failure: string, declared: nat, compared: nat, allowed: nat, undeclared: nat,
    created: nat, deleted: nat, modified: nat, retyped: nat)

  const Untested := Comparison(NotTested, "", 0, 0, 0, 0, 0, 0, 0, 0)

  predicate AllowedBy(patterns: set<string>, path: string)
  {
    exists p :: p in patterns && PatternMatches(p, path)
  }

  function PathsOfKind(before: Index, after: Index, kind: ChangeKind): set<string>
  {
    set p | p in ChangedPaths(before, after) && ChangeAt(before, after, p).value.kind == kind
  }

  function AllowedPaths(before: Index, after: Index, patterns: set<string>): set<string>
  {
    set p | p in ChangedPaths(before, after) && AllowedBy(patterns, p)
  }

  /** The counts of a comparison, said of sets of paths. */
  ghost predicate CountsDiff(c: Comparison, before: Index, after: Index, patterns: set<string>)
  {
    && c.compared == |ChangedPaths(before, after)|
    && c.declared == |patterns|
    && c.allowed == |AllowedPaths(before, after, patterns)|
    && c.undeclared == |ChangedPaths(before, after) - AllowedPaths(before, after, patterns)|
    && c.created == |PathsOfKind(before, after, Create)|
    && c.deleted == |PathsOfKind(before, after, Delete)|
    && c.modified == |PathsOfKind(before, after, Modify)|
    && c.retyped == |PathsOfKind(before, after, TypeChange)|
  }

  lemma DifferentPaths(before: Index, after: Index, patterns: set<string>)
    ensures forall p :: p in ChangedPaths(before, after) <==> Differs(before, after, p)
    ensures PathsOfKind(before, after, Modify)
            == set p | p in before && p in after && before[p] != after[p] && before[p].kind == after[p].kind
    ensures PathsOfKind(before, after, TypeChange) == set p | p in before && p in after && before[p].kind != after[p].kind
    ensures AllowedPaths(before, after, patterns)
            == set p | p in before.Keys + after.Keys && Differs(before, after, p)
                       && exists pattern :: pattern in patterns && PatternMatches(pattern, p)
  {
    hide PatternMatches;
  }

  /** Both ways of counting split the changes, and the extremes mean what they say. */
  lemma CountsPartition(c: Comparison, before: Index, after: Index, patterns: set<string>)
    requires CountsDiff(c, before, after, patterns)
    ensures c.allowed + c.undeclared == c.compared
    ensures c.created + c.deleted + c.modified + c.retyped == c.compared
    ensures c.created == |after.Keys - before.Keys| && c.deleted == |before.Keys - after.Keys|
    ensures c.modified == |(set p | p in before && p in after && before[p] != after[p] && before[p].kind == after[p].kind)|
    ensures c.retyped == |(set p | p in before && p in after && before[p].kind != after[p].kind)|
    ensures c.allowed == |(set p | p in before.Keys + after.Keys && Differs(before, after, p)
                                   && exists pattern :: pattern in patterns && PatternMatches(pattern, p))|
    ensures c.undeclared == 0 <==> forall p :: Differs(before, after, p) ==> AllowedBy(patterns, p)
  {
    DifferentPaths(before, after, patterns);
    hide AllowedBy, ChangedPaths, PathsOfKind, Differs;
    var changed := ChangedPaths(before, after);
    var allowed := AllowedPaths(before, after, patterns);
    assert changed == allowed + (changed - allowed);
    KindsPartition(before, after);
    CreatedAndDeleted(before, after);
    if c.undeclared == 0 { assert changed - allowed == {}; }
    if forall p :: p in changed ==> AllowedBy(patterns, p) { assert changed - allowed == {}; }
  }

  lemma KindsPartition(before: Index, after: Index)
    ensures |PathsOfKind(before, after, Create)| + |PathsOfKind(before, after, Delete)|
            + |PathsOfKind(before, after, Modify)| + |PathsOfKind(before, after, TypeChange)| == |ChangedPaths(before, after)|
  {
    forall p {
      KindOfPath(before, after, p);
    }
    hide *;
    FourParts(ChangedPaths(before, after), PathsOfKind(before, after, Create), PathsOfKind(before, after, Delete),
              PathsOfKind(before, after, Modify), PathsOfKind(before, after, TypeChange));
  }

  lemma KindOfPath(before: Index, after: Index, p: string)
    ensures p in ChangedPaths(before, after) ==> exists kind :: p in PathsOfKind(before, after, kind)
    ensures forall kind :: p in PathsOfKind(before, after, kind) ==> p in ChangedPaths(before, after)
    ensures forall k, l :: p in PathsOfKind(before, after, k) && p in PathsOfKind(before, after, l) ==> k == l
  {
    hide ChangeAt;
    if p in ChangedPaths(before, after) {
      assert p in PathsOfKind(before, after, ChangeAt(before, after, p).value.kind);
    }
  }

  lemma FourParts<T>(all: set<T>, a: set<T>, b: set<T>, c: set<T>, d: set<T>)
    requires forall x :: x in all <==> x in a || x in b || x in c || x in d
    requires a !! b !! c !! d
    ensures |a| + |b| + |c| + |d| == |all|
  {
    assert all == a + b + c + d;
    assert |a + b + c + d| == |a + b + c| + |d| && |a + b + c| == |a + b| + |c|;
  }

  lemma CreatedAndDeleted(before: Index, after: Index)
    ensures PathsOfKind(before, after, Create) == after.Keys - before.Keys
    ensures PathsOfKind(before, after, Delete) == before.Keys - after.Keys
  {
  }

  // ---------------------------------------------------------------------
  // The observer's state
  // ---------------------------------------------------------------------

  class FilesystemObservation {
    var required: bool
    var baseline: seq<Entry>
    var final: seq<Entry>
    var ready: bool           // both snapshots ready, both identities and the quiescence verified
    var failure: string
    var patterns: set<string>
    var ambiguous: bool
    var ambiguousFailure: string

    constructor (required: bool)
      ensures this.required == required && !ready && CurrentScope() == Scope({}) && failure == ""
    {
      this.required := required;
      baseline, final, ready, failure := [], [], false, "";
      patterns, ambiguous, ambiguousFailure := {}, false, "";
    }

    function CurrentScope(): Scope
      reads this
    {
      if ambiguous then Ambiguous else Scope(patterns)
    }

    method MarkAmbiguous(reason: string)
      modifies `ambiguous, `ambiguousFailure, `patterns
      ensures CurrentScope() == Ambiguous && ambiguousFailure == reason && patterns == {}
    {
      ambiguous := true;
      ambiguousFailure := reason;
      patterns := {};
    }

    /** recordFilesystemPhaseDispatch, for a phase that declares `declared` (None: no capability). */
    method RecordPhaseDispatch(declared: Option<seq<string>>)
      modifies `ambiguous, `ambiguousFailure, `patterns
      requires !ambiguous ==> |patterns| <= PATTERN_LIMIT
      ensures CurrentScope() == if required && declared.Some? then Grant(old(CurrentScope()), declared.value) else old(CurrentScope())
      ensures !ambiguous ==> |patterns| <= PATTERN_LIMIT
    {
      hide ValidPattern;
      if !required || ambiguous || declared.None? { return; }
      var list := declared.value;
      ghost var before := patterns;
      for i := 0 to |list|
        invariant !ambiguous && patterns == before + Elements(list[..i])
        invariant |patterns| <= PATTERN_LIMIT
        invariant forall p :: p in list[..i] ==> ValidPattern(p)
      {
        ElementsNext(list, i);
        if !ValidPattern(list[i]) {
          assert Grant(Scope(before), list) == Ambiguous;
          MarkAmbiguous("invalid-declared-write-scope");
          return;
        }
        patterns := patterns + {list[i]};
        assert patterns == before + Elements(list[..i + 1]);
        if |patterns| > PATTERN_LIMIT {
          SubsetCount(patterns, before + Elements(list));
          assert Grant(Scope(before), list) == Ambiguous;
          MarkAmbiguous("declared-write-scope-bound-exceeded");
          return;
        }
      }
      assert list[..|list|] == list;
    }

    /** compareFilesystemRetainedState. */
    method Compare() returns (c: Comparison)
      ensures c.result != NotTested <==>
              && required && !ambiguous && failure == "" && ready
              && |ChangedPaths(IndexOfEntries(baseline), IndexOfEntries(final))| <= 256
              && |patterns| <= 256
              && (forall p :: p in patterns ==> ValidPattern(p))
              && (forall p :: p in ChangedPaths(IndexOfEntries(baseline), IndexOfEntries(final)) ==> ValidObserved(p))
      ensures c.result != NotTested ==> CountsDiff(c, IndexOfEntries(baseline), IndexOfEntries(final), patterns)
      ensures c.result != NotTested ==> c.failure == "" && (c.result == Nonconforming <==> c.undeclared > 0)
      ensures c.result == NotTested ==> c.failure != ""
    {
      hide ChangeAt, ValidObserved, ValidPattern, IsDiff, ChangedPaths, AllowedPaths, PathsOfKind, IndexOfEntries;
      c := Untested;
      if !required { return c.(failure := "observer-not-required"); }
      if ambiguous {
        return c.(failure := if ambiguousFailure == "" then "runtime-phase-scope-ambiguous" else ambiguousFailure);
      }
      if failure != "" || !ready { return c.(failure := "retained-state-prerequisite-unavailable"); }
      ghost var before, after := IndexOfEntries(baseline), IndexOfEntries(final);
      var changes := DiffSnapshots(baseline, final);
      DiffSize(before, after, changes);
      if |changes| > CHANGE_LIMIT { return c.(failure := "retained-state-change-bound-exceeded"); }
      if !(forall p :: p in patterns ==> ValidPattern(p)) { return c.(failure := "invalid-declared-write-scope"); }
      if |patterns| > PATTERN_LIMIT { return c.(failure := "declared-write-scope-bound-exceeded"); }
      c := CountChanges(before, after, changes, patterns);
      if c.failure == "" {
        c := c.(result := if c.undeclared > 0 then Nonconforming else Conforming);
      }
    }
  }

  /** The counting loop of the comparison; it gives up on a path that is not a valid observed path. */
  method CountChanges(ghost before: Index, ghost after: Index, changes: seq<Change>, patterns: set<string>)
    returns (c: Comparison)
    requires IsDiff(before, after, changes)
    ensures c.result == NotTested
    ensures c.failure == "" <==> forall p :: p in ChangedPaths(before, after) ==> ValidObserved(p)
    ensures c.failure == "" ==> CountsDiff(c, before, after, patterns)
  {
    hide *;
    DiffSize(before, after, changes);
    c := Untested.(declared := |patterns|, compared := |changes|);
    ghost var done: set<string> := {};
    TallyNone(c, before, after, patterns);
    for i := 0 to |changes|
      invariant done == Elements(PathsOf(changes[..i]))
      invariant forall p :: p in done ==> ValidObserved(p)
      invariant c.result == NotTested && c.failure == "" && c.declared == |patterns| && c.compared == |changes|
      invariant TallyDone(c, before, after, patterns, done)
    {
      var path := changes[i].path;
      PathIsNew(before, after, changes, i);
      if !ValidObserved(path) {
        return c.(failure := "retained-state-path-invalid");
      }
      var next := CountOne(c, changes[i].kind, AllowedBy(patterns, path));
      TallyNext(c, next, before, after, patterns, done, path);
      c := next;
      done := done + {path};
    }
    assert changes[..|changes|] == changes;
    PathsOfDiff(before, after, changes);
    TallyWhole(c, before, after, patterns);
  }

  function CountOne(c: Comparison, kind: ChangeKind, allowed: bool): (r: Comparison)
    ensures r.result == c.result && r.failure == c.failure && r.declared == c.declared && r.compared == c.compared
  {
    var counted := match kind
      case Create => c.(created := c.created + 1)
      case Delete => c.(deleted := c.deleted + 1)
      case Modify => c.(modified := c.modified + 1)
      case TypeChange => c.(retyped := c.retyped + 1);
    if allowed then counted.(allowed := c.allowed + 1) else counted.(undeclared := c.undeclared + 1)
  }

  function CountIn<T>(done: set<T>, s: set<T>): nat { |done * s| }

  function CountOut<T>(done: set<T>, s: set<T>): nat { |done - s| }

  /** The counts so far, for the paths in `done`. */
  ghost predicate TallyDone(c: Comparison, before: Index, after: Index, patterns: set<string>, done: set<string>)
  {
    && done <= ChangedPaths(before, after)
    && c.allowed == CountIn(done, AllowedPaths(before, after, patterns))
    && c.undeclared == CountOut(done, AllowedPaths(before, after, patterns))
    && c.created == CountIn(done, PathsOfKind(before, after, Create))
    && c.deleted == CountIn(done, PathsOfKind(before, after, Delete))
    && c.modified == CountIn(done, PathsOfKind(before, after, Modify))
    && c.retyped == CountIn(done, PathsOfKind(before, after, TypeChange))
  }

  lemma CountOneMore<T>(done: set<T>, x: T, s: set<T>)
    requires x !in done
    ensures CountIn(done + {x}, s) == CountIn(done, s) + (if x in s then 1 else 0)
    ensures CountOut(done + {x}, s) == CountOut(done, s) + (if x in s then 0 else 1)
  {
    if x in s {
      assert (done + {x}) * s == done * s + {x};
      assert (done + {x}) - s == done - s;
    } else {
      assert (done + {x}) * s == done * s;
      assert (done + {x}) - s == (done - s) + {x};
    }
  }

  lemma CountWhole<T>(all: set<T>, s: set<T>)
    ensures s <= all ==> CountIn(all, s) == |s|
    ensures CountOut(all, s) == |all - s|
    ensures CountIn({}, s) == 0 && CountOut({}, s) == 0
  {
    if s <= all { assert all * s == s; }
    assert {} * s == {} && {} - s == {};
  }

  lemma TallyNext(was: Comparison, c: Comparison, before: Index, after: Index, patterns: set<string>, done: set<string>, path: string)
    requires TallyDone(was, before, after, patterns, done)
    requires path in ChangedPaths(before, after) && path !in done
    requires c == CountOne(was, ChangeAt(before, after, path).value.kind, AllowedBy(patterns, path))
    ensures TallyDone(c, before, after, patterns, done + {path})
  {
    hide ChangeAt, AllowedBy, CountIn, CountOut;
    assert path in AllowedPaths(before, after, patterns) <==> AllowedBy(patterns, path);
    assert forall kind :: path in PathsOfKind(before, after, kind) <==> ChangeAt(before, after, path).value.kind == kind;
    hide AllowedPaths, PathsOfKind, ChangedPaths;
    CountOneMore(done, path, AllowedPaths(before, after, patterns));
    CountOneMore(done, path, PathsOfKind(before, after, Create));
    CountOneMore(done, path, PathsOfKind(before, after, Delete));
    CountOneMore(done, path, PathsOfKind(before, after, Modify));
    CountOneMore(done, path, PathsOfKind(before, after, TypeChange));
  }

  lemma TallyWhole(c: Comparison, before: Index, after: Index, patterns: set<string>)
    requires TallyDone(c, before, after, patterns, ChangedPaths(before, after))
    requires c.declared == |patterns| && c.compared == |ChangedPaths(before, after)|
    ensures CountsDiff(c, before, after, patterns)
  {
    hide ChangeAt, AllowedBy, CountIn, CountOut;
    var changed := ChangedPaths(before, after);
    assert AllowedPaths(before, after, patterns) <= changed;
    assert forall kind :: PathsOfKind(before, after, kind) <= changed;
    hide AllowedPaths, PathsOfKind, ChangedPaths;
    CountWhole(changed, AllowedPaths(before, after, patterns));
    CountWhole(changed, PathsOfKind(before, after, Create));
    CountWhole(changed, PathsOfKind(before, after, Delete));
    CountWhole(changed, PathsOfKind(before, after, Modify));
    CountWhole(changed, PathsOfKind(before, after, TypeChange));
  }

  /** A diff has one change for each path that differs. */
  lemma DiffSize(before: Index, after: Index, changes: seq<Change>)
    requires IsDiff(before, after, changes)
    ensures |changes| == |ChangedPaths(before, after)|
  {
    SortedIsDistinct(PathsOf(changes));
    DistinctCount(PathsOf(changes));
  }

  lemma PathIsNew(before: Index, after: Index, changes: seq<Change>, i: nat)
    requires IsDiff(before, after, changes) && i < |changes|
    ensures changes[i].path !in Elements(PathsOf(changes[..i]))
    ensures Elements(PathsOf(changes[..i + 1])) == Elements(PathsOf(changes[..i])) + {changes[i].path}
    ensures changes[i].path in ChangedPaths(before, after)
    ensures ChangeAt(before, after, changes[i].path) == Some(changes[i])
  {
    hide ChangeAt;
    var paths := PathsOf(changes);
    SortedIsDistinct(paths);
    assert paths[i] in Elements(paths);
    assert PathsOf(changes[..i]) == paths[..i];
    assert PathsOf(changes[..i + 1]) == paths[..i] + [paths[i]];
  }

  lemma PathsOfDiff(before: Index, after: Index, changes: seq<Change>)
    requires IsDiff(before, after, changes)
    ensures Elements(PathsOf(changes)) == ChangedPaths(before, after)
  {
  }

  lemma TallyNone(c: Comparison, before: Index, after: Index, patterns: set<string>)
    requires c == Untested.(declared := c.declared, compared := c.compared)
    ensures TallyDone(c, before, after, patterns, {})
    ensures Elements(PathsOf([])) == {}
    ensures c.result == NotTested && c.failure == ""
  {
    hide ChangeAt, AllowedBy, CountIn, CountOut;
    assert PathsOf([]) == [];
    CountWhole({}, AllowedPaths(before, after, patterns));
    CountWhole({}, PathsOfKind(before, after, Create));
    CountWhole({}, PathsOfKind(before, after, Delete));
    CountWhole({}, PathsOfKind(before, after, Modify));
    CountWhole({}, PathsOfKind(before, after, TypeChange));
  }
}
