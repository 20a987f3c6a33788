/**
 Go's string order and the "collect the keys of a map, then sort" idiom. A map
 is ranged over in no particular order, so what matters is that the sorted
 result is the same for every order (`SortedIsUnique`).
 */
module Ordering {
  import opened Prelude

  ghost predicate StrictOrder<T(!new)>(less: (T, T) -> bool)
  {
    && (forall x :: !less(x, x))
    && (forall x, y :: less(x, y) || less(y, x) || x == y)
    && (forall x, y, z :: less(x, y) && less(y, z) ==> less(x, z))
  }

  predicate StrictlySorted<T>(xs: seq<T>, less: (T, T) -> bool)
  {
    forall i, j :: 0 <= i < j < |xs| ==> less(xs[i], xs[j])
  }

  /** Range over a set in any order, inserting each element where it belongs. */
  method SortedElements<T(==, !new)>(s: set<T>, less: (T, T) -> bool) returns (xs: seq<T>)
    requires StrictOrder(less)
    ensures StrictlySorted(xs, less) && Elements(xs) == s
  {
    xs := [];
    var rest := s;
    while rest != {}
      invariant rest <= s
      invariant StrictlySorted(xs, less)
      invariant Elements(xs) == s - rest
      decreases rest
    {
      var x :| x in rest;
      rest := rest - {x};
      var i := 0;
      while i < |xs| && less(xs[i], x)
        invariant 0 <= i <= |xs|
        invariant forall k :: 0 <= k < i ==> less(xs[k], x)
      {
        i := i + 1;
      }
      ghost var was := xs;
      xs := xs[..i] + [x] + xs[i..];
      InsertionSorted(was, i, x, less);
    }
  }

  lemma InsertionSorted<T(!new)>(was: seq<T>, i: nat, x: T, less: (T, T) -> bool)
    requires StrictOrder(less) && StrictlySorted(was, less) && x !in was && i <= |was|
    requires forall k :: 0 <= k < i ==> less(was[k], x)
    requires i < |was| ==> !less(was[i], x)
    ensures StrictlySorted(was[..i] + [x] + was[i..], less)
    ensures Elements(was[..i] + [x] + was[i..]) == Elements(was) + {x}
  {
    var now := was[..i] + [x] + was[i..];
    forall k | i <= k < |was| ensures less(x, was[k]) {
      assert was[i] in was;
      assert less(x, was[i]);
    }
    assert forall k :: 0 <= k < |now| ==> now[k] == if k < i then was[k] else if k == i then x else was[k - 1];
    assert now[i] == x;
    forall y | y in was ensures y in now {
      var k :| 0 <= k < |was| && was[k] == y;
      assert now[if k < i then k else k + 1] == y;
    }
  }

  /** The strictly sorted arrangement of a set is unique. */
  lemma {:induction false} SortedIsUnique<T(!new)>(xs: seq<T>, ys: seq<T>, less: (T, T) -> bool)
    requires StrictOrder(less)
    requires StrictlySorted(xs, less) && StrictlySorted(ys, less)
    requires Elements(xs) == Elements(ys)
    ensures xs == ys
  {
    if xs == [] {
      EmptyElements(xs);
      EmptyElements(ys);
    } else {
      assert xs[0] in Elements(ys);
      assert ys != [] && ys[0] in Elements(xs);
      assert xs[0] == ys[0];
      forall x ensures x in Elements(xs[1..]) <==> x in Elements(ys[1..]) {
        TailElements(xs, less, x);
        TailElements(ys, less, x);
        assert x in Elements(xs) <==> x in Elements(ys);
        assert x in xs <==> x in ys;
      }
      SortedIsUnique(xs[1..], ys[1..], less);
    }
  }

  lemma EmptyElements<T>(xs: seq<T>)
    ensures Elements(xs) == {} <==> xs == []
  {
    if xs != [] { assert xs[0] in Elements(xs); }
  }

  lemma TailElements<T(!new)>(xs: seq<T>, less: (T, T) -> bool, x: T)
    requires StrictOrder(less) && StrictlySorted(xs, less) && xs != []
    ensures x in xs[1..] <==> x in xs && x != xs[0]
  {
    if x in xs && x != xs[0] {
      var k :| 0 <= k < |xs| && xs[k] == x;
      assert xs[1..][k - 1] == x;
    }
  }

  // ---------------------------------------------------------------------
  // Strings
  // ---------------------------------------------------------------------

  /** `a < b` on strings: code point by code point, which for valid UTF-8 is Go's byte order. */
  predicate StringLess(a: string, b: string)
  {
    if b == "" then false
    else if a == "" then true
    else if a[0] != b[0] then a[0] < b[0]
    else StringLess(a[1..], b[1..])
  }

  /** At the first place where they part, one is at its end or has the lower code point. */
  lemma {:induction false} StringLessMeans(a: string, b: string)
    ensures StringLess(a, b) <==> exists k :: 0 <= k < |b| && k <= |a| && a[..k] == b[..k] && (k == |a| || a[k] < b[k])
  {
    if a != "" && b != "" && a[0] == b[0] {
      StringLessMeans(a[1..], b[1..]);
      assert forall k :: 0 <= k < |b[1..]| && k <= |a[1..]| ==> (a[1..][..k] == b[1..][..k] <==> a[..k + 1] == b[..k + 1]) by {
        forall k | 0 <= k < |b[1..]| && k <= |a[1..]| ensures a[1..][..k] == b[1..][..k] <==> a[..k + 1] == b[..k + 1] {
          assert a[..k + 1] == [a[0]] + a[1..][..k] && b[..k + 1] == [b[0]] + b[1..][..k];
        }
      }
      if StringLess(a[1..], b[1..]) {
        var k :| 0 <= k < |b[1..]| && k <= |a[1..]| && a[1..][..k] == b[1..][..k] && (k == |a[1..]| || a[1..][k] < b[1..][k]);
        assert a[..k + 1] == b[..k + 1];
      }
      if k :| 0 <= k < |b| && k <= |a| && a[..k] == b[..k] && (k == |a| || a[k] < b[k]) {
        assert k > 0;
        assert a[1..][..k - 1] == b[1..][..k - 1];
      }
    } else if a == "" && b != "" {
      assert a[..0] == b[..0];
    } else if a != "" && b != "" {
      assert a[..0] == b[..0];
      forall k | 0 < k < |b| && k <= |a| ensures a[..k] != b[..k] { assert a[..k][0] != b[..k][0]; }
    }
  }

  lemma {:induction false} StringLessTotal(a: string, b: string)
    ensures StringLess(a, b) || StringLess(b, a) || a == b
    ensures !(StringLess(a, b) && StringLess(b, a))
    ensures a == b ==> !StringLess(a, b)
  {
    if a != "" && b != "" && a[0] == b[0] {
      StringLessTotal(a[1..], b[1..]);
      assert a == [a[0]] + a[1..] && b == [b[0]] + b[1..];
    }
  }

  lemma {:induction false} StringLessTransitive(a: string, b: string, c: string)
    requires StringLess(a, b) && StringLess(b, c)
    ensures StringLess(a, c)
  {
    if a != "" && a[0] == b[0] == c[0] {
      StringLessTransitive(a[1..], b[1..], c[1..]);
    }
  }

  lemma StringLessIsStrictOrder()
    ensures StrictOrder(StringLess)
  {
    forall a: string, b: string
      ensures StringLess(a, b) || StringLess(b, a) || a == b
      ensures !StringLess(a, a)
    {
      StringLessTotal(a, b);
      StringLessTotal(a, a);
    }
    forall a, b, c | StringLess(a, b) && StringLess(b, c) ensures StringLess(a, c) {
      StringLessTransitive(a, b, c);
    }
  }

  lemma SortedIsDistinct(names: seq<string>)
    requires StrictlySorted(names, StringLess)
    ensures Distinct(names)
  {
    hide StringLess;
    forall i, j | 0 <= i < j < |names| ensures names[i] != names[j] {
      StringLessTotal(names[i], names[j]);
    }
  }
}
