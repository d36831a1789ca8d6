/**
 * `Stream.sorted(comparator)`: a stable sort by a comparator, here given as the strict
 * "sorts before" relation `lt(a, b)` (the comparator is negative). The model is a stable
 * insertion sort, so elements that compare equal keep their input order, as in Java.
 */
module Sorting {

  /** `lt` is a strict weak order: what a consistent `Comparator` induces. */
  ghost predicate StrictWeakOrder<T(!new)>(lt: (T, T) -> bool) {
    && (forall a :: !lt(a, a))
    && (forall a, b, c :: lt(a, b) && lt(b, c) ==> lt(a, c))
    && (forall a, b, c :: !lt(a, b) && !lt(b, c) ==> !lt(a, c))
  }

  /** No element sorts strictly before an element to its left. */
  ghost predicate Sorted<T>(s: seq<T>, lt: (T, T) -> bool) {
    forall i, j :: 0 <= i < j < |s| ==> !lt(s[j], s[i])
  }

  /** Insert `x` into `t`, after every element that `x` does not sort before. */
  function Insert<T>(x: T, t: seq<T>, lt: (T, T) -> bool): (r: seq<T>)
    ensures multiset(r) == multiset(t) + multiset{x}
    ensures |r| == |t| + 1
  {
    if t == [] then [x]
    else if lt(x, t[|t| - 1]) then
      assert t == t[..|t| - 1] + [t[|t| - 1]];
      Insert(x, t[..|t| - 1], lt) + [t[|t| - 1]]
    else t + [x]
  }

  /** The stable sort of `s` by `lt`. */
  function Sort<T>(s: seq<T>, lt: (T, T) -> bool): (r: seq<T>)
    ensures multiset(r) == multiset(s)
    ensures |r| == |s|
  {
    if s == [] then []
    else
      assert s == s[..|s| - 1] + [s[|s| - 1]];
      Insert(s[|s| - 1], Sort(s[..|s| - 1], lt), lt)
  }

  lemma {:induction false} InsertSorted<T(!new)>(x: T, t: seq<T>, lt: (T, T) -> bool)
    requires StrictWeakOrder(lt) && Sorted(t, lt)
    ensures Sorted(Insert(x, t, lt), lt)
  {
    if t != [] {
      if lt(x, t[|t| - 1]) {
        InsertSorted(x, t[..|t| - 1], lt);
        InsertBeforeLast(x, t, lt);
      } else {
        InsertAfterLast(x, t, lt);
      }
    }
  }

  /** Inserting before the last element keeps the order, given that the shorter insertion does. */
  lemma InsertBeforeLast<T(!new)>(x: T, t: seq<T>, lt: (T, T) -> bool)
    requires StrictWeakOrder(lt) && Sorted(t, lt) && t != [] && lt(x, t[|t| - 1])
    requires Sorted(Insert(x, t[..|t| - 1], lt), lt)
    ensures Sorted(Insert(x, t, lt), lt)
  {
    var init, last := t[..|t| - 1], t[|t| - 1];
    var rec := Insert(x, init, lt);
    var r := Insert(x, t, lt);
    assert r == rec + [last];
    forall e | e in multiset(rec) ensures !lt(last, e) {
      if e == x {
      } else {
        assert e in multiset(init);
        var i :| 0 <= i < |init| && init[i] == e;
        assert t[i] == e;
      }
    }
    forall i, j | 0 <= i < j < |r| ensures !lt(r[j], r[i]) {
      if j == |r| - 1 {
        assert r[i] == rec[i];
        assert rec[i] in multiset(rec);
      } else {
        assert r[i] == rec[i] && r[j] == rec[j];
      }
    }
  }

  /** Appending an element that sorts before no other keeps the order. */
  lemma InsertAfterLast<T(!new)>(x: T, t: seq<T>, lt: (T, T) -> bool)
    requires StrictWeakOrder(lt) && Sorted(t, lt) && t != [] && !lt(x, t[|t| - 1])
    ensures Sorted(Insert(x, t, lt), lt)
  {
    var r := Insert(x, t, lt);
    assert r == t + [x];
    forall i, j | 0 <= i < j < |r| ensures !lt(r[j], r[i]) {
      if j == |r| - 1 {
        if i < |t| - 1 {
          assert !lt(t[|t| - 1], t[i]);
        }
      }
    }
  }

  /** The sort yields an ordered permutation of its input. */
  lemma {:induction false} SortSorted<T(!new)>(s: seq<T>, lt: (T, T) -> bool)
    requires StrictWeakOrder(lt)
    ensures Sorted(Sort(s, lt), lt)
    ensures multiset(Sort(s, lt)) == multiset(s)
  {
    if s != [] {
      SortSorted(s[..|s| - 1], lt);
      InsertSorted(s[|s| - 1], Sort(s[..|s| - 1], lt), lt);
    }
  }

  // ---------------------------------------------------------------------
  // Distinctness survives permutation.

  ghost predicate Distinct<T>(s: seq<T>) {
    forall i, j :: 0 <= i < j < |s| ==> s[i] != s[j]
  }

  lemma {:induction false} DistinctMultiplicity<T>(s: seq<T>, x: T)
    requires Distinct(s)
    ensures multiset(s)[x] <= 1
  {
    if s != [] {
      var init := s[..|s| - 1];
      assert s == init + [s[|s| - 1]];
      assert Distinct(init);
      DistinctMultiplicity(init, x);
      if x == s[|s| - 1] {
        assert x !in init;
      }
    }
  }

  lemma {:induction false} RepeatMultiplicity<T>(s: seq<T>, i: int, j: int)
    requires 0 <= i < j < |s| && s[i] == s[j]
    ensures multiset(s)[s[i]] >= 2
  {
    assert s == s[..j] + [s[j]] + s[j + 1..];
    assert s[i] in s[..j];
  }

  /** A sequence without repeats has as many elements as values. */
  lemma {:induction false} DistinctSetCard<T>(s: seq<T>)
    requires Distinct(s)
    ensures |(set x | x in s)| == |s|
  {
    if s != [] {
      var init, last := s[..|s| - 1], s[|s| - 1];
      assert Distinct(init);
      DistinctSetCard(init);
      assert last !in init;
      assert (set x | x in s) == (set x | x in init) + {last};
    }
  }

  /** A permutation of a sequence without repeats has none either. */
  lemma PermutationDistinct<T>(s: seq<T>, t: seq<T>)
    requires multiset(s) == multiset(t) && Distinct(s)
    ensures Distinct(t)
  {
    forall i, j | 0 <= i < j < |t| ensures t[i] != t[j] {
      if t[i] == t[j] {
        RepeatMultiplicity(t, i, j);
        DistinctMultiplicity(s, t[i]);
      }
    }
  }

  /** Each element sorts strictly before every element to its right. */
  ghost predicate StrictlyAscending<T>(s: seq<T>, lt: (T, T) -> bool) {
    forall i, j :: 0 <= i < j < |s| ==> lt(s[i], s[j])
  }

  /** Sorting a sequence without repeats orders it strictly. */
  lemma SortDistinctStrict<T(!new)>(s: seq<T>, lt: (T, T) -> bool)
    requires StrictWeakOrder(lt) && Distinct(s)
    requires forall a, b :: a != b ==> lt(a, b) || lt(b, a)
    ensures StrictlyAscending(Sort(s, lt), lt)
  {
    var r := Sort(s, lt);
    SortSorted(s, lt);
    PermutationDistinct(s, r);
  }

  /**
   * Two strictly ascending sequences with the same elements are equal: the result of
   * sorting values with distinct keys does not depend on the order they arrive in.
   */
  lemma {:induction false} StrictlyAscendingUnique<T(!new)>(s: seq<T>, t: seq<T>, lt: (T, T) -> bool)
    requires StrictWeakOrder(lt)
    requires StrictlyAscending(s, lt) && StrictlyAscending(t, lt)
    requires forall x :: x in s <==> x in t
    ensures s == t
    decreases |s|
  {
    assert s != [] ==> s[0] in t;
    assert t != [] ==> t[0] in s;
    if s != [] {
      assert t[0] in s && s[0] in t;
      var k :| 0 <= k < |s| && s[k] == t[0];
      var m :| 0 <= m < |t| && t[m] == s[0];
      if k != 0 && m != 0 {
        assert false;
      }
      assert s[0] == t[0];
      forall x ensures x in s[1..] <==> x in t[1..] {
        if x in s[1..] {
          var i :| 0 <= i < |s[1..]| && s[1..][i] == x;
          assert lt(s[0], s[i + 1]);
        }
        if x in t[1..] {
          var j :| 0 <= j < |t[1..]| && t[1..][j] == x;
          assert lt(t[0], t[j + 1]);
        }
        assert x in s <==> x in t;
        assert s == [s[0]] + s[1..] && t == [t[0]] + t[1..];
      }
      StrictlyAscendingUnique(s[1..], t[1..], lt);
    }
  }

  /** Under a total order, sorting two repeat-free sequences with the same elements gives one result. */
  lemma SortOrderIrrelevant<T(!new)>(s: seq<T>, t: seq<T>, lt: (T, T) -> bool)
    requires StrictWeakOrder(lt) && Distinct(s) && Distinct(t)
    requires forall a, b :: a != b ==> lt(a, b) || lt(b, a)
    requires forall x :: x in s <==> x in t
    ensures Sort(s, lt) == Sort(t, lt)
  {
    var a, b := Sort(s, lt), Sort(t, lt);
    SortDistinctStrict(s, lt);
    SortDistinctStrict(t, lt);
    forall x ensures x in a <==> x in b
    {
      calc {
        x in a;
        x in multiset(a);
        x in multiset(s);
        x in s;
        x in t;
        x in multiset(t);
        x in multiset(b);
        x in b;
      }
    }
    StrictlyAscendingUnique(a, b, lt);
  }
}
