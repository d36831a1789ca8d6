/**
 * The cache map of `CachedHolidayProvider.createLruCache`: a `LinkedHashMap` in access
 * order whose `removeEldestEntry` answers `size() > maxSize`. Its state is the entry
 * sequence in recency order, eldest first; `get` and `put` are functions on it.
 */
module Lru {
  import opened Options

  datatype Entry<K, V> = Entry(key: K, value: V)

  /** `map.get(k)`: the value stored under `k`, or None when `k` has no entry. */
  function Get<K(==), V>(es: seq<Entry<K, V>>, k: K): Option<V> {
    if es == [] then None else if es[0].key == k then Some(es[0].value) else Get(es[1..], k)
  }

  /** A lookup finds a value exactly when some entry has the key, and the value is that entry's. */
  lemma {:induction false} GetFinds<K, V>(es: seq<Entry<K, V>>, k: K)
    ensures Get(es, k).None? <==> forall i :: 0 <= i < |es| ==> es[i].key != k
    ensures Get(es, k).Some? ==> exists i :: 0 <= i < |es| && es[i] == Entry(k, Get(es, k).value)
  {
    if es != [] && es[0].key != k {
      GetFinds(es[1..], k);
      assert forall i :: 1 <= i < |es| ==> es[i] == es[1..][i - 1];
      if Get(es, k).Some? {
        var j :| 0 <= j < |es| - 1 && es[1..][j] == Entry(k, Get(es, k).value);
        assert es[j + 1] == es[1..][j];
      }
    }
  }

  /** No key has two entries. */
  predicate DistinctKeys<K(==), V>(es: seq<Entry<K, V>>) {
    es == [] || (Get(es[1..], es[0].key).None? && DistinctKeys(es[1..]))
  }

  /** The most entries the map keeps when `removeEldestEntry` is `size() > maxSize`. */
  function Bound(maxSize: int): nat {
    if maxSize > 0 then maxSize else 0
  }

  /** The entries other than the one for `k`, in their order. */
  function Without<K(==), V>(es: seq<Entry<K, V>>, k: K): seq<Entry<K, V>> {
    if es == [] then [] else (if es[0].key == k then [] else [es[0]]) + Without(es[1..], k)
  }

  /** The entries after `map.get(k)`: in access order a hit moves its entry to the most-recent end. */
  function AfterGet<K(==), V>(es: seq<Entry<K, V>>, k: K): seq<Entry<K, V>> {
    match Get(es, k)
    case Some(v) => Without(es, k) + [Entry(k, v)]
    case None => es
  }

  /** Whether `map.put(k, v)` evicts: only a new key can overflow the map. */
  predicate Evicts<K(==), V>(es: seq<Entry<K, V>>, k: K, maxSize: int) {
    Get(es, k).None? && |es| + 1 > maxSize
  }

  /**
   * The entries after `map.put(k, v)`: the entry for `k` becomes the most recent one
   * (a present key leaves its place and comes last with the new value, a new key is
   * appended); after a new key,
   * `removeEldestEntry` drops the eldest entry when the size exceeds `maxSize`.
   */
  function Put<K(==), V>(es: seq<Entry<K, V>>, k: K, v: V, maxSize: int): seq<Entry<K, V>> {
    var base := Without(es, k) + [Entry(k, v)];
    if Evicts(es, k, maxSize) then base[1..] else base
  }

  // ---------------------------------------------------------------------
  // Facts about the entry sequence.

  lemma {:induction false} GetAppend<K, V>(a: seq<Entry<K, V>>, e: Entry<K, V>, k: K)
    ensures Get(a + [e], k) == if Get(a, k).Some? then Get(a, k) else if e.key == k then Some(e.value) else None
  {
    if a != [] {
      assert (a + [e])[1..] == a[1..] + [e];
      GetAppend(a[1..], e, k);
    }
  }

  lemma {:induction false} DistinctAppend<K, V>(a: seq<Entry<K, V>>, e: Entry<K, V>)
    requires DistinctKeys(a) && Get(a, e.key).None?
    ensures DistinctKeys(a + [e])
  {
    if a != [] {
      assert (a + [e])[1..] == a[1..] + [e];
      DistinctAppend(a[1..], e);
      GetAppend(a[1..], e, a[0].key);
    }
  }

  lemma {:induction false} WithoutFacts<K, V>(es: seq<Entry<K, V>>, k: K)
    ensures Get(Without(es, k), k) == None
    ensures forall k' :: k' != k ==> Get(Without(es, k), k') == Get(es, k')
    ensures DistinctKeys(es) ==> DistinctKeys(Without(es, k))
    ensures Get(es, k).None? ==> Without(es, k) == es
    ensures DistinctKeys(es) && Get(es, k).Some? ==> |Without(es, k)| == |es| - 1
    ensures |Without(es, k)| <= |es|
  {
    if es != [] {
      WithoutFacts(es[1..], k);
      var rest := Without(es[1..], k);
      if es[0].key != k {
        var w := Without(es, k);
        assert w == [es[0]] + rest;
        assert w[0] == es[0] && w[1..] == rest;
        assert Get(w, k) == Get(rest, k);
        forall k' | k' != k ensures Get(w, k') == Get(es, k') {
          if k' != es[0].key {
            assert Get(w, k') == Get(rest, k');
          }
        }
        if DistinctKeys(es) {
          assert Get(rest, es[0].key) == Get(es[1..], es[0].key);
          assert DistinctKeys(w);
        }
      } else {
        assert Without(es, k) == rest;
      }
    }
  }

  /** Dropping the eldest entry of a map without repeated keys removes exactly its key. */
  lemma DropEldest<K, V>(es: seq<Entry<K, V>>, k': K)
    requires DistinctKeys(es) && es != []
    ensures DistinctKeys(es[1..])
    ensures Get(es[1..], k') == if k' == es[0].key then None else Get(es, k')
  {
  }

  /** The position of the first entry for `k`. */
  function IndexOf<K(==), V>(es: seq<Entry<K, V>>, k: K): nat
    requires Get(es, k).Some?
  {
    if es[0].key == k then 0 else 1 + IndexOf(es[1..], k)
  }

  /**
   * In a map without repeated keys, the entries other than `k`'s are the ones before and
   * after its position, in their order.
   */
  lemma {:induction false} WithoutAt<K, V>(es: seq<Entry<K, V>>, k: K)
    requires DistinctKeys(es) && Get(es, k).Some?
    ensures var i := IndexOf(es, k);
      && i < |es| && es[i] == Entry(k, Get(es, k).value)
      && Without(es, k) == es[..i] + es[i + 1..]
  {
    if es[0].key == k {
      WithoutFacts(es[1..], k);
      assert Without(es, k) == es[1..];
    } else {
      var t := es[1..];
      var j := IndexOf(t, k);
      assert DistinctKeys(t);
      WithoutAt(t, k);
      assert IndexOf(es, k) == j + 1;
      assert Without(es, k) == [es[0]] + Without(t, k);
      ConsAround(es, j);
    }
  }

  /** Putting the head back in front of the tail with its `j`-th element cut out. */
  lemma ConsAround<T>(s: seq<T>, j: nat)
    requires j + 1 < |s|
    ensures [s[0]] + (s[1..][..j] + s[1..][j + 1..]) == s[..j + 1] + s[j + 2..]
  {
    assert s[..j + 1] == [s[0]] + s[1..][..j];
    assert s[j + 2..] == s[1..][j + 1..];
  }

  /**
   * A `get` never changes what is stored and keeps the keys distinct. A miss leaves the
   * order alone; a hit takes its entry out of its place and makes it the most recent one,
   * the others keeping their order, so the eldest entry is always the least recently accessed.
   */
  lemma AfterGetFacts<K, V>(es: seq<Entry<K, V>>, k: K)
    requires DistinctKeys(es)
    ensures DistinctKeys(AfterGet(es, k)) && |AfterGet(es, k)| == |es|
    ensures forall k' :: Get(AfterGet(es, k), k') == Get(es, k')
    ensures Get(es, k).Some? ==> AfterGet(es, k)[|es| - 1] == Entry(k, Get(es, k).value)
    ensures Get(es, k).Some? ==>
      exists i :: 0 <= i < |es| && es[i].key == k && AfterGet(es, k) == es[..i] + es[i + 1..] + [es[i]]
    ensures Get(es, k).None? ==> AfterGet(es, k) == es
  {
    WithoutFacts(es, k);
    if Get(es, k).Some? {
      var w := Without(es, k);
      var e := Entry(k, Get(es, k).value);
      DistinctAppend(w, e);
      forall k' ensures Get(w + [e], k') == Get(es, k') {
        GetAppend(w, e, k');
      }
      WithoutAt(es, k);
      var i := IndexOf(es, k);
      assert AfterGet(es, k) == es[..i] + es[i + 1..] + [es[i]];
    }
  }

  /**
   * A `put` of a key already present (the re-fetch over a stored null) evicts nothing:
   * the entry leaves its place and comes back last with the new value, the others keeping their order.
   */
  lemma PutPresent<K, V>(es: seq<Entry<K, V>>, k: K, v: V, maxSize: int)
    requires DistinctKeys(es) && Get(es, k).Some?
    ensures exists i :: 0 <= i < |es| && es[i].key == k && Put(es, k, v, maxSize) == es[..i] + es[i + 1..] + [Entry(k, v)]
  {
    WithoutAt(es, k);
    var i := IndexOf(es, k);
    assert Put(es, k, v, maxSize) == es[..i] + es[i + 1..] + [Entry(k, v)];
  }

  lemma {:induction false} WithoutAppend<K, V>(a: seq<Entry<K, V>>, e: Entry<K, V>, k: K)
    ensures Without(a + [e], k) == Without(a, k) + (if e.key == k then [] else [e])
  {
    if a == [] {
      assert [e][1..] == [];
      assert Without([e], k) == (if e.key == k then [] else [e]) + Without([], k);
    } else {
      assert (a + [e])[1..] == a[1..] + [e];
      WithoutAppend(a[1..], e, k);
    }
  }

  /**
   * The `put` that follows a `get` hit on the same key (the re-fetch over a stored null):
   * the key leaves its original place and comes last with the new value; the others keep their order.
   */
  lemma PutAfterGet<K, V>(es: seq<Entry<K, V>>, k: K, v: V, maxSize: int)
    requires DistinctKeys(es) && Get(es, k).Some?
    ensures exists i :: && 0 <= i < |es| && es[i].key == k
                        && Put(AfterGet(es, k), k, v, maxSize) == es[..i] + es[i + 1..] + [Entry(k, v)]
  {
    var w := Without(es, k);
    var touched := AfterGet(es, k);
    AfterGetFacts(es, k);
    assert touched == w + [Entry(k, Get(es, k).value)];
    WithoutAppend(w, Entry(k, Get(es, k).value), k);
    WithoutFacts(es, k);
    WithoutFacts(w, k);
    assert Without(touched, k) == w;
    assert !Evicts(touched, k, maxSize);
    WithoutAt(es, k);
    var i := IndexOf(es, k);
    assert Put(touched, k, v, maxSize) == es[..i] + es[i + 1..] + [Entry(k, v)];
  }

  /**
   * A `put` under the size bound: the keys stay distinct, the bound `size() <= maxSize`
   * is kept, at most one entry is added, and (for a positive bound) `k` now maps to `v`
   * as the most recent entry. A non-positive bound keeps the map empty.
   */
  lemma PutFacts<K, V>(es: seq<Entry<K, V>>, k: K, v: V, maxSize: int)
    requires DistinctKeys(es) && |es| <= Bound(maxSize)
    ensures var r := Put(es, k, v, maxSize);
      && DistinctKeys(r) && |r| <= Bound(maxSize) && |r| <= |es| + 1
      && (maxSize >= 1 ==> r != [] && r[|r| - 1] == Entry(k, v) && Get(r, k) == Some(v))
      && (maxSize < 1 ==> r == [])
  {
    WithoutFacts(es, k);
    var w := Without(es, k);
    var base := w + [Entry(k, v)];
    DistinctAppend(w, Entry(k, v));
    GetAppend(w, Entry(k, v), k);
    if Evicts(es, k, maxSize) {
      if maxSize >= 1 {
        assert |base| >= 2;
        DropEldest(base, k);
      }
    }
  }

  /**
   * What a `put` of `k` does to every other key: nothing, except that when a new key
   * overflows the map, the eldest entry (the least recently accessed) is removed and
   * the survivors keep their order.
   */
  lemma PutEvictsOnlyEldest<K, V>(es: seq<Entry<K, V>>, k: K, v: V, maxSize: int, k': K)
    requires DistinctKeys(es) && k' != k
    ensures Evicts(es, k, maxSize) && es != [] ==> Put(es, k, v, maxSize) == es[1..] + [Entry(k, v)]
    ensures Get(Put(es, k, v, maxSize), k') ==
      if Evicts(es, k, maxSize) && es != [] && k' == es[0].key then None else Get(es, k')
  {
    WithoutFacts(es, k);
    var w := Without(es, k);
    var base := w + [Entry(k, v)];
    DistinctAppend(w, Entry(k, v));
    GetAppend(w, Entry(k, v), k');
    if Evicts(es, k, maxSize) && es != [] {
      assert w == es;
      assert base[1..] == es[1..] + [Entry(k, v)];
      DropEldest(base, k');
    }
  }

  /** Get on a three-entry sequence. */
  lemma GetOfThree<K, V>(a: Entry<K, V>, b: Entry<K, V>, c: Entry<K, V>, k: K)
    ensures Get([a, b, c], k) == if a.key == k then Some(a.value) else if b.key == k then Some(b.value)
      else if c.key == k then Some(c.value) else None
  {
    assert [a, b, c][1..] == [b, c];
    assert [b, c][1..] == [c];
    assert [c][1..] == [];
    assert Get([c], k) == if c.key == k then Some(c.value) else None;
    assert Get([b, c], k) == if b.key == k then Some(b.value) else Get([c], k);
  }

  /** Without on a three-entry sequence whose keys are distinct. */
  lemma WithoutOfThree<K, V>(a: Entry<K, V>, b: Entry<K, V>, c: Entry<K, V>, k: K)
    requires a.key != k && c.key != k
    ensures Without([a, b, c], k) == if b.key == k then [a, c] else [a, b, c]
  {
    assert [a, b, c][1..] == [b, c];
    assert [b, c][1..] == [c];
    assert [c][1..] == [];
    assert Without([c], k) == [c];
    assert Without([b, c], k) == if b.key == k then [c] else [b, c];
  }

  /** Get and Without on a one-entry sequence for another key. */
  lemma OtherKeyOfOne<K, V>(e: Entry<K, V>, k: K)
    requires e.key != k
    ensures Get([e], k) == None && Without([e], k) == [e]
  {
    assert [e][1..] == [];
    assert Without([e], k) == [e] + Without([], k);
  }

  /** A `put` of an absent key appends it, then drops the eldest entry when the map overflows. */
  lemma PutAbsent<K, V>(es: seq<Entry<K, V>>, k: K, v: V, maxSize: int)
    requires Get(es, k).None?
    ensures Put(es, k, v, maxSize) == if |es| + 1 > maxSize then (es + [Entry(k, v)])[1..] else es + [Entry(k, v)]
  {
    WithoutFacts(es, k);
  }

  /** Filling a capacity-3 map with K1..K4 evicts K1, the eldest. */
  lemma FillExample()
    ensures Put(Put(Put(Put([], 1, 10, 3), 2, 20, 3), 3, 30, 3), 4, 40, 3)
      == [Entry(2, 20), Entry(3, 30), Entry(4, 40)]
  {
    var e1, e2, e3, e4 := Entry(1, 10), Entry(2, 20), Entry(3, 30), Entry(4, 40);
    var m1 := Put([], 1, 10, 3);
    PutAbsent([], 1, 10, 3);
    assert m1 == [e1];
    var m2 := Put(m1, 2, 20, 3);
    OtherKeyOfOne(e1, 2);
    PutAbsent([e1], 2, 20, 3);
    assert m2 == [e1, e2];
    var m3 := Put(m2, 3, 30, 3);
    OtherKeyOfOne(e2, 3);
    assert [e1, e2][1..] == [e2];
    PutAbsent([e1, e2], 3, 30, 3);
    assert m3 == [e1, e2, e3];
    GetOfThree(e1, e2, e3, 4);
    PutAbsent([e1, e2, e3], 4, 40, 3);
    assert ([e1, e2, e3] + [e4])[1..] == [e2, e3, e4];
  }

  /**
   * Capacity 3 holding K2, K3, K4 (eldest first): get K3, which makes it the most recent,
   * then put K5. The least recently accessed key is K2, so K2 goes and K4, K3, K5 stay.
   */
  lemma AccessOrderEvictionExample()
    ensures AfterGet([Entry(2, 20), Entry(3, 30), Entry(4, 40)], 3) == [Entry(2, 20), Entry(4, 40), Entry(3, 30)]
    ensures Put([Entry(2, 20), Entry(4, 40), Entry(3, 30)], 5, 50, 3) == [Entry(4, 40), Entry(3, 30), Entry(5, 50)]
  {
    var e2, e3, e4, e5 := Entry(2, 20), Entry(3, 30), Entry(4, 40), Entry(5, 50);
    GetOfThree(e2, e3, e4, 3);
    WithoutOfThree(e2, e3, e4, 3);
    GetOfThree(e2, e4, e3, 5);
    WithoutOfThree(e2, e4, e3, 5);
    assert [e2, e4, e3, e5][1..] == [e4, e3, e5];
  }
}
