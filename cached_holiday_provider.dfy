/**
 * `CachedHolidayProvider`: a bounded LRU cache in front of another `HolidayProvider`.
 * Calls are sequential here (the source serialises them with one lock on the map).
 */
module Caching {
  import opened Options
  import opened Text
  import opened Holidays
  import Lru
  import Sorting

  /** `DEFAULT_MAX_CACHE_SIZE` */
  const DEFAULT_MAX_CACHE_SIZE: int := 100

  /**
   * `buildCacheKey`: `year + ":" + countryCode`. Its first ':' ends the year's decimal
   * text and the country code follows it unchanged.
   */
  function CacheKey(year: int, countryCode: string): (key: string)
    ensures var n := |IntToString(year)|;
      && |key| == n + 1 + |countryCode|
      && key[..n] == IntToString(year) && ParseInt(key[..n]) == year
      && ':' !in key[..n] && key[n] == ':'
      && key[n + 1..] == countryCode
  {
    IntToStringHasNoColon(year);
    IntToStringRoundTrip(year);
    IntToString(year) + ":" + countryCode
  }

  /**
   * Distinct (year, countryCode) pairs get distinct keys: the first ':' of a key ends the
   * year, since a rendered int has no ':'. So different years or countries never share an entry.
   */
  lemma CacheKeyInjective(y1: int, c1: string, y2: int, c2: string)
    requires CacheKey(y1, c1) == CacheKey(y2, c2)
    ensures y1 == y2 && c1 == c2
  {
    var a1, a2 := IntToString(y1), IntToString(y2);
    var k := CacheKey(y1, c1);
    IntToStringHasNoColon(y1);
    IntToStringHasNoColon(y2);
    assert k[|a1|] == ':';
    assert CacheKey(y2, c2)[|a2|] == ':';
    assert a1 == k[..|a1|] == a2;
    IntToStringInjective(y1, y2);
    assert c1 == k[|a1| + 1..] == c2;
  }

  /** What the map stores under a key: the provider's list, or `None` for a stored `null`. */
  type Stored = Option<seq<PublicHoliday>>

  type CacheEntries = seq<Lru.Entry<string, Stored>>

  /** Every stored value is what the underlying provider answers for the key's (year, country). */
  ghost predicate Faithful(es: CacheEntries, underlying: Provider) {
    forall y, c :: Lru.Get(es, CacheKey(y, c)).Some? ==> Lru.Get(es, CacheKey(y, c)).value == underlying(y, c)
  }

  /** The next entries, the list returned, and whether the underlying provider was called. */
  datatype CallOutcome = CallOutcome(entries: CacheEntries, result: Option<seq<PublicHoliday>>, fetched: bool)

  /** Whether `cache.get(key)` yields a non-null list (a stored null counts as a miss). */
  predicate IsHit(es: CacheEntries, key: string) {
    Lru.Get(es, key).Some? && Lru.Get(es, key).value.Some?
  }

  /**
   * One `getPublicHolidays(year, countryCode)`: `get` the key (which, in access order,
   * makes a present entry the most recent); return a non-null stored list; otherwise
   * call the underlying provider once and `put` and return its result, even a null one.
   * So a hit (even an empty list) returns what is stored without a fetch, and anything
   * else fetches exactly once and returns that answer.
   */
  function Call(es: CacheEntries, maxSize: int, underlying: Provider, year: int, countryCode: string): (out: CallOutcome)
    ensures out.fetched <==> !IsHit(es, CacheKey(year, countryCode))
    ensures !out.fetched ==> Some(out.result) == Lru.Get(es, CacheKey(year, countryCode))
    ensures out.fetched ==> out.result == underlying(year, countryCode)
  {
    var key := CacheKey(year, countryCode);
    var touched := Lru.AfterGet(es, key);
    if IsHit(es, key) then CallOutcome(touched, Lru.Get(es, key).value, false)
    else
      var result := underlying(year, countryCode);
      CallOutcome(Lru.Put(touched, key, result, maxSize), result, true)
  }

  /**
   * A call keeps the keys distinct and the size within the bound, adds at most one entry,
   * and leaves the requested key as the most recent entry holding the returned value
   * (for a positive bound; a non-positive bound keeps the cache empty).
   */
  lemma CallKeepsBound(es: CacheEntries, maxSize: int, underlying: Provider, year: int, countryCode: string)
    requires Lru.DistinctKeys(es) && |es| <= Lru.Bound(maxSize)
    ensures var out := Call(es, maxSize, underlying, year, countryCode);
      && Lru.DistinctKeys(out.entries) && |out.entries| <= Lru.Bound(maxSize)
      && |out.entries| <= |es| + 1
      && (maxSize >= 1 ==>
            out.entries != [] && out.entries[|out.entries| - 1] == Lru.Entry(CacheKey(year, countryCode), out.result))
      && (maxSize < 1 ==> out.entries == [])
  {
    var key := CacheKey(year, countryCode);
    Lru.AfterGetFacts(es, key);
    if !IsHit(es, key) {
      Lru.PutFacts(Lru.AfterGet(es, key), key, underlying(year, countryCode), maxSize);
    }
  }

  /**
   * Every other key keeps its value, except that a miss on a new key overflowing the
   * cache removes the eldest (least recently accessed) entry.
   */
  lemma CallEvictsOnlyEldest(es: CacheEntries, maxSize: int, underlying: Provider, year: int, countryCode: string, k: string)
    requires Lru.DistinctKeys(es) && k != CacheKey(year, countryCode)
    ensures var out := Call(es, maxSize, underlying, year, countryCode);
      Lru.Get(out.entries, k) ==
        if out.fetched && Lru.Evicts(es, CacheKey(year, countryCode), maxSize) && es != [] && k == es[0].key
        then None else Lru.Get(es, k)
  {
    var key := CacheKey(year, countryCode);
    Lru.AfterGetFacts(es, key);
    if !IsHit(es, key) {
      var touched := Lru.AfterGet(es, key);
      Lru.PutEvictsOnlyEldest(touched, key, underlying(year, countryCode), maxSize, k);
      if Lru.Get(es, key).None? {
        assert touched == es;
      } else {
        assert !Lru.Evicts(touched, key, maxSize);
      }
    }
  }

  /**
   * The order of the entries after a call: the requested key leaves its place and becomes
   * the most recent entry, every other entry keeping its relative order; an absent key is
   * appended and, when the cache overflows, the eldest entry is dropped. So the entries are
   * always in order of last access, and the eldest one is the least recently used.
   */
  lemma CallOrder(es: CacheEntries, maxSize: int, underlying: Provider, year: int, countryCode: string)
    requires Lru.DistinctKeys(es)
    ensures var out := Call(es, maxSize, underlying, year, countryCode);
      var key := CacheKey(year, countryCode);
      && (IsHit(es, key) ==>
            exists i :: 0 <= i < |es| && es[i].key == key && out.entries == es[..i] + es[i + 1..] + [es[i]])
      && (Lru.Get(es, key).Some? && !IsHit(es, key) ==>
            exists i :: 0 <= i < |es| && es[i].key == key
              && out.entries == es[..i] + es[i + 1..] + [Lru.Entry(key, out.result)])
      && (Lru.Get(es, key).None? ==>
            out.entries == if |es| + 1 > maxSize then (es + [Lru.Entry(key, out.result)])[1..]
                           else es + [Lru.Entry(key, out.result)])
  {
    var key := CacheKey(year, countryCode);
    Lru.AfterGetFacts(es, key);
    if Lru.Get(es, key).None? {
      Lru.PutAbsent(es, key, underlying(year, countryCode), maxSize);
    } else if !IsHit(es, key) {
      Lru.PutAfterGet(es, key, underlying(year, countryCode), maxSize);
    }
  }

  /** A non-null answer, once fetched, is a hit for the next call to the same key (for a positive bound). */
  lemma SuccessfulMissThenHit(es: CacheEntries, maxSize: int, underlying: Provider, year: int, countryCode: string)
    requires Lru.DistinctKeys(es) && |es| <= Lru.Bound(maxSize) && maxSize >= 1
    requires underlying(year, countryCode).Some?
    ensures var out := Call(es, maxSize, underlying, year, countryCode);
      && IsHit(out.entries, CacheKey(year, countryCode))
      && !Call(out.entries, maxSize, underlying, year, countryCode).fetched
  {
    var key := CacheKey(year, countryCode);
    Lru.AfterGetFacts(es, key);
    if !IsHit(es, key) {
      Lru.PutFacts(Lru.AfterGet(es, key), key, underlying(year, countryCode), maxSize);
    }
  }

  /**
   * The cache is transparent: with faithful entries every call returns exactly what the
   * underlying provider answers, and the entries stay faithful.
   */
  lemma CallTransparent(es: CacheEntries, maxSize: int, underlying: Provider, year: int, countryCode: string)
    requires Lru.DistinctKeys(es) && Faithful(es, underlying)
    ensures var out := Call(es, maxSize, underlying, year, countryCode);
      out.result == underlying(year, countryCode) && Faithful(out.entries, underlying)
  {
    var key := CacheKey(year, countryCode);
    var out := Call(es, maxSize, underlying, year, countryCode);
    Lru.AfterGetFacts(es, key);
    var touched := Lru.AfterGet(es, key);
    forall y, c | Lru.Get(out.entries, CacheKey(y, c)).Some?
      ensures Lru.Get(out.entries, CacheKey(y, c)).value == underlying(y, c)
    {
      var k := CacheKey(y, c);
      if k == key {
        CacheKeyInjective(y, c, year, countryCode);
        if !IsHit(es, key) {
          Lru.WithoutFacts(touched, key);
          var w := Lru.Without(touched, key);
          Lru.GetAppend(w, Lru.Entry(key, underlying(year, countryCode)), key);
          if Lru.Evicts(touched, key, maxSize) {
            Lru.DistinctAppend(w, Lru.Entry(key, underlying(year, countryCode)));
          }
        }
      } else {
        CallEvictsOnlyEldest(es, maxSize, underlying, year, countryCode, k);
      }
    }
  }

  /** A key whose provider answers null is never served from the cache: every call for it fetches again. */
  lemma NullAnswerAlwaysRefetched(es: CacheEntries, maxSize: int, underlying: Provider, year: int, countryCode: string)
    requires Faithful(es, underlying) && underlying(year, countryCode).None?
    ensures Call(es, maxSize, underlying, year, countryCode).fetched
  {
  }

  /**
   * A stored null is an entry like any other: the re-fetch moves it to the most recent
   * end with the new answer, so the size does not change and no other key's entry changes.
   */
  lemma StoredNullRefetchKeepsSize(es: CacheEntries, maxSize: int, underlying: Provider, year: int, countryCode: string)
    requires Lru.DistinctKeys(es) && Lru.Get(es, CacheKey(year, countryCode)) == Some(None)
    ensures var out := Call(es, maxSize, underlying, year, countryCode);
      && out.fetched && |out.entries| == |es|
      && out.entries[|es| - 1] == Lru.Entry(CacheKey(year, countryCode), underlying(year, countryCode))
    ensures var out := Call(es, maxSize, underlying, year, countryCode);
      forall k :: k != CacheKey(year, countryCode) ==> Lru.Get(out.entries, k) == Lru.Get(es, k)
  {
    var key := CacheKey(year, countryCode);
    Lru.AfterGetFacts(es, key);
    var touched := Lru.AfterGet(es, key);
    Lru.WithoutFacts(touched, key);
    CallOrder(es, maxSize, underlying, year, countryCode);
    forall k | k != key
      ensures Lru.Get(Call(es, maxSize, underlying, year, countryCode).entries, k) == Lru.Get(es, k)
    {
      CallEvictsOnlyEldest(es, maxSize, underlying, year, countryCode, k);
    }
  }

  // ---------------------------------------------------------------------
  // A sequence of calls.

  /** The final entries and the log of underlying calls after `calls`, one after the other, from `es`. */
  function Run(es: CacheEntries, maxSize: int, underlying: Provider, calls: seq<(int, string)>): (CacheEntries, seq<(int, string)>)
  {
    if calls == [] then (es, [])
    else
      var prev := Run(es, maxSize, underlying, calls[..|calls| - 1]);
      var (year, countryCode) := calls[|calls| - 1];
      var out := Call(prev.0, maxSize, underlying, year, countryCode);
      (out.entries, prev.1 + if out.fetched then [(year, countryCode)] else [])
  }

  /** The distinct elements of a sequence. */
  function Elements<T>(s: seq<T>): set<T> {
    if s == [] then {} else Elements(s[..|s| - 1]) + {s[|s| - 1]}
  }

  lemma {:induction false} ElementsMembership<T>(s: seq<T>, x: T)
    ensures x in Elements(s) <==> x in s
  {
    if s != [] {
      ElementsMembership(s[..|s| - 1], x);
      assert s == s[..|s| - 1] + [s[|s| - 1]];
    }
  }

  lemma {:induction false} ElementsPrefix<T>(s: seq<T>, n: nat)
    requires n <= |s|
    ensures Elements(s[..n]) <= Elements(s)
  {
    forall x | x in Elements(s[..n]) ensures x in Elements(s) {
      ElementsMembership(s[..n], x);
      ElementsMembership(s, x);
    }
  }

  lemma SubsetCard<T>(a: set<T>, b: set<T>)
    requires a <= b
    ensures |a| <= |b|
  {
    assert b == a + (b - a);
  }

  /** What holds after a run from an empty cache of a prefix of calls whose answers are all non-null. */
  ghost predicate RunState(es: CacheEntries, log: seq<(int, string)>, maxSize: int, calls: seq<(int, string)>)
  {
    && Lru.DistinctKeys(es) && |es| <= Lru.Bound(maxSize)
    && |es| <= |Elements(calls)|
    && (forall i :: 0 <= i < |calls| ==> IsHit(es, CacheKey(calls[i].0, calls[i].1)))
    && (forall k :: Lru.Get(es, k).Some? ==> exists i :: 0 <= i < |calls| && k == CacheKey(calls[i].0, calls[i].1))
    && Sorting.Distinct(log)
    && (forall x :: x in log <==> x in calls)
  }

  /** A hit fetches nothing and changes no lookup; it only reorders the entries. */
  lemma HitKeepsLookups(es: CacheEntries, maxSize: int, underlying: Provider, year: int, countryCode: string)
    requires Lru.DistinctKeys(es) && IsHit(es, CacheKey(year, countryCode))
    ensures var out := Call(es, maxSize, underlying, year, countryCode);
      && !out.fetched && Lru.DistinctKeys(out.entries) && |out.entries| == |es|
      && forall k :: Lru.Get(out.entries, k) == Lru.Get(es, k)
  {
    Lru.AfterGetFacts(es, CacheKey(year, countryCode));
  }

  /** Repeating an element adds nothing to the set of elements. */
  lemma ElementsRepeat<T>(s: seq<T>, x: T)
    requires x in s
    ensures Elements(s + [x]) == Elements(s)
  {
    ElementsMembership(s, x);
    assert (s + [x])[..|s|] == s;
  }

  /** Repeating a request keeps every request a hit when the lookups do not change. */
  lemma HitsAfterRepeat(es: CacheEntries, next: CacheEntries, p: seq<(int, string)>, x: (int, string))
    requires forall k :: Lru.Get(next, k) == Lru.Get(es, k)
    requires forall i :: 0 <= i < |p| ==> IsHit(es, CacheKey(p[i].0, p[i].1))
    requires x in p
    ensures forall i :: 0 <= i < |p + [x]| ==> IsHit(next, CacheKey((p + [x])[i].0, (p + [x])[i].1))
  {
    var calls := p + [x];
    var j :| 0 <= j < |p| && p[j] == x;
    forall i | 0 <= i < |calls| ensures IsHit(next, CacheKey(calls[i].0, calls[i].1)) {
      var k := CacheKey(calls[i].0, calls[i].1);
      if i < |p| {
        assert calls[i] == p[i];
      } else {
        assert calls[i] == p[j];
      }
      assert IsHit(es, k);
      assert Lru.Get(next, k) == Lru.Get(es, k);
    }
  }

  /** Repeating a request adds no key when the lookups do not change. */
  lemma KeysAfterRepeat(es: CacheEntries, next: CacheEntries, p: seq<(int, string)>, x: (int, string))
    requires forall k :: Lru.Get(next, k) == Lru.Get(es, k)
    requires forall k :: Lru.Get(es, k).Some? ==> exists i :: 0 <= i < |p| && k == CacheKey(p[i].0, p[i].1)
    ensures forall k :: Lru.Get(next, k).Some? ==>
      exists i :: 0 <= i < |p + [x]| && k == CacheKey((p + [x])[i].0, (p + [x])[i].1)
  {
    var calls := p + [x];
    forall k | Lru.Get(next, k).Some?
      ensures exists i :: 0 <= i < |calls| && k == CacheKey(calls[i].0, calls[i].1)
    {
      assert Lru.Get(es, k).Some?;
      var i :| 0 <= i < |p| && k == CacheKey(p[i].0, p[i].1);
      assert calls[i] == p[i];
    }
  }

  /** A request already seen is a hit: nothing is fetched and nothing stored changes. */
  lemma RunStepSeen(es: CacheEntries, log: seq<(int, string)>, maxSize: int, underlying: Provider,
                    p: seq<(int, string)>, x: (int, string))
    requires RunState(es, log, maxSize, p) && x in p
    ensures var out := Call(es, maxSize, underlying, x.0, x.1);
      !out.fetched && RunState(out.entries, log, maxSize, p + [x])
  {
    var key := CacheKey(x.0, x.1);
    var j :| 0 <= j < |p| && p[j] == x;
    assert IsHit(es, CacheKey(p[j].0, p[j].1));
    HitKeepsLookups(es, maxSize, underlying, x.0, x.1);
    var out := Call(es, maxSize, underlying, x.0, x.1);
    ElementsRepeat(p, x);
    HitsAfterRepeat(es, out.entries, p, x);
    KeysAfterRepeat(es, out.entries, p, x);
  }

  /** A request never seen is a miss on an absent key: it is fetched once and added without eviction. */
  lemma RunStepNew(es: CacheEntries, log: seq<(int, string)>, maxSize: int, underlying: Provider,
                   p: seq<(int, string)>, x: (int, string))
    requires RunState(es, log, maxSize, p) && x !in p
    requires underlying(x.0, x.1).Some? && |Elements(p + [x])| <= maxSize
    ensures var out := Call(es, maxSize, underlying, x.0, x.1);
      out.fetched && RunState(out.entries, log + [x], maxSize, p + [x])
  {
    var (year, countryCode) := x;
    var key := CacheKey(year, countryCode);
    var out := Call(es, maxSize, underlying, year, countryCode);
    var calls := p + [x];
    NewKeyAbsent(es, p, x);
    ElementsMembership(p, x);
    assert Elements(calls) == Elements(p) + {x};
    assert |Elements(calls)| == |Elements(p)| + 1;
    Lru.AfterGetFacts(es, key);
    assert !Lru.Evicts(es, key, maxSize);
    Lru.PutFacts(es, key, underlying(year, countryCode), maxSize);
    HitsAfterNew(es, maxSize, underlying, p, x);
    KeysAfterNew(es, maxSize, underlying, p, x);
    LogAfterNew(log, p, x);
  }

  /** A miss that evicts nothing keeps every earlier request a hit and makes the new one a hit. */
  lemma {:induction false} HitsAfterNew(es: CacheEntries, maxSize: int, underlying: Provider, p: seq<(int, string)>, x: (int, string))
    requires Lru.DistinctKeys(es) && |es| <= Lru.Bound(maxSize) && maxSize >= 1
    requires !IsHit(es, CacheKey(x.0, x.1)) && !Lru.Evicts(es, CacheKey(x.0, x.1), maxSize)
    requires underlying(x.0, x.1).Some?
    requires forall i :: 0 <= i < |p| ==> IsHit(es, CacheKey(p[i].0, p[i].1))
    ensures var out := Call(es, maxSize, underlying, x.0, x.1);
      forall i :: 0 <= i < |p + [x]| ==> IsHit(out.entries, CacheKey((p + [x])[i].0, (p + [x])[i].1))
  {
    var key := CacheKey(x.0, x.1);
    var out := Call(es, maxSize, underlying, x.0, x.1);
    var calls := p + [x];
    Lru.AfterGetFacts(es, key);
    Lru.PutFacts(Lru.AfterGet(es, key), key, underlying(x.0, x.1), maxSize);
    forall i | 0 <= i < |calls| ensures IsHit(out.entries, CacheKey(calls[i].0, calls[i].1)) {
      var k := CacheKey(calls[i].0, calls[i].1);
      if i < |p| {
        assert calls[i] == p[i];
        CallEvictsOnlyEldest(es, maxSize, underlying, x.0, x.1, k);
      } else {
        assert calls[i] == x;
      }
    }
  }

  /** A miss that evicts nothing stores only the new key besides the earlier ones. */
  lemma {:induction false} KeysAfterNew(es: CacheEntries, maxSize: int, underlying: Provider, p: seq<(int, string)>, x: (int, string))
    requires Lru.DistinctKeys(es) && !IsHit(es, CacheKey(x.0, x.1))
    requires forall k :: Lru.Get(es, k).Some? ==> exists i :: 0 <= i < |p| && k == CacheKey(p[i].0, p[i].1)
    ensures var out := Call(es, maxSize, underlying, x.0, x.1);
      forall k :: Lru.Get(out.entries, k).Some? ==>
        exists i :: 0 <= i < |p + [x]| && k == CacheKey((p + [x])[i].0, (p + [x])[i].1)
  {
    var key := CacheKey(x.0, x.1);
    var out := Call(es, maxSize, underlying, x.0, x.1);
    var calls := p + [x];
    forall k | Lru.Get(out.entries, k).Some?
      ensures exists i :: 0 <= i < |calls| && k == CacheKey(calls[i].0, calls[i].1)
    {
      if k == key {
        assert calls[|calls| - 1] == x;
      } else {
        CallEvictsOnlyEldest(es, maxSize, underlying, x.0, x.1, k);
        var i :| 0 <= i < |p| && k == CacheKey(p[i].0, p[i].1);
        assert calls[i] == p[i];
      }
    }
  }

  /** A request never seen has no entry: only requested keys are stored, and keys are injective. */
  lemma NewKeyAbsent(es: CacheEntries, p: seq<(int, string)>, x: (int, string))
    requires forall k :: Lru.Get(es, k).Some? ==> exists i :: 0 <= i < |p| && k == CacheKey(p[i].0, p[i].1)
    requires x !in p
    ensures Lru.Get(es, CacheKey(x.0, x.1)).None?
  {
    var key := CacheKey(x.0, x.1);
    if Lru.Get(es, key).Some? {
      var i :| 0 <= i < |p| && key == CacheKey(p[i].0, p[i].1);
      CacheKeyInjective(x.0, x.1, p[i].0, p[i].1);
      assert false;
    }
  }

  /** Logging a request never seen keeps the log free of repeats and equal, as a set, to the requests. */
  lemma LogAfterNew(log: seq<(int, string)>, p: seq<(int, string)>, x: (int, string))
    requires Sorting.Distinct(log) && (forall a :: a in log <==> a in p) && x !in p
    ensures Sorting.Distinct(log + [x]) && forall a :: a in log + [x] <==> a in p + [x]
  {
    var log' := log + [x];
    forall a ensures a in log' <==> a in p + [x] {
      assert a in log' <==> a in log || a == x;
      assert a in p + [x] <==> a in p || a == x;
    }
    forall i, j | 0 <= i < j < |log'| ensures log'[i] != log'[j] {
      if j == |log'| - 1 {
        assert log'[i] == log[i];
      }
    }
  }

  lemma {:induction false} RunStateInduction(maxSize: int, underlying: Provider, calls: seq<(int, string)>)
    requires forall i :: 0 <= i < |calls| ==> underlying(calls[i].0, calls[i].1).Some?
    requires |Elements(calls)| <= maxSize
    ensures var (es, log) := Run([], maxSize, underlying, calls); RunState(es, log, maxSize, calls)
  {
    if calls != [] {
      var p, x := calls[..|calls| - 1], calls[|calls| - 1];
      assert calls == p + [x];
      ElementsPrefix(calls, |calls| - 1);
      SubsetCard(Elements(p), Elements(calls));
      RunStateInduction(maxSize, underlying, p);
      var (es, log) := Run([], maxSize, underlying, p);
      if x in p {
        RunStepSeen(es, log, maxSize, underlying, p, x);
      } else {
        RunStepNew(es, log, maxSize, underlying, p, x);
      }
    }
  }

  /**
   * At most one fetch per key: from an empty cache whose capacity covers the distinct
   * (year, country) pairs requested, and with non-null answers, the underlying provider
   * is called exactly once for each pair, however often and in whatever order it is requested.
   */
  lemma AtMostOneFetchPerKey(maxSize: int, underlying: Provider, calls: seq<(int, string)>)
    requires forall i :: 0 <= i < |calls| ==> underlying(calls[i].0, calls[i].1).Some?
    requires |Elements(calls)| <= maxSize
    ensures var log := Run([], maxSize, underlying, calls).1;
      Sorting.Distinct(log) && forall x :: x in log <==> x in calls
  {
    RunStateInduction(maxSize, underlying, calls);
  }

  // ---------------------------------------------------------------------
  // The provider object.

  class CachedHolidayProvider {
    const underlyingProvider: Provider
    const maxCacheSize: int
    /** The access-ordered map, eldest entry first. */
    var cache: CacheEntries
    /** Every call made to the underlying provider, in order. */
    ghost var fetchLog: seq<(int, string)>

    ghost predicate Valid()
      reads this
    {
      Lru.DistinctKeys(cache) && |cache| <= Lru.Bound(maxCacheSize) && Faithful(cache, underlyingProvider)
    }

    /** `CachedHolidayProvider(underlyingProvider)`: capacity 100, empty cache. */
    constructor (underlyingProvider: Provider)
      ensures Valid()
      ensures this.underlyingProvider == underlyingProvider && maxCacheSize == DEFAULT_MAX_CACHE_SIZE
      ensures cache == [] && fetchLog == []
    {
      this.underlyingProvider := underlyingProvider;
      this.maxCacheSize := DEFAULT_MAX_CACHE_SIZE;
      this.cache := [];
      this.fetchLog := [];
    }

    /** `CachedHolidayProvider(underlyingProvider, maxCacheSize)`: empty cache of the given capacity. */
    constructor WithMaxCacheSize(underlyingProvider: Provider, maxCacheSize: int)
      ensures Valid()
      ensures this.underlyingProvider == underlyingProvider && this.maxCacheSize == maxCacheSize
      ensures cache == [] && fetchLog == []
    {
      this.underlyingProvider := underlyingProvider;
      this.maxCacheSize := maxCacheSize;
      this.cache := [];
      this.fetchLog := [];
    }

    /** `getPublicHolidays(year, countryCode)` */
    method GetPublicHolidays(year: int, countryCode: string) returns (r: Option<seq<PublicHoliday>>)
      requires Valid()
      modifies this
      ensures Valid()
      ensures var out := Call(old(cache), maxCacheSize, underlyingProvider, year, countryCode);
        && cache == out.entries && r == out.result
        && fetchLog == old(fetchLog) + if out.fetched then [(year, countryCode)] else []
      // the same answer as the underlying provider
      ensures r == underlyingProvider(year, countryCode)
      // a hit (a non-null stored list, even an empty one) does not fetch; anything else fetches once
      ensures IsHit(old(cache), CacheKey(year, countryCode)) ==>
        Some(r) == Lru.Get(old(cache), CacheKey(year, countryCode)) && fetchLog == old(fetchLog)
      ensures !IsHit(old(cache), CacheKey(year, countryCode)) ==>
        fetchLog == old(fetchLog) + [(year, countryCode)]
      // the requested key is now the most recently used entry
      ensures maxCacheSize >= 1 ==> cache != [] && cache[|cache| - 1] == Lru.Entry(CacheKey(year, countryCode), r)
    {
      var cacheKey := CacheKey(year, countryCode);
      CallKeepsBound(cache, maxCacheSize, underlyingProvider, year, countryCode);
      CallTransparent(cache, maxCacheSize, underlyingProvider, year, countryCode);
      var cachedResult := Lru.Get(cache, cacheKey);
      cache := Lru.AfterGet(cache, cacheKey);
      if cachedResult.Some? && cachedResult.value.Some? {
        return cachedResult.value;
      }
      var result := underlyingProvider(year, countryCode);
      fetchLog := fetchLog + [(year, countryCode)];
      cache := Lru.Put(cache, cacheKey, result, maxCacheSize);
      return result;
    }
  }

  /** The behaviour the cache tests exercise, on a cache of capacity 3. */
  method CacheScenario()
  {
    var p := new CachedHolidayProvider.WithMaxCacheSize((y: int, c: string) => if c == "XX" then None else Some([]), 3);
    var first := p.GetPublicHolidays(2024, "US");
    assert |p.fetchLog| == 1;
    var second := p.GetPublicHolidays(2024, "US");
    assert second == first == Some([]);
    assert |p.fetchLog| == 1;   // an empty list is cached
    var n1 := p.GetPublicHolidays(2024, "XX");
    var n2 := p.GetPublicHolidays(2024, "XX");
    assert n1 == n2 == None;
    assert |p.fetchLog| == 3;   // a null answer is fetched again
  }
}
