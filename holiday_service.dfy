/**
 * `HolidayService`: the three aggregations over a `HolidayProvider`. The provider is the
 * function `Provider` (None for a `null` list) and today's date is a parameter.
 */
module Service {
  import opened Options
  import opened Calendar
  import opened Holidays
  import opened CountryCounts
  import opened SharedHolidays
  import Sorting

  // ---------------------------------------------------------------------
  // isWeekday

  /** `isWeekday`: the holiday's date is neither a Saturday nor a Sunday. */
  predicate IsWeekday(h: PublicHoliday) {
    GetDayOfWeek(h.date) != Saturday && GetDayOfWeek(h.date) != Sunday
  }

  /** A weekday is one whose zero-based weekday index (Monday = 0) is below 5. */
  lemma IsWeekdayByIndex(h: PublicHoliday)
    ensures IsWeekday(h) <==> (ToEpochDay(h.date) + 3) % 7 < 5
  {
    var k := (ToEpochDay(h.date) + 3) % 7;
    assert GetDayOfWeek(h.date) == DayOfWeekOf(k);
    assert DayOfWeekOf(k) == Saturday <==> k == 5;
    assert DayOfWeekOf(k) == Sunday <==> k == 6;
  }

  /** The weekday facts the service relies on for 2024. */
  lemma IsWeekdayExamples(name: string, countryCode: string)
    ensures IsWeekday(PublicHoliday(LocalDate(2024, 1, 1), name, name, countryCode))
    ensures IsWeekday(PublicHoliday(LocalDate(2024, 7, 4), name, name, countryCode))
    ensures IsWeekday(PublicHoliday(LocalDate(2024, 12, 25), name, name, countryCode))
    ensures !IsWeekday(PublicHoliday(LocalDate(2024, 11, 2), name, name, countryCode))
    ensures !IsWeekday(PublicHoliday(LocalDate(2024, 11, 3), name, name, countryCode))
  {
    DayOfWeekFacts();
  }

  // ---------------------------------------------------------------------
  // getLastCelebratedHolidays

  /** `limit(3)` */
  const LAST_CELEBRATED_LIMIT: nat := 3

  /** The holidays a provider answer contributes: its list, or none for `null`. */
  function Answered(answer: Option<seq<PublicHoliday>>): (hs: seq<PublicHoliday>)
    ensures answer.None? ==> hs == []
    ensures answer.Some? ==> hs == answer.value
  {
    answer.GetOr([])
  }

  /**
   * `allHolidays` once the year loop has handled every year from `currentYear` down to
   * `year + 1`: those years' lists, latest year first.
   */
  function Gathered(provider: Provider, countryCode: string, currentYear: int, year: int): (hs: seq<PublicHoliday>)
    requires year <= currentYear
    decreases currentYear - year
  {
    if year == currentYear then []
    else Gathered(provider, countryCode, currentYear, year + 1) + Answered(provider(year + 1, countryCode))
  }

  /** `allHolidays` after the loop: the current year's list, then the previous year's. */
  function Collected(provider: Provider, countryCode: string, currentYear: int): (hs: seq<PublicHoliday>)
    ensures hs == Answered(provider(currentYear, countryCode)) + Answered(provider(currentYear - 1, countryCode))
    ensures forall h :: h in hs <==>
      h in Answered(provider(currentYear, countryCode)) || h in Answered(provider(currentYear - 1, countryCode))
  {
    var hs := Gathered(provider, countryCode, currentYear, currentYear - 2);
    assert Gathered(provider, countryCode, currentYear, currentYear - 1) == Answered(provider(currentYear, countryCode));
    hs
  }

  /** `filter(holiday -> holiday.getDate().isBefore(today))` */
  function Past(hs: seq<PublicHoliday>, today: LocalDate): (r: seq<PublicHoliday>)
    ensures forall h :: h in r <==> h in hs && IsBefore(h.date, today)
    ensures multiset(r) <= multiset(hs)
    ensures forall h :: multiset(r)[h] == if IsBefore(h.date, today) then multiset(hs)[h] else 0
  {
    if hs == [] then []
    else
      var h := hs[|hs| - 1];
      assert hs == hs[..|hs| - 1] + [h];
      assert multiset(hs) == multiset(hs[..|hs| - 1]) + multiset{h};
      var rest := Past(hs[..|hs| - 1], today);
      if IsBefore(h.date, today) then rest + [h] else rest
  }

  /** What `Comparator.comparing(PublicHoliday::getDate).reversed()` sorts first: the later date. */
  predicate LaterDate(a: PublicHoliday, b: PublicHoliday) {
    IsBefore(b.date, a.date)
  }

  lemma LaterDateIsStrictWeakOrder()
    ensures Sorting.StrictWeakOrder(LaterDate)
  {
    forall a: PublicHoliday, b: PublicHoliday, c: PublicHoliday
      ensures !LaterDate(a, a)
      ensures LaterDate(a, b) && LaterDate(b, c) ==> LaterDate(a, c)
      ensures !LaterDate(a, b) && !LaterDate(b, c) ==> !LaterDate(a, c)
    {
      IsBeforeStrictTotalOrder(c.date, b.date, a.date);
      IsBeforeStrictTotalOrder(a.date, b.date, c.date);
    }
  }

  /** Sorting by the reversed date comparator puts later dates first. */
  lemma SortedLatestFirst(hs: seq<PublicHoliday>)
    ensures Sorting.Sorted(Sorting.Sort(hs, LaterDate), LaterDate)
  {
    LaterDateIsStrictWeakOrder();
    Sorting.SortSorted(hs, LaterDate);
  }

  /** The stream: the past holidays, latest first (stable), at most three. */
  function LastCelebrated(all: seq<PublicHoliday>, today: LocalDate): seq<PublicHoliday> {
    var sorted := Sorting.Sort(Past(all, today), LaterDate);
    if |sorted| <= LAST_CELEBRATED_LIMIT then sorted else sorted[..LAST_CELEBRATED_LIMIT]
  }

  /** At most three holidays, each from `all` and strictly before today, latest first. */
  lemma LastCelebratedFacts(all: seq<PublicHoliday>, today: LocalDate)
    ensures var r := LastCelebrated(all, today);
      && |r| <= LAST_CELEBRATED_LIMIT
      && multiset(r) <= multiset(Past(all, today))
      && (forall i :: 0 <= i < |r| ==> r[i] in all && IsBefore(r[i].date, today))
      && (forall i, j :: 0 <= i < j < |r| ==> !IsBefore(r[i].date, r[j].date))
  {
    var past := Past(all, today);
    var sorted := Sorting.Sort(past, LaterDate);
    var r := LastCelebrated(all, today);
    SortedLatestFirst(past);
    if |sorted| > LAST_CELEBRATED_LIMIT {
      assert sorted == r + sorted[LAST_CELEBRATED_LIMIT..];
    }
    forall i | 0 <= i < |r| ensures r[i] in all && IsBefore(r[i].date, today)
    {
      assert r[i] == sorted[i];
      assert sorted[i] in multiset(past);
    }
  }

  /**
   * The result is the top three by date: fewer than three only when every past holiday
   * is returned, and a past holiday left out is no later than the last one returned.
   */
  lemma LastCelebratedIsTopThree(all: seq<PublicHoliday>, today: LocalDate)
    ensures var r := LastCelebrated(all, today);
      && (|r| < LAST_CELEBRATED_LIMIT ==> multiset(r) == multiset(Past(all, today)))
      && (forall h :: h in all && IsBefore(h.date, today) && h !in r ==>
            |r| == LAST_CELEBRATED_LIMIT && !IsBefore(r[|r| - 1].date, h.date))
  {
    var past := Past(all, today);
    var r := LastCelebrated(all, today);
    SortedLatestFirst(past);
    forall h | h in all && IsBefore(h.date, today) && h !in r
      ensures |r| == LAST_CELEBRATED_LIMIT && !IsBefore(r[|r| - 1].date, h.date)
    {
      OmittedIsNoLater(all, today, h);
    }
  }

  /** A past holiday left out of the result is no later than the last one kept, and three were kept. */
  lemma OmittedIsNoLater(all: seq<PublicHoliday>, today: LocalDate, h: PublicHoliday)
    requires h in all && IsBefore(h.date, today) && h !in LastCelebrated(all, today)
    ensures var r := LastCelebrated(all, today);
      |r| == LAST_CELEBRATED_LIMIT && !IsBefore(r[|r| - 1].date, h.date)
  {
    var past := Past(all, today);
    var sorted := Sorting.Sort(past, LaterDate);
    var r := LastCelebrated(all, today);
    SortedLatestFirst(past);
    assert h in multiset(sorted);
    var k :| 0 <= k < |sorted| && sorted[k] == h;
    assert forall i :: 0 <= i < |r| ==> r[i] == sorted[i] && r[i] in r;
    assert k >= |r|;
    assert r[|r| - 1] == sorted[LAST_CELEBRATED_LIMIT - 1];
    assert !LaterDate(sorted[k], sorted[LAST_CELEBRATED_LIMIT - 1]);
  }

  /**
   * `getLastCelebratedHolidays(countryCode)` on `today`: read the current and the previous
   * year's lists (skipping a null one), then keep the three latest past holidays.
   */
  method GetLastCelebratedHolidays(provider: Provider, countryCode: string, today: LocalDate)
    returns (r: seq<PublicHoliday>)
    ensures r == LastCelebrated(Collected(provider, countryCode, today.year), today)
    ensures |r| <= LAST_CELEBRATED_LIMIT
    ensures forall i :: 0 <= i < |r| ==> IsBefore(r[i].date, today)
    ensures forall i :: 0 <= i < |r| ==>
      r[i] in Answered(provider(today.year, countryCode)) || r[i] in Answered(provider(today.year - 1, countryCode))
    ensures forall i, j :: 0 <= i < j < |r| ==> !IsBefore(r[i].date, r[j].date)
  {
    var currentYear := today.year;
    var allHolidays: seq<PublicHoliday> := [];
    var year := currentYear;
    while year >= currentYear - 1
      invariant currentYear - 2 <= year <= currentYear
      invariant allHolidays == Gathered(provider, countryCode, currentYear, year)
      decreases year - currentYear + 2
    {
      var yearHolidays := provider(year, countryCode);
      if yearHolidays.Some? {
        allHolidays := allHolidays + yearHolidays.value;
      }
      year := year - 1;
    }
    r := LastCelebrated(allHolidays, today);
    LastCelebratedFacts(allHolidays, today);
    assert allHolidays == Collected(provider, countryCode, currentYear);
  }

  // ---------------------------------------------------------------------
  // getNonWeekendHolidayCount

  /** `holidays.stream().filter(this::isWeekday).count()` */
  function NonWeekendCount(hs: seq<PublicHoliday>): (n: nat)
    ensures n <= |hs|
  {
    if hs == [] then 0
    else NonWeekendCount(hs[..|hs| - 1]) + (if IsWeekday(hs[|hs| - 1]) then 1 else 0)
  }

  /** The count is the whole length exactly when every holiday is on a weekday, and 0 exactly when none is. */
  lemma NonWeekendCountExtremes(hs: seq<PublicHoliday>)
    ensures NonWeekendCount(hs) == |hs| <==> forall i :: 0 <= i < |hs| ==> IsWeekday(hs[i])
    ensures NonWeekendCount(hs) == 0 <==> forall i :: 0 <= i < |hs| ==> !IsWeekday(hs[i])
  {
    NonWeekendCountAll(hs);
    NonWeekendCountNone(hs);
  }

  lemma {:induction false} NonWeekendCountAll(hs: seq<PublicHoliday>)
    ensures NonWeekendCount(hs) == |hs| <==> forall i :: 0 <= i < |hs| ==> IsWeekday(hs[i])
  {
    if hs != [] {
      var init, last := hs[..|hs| - 1], hs[|hs| - 1];
      NonWeekendCountAll(init);
      assert forall i :: 0 <= i < |init| ==> init[i] == hs[i];
      assert NonWeekendCount(hs) == NonWeekendCount(init) + (if IsWeekday(last) then 1 else 0);
    }
  }

  lemma {:induction false} NonWeekendCountNone(hs: seq<PublicHoliday>)
    ensures NonWeekendCount(hs) == 0 <==> forall i :: 0 <= i < |hs| ==> !IsWeekday(hs[i])
  {
    if hs != [] {
      var init, last := hs[..|hs| - 1], hs[|hs| - 1];
      NonWeekendCountNone(init);
      assert forall i :: 0 <= i < |init| ==> init[i] == hs[i];
      assert NonWeekendCount(hs) == NonWeekendCount(init) + (if IsWeekday(last) then 1 else 0);
    }
  }

  /** Counting weekday holidays distributes over concatenation. */
  lemma {:induction false} NonWeekendCountAppend(a: seq<PublicHoliday>, b: seq<PublicHoliday>)
    ensures NonWeekendCount(a + b) == NonWeekendCount(a) + NonWeekendCount(b)
    decreases |b|
  {
    if b != [] {
      var init := b[..|b| - 1];
      var last := b[|b| - 1];
      assert (a + b)[..|a + b| - 1] == a + init;
      assert (a + b)[|a + b| - 1] == last;
      NonWeekendCountAppend(a, init);
      assert NonWeekendCount(a + b) == NonWeekendCount(a + init) + (if IsWeekday(last) then 1 else 0);
    } else {
      assert a + b == a;
    }
  }

  /** One element of the result, the fields of one `CountryHolidayCount`. */
  datatype CountRow = CountRow(countryCode: string, holidayCount: Int32)

  /**
   * The stream's `map` for one code: 0 for a null list, else the weekday count narrowed
   * by `(int)`; the count is exact for every list shorter than 2^31.
   */
  function CountFor(provider: Provider, year: int, countryCode: string): (row: CountRow)
    ensures row.countryCode == countryCode
    ensures provider(year, countryCode).None? ==> row.holidayCount == 0
    ensures provider(year, countryCode).Some? && |provider(year, countryCode).value| < 0x8000_0000 ==>
      row.holidayCount == NonWeekendCount(provider(year, countryCode).value)
  {
    match provider(year, countryCode)
    case None => CountRow(countryCode, 0)
    case Some(holidays) => CountRow(countryCode, WrapInt32(NonWeekendCount(holidays)))
  }

  /** The mapped stream, one row per requested code, in request order. */
  function Rows(provider: Provider, year: int, countryCodes: seq<string>): (rows: seq<CountRow>)
    ensures |rows| == |countryCodes|
    ensures forall i :: 0 <= i < |countryCodes| ==> rows[i] == CountFor(provider, year, countryCodes[i])
  {
    if countryCodes == [] then []
    else Rows(provider, year, countryCodes[..|countryCodes| - 1]) + [CountFor(provider, year, countryCodes[|countryCodes| - 1])]
  }

  /** What `CountryHolidayCount.compareTo` sorts first: the larger count. */
  predicate MoreHolidays(a: CountRow, b: CountRow) {
    CompareCounts(a.holidayCount, b.holidayCount) < 0
  }

  lemma MoreHolidaysIsStrictWeakOrder()
    ensures Sorting.StrictWeakOrder(MoreHolidays)
  {
    forall a: CountRow, b: CountRow, c: CountRow
      ensures !MoreHolidays(a, a)
      ensures MoreHolidays(a, b) && MoreHolidays(b, c) ==> MoreHolidays(a, c)
      ensures !MoreHolidays(a, b) && !MoreHolidays(b, c) ==> !MoreHolidays(a, c)
    {
      CompareCountsConsistent(a.holidayCount, b.holidayCount, c.holidayCount);
    }
  }

  /** Sorting by `compareTo` puts larger counts first. */
  lemma SortedMostFirst(rows: seq<CountRow>)
    ensures Sorting.Sorted(Sorting.Sort(rows, MoreHolidays), MoreHolidays)
  {
    MoreHolidaysIsStrictWeakOrder();
    Sorting.SortSorted(rows, MoreHolidays);
  }

  /** `getNonWeekendHolidayCount(year, countryCodes)`: the rows, `sorted()` by `compareTo`. */
  function NonWeekendHolidayCounts(provider: Provider, year: int, countryCodes: seq<string>): seq<CountRow> {
    Sorting.Sort(Rows(provider, year, countryCodes), MoreHolidays)
  }

  /**
   * One row per requested code: the result is a permutation of the mapped rows, and each
   * row is the count for its own code.
   */
  lemma NonWeekendHolidayCountsRows(provider: Provider, year: int, countryCodes: seq<string>)
    ensures var r := NonWeekendHolidayCounts(provider, year, countryCodes);
      && |r| == |countryCodes|
      && multiset(r) == multiset(Rows(provider, year, countryCodes))
      && (forall i :: 0 <= i < |r| ==>
            r[i].countryCode in countryCodes && r[i] == CountFor(provider, year, r[i].countryCode))
  {
    var rows := Rows(provider, year, countryCodes);
    var r := NonWeekendHolidayCounts(provider, year, countryCodes);
    forall i | 0 <= i < |r|
      ensures r[i].countryCode in countryCodes && r[i] == CountFor(provider, year, r[i].countryCode)
    {
      assert r[i] in multiset(rows);
      var k :| 0 <= k < |rows| && rows[k] == r[i];
      assert rows[k] == CountFor(provider, year, countryCodes[k]);
    }
  }

  /** Every requested code has a row. */
  lemma NonWeekendHolidayCountsCover(provider: Provider, year: int, countryCodes: seq<string>)
    ensures var r := NonWeekendHolidayCounts(provider, year, countryCodes);
      forall c :: c in countryCodes ==> exists i :: 0 <= i < |r| && r[i].countryCode == c
  {
    var rows := Rows(provider, year, countryCodes);
    var r := NonWeekendHolidayCounts(provider, year, countryCodes);
    forall c | c in countryCodes ensures exists i :: 0 <= i < |r| && r[i].countryCode == c
    {
      var k :| 0 <= k < |countryCodes| && countryCodes[k] == c;
      assert rows[k] in multiset(r);
      var i :| 0 <= i < |r| && r[i] == rows[k];
      assert r[i].countryCode == c;
    }
  }

  /** The counts come out in non-increasing order. */
  lemma NonWeekendHolidayCountsOrdered(provider: Provider, year: int, countryCodes: seq<string>)
    ensures var r := NonWeekendHolidayCounts(provider, year, countryCodes);
      forall i, j :: 0 <= i < j < |r| ==> r[i].holidayCount >= r[j].holidayCount
  {
    var r := NonWeekendHolidayCounts(provider, year, countryCodes);
    SortedMostFirst(Rows(provider, year, countryCodes));
    forall i, j | 0 <= i < j < |r| ensures r[i].holidayCount >= r[j].holidayCount
    {
      assert !MoreHolidays(r[j], r[i]);
    }
  }

  // ---------------------------------------------------------------------
  // getSharedHolidays

  /** One of the first `n` holidays of `hs` falls on `d`. */
  ghost predicate HasDateBefore(hs: seq<PublicHoliday>, n: int, d: LocalDate) {
    exists k :: 0 <= k < n && k < |hs| && hs[k].date == d
  }

  /** Some holiday of `hs` falls on `d`. */
  ghost predicate HasDate(hs: seq<PublicHoliday>, d: LocalDate) {
    HasDateBefore(hs, |hs|, d)
  }

  /** One more holiday adds exactly its own date. */
  lemma HasDateStep(hs: seq<PublicHoliday>, n: int)
    requires 0 < n <= |hs|
    ensures forall d :: HasDateBefore(hs, n, d) <==> HasDateBefore(hs, n - 1, d) || hs[n - 1].date == d
  {
  }

  /**
   * `holidayMap1`: `toMap(getDate, h -> h, (h1, h2) -> h1)` over the first `n` holidays:
   * a date already in the map keeps its holiday.
   */
  function FirstByDate(hs: seq<PublicHoliday>, n: int): map<LocalDate, PublicHoliday>
    requires 0 <= n <= |hs|
  {
    if n == 0 then map[]
    else
      var m := FirstByDate(hs, n - 1);
      var h := hs[n - 1];
      if h.date in m then m else m[h.date := h]
  }

  /** The map has exactly the dates of the holidays. */
  lemma {:induction false} FirstByDateKeys(hs: seq<PublicHoliday>, n: int)
    requires 0 <= n <= |hs|
    ensures forall d :: d in FirstByDate(hs, n) <==> HasDateBefore(hs, n, d)
  {
    if n > 0 {
      FirstByDateKeys(hs, n - 1);
      HasDateStep(hs, n);
    }
  }

  /** A holiday whose date no earlier holiday has is the one the map keeps for that date. */
  lemma {:induction false} FirstByDateFirst(hs: seq<PublicHoliday>, n: int, i: int)
    requires 0 <= i < n <= |hs|
    requires forall j :: 0 <= j < i ==> hs[j].date != hs[i].date
    ensures hs[i].date in FirstByDate(hs, n) && FirstByDate(hs, n)[hs[i].date] == hs[i]
  {
    if i == n - 1 {
      FirstByDateKeys(hs, n - 1);
      assert !HasDateBefore(hs, n - 1, hs[i].date);
    } else {
      FirstByDateFirst(hs, n - 1, i);
    }
  }

  /** The map has exactly the dates of the holidays, each mapped to the first holiday on it. */
  lemma FirstByDateFacts(hs: seq<PublicHoliday>, n: int)
    requires 0 <= n <= |hs|
    ensures var m := FirstByDate(hs, n);
      && (forall d :: d in m <==> HasDateBefore(hs, n, d))
      && (forall i :: 0 <= i < n && (forall j :: 0 <= j < i ==> hs[j].date != hs[i].date) ==>
            hs[i].date in m && m[hs[i].date] == hs[i])
  {
    FirstByDateKeys(hs, n);
    forall i | 0 <= i < n && (forall j :: 0 <= j < i ==> hs[j].date != hs[i].date)
      ensures hs[i].date in FirstByDate(hs, n) && FirstByDate(hs, n)[hs[i].date] == hs[i]
    {
      FirstByDateFirst(hs, n, i);
    }
  }

  /** The last of the first `n` holidays of `hs` on `d`, if any. */
  function LastOn(hs: seq<PublicHoliday>, n: int, d: LocalDate): Option<PublicHoliday>
    requires 0 <= n <= |hs|
  {
    if n == 0 then None
    else if hs[n - 1].date == d then Some(hs[n - 1])
    else LastOn(hs, n - 1, d)
  }

  /** There is a last holiday on `d` exactly when some holiday falls on it, and none after it does. */
  lemma {:induction false} LastOnFacts(hs: seq<PublicHoliday>, n: int, d: LocalDate)
    requires 0 <= n <= |hs|
    ensures var r := LastOn(hs, n, d);
      && (r.None? <==> !HasDateBefore(hs, n, d))
      && (r.Some? ==>
            exists k :: (0 <= k < n && hs[k] == r.value && r.value.date == d &&
                         forall j :: k < j < n ==> hs[j].date != d))
  {
    if n > 0 {
      LastOnFacts(hs, n - 1, d);
      HasDateStep(hs, n);
      if hs[n - 1].date == d {
        assert hs[n - 1] == LastOn(hs, n, d).value;
      }
    }
  }

  /** The names `addLocalName` leaves for one shared date: country 1's, then country 2's (which wins if the codes are equal). */
  function NamePair(countryCode1: string, localName1: string, countryCode2: string, localName2: string): map<string, string> {
    map[countryCode1 := localName1][countryCode2 := localName2]
  }

  /**
   * The name maps of `sharedHolidayMap` after the loop has visited the first `n`
   * holidays of the second list: a visited date of the first list gets a fresh
   * `SharedHoliday` (`computeIfAbsent`) and both names are added to it.
   */
  function SharedNames(map1: map<LocalDate, PublicHoliday>, hs: seq<PublicHoliday>, n: int,
                       countryCode1: string, countryCode2: string): map<LocalDate, map<string, string>>
    requires 0 <= n <= |hs|
  {
    if n == 0 then map[]
    else
      var acc := SharedNames(map1, hs, n - 1, countryCode1, countryCode2);
      var h := hs[n - 1];
      if h.date in map1 then
        var names := if h.date in acc then acc[h.date] else map[];
        acc[h.date := names[countryCode1 := map1[h.date].localName][countryCode2 := h.localName]]
      else acc
  }

  /** The shared dates are the visited dates that the first list also has. */
  lemma {:induction false} SharedNamesKeys(map1: map<LocalDate, PublicHoliday>, hs: seq<PublicHoliday>, n: int,
                                           countryCode1: string, countryCode2: string)
    requires 0 <= n <= |hs|
    ensures forall d :: d in SharedNames(map1, hs, n, countryCode1, countryCode2) <==> d in map1 && HasDateBefore(hs, n, d)
  {
    if n > 0 {
      SharedNamesKeys(map1, hs, n - 1, countryCode1, countryCode2);
      HasDateStep(hs, n);
    }
  }

  /** Adding both names again replaces country 2's name and keeps country 1's. */
  lemma NamePairUpdate(countryCode1: string, localName1: string, countryCode2: string, old2: string, new2: string)
    ensures NamePair(countryCode1, localName1, countryCode2, old2)[countryCode1 := localName1][countryCode2 := new2]
      == NamePair(countryCode1, localName1, countryCode2, new2)
  {
  }

  /**
   * Each shared date maps to country 1's name from the first list and the name of the
   * last visited holiday on that date.
   */
  lemma {:induction false} SharedNamesValues(map1: map<LocalDate, PublicHoliday>, hs: seq<PublicHoliday>, n: int,
                                             countryCode1: string, countryCode2: string)
    requires 0 <= n <= |hs|
    ensures var names := SharedNames(map1, hs, n, countryCode1, countryCode2);
      forall d :: d in names ==>
        && d in map1
        && LastOn(hs, n, d).Some?
        && names[d] == NamePair(countryCode1, map1[d].localName, countryCode2, LastOn(hs, n, d).value.localName)
  {
    if n > 0 {
      SharedNamesValues(map1, hs, n - 1, countryCode1, countryCode2);
      var acc := SharedNames(map1, hs, n - 1, countryCode1, countryCode2);
      var names := SharedNames(map1, hs, n, countryCode1, countryCode2);
      var h := hs[n - 1];
      if h.date in map1 {
        var n1 := map1[h.date].localName;
        assert LastOn(hs, n, h.date) == Some(h);
        if h.date in acc {
          NamePairUpdate(countryCode1, n1, countryCode2, LastOn(hs, n - 1, h.date).value.localName, h.localName);
        }
        assert names[h.date] == NamePair(countryCode1, n1, countryCode2, h.localName);
      }
      forall d | d in names && d != h.date
        ensures names[d] == acc[d] && LastOn(hs, n, d) == LastOn(hs, n - 1, d)
      {
      }
    }
  }

  /**
   * The keys of `sharedHolidayMap` in the order the loop creates them: each visited date
   * that is in the first list, at its first occurrence.
   */
  function SeenDates(map1: map<LocalDate, PublicHoliday>, hs: seq<PublicHoliday>, n: int): seq<LocalDate>
    requires 0 <= n <= |hs|
  {
    if n == 0 then []
    else
      var rest := SeenDates(map1, hs, n - 1);
      var h := hs[n - 1];
      if h.date in map1 && h.date !in rest then rest + [h.date] else rest
  }

  /** The created dates have no repeats, and they are the visited dates of the first list. */
  lemma {:induction false} SeenDatesFacts(map1: map<LocalDate, PublicHoliday>, hs: seq<PublicHoliday>, n: int)
    requires 0 <= n <= |hs|
    ensures Sorting.Distinct(SeenDates(map1, hs, n))
    ensures forall d :: d in SeenDates(map1, hs, n) <==> d in map1 && HasDateBefore(hs, n, d)
  {
    if n > 0 {
      SeenDatesFacts(map1, hs, n - 1);
      HasDateStep(hs, n);
    }
  }

  lemma IsBeforeIsStrictTotalOrder()
    ensures Sorting.StrictWeakOrder(IsBefore)
    ensures forall a, b :: a != b ==> IsBefore(a, b) || IsBefore(b, a)
  {
    forall a: LocalDate, b: LocalDate, c: LocalDate
      ensures !IsBefore(a, a)
      ensures IsBefore(a, b) && IsBefore(b, c) ==> IsBefore(a, c)
      ensures !IsBefore(a, b) && !IsBefore(b, c) ==> !IsBefore(a, c)
      ensures a != b ==> IsBefore(a, b) || IsBefore(b, a)
    {
      IsBeforeStrictTotalOrder(a, b, c);
      IsBeforeStrictTotalOrder(a, c, b);
      IsBeforeStrictTotalOrder(c, b, a);
    }
  }

  /** Distinct dates, sorted with `comparing(getDate)`, come out strictly ascending. */
  lemma SortedDatesAscending(ds: seq<LocalDate>)
    requires Sorting.Distinct(ds)
    ensures Sorting.StrictlyAscending(Sorting.Sort(ds, IsBefore), IsBefore)
  {
    IsBeforeIsStrictTotalOrder();
    Sorting.SortDistinctStrict(ds, IsBefore);
  }

  /** One element of the result: a `SharedHoliday`'s date and its name map. */
  datatype SharedEntry = SharedEntry(date: LocalDate, localNames: map<string, string>)

  /**
   * `getSharedHolidays(year, countryCode1, countryCode2)`: nothing when either list is null;
   * otherwise one entry per date of the second list that the first list also has, with
   * its name map, ordered by date.
   */
  function SharedHolidaysOf(provider: Provider, year: int, countryCode1: string, countryCode2: string): seq<SharedEntry> {
    match (provider(year, countryCode1), provider(year, countryCode2))
    case (Some(holidays1), Some(holidays2)) =>
      var map1 := FirstByDate(holidays1, |holidays1|);
      var names := SharedNames(map1, holidays2, |holidays2|, countryCode1, countryCode2);
      var dates := Sorting.Sort(SeenDates(map1, holidays2, |holidays2|), IsBefore);
      seq(|dates|, i requires 0 <= i < |dates| => SharedEntry(dates[i], if dates[i] in names then names[dates[i]] else map[]))
    case _ => []
  }

  /** `SharedHolidaysOf` when both lists are present, entry by entry. */
  lemma SharedHolidaysOfBoth(provider: Provider, year: int, countryCode1: string, countryCode2: string)
    requires provider(year, countryCode1).Some? && provider(year, countryCode2).Some?
    ensures var holidays1, holidays2 := provider(year, countryCode1).value, provider(year, countryCode2).value;
      var map1 := FirstByDate(holidays1, |holidays1|);
      var names := SharedNames(map1, holidays2, |holidays2|, countryCode1, countryCode2);
      var dates := Sorting.Sort(SeenDates(map1, holidays2, |holidays2|), IsBefore);
      var spec := SharedHolidaysOf(provider, year, countryCode1, countryCode2);
      && |spec| == |dates|
      && forall k :: 0 <= k < |dates| ==>
        spec[k].date == dates[k] && spec[k].localNames == if dates[k] in names then names[dates[k]] else map[]
  {
  }

  /** Empty when either list is null; otherwise the dates are strictly ascending, so each appears once. */
  lemma SharedHolidaysOrdered(provider: Provider, year: int, countryCode1: string, countryCode2: string)
    ensures var r := SharedHolidaysOf(provider, year, countryCode1, countryCode2);
      && (provider(year, countryCode1).None? || provider(year, countryCode2).None? ==> r == [])
      && (forall i, j :: 0 <= i < j < |r| ==> IsBefore(r[i].date, r[j].date))
  {
    if provider(year, countryCode1).Some? && provider(year, countryCode2).Some? {
      var holidays1, holidays2 := provider(year, countryCode1).value, provider(year, countryCode2).value;
      var map1 := FirstByDate(holidays1, |holidays1|);
      SeenDatesFacts(map1, holidays2, |holidays2|);
      SortedDatesAscending(SeenDates(map1, holidays2, |holidays2|));
      SharedHolidaysOfBoth(provider, year, countryCode1, countryCode2);
    }
  }

  /** The dates of the result are exactly the dates that both lists have. */
  lemma SharedHolidaysDates(provider: Provider, year: int, countryCode1: string, countryCode2: string)
    requires provider(year, countryCode1).Some? && provider(year, countryCode2).Some?
    ensures var r := SharedHolidaysOf(provider, year, countryCode1, countryCode2);
      var holidays1, holidays2 := provider(year, countryCode1).value, provider(year, countryCode2).value;
      && (forall i :: 0 <= i < |r| ==> HasDate(holidays1, r[i].date) && HasDate(holidays2, r[i].date))
      && (forall d :: HasDate(holidays1, d) && HasDate(holidays2, d) ==> exists i :: 0 <= i < |r| && r[i].date == d)
  {
    var r := SharedHolidaysOf(provider, year, countryCode1, countryCode2);
    var holidays1, holidays2 := provider(year, countryCode1).value, provider(year, countryCode2).value;
    var map1 := FirstByDate(holidays1, |holidays1|);
    var seen := SeenDates(map1, holidays2, |holidays2|);
    var dates := Sorting.Sort(seen, IsBefore);
    SharedHolidaysOfBoth(provider, year, countryCode1, countryCode2);
    FirstByDateFacts(holidays1, |holidays1|);
    SeenDatesFacts(map1, holidays2, |holidays2|);
    forall i | 0 <= i < |r| ensures r[i].date == dates[i] && dates[i] in seen {
      assert dates[i] in multiset(seen);
    }
    forall d | HasDate(holidays1, d) && HasDate(holidays2, d) ensures exists i :: 0 <= i < |r| && r[i].date == d {
      assert d in seen;
      assert d in multiset(dates);
      var i :| 0 <= i < |dates| && dates[i] == d;
      assert r[i].date == d;
    }
  }

  /**
   * Each shared date carries country 1's name from the first list-1 holiday on it and
   * country 2's from the last list-2 one (country 2's wins when the codes are equal).
   */
  lemma SharedHolidaysNames(provider: Provider, year: int, countryCode1: string, countryCode2: string)
    requires provider(year, countryCode1).Some? && provider(year, countryCode2).Some?
    ensures var r := SharedHolidaysOf(provider, year, countryCode1, countryCode2);
      var holidays1, holidays2 := provider(year, countryCode1).value, provider(year, countryCode2).value;
      forall i :: 0 <= i < |r| ==>
        && r[i].date in FirstByDate(holidays1, |holidays1|)
        && LastOn(holidays2, |holidays2|, r[i].date).Some?
        && r[i].localNames == NamePair(countryCode1, FirstByDate(holidays1, |holidays1|)[r[i].date].localName,
                                       countryCode2, LastOn(holidays2, |holidays2|, r[i].date).value.localName)
  {
    var r := SharedHolidaysOf(provider, year, countryCode1, countryCode2);
    var holidays1, holidays2 := provider(year, countryCode1).value, provider(year, countryCode2).value;
    var map1 := FirstByDate(holidays1, |holidays1|);
    var seen := SeenDates(map1, holidays2, |holidays2|);
    var dates := Sorting.Sort(seen, IsBefore);
    SharedHolidaysOfBoth(provider, year, countryCode1, countryCode2);
    SharedNamesKeys(map1, holidays2, |holidays2|, countryCode1, countryCode2);
    SharedNamesValues(map1, holidays2, |holidays2|, countryCode1, countryCode2);
    SeenDatesFacts(map1, holidays2, |holidays2|);
    forall i | 0 <= i < |r| ensures r[i].date == dates[i] && dates[i] in seen {
      assert dates[i] in multiset(seen);
    }
  }

  /**
   * The objects of `sharedHolidayMap` stand for the name maps `names`: one object per
   * date, holding that date and its names, and no object shared by two dates.
   */
  ghost predicate Mirrors(m: map<LocalDate, SharedHoliday>, names: map<LocalDate, map<string, string>>)
    reads set d | d in m :: m[d]
  {
    && (forall d :: d in m <==> d in names)
    && (forall d :: d in m ==> m[d].date == d && m[d].localNames == names[d])
    && (forall d, e :: d in m && e in m && d != e ==> m[d] != m[e])
  }

  /**
   * The body of the loop for a date of the first list:
   * `computeIfAbsent(date, SharedHoliday::new)`, then `addLocalName` for country 1 and
   * for country 2. Reports whether the date's object is new.
   */
  method AddSharedNames(sharedHolidayMap: map<LocalDate, SharedHoliday>, ghost names: map<LocalDate, map<string, string>>,
                        date: LocalDate, countryCode1: string, localName1: string, countryCode2: string, localName2: string)
    returns (result: map<LocalDate, SharedHoliday>, isNew: bool)
    requires Mirrors(sharedHolidayMap, names)
    modifies if date in sharedHolidayMap then {sharedHolidayMap[date]} else {}
    ensures isNew <==> date !in sharedHolidayMap
    ensures result.Keys == sharedHolidayMap.Keys + {date}
    ensures forall d :: d in result ==> (d in sharedHolidayMap && result[d] == sharedHolidayMap[d]) || fresh(result[d])
    ensures Mirrors(result, names[date := (if date in names then names[date] else map[])
                                            [countryCode1 := localName1][countryCode2 := localName2]])
  {
    var sharedHoliday: SharedHoliday;
    isNew := date !in sharedHolidayMap;
    if isNew {
      sharedHoliday := new SharedHoliday(date);
      result := sharedHolidayMap[date := sharedHoliday];
    } else {
      sharedHoliday := sharedHolidayMap[date];
      result := sharedHolidayMap;
    }
    sharedHoliday.AddLocalName(countryCode1, localName1);
    sharedHoliday.AddLocalName(countryCode2, localName2);
  }

  /**
   * One iteration of the loop of `getSharedHolidays`, for the holiday at index `i` of the
   * second list: when the first list has its date, add both names to that date's object
   * and record the date if the object is new.
   */
  method VisitHoliday(holidayMap1: map<LocalDate, PublicHoliday>, list2: seq<PublicHoliday>, i: int,
                      countryCode1: string, countryCode2: string,
                      sharedHolidayMap: map<LocalDate, SharedHoliday>, created: seq<LocalDate>)
    returns (nextMap: map<LocalDate, SharedHoliday>, nextCreated: seq<LocalDate>)
    requires 0 <= i < |list2|
    requires created == SeenDates(holidayMap1, list2, i)
    requires Mirrors(sharedHolidayMap, SharedNames(holidayMap1, list2, i, countryCode1, countryCode2))
    requires forall d :: d in sharedHolidayMap <==> d in created
    modifies if list2[i].date in sharedHolidayMap then {sharedHolidayMap[list2[i].date]} else {}
    ensures nextCreated == SeenDates(holidayMap1, list2, i + 1)
    ensures Mirrors(nextMap, SharedNames(holidayMap1, list2, i + 1, countryCode1, countryCode2))
    ensures forall d :: d in nextMap <==> d in nextCreated
    ensures forall d :: d in nextMap ==> (d in sharedHolidayMap && nextMap[d] == sharedHolidayMap[d]) || fresh(nextMap[d])
  {
    var holiday2 := list2[i];
    var date := holiday2.date;
    nextMap, nextCreated := sharedHolidayMap, created;
    if date in holidayMap1 {
      var isNew;
      nextMap, isNew := AddSharedNames(sharedHolidayMap, SharedNames(holidayMap1, list2, i, countryCode1, countryCode2),
        date, countryCode1, holidayMap1[date].localName, countryCode2, holiday2.localName);
      if isNew {
        nextCreated := created + [date];
      }
    }
  }

  /**
   * The loop of `getSharedHolidays` over the second list: `sharedHolidayMap` ends with one
   * new object per shared date, holding its names, and `created` lists those dates in
   * creation order.
   */
  method VisitSecondList(holidayMap1: map<LocalDate, PublicHoliday>, list2: seq<PublicHoliday>,
                         countryCode1: string, countryCode2: string)
    returns (sharedHolidayMap: map<LocalDate, SharedHoliday>, created: seq<LocalDate>)
    ensures created == SeenDates(holidayMap1, list2, |list2|)
    ensures Mirrors(sharedHolidayMap, SharedNames(holidayMap1, list2, |list2|, countryCode1, countryCode2))
    ensures forall d :: d in sharedHolidayMap <==> d in created
    ensures forall d :: d in sharedHolidayMap ==> fresh(sharedHolidayMap[d])
  {
    sharedHolidayMap, created := map[], [];
    var i := 0;
    while i < |list2|
      invariant 0 <= i <= |list2|
      invariant created == SeenDates(holidayMap1, list2, i)
      invariant Mirrors(sharedHolidayMap, SharedNames(holidayMap1, list2, i, countryCode1, countryCode2))
      invariant forall d :: d in sharedHolidayMap <==> d in created
      invariant forall d :: d in sharedHolidayMap ==> fresh(sharedHolidayMap[d])
    {
      sharedHolidayMap, created := VisitHoliday(holidayMap1, list2, i, countryCode1, countryCode2, sharedHolidayMap, created);
      i := i + 1;
    }
  }

  /** The objects picked out in date order carry those dates and their names, and no object is picked twice. */
  lemma ObjectsInDateOrder(m: map<LocalDate, SharedHoliday>, names: map<LocalDate, map<string, string>>,
                           dates: seq<LocalDate>, r: seq<SharedHoliday>)
    requires Mirrors(m, names)
    requires Sorting.StrictlyAscending(dates, IsBefore)
    requires |r| == |dates|
    requires forall k :: 0 <= k < |r| ==> dates[k] in m && r[k] == m[dates[k]]
    ensures forall k :: 0 <= k < |r| ==> r[k].date == dates[k] && dates[k] in names && r[k].localNames == names[dates[k]]
    ensures forall i, j :: 0 <= i < j < |r| ==> r[i] != r[j]
  {
    forall i, j | 0 <= i < j < |r| ensures r[i] != r[j] {
      assert IsBefore(dates[i], dates[j]);
    }
  }

  /**
   * `sharedHolidayMap.values().stream().sorted(comparing(SharedHoliday::getDate))`: the
   * objects ordered by their dates, which are the created dates.
   */
  method SortedByDate(sharedHolidayMap: map<LocalDate, SharedHoliday>, ghost names: map<LocalDate, map<string, string>>,
                      created: seq<LocalDate>) returns (r: seq<SharedHoliday>)
    requires Mirrors(sharedHolidayMap, names)
    requires Sorting.Distinct(created)
    requires forall d :: d in sharedHolidayMap <==> d in created
    ensures var dates := Sorting.Sort(created, IsBefore);
      && |r| == |dates|
      && forall k :: 0 <= k < |r| ==>
        dates[k] in sharedHolidayMap && r[k] == sharedHolidayMap[dates[k]] && r[k].date == dates[k] && dates[k] in names && r[k].localNames == names[dates[k]]
    ensures forall i, j :: 0 <= i < j < |r| ==> r[i] != r[j]
  {
    var dates := Sorting.Sort(created, IsBefore);
    forall k | 0 <= k < |dates| ensures dates[k] in sharedHolidayMap {
      assert dates[k] in multiset(created);
    }
    r := seq(|dates|, k requires 0 <= k < |dates| && dates[k] in sharedHolidayMap => sharedHolidayMap[dates[k]]);
    SortedDatesAscending(created);
    ObjectsInDateOrder(sharedHolidayMap, names, dates, r);
  }

  /**
   * `getSharedHolidays(year, countryCode1, countryCode2)`: fetch both lists; index the first
   * by date; for each holiday of the second list on such a date, get or create that date's
   * `SharedHoliday` and add both names; return the created objects sorted by date. The
   * created objects are kept in creation order (the `HashMap`'s order does not matter:
   * the dates are distinct and the sort orders them totally).
   */
  method GetSharedHolidays(provider: Provider, year: int, countryCode1: string, countryCode2: string)
    returns (r: seq<SharedHoliday>)
    ensures var spec := SharedHolidaysOf(provider, year, countryCode1, countryCode2);
      && |r| == |spec|
      && forall i :: 0 <= i < |r| ==> r[i].date == spec[i].date && r[i].localNames == spec[i].localNames
    ensures forall i :: 0 <= i < |r| ==> fresh(r[i])
    ensures forall i, j :: 0 <= i < j < |r| ==> r[i] != r[j]
  {
    var holidays1 := provider(year, countryCode1);
    var holidays2 := provider(year, countryCode2);
    if holidays1.None? || holidays2.None? {
      return [];
    }
    var list1, list2 := holidays1.value, holidays2.value;
    var holidayMap1 := FirstByDate(list1, |list1|);
    var sharedHolidayMap, created := VisitSecondList(holidayMap1, list2, countryCode1, countryCode2);
    SeenDatesFacts(holidayMap1, list2, |list2|);
    ghost var names := SharedNames(holidayMap1, list2, |list2|, countryCode1, countryCode2);
    r := SortedByDate(sharedHolidayMap, names, created);
    ghost var dates := Sorting.Sort(created, IsBefore);
    ghost var spec := SharedHolidaysOf(provider, year, countryCode1, countryCode2);
    SharedHolidaysOfBoth(provider, year, countryCode1, countryCode2);
    assert |r| == |dates| == |spec|;
    forall i | 0 <= i < |r| ensures r[i].date == spec[i].date && r[i].localNames == spec[i].localNames {
      assert dates[i] in names;
    }
    forall i | 0 <= i < |r| ensures fresh(r[i]) {
      assert r[i] == sharedHolidayMap[dates[i]];
    }
  }
}
