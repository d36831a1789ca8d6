# Holiday API core, modelled in Dafny

The repository is a small Spring service that answers questions about public holidays.
It gets the holidays from a remote provider and keeps them in a cache. This project
models its core and proves properties of the model:

- **`CachedHolidayProvider`** (module `Caching`, class `CachedHolidayProvider`, with the
  map in module `Lru`): a read-through cache in front of another provider.
  - The cache key is `year + ":" + countryCode`.
  - The map is a `LinkedHashMap` in access order, and `removeEldestEntry` answers
    `size() > maxSize`. It is modelled as its entry sequence, eldest first. `get` moves a hit
    to the most recent end; `put` of a new key drops the eldest entry once the size
    exceeds the bound.
  - A non-null stored list is returned without calling the provider, even an empty one.
  - A stored `null` is an entry like any other, but `get` returning `null` counts as a
    miss. So a provider that answers `null` is asked again on every call.
- **`HolidayService`** (module `Service`): its three queries, each stated once as a
  specification function on the provider's answers plus lemmas about it.
  - `getLastCelebratedHolidays`: the past holidays of this year and the previous one,
    latest first, at most three.
  - `getNonWeekendHolidayCount`: one row per requested code, counting the holidays not
    on Saturday or Sunday, largest count first.
  - `getSharedHolidays`: the dates both countries celebrate, in date order, with both
    local names. It is also modelled as imperative code over `SharedHoliday` objects,
    with a loop that mirrors the source's `for` loop, `computeIfAbsent` and `addLocalName`.
    That method is proved to build exactly what the specification function describes.
  - `isWeekday` is modelled on Java's `LocalDate.getDayOfWeek`, which is in module
    `Calendar`.
- **`CountryHolidayCount`** (module `CountryCounts`): a class with setters.
  - `compareTo` orders by descending count through `Integer.compare`.
  - `toString` renders both fields so that they can be read back.
- **`SharedHoliday`** (module `SharedHolidays`): a class holding a date and a
  country-to-name map.
  - `addLocalName` is a map update.
  - `toString` is a builder loop that appends `country - name, ` for each entry and then
    cuts off the last two characters.
- **`HolidayController`** (module `Controller`): the validation in front of the
  service.
  - Each endpoint either answers 400 or calls the service with upper-cased codes. The
    model says which, and with exactly which arguments.
  - `health` returns a fixed text.

Supporting modules:

- `Options`: null as `None`.
- `Text`: rendering and parsing of `int`, `trim`, ASCII `toUpperCase`, joining.
- `Calendar`: `LocalDate` with its order, epoch day, day of week and ISO text.
- `Sorting`: `Stream.sorted` as a stable insertion sort, with its sortedness, permutation
  and uniqueness lemmas.

The remote provider is a parameter of type `(int, string) -> Option<seq<PublicHoliday>>`.
The model treats it as a fixed function of its arguments. "Today" is a parameter of
`GetLastCelebratedHolidays`. No other I/O is modelled.

Two points about the cache, stated from its code:

- A `null` answer is stored. `CachedHolidayProvider.java:44` puts whatever the provider
  returned, and line 39 treats a stored `null` as a miss, so the provider is asked again.
  The comment at `CachedHolidayProviderTest.java:255` says a null is not inserted; the
  test's assertion (two fetches) holds either way. `Caching.NullAnswerAlwaysRefetched` and
  `Caching.StoredNullRefetchKeepsSize` state the code's behaviour.
- Eviction follows access order. For example, on a capacity-3 cache holding K2, K3, K4
  (eldest first), a `get` of K3 followed by a `put` of K5 evicts K2, the least recently
  accessed key (`Lru.AccessOrderEvictionExample`). `Caching.CallOrder` states the order
  after any call.

## Model

| member | source | states |
|---|---|---|
| Lru.Get | src/main/java/com/accenture/assessment/service/CachedHolidayProvider.java:38 | `map.get(k)` as a lookup in the entry sequence; its contract is `Lru.GetFinds` |
| Lru.GetFinds | src/main/java/com/accenture/assessment/service/CachedHolidayProvider.java:38 | a lookup yields a value exactly when some entry has the key, and then the value of such an entry |
| Lru.AfterGet | src/main/java/com/accenture/assessment/service/CachedHolidayProvider.java:53-60 | the entries after `map.get(k)` on an access-ordered map; its contract is `Lru.AfterGetFacts` |
| Lru.Put | src/main/java/com/accenture/assessment/service/CachedHolidayProvider.java:53-60 | the entries after `map.put(k, v)` followed by `removeEldestEntry`; its contracts are `Lru.PutFacts`, `Lru.PutPresent`, `Lru.PutAfterGet`, `Lru.PutEvictsOnlyEldest` |
| Lru.AfterGetFacts | src/main/java/com/accenture/assessment/service/CachedHolidayProvider.java:53-60 | a `get` in access order changes no stored value and keeps keys distinct; a miss leaves the order alone; a hit takes its entry out of its place and appends it, every other entry keeping its relative order |
| Lru.PutPresent | src/main/java/com/accenture/assessment/service/CachedHolidayProvider.java:53-60 | a `put` of a present key evicts nothing: the entry leaves its place and comes last with the new value, the others keeping their order |
| Lru.PutAfterGet | src/main/java/com/accenture/assessment/service/CachedHolidayProvider.java:38-44 | the `put` that follows a `get` hit on the same key moves it from its original place to the end with the new value, the others keeping their order |
| Lru.PutFacts | src/main/java/com/accenture/assessment/service/CachedHolidayProvider.java:53-60 | a `put` keeps keys distinct and the size within `maxSize`, adds at most one entry, and leaves `k -> v` as the most recent entry; a non-positive bound keeps the map empty |
| Lru.PutEvictsOnlyEldest | src/main/java/com/accenture/assessment/service/CachedHolidayProvider.java:53-60 | a `put` changes no other key, except that a new key overflowing the map removes exactly the eldest entry, the survivors keeping their order |
| Lru.FillExample | src/main/java/com/accenture/assessment/service/CachedHolidayProvider.java:53-60 | filling a capacity-3 map with K1..K4 leaves K2, K3, K4 |
| Lru.AccessOrderEvictionExample | src/main/java/com/accenture/assessment/service/CachedHolidayProvider.java:53-60 | after touching K3 in K2, K3, K4, inserting K5 evicts K2 and leaves K4, K3, K5 |
| Caching.CacheKey | src/main/java/com/accenture/assessment/service/CachedHolidayProvider.java:49-51 | the key is the year's decimal text, which parses back to the year and has no ':', then ':', then the country code unchanged |
| Caching.CacheKeyInjective | src/main/java/com/accenture/assessment/service/CachedHolidayProvider.java:49-51 | two (year, country) pairs share a cache key only when they are equal |
| Caching.Call | src/main/java/com/accenture/assessment/service/CachedHolidayProvider.java:33-47 | a call fetches exactly when the key holds no non-null list; a hit returns the stored list, a miss returns the provider's answer |
| Caching.CallOrder | src/main/java/com/accenture/assessment/service/CachedHolidayProvider.java:37-60 | after a call the requested key is the most recent entry and every other entry keeps its relative order, so the entries are in order of last access; an absent key is appended and on overflow the eldest entry is dropped |
| Caching.CallKeepsBound | src/main/java/com/accenture/assessment/service/CachedHolidayProvider.java:33-60 | a call keeps the cache within its bound with distinct keys, grows it by at most one, and leaves the requested key most recent with the returned value |
| Caching.CallEvictsOnlyEldest | src/main/java/com/accenture/assessment/service/CachedHolidayProvider.java:33-60 | a call changes no other key's entry except the eldest one, and that only on an overflowing miss |
| Caching.SuccessfulMissThenHit | src/main/java/com/accenture/assessment/service/CachedHolidayProvider.java:38-45 | after a non-null answer is fetched, the next call for the same key is a hit and does not fetch (for every later call until eviction, see `Caching.AtMostOneFetchPerKey`, which needs the distinct requests to fit the capacity) |
| Caching.CallTransparent | src/main/java/com/accenture/assessment/service/CachedHolidayProvider.java:33-47 | with faithful entries a call returns exactly the provider's answer and keeps the entries faithful |
| Caching.NullAnswerAlwaysRefetched | src/test/java/com/accenture/assessment/service/CachedHolidayProviderTest.java:241-257 | a key whose provider answers null is fetched again on every call |
| Caching.StoredNullRefetchKeepsSize | src/main/java/com/accenture/assessment/service/CachedHolidayProvider.java:38-44 | refetching a stored null moves that entry to the most recent end with the new answer; the size is unchanged and no other key's entry changes |
| Caching.RunStateInduction | src/main/java/com/accenture/assessment/service/CachedHolidayProvider.java:33-47 | along any run from an empty cache whose distinct requests fit the bound and whose answers are all non-null: all requests so far are hits, only requested keys are stored, and the fetch log holds each distinct request once |
| Caching.AtMostOneFetchPerKey | src/main/java/com/accenture/assessment/service/CachedHolidayProvider.java:33-47 | if the distinct requests fit the capacity and the answers are non-null, each distinct (year, country) is fetched exactly once, whatever the order and repetition of the calls |
| Caching.CachedHolidayProvider.constructor | src/main/java/com/accenture/assessment/service/CachedHolidayProvider.java:17-25 | an empty cache of capacity 100 over the given provider |
| Caching.CachedHolidayProvider.WithMaxCacheSize | src/main/java/com/accenture/assessment/service/CachedHolidayProvider.java:27-31 | an empty cache of the given capacity over the given provider |
| Caching.CachedHolidayProvider.GetPublicHolidays | src/main/java/com/accenture/assessment/service/CachedHolidayProvider.java:33-47 | the new cache and fetch log are those of one `Call`; the answer equals the provider's; a hit does not fetch and a miss fetches once; the key becomes the most recent entry; the cache invariant is kept |
| CountryCounts.CompareCounts | src/main/java/com/accenture/assessment/model/CountryHolidayCount.java:32-36 | negative, zero or positive exactly when this count is larger, equal or smaller, for all 32-bit counts |
| CountryCounts.CompareCountsConsistent | src/main/java/com/accenture/assessment/model/CountryHolidayCount.java:32-36 | the comparison is sign-antisymmetric and transitive |
| CountryCounts.SubtractionWouldOverflow | src/main/java/com/accenture/assessment/model/CountryHolidayCount.java:32-36 | a subtraction-based comparison would get the sign wrong for -2^31 against 1, where `Integer.compare` does not |
| CountryCounts.WrapInt32 | src/main/java/com/accenture/assessment/service/HolidayService.java:78 | the `(int)` narrowing is congruent modulo 2^32 and is the identity on values that fit |
| CountryCounts.Describe | src/main/java/com/accenture/assessment/model/CountryHolidayCount.java:38-41 | the text `code + ": " + count + " holidays"`; its contract is `CountryCounts.DescribeReadsBack` |
| CountryCounts.DescribeReadsBack | src/main/java/com/accenture/assessment/model/CountryHolidayCount.java:38-41 | the text starts with the code, then ": ", ends with " holidays", and the middle parses back to the count |
| CountryCounts.DescribeExample | src/test/java/com/accenture/assessment/model/CountryHolidayCountTest.java:35-44 | ("US", 10) renders as "US: 10 holidays" |
| CountryCounts.CountryHolidayCount.constructor | src/main/java/com/accenture/assessment/model/CountryHolidayCount.java:11-14 | both fields hold the given values |
| CountryCounts.CountryHolidayCount.SetCountryCode | src/main/java/com/accenture/assessment/model/CountryHolidayCount.java:20-22 | sets the code and leaves the count |
| CountryCounts.CountryHolidayCount.SetHolidayCount | src/main/java/com/accenture/assessment/model/CountryHolidayCount.java:28-30 | sets the count and leaves the code |
| CountryCounts.CountryHolidayCount.ToString | src/main/java/com/accenture/assessment/model/CountryHolidayCount.java:38-41 | `Describe` of the object's two fields |
| CountryCounts.CountryHolidayCount.CompareTo | src/main/java/com/accenture/assessment/model/CountryHolidayCount.java:32-36 | descending by count: negative, zero or positive exactly when this object's count is larger, equal or smaller |
| SharedHolidays.SharedHoliday.constructor | src/main/java/com/accenture/assessment/model/SharedHoliday.java:15-18 | the given date with no local names |
| SharedHolidays.SharedHoliday.SetDate | src/main/java/com/accenture/assessment/model/SharedHoliday.java:24-26 | sets the date and leaves the names |
| SharedHolidays.SharedHoliday.AddLocalName | src/main/java/com/accenture/assessment/model/SharedHoliday.java:32-34 | the code now maps to the name, every other code keeps its entry or absence, the date is unchanged |
| SharedHolidays.SharedHoliday.ToString | src/main/java/com/accenture/assessment/model/SharedHoliday.java:36-48 | the builder loop yields the date, then ": " and the entries joined by ", " as `country - name`, in the given iteration order; with no entries, just the date |
| SharedHolidays.CutSeparator | src/main/java/com/accenture/assessment/model/SharedHoliday.java:39-46 | cutting two characters off the built text always removes exactly the trailing ", " (or the ": " when there are no entries) |
| SharedHolidays.EnumerationCoversMap | src/main/java/com/accenture/assessment/model/SharedHoliday.java:40-42 | an iteration order of the map visits each entry once, so the text lists every country with its name |
| SharedHolidays.ListingOfTwo | src/main/java/com/accenture/assessment/model/SharedHoliday.java:36-48 | two entries render as ": a - x, b - y" |
| Calendar.ToEpochDay | src/main/java/com/accenture/assessment/service/HolidayService.java:139 | `LocalDate.toEpochDay`, the day count behind `getDayOfWeek`; `Calendar.DayOfWeekPeriod` and `Calendar.DayOfWeekFacts` state its consequences |
| Calendar.GetDayOfWeek | src/main/java/com/accenture/assessment/service/HolidayService.java:139 | `LocalDate.getDayOfWeek` from the epoch day; stated by `Calendar.DayOfWeekPeriod` and `Calendar.DayOfWeekFacts` |
| Calendar.DateToString | src/main/java/com/accenture/assessment/model/SharedHoliday.java:39 | `LocalDate.toString` is never empty; `Calendar.NewYearText` and `Calendar.PaddedYearExample` give its text |
| Calendar.IsBeforeStrictTotalOrder | src/main/java/com/accenture/assessment/service/HolidayService.java:51 | `isBefore` is irreflexive, transitive and total on distinct dates, and `compareTo` is sign-antisymmetric |
| Calendar.DayOfWeekPeriod | src/main/java/com/accenture/assessment/service/HolidayService.java:139 | dates seven days apart fall on the same weekday |
| Calendar.DayOfWeekFacts | src/test/java/com/accenture/assessment/service/HolidayServiceTest.java:110-132 | 2024-01-01 is a Monday, 2024-07-04 a Thursday, 2024-12-25 a Wednesday, 2024-11-02 a Saturday and 2024-11-03 a Sunday |
| Calendar.NewYearText | src/main/java/com/accenture/assessment/model/SharedHoliday.java:39 | 2024-01-01 renders as "2024-01-01" |
| Calendar.PaddedYearExample | src/main/java/com/accenture/assessment/model/SharedHoliday.java:39 | years below 1000 are zero-padded to four digits |
| Sorting.SortSorted | src/main/java/com/accenture/assessment/service/HolidayService.java:52 | the sort yields an ordered permutation of its input for every strict weak order |
| Sorting.SortOrderIrrelevant | src/main/java/com/accenture/assessment/service/HolidayService.java:127-129 | sorting repeat-free sequences with the same elements by a total order gives one result, whatever their arrival order |
| Text.IntToString | src/main/java/com/accenture/assessment/model/CountryHolidayCount.java:40 | the decimal text of an int is non-empty, starts with '-' exactly for a negative value, and is otherwise digits |
| Text.IntToStringRoundTrip | src/main/java/com/accenture/assessment/model/CountryHolidayCount.java:40 | parsing the decimal text of any int gives the int back |
| Text.Trim | src/main/java/com/accenture/assessment/controller/HolidayController.java:37 | `trim()`; its contract is `Text.TrimEmptyIff` |
| Text.TrimEmptyIff | src/main/java/com/accenture/assessment/controller/HolidayController.java:37 | `trim()` is empty exactly when every character is at or below ' ' |
| Text.ToUpper | src/main/java/com/accenture/assessment/controller/HolidayController.java:42 | upper-casing keeps the length and maps each character through the ASCII capital |
| Text.ToUpperIdempotent | src/main/java/com/accenture/assessment/controller/HolidayController.java:42 | upper-casing twice equals upper-casing once and leaves no lower-case letter |
| Service.IsWeekday | src/main/java/com/accenture/assessment/service/HolidayService.java:138-142 | `isWeekday`: neither Saturday nor Sunday; its contract is `Service.IsWeekdayByIndex` |
| Service.IsWeekdayByIndex | src/main/java/com/accenture/assessment/service/HolidayService.java:138-142 | a holiday counts as a weekday exactly when its Monday-based weekday index is below 5 |
| Service.IsWeekdayExamples | src/main/java/com/accenture/assessment/service/HolidayService.java:138-142 | New Year, 4 July and Christmas 2024 are weekdays; 2 and 3 November 2024 are not |
| Service.Collected | src/main/java/com/accenture/assessment/service/HolidayService.java:38-47 | the gathered list is the current year's answer followed by the previous year's, in their order and with repeats kept, a null answer adding none |
| Service.Past | src/main/java/com/accenture/assessment/service/HolidayService.java:50-51 | exactly the holidays strictly before today, each kept as many times as it occurs and the others dropped |
| Service.LastCelebrated | src/main/java/com/accenture/assessment/service/HolidayService.java:49-54 | the filter, sort and limit of `getLastCelebratedHolidays`; its contracts are `Service.LastCelebratedFacts` and `Service.LastCelebratedIsTopThree` |
| Service.LastCelebratedFacts | src/main/java/com/accenture/assessment/service/HolidayService.java:49-54 | at most three results, each a past holiday from the input, latest first |
| Service.LastCelebratedIsTopThree | src/main/java/com/accenture/assessment/service/HolidayService.java:49-54 | fewer than three results means all past holidays; any past holiday left out is no later than the last one kept |
| Service.GetLastCelebratedHolidays | src/main/java/com/accenture/assessment/service/HolidayService.java:34-55 | the two-year loop followed by filter, sort and limit yields the specification's result: at most three past holidays of this and last year, latest first |
| Service.NonWeekendCountExtremes | src/main/java/com/accenture/assessment/service/HolidayService.java:74-76 | the count equals the list length exactly when all are weekdays, and 0 exactly when none are |
| Service.NonWeekendCountAppend | src/main/java/com/accenture/assessment/service/HolidayService.java:74-76 | the count of a concatenation is the sum of the counts |
| Service.CountFor | src/main/java/com/accenture/assessment/service/HolidayService.java:67-79 | the row carries the code; a null answer counts 0; otherwise the weekday count |
| Service.NonWeekendHolidayCounts | src/main/java/com/accenture/assessment/service/HolidayService.java:65-82 | `getNonWeekendHolidayCount` on value rows; its contracts are `Service.NonWeekendHolidayCountsRows`, `Service.NonWeekendHolidayCountsCover` and `Service.NonWeekendHolidayCountsOrdered` |
| Service.NonWeekendHolidayCountsRows | src/main/java/com/accenture/assessment/service/HolidayService.java:65-82 | one row per requested code, a permutation of the per-code rows, each row the count for its own code |
| Service.NonWeekendHolidayCountsCover | src/main/java/com/accenture/assessment/service/HolidayService.java:65-82 | every requested code has a row |
| Service.NonWeekendHolidayCountsOrdered | src/main/java/com/accenture/assessment/service/HolidayService.java:80 | the counts are non-increasing |
| Service.FirstByDateFacts | src/main/java/com/accenture/assessment/service/HolidayService.java:101-106 | the date map has exactly the dates of the first list, each mapped to its first holiday on that date |
| Service.LastOnFacts | src/main/java/com/accenture/assessment/service/HolidayService.java:111-124 | the last holiday of the second list on a date exists exactly when the date occurs, and no later one has that date |
| Service.SeenDatesFacts | src/main/java/com/accenture/assessment/service/HolidayService.java:111-124 | the shared dates in first-occurrence order are repeat-free and are exactly the dates in both lists |
| Service.SharedNamesKeys | src/main/java/com/accenture/assessment/service/HolidayService.java:111-124 | the name maps are kept for exactly the dates in both lists |
| Service.SharedNamesValues | src/main/java/com/accenture/assessment/service/HolidayService.java:111-124 | each shared date maps country 1 to the first list's name and country 2 to the name of the second list's last holiday on that date |
| Service.SharedHolidaysOf | src/main/java/com/accenture/assessment/service/HolidayService.java:92-130 | `getSharedHolidays` as a value; its contracts are `Service.SharedHolidaysOrdered`, `Service.SharedHolidaysDates` and `Service.SharedHolidaysNames` |
| Service.SharedHolidaysOrdered | src/main/java/com/accenture/assessment/service/HolidayService.java:92-130 | a null answer gives no shared holidays; the dates strictly ascend, so there are no repeats |
| Service.SharedHolidaysDates | src/main/java/com/accenture/assessment/service/HolidayService.java:92-130 | every listed date is in both lists, and every date in both lists is listed |
| Service.SharedHolidaysNames | src/main/java/com/accenture/assessment/service/HolidayService.java:100-124 | each entry's names are country 1's first holiday name and country 2's last holiday name on that date |
| Service.AddSharedNames | src/main/java/com/accenture/assessment/service/HolidayService.java:113-122 | `computeIfAbsent` creates an object exactly for a new date; then both names are set on it and other objects are untouched |
| Service.VisitHoliday | src/main/java/com/accenture/assessment/service/HolidayService.java:111-124 | one loop iteration takes the map of objects from the state after i holidays to the state after i + 1 |
| Service.VisitSecondList | src/main/java/com/accenture/assessment/service/HolidayService.java:111-124 | after the loop the map holds one fresh object per shared date, carrying that date and its name map |
| Service.ObjectsInDateOrder | src/main/java/com/accenture/assessment/service/HolidayService.java:127-129 | objects taken in strictly ascending date order carry those dates and names and are pairwise distinct |
| Service.SortedByDate | src/main/java/com/accenture/assessment/service/HolidayService.java:127-129 | the map's objects sorted by date, each with its date and names, no object twice |
| Service.GetSharedHolidays | src/main/java/com/accenture/assessment/service/HolidayService.java:92-130 | the returned fresh, distinct objects carry exactly the specification's dates and name maps, in date order |
| Controller.BlankIff | src/main/java/com/accenture/assessment/controller/HolidayController.java:37 | a code is blank exactly when it is null or made only of characters at or below ' ' |
| Controller.UpperKeepsBlankness | src/main/java/com/accenture/assessment/controller/HolidayController.java:37-42 | upper-casing neither makes a code blank nor makes a blank code non-blank |
| Controller.LastCelebrated | src/main/java/com/accenture/assessment/controller/HolidayController.java:33-45 | 400 exactly for a blank code; otherwise the service gets the code with lower-case letters capitalised and nothing else changed |
| Controller.NonWeekendCount | src/main/java/com/accenture/assessment/controller/HolidayController.java:55-77 | 400 exactly when the year is outside 1900..2100 or the list is null or empty; otherwise the service gets the year and every code upper-cased, in order |
| Controller.Shared | src/main/java/com/accenture/assessment/controller/HolidayController.java:87-106 | 400 exactly when the year is outside 1900..2100 or either code is blank; otherwise the service gets the year and both codes upper-cased |
| Controller.LastCelebratedIdempotent | src/main/java/com/accenture/assessment/controller/HolidayController.java:33-45 | resubmitting the code passed on is accepted and passed on unchanged |
| Controller.NonWeekendCountIdempotent | src/main/java/com/accenture/assessment/controller/HolidayController.java:68-74 | resubmitting the list passed on is accepted and passed on unchanged |
| Controller.SharedIdempotent | src/main/java/com/accenture/assessment/controller/HolidayController.java:97-103 | resubmitting the codes passed on is accepted and passed on unchanged |
| Controller.Health | src/main/java/com/accenture/assessment/controller/HolidayController.java:113-116 | `health()`; its contract is `Controller.HealthText` |
| Controller.HealthText | src/main/java/com/accenture/assessment/controller/HolidayController.java:113-116 | the health answer is "Holiday API is running" |
| Controller.LastCelebratedExamples | src/test/java/com/accenture/assessment/controller/HolidayControllerTest.java:61-74 | "gb" is passed on as "GB"; a blank or missing code is refused |
| Controller.YearBoundsExamples | src/test/java/com/accenture/assessment/controller/HolidayControllerTest.java:113-127 | years 1800 and 2200 are refused at both endpoints; 1900 and 2100 are accepted at both, with the codes upper-cased |

## Left out

- Concurrency: `synchronized (cache)` only serialises calls, and the model has calls happen one at a time.
- Caching.Call, Service.Rows: a provider that throws (an HTTP error from `restTemplate.exchange` at `NagerHolidayProvider.java:29`) is not modelled. The provider is a total function to a list or `None`. So the model does not capture that such a failure leaves the `get`'s reordering in place and stores nothing, or that it aborts the whole multi-country count.
- The remote provider (`NagerHolidayProvider`, HTTP, JSON) is not part of this model. It is a function parameter. An upstream whose answers change over time is not modelled.
- `PublicHoliday` carries only date, local name, name and country code. The optional fields the core never reads are dropped.
- `LocalDate.now()` is the `today` parameter of `GetLastCelebratedHolidays`.
- The `LinkedHashMap` initial capacity and load factor are not modelled, since they do not affect behaviour.
- Null list elements, null dates and null country codes inside lists are not modelled. Only a null list answer is, as `None`.
- Spring: the request-parameter binding and its own 400 answers for missing or non-numeric parameters, the `GlobalExceptionHandler`, the application wiring (`BeanConfig`) and the command-line runner (`HolidayApplication`). The controller functions start from the bound parameters.
- Text.ToUpper: only ASCII letters are upper-cased. Java's locale-dependent Unicode case mapping, which can change a string's length, is not modelled.
- SharedHolidays.SharedHoliday.ToString: the model does not state the iteration order of `HashMap`. The order is passed in and only required to name countries present in the map. `EnumerationCoversMap` then states what any true enumeration of the map lists.
- Service.GetSharedHolidays: `values()` of a `HashMap` has no specified order. The model sorts the objects in the order the dates were first seen. `Sorting.SortOrderIrrelevant` is why the sorted result is the same for every arrival order.
- Service.NonWeekendHolidayCounts: the rows are values (code, count), not `CountryHolidayCount` objects. `CountRow` ordering is the class's `compareTo` (`CountryCounts.CompareCounts`).
- Service.CountFor: the long count is narrowed with `WrapInt32`. The stated count is exact when the list has fewer than 2^31 holidays.
- Calendar: `LocalDate` is not checked for validity (month 1..12, day within month), since no operation here depends on it.
