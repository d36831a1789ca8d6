/**
 * The part of `java.time.LocalDate` the core uses: the ISO proleptic Gregorian date
 * as its three fields, its natural order (`compareTo`, `isBefore`), `toEpochDay`,
 * `getDayOfWeek` and `toString`.
 */
module Calendar {
  import opened Text

  /** A calendar date without time, held as `LocalDate` holds it. */
  datatype LocalDate = LocalDate(year: int, month: int, day: int)

  /** `LocalDate.compareTo0`: the year difference, else the month difference, else the day difference. */
  function CompareDates(a: LocalDate, b: LocalDate): (r: int)
    ensures r == 0 <==> a == b
  {
    if a.year != b.year then a.year - b.year
    else if a.month != b.month then a.month - b.month
    else a.day - b.day
  }

  /** `a.isBefore(b)` */
  predicate IsBefore(a: LocalDate, b: LocalDate) {
    CompareDates(a, b) < 0
  }

  /** `isBefore` is a strict total order: irreflexive, transitive, and any two distinct dates are ordered. */
  lemma IsBeforeStrictTotalOrder(a: LocalDate, b: LocalDate, c: LocalDate)
    ensures !IsBefore(a, a)
    ensures IsBefore(a, b) && IsBefore(b, c) ==> IsBefore(a, c)
    ensures a != b ==> (IsBefore(a, b) <==> !IsBefore(b, a))
    ensures CompareDates(a, b) == -CompareDates(b, a)
  {
  }

  // ---------------------------------------------------------------------
  // toEpochDay and getDayOfWeek, as java.time computes them.

  /** Java's `/` on int/long: the quotient truncated toward zero. */
  function JavaDiv(a: int, b: int): (q: int)
    requires b != 0
    ensures b > 0 && a >= 0 ==> q == a / b
  {
    if (a >= 0) == (b > 0) then (if a >= 0 then a / b else (-a) / (-b))
    else -((if a >= 0 then a else -a) / (if b > 0 then b else -b))
  }

  /** `IsoChronology.isLeapYear` */
  predicate IsLeapYear(y: int) {
    y % 4 == 0 && (y % 100 != 0 || y % 400 == 0)
  }

  /** Days from 0000-01-01 to 1970-01-01 (`LocalDate.DAYS_0000_TO_1970`). */
  const DAYS_0000_TO_1970: int := 146097 * 5 - (30 * 365 + 7)

  /** `LocalDate.toEpochDay`: days since 1970-01-01. */
  function ToEpochDay(d: LocalDate): int {
    var y := d.year;
    var m := d.month;
    var total := 365 * y
      + (if y >= 0 then JavaDiv(y + 3, 4) - JavaDiv(y + 99, 100) + JavaDiv(y + 399, 400)
         else -(JavaDiv(y, -4) - JavaDiv(y, -100) + JavaDiv(y, -400)))
      + JavaDiv(367 * m - 362, 12)
      + d.day - 1;
    var adjusted := if m > 2 then (if IsLeapYear(y) then total - 1 else total - 2) else total;
    adjusted - DAYS_0000_TO_1970
  }

  datatype DayOfWeek = Monday | Tuesday | Wednesday | Thursday | Friday | Saturday | Sunday

  /** `DayOfWeek.of(dow0 + 1)` for a zero-based index, Monday being 0. */
  function DayOfWeekOf(dow0: int): DayOfWeek
    requires 0 <= dow0 < 7
  {
    [Monday, Tuesday, Wednesday, Thursday, Friday, Saturday, Sunday][dow0]
  }

  /** The weekday of an epoch day: floorMod(epochDay + 3, 7), Monday being 0. */
  function EpochDayOfWeek(epochDay: int): DayOfWeek
  {
    DayOfWeekOf((epochDay + 3) % 7)
  }

  /** `LocalDate.getDayOfWeek` */
  function GetDayOfWeek(d: LocalDate): (w: DayOfWeek)
  {
    EpochDayOfWeek(ToEpochDay(d))
  }

  /** 1970-01-01 is epoch day 0 and a Thursday. */
  lemma EpochAnchor()
    ensures ToEpochDay(LocalDate(1970, 1, 1)) == 0
    ensures GetDayOfWeek(LocalDate(1970, 1, 1)) == Thursday
  {
  }

  /** Dates seven days apart fall on the same weekday. */
  lemma DayOfWeekPeriod(d: LocalDate, e: LocalDate)
    requires ToEpochDay(e) == ToEpochDay(d) + 7
    ensures GetDayOfWeek(e) == GetDayOfWeek(d)
  {
    SameWeekday(ToEpochDay(d));
  }

  lemma SameWeekday(n: int)
    ensures EpochDayOfWeek(n + 7) == EpochDayOfWeek(n)
  {
    assert (n + 7 + 3) % 7 == (n + 3) % 7;
  }

  /** The calendar facts the service's tests rely on. */
  lemma DayOfWeekFacts()
    ensures ToEpochDay(LocalDate(2024, 1, 1)) == 19723
    ensures GetDayOfWeek(LocalDate(2024, 1, 1)) == Monday
    ensures GetDayOfWeek(LocalDate(2024, 7, 4)) == Thursday
    ensures GetDayOfWeek(LocalDate(2024, 12, 25)) == Wednesday
    ensures GetDayOfWeek(LocalDate(2024, 11, 2)) == Saturday
    ensures GetDayOfWeek(LocalDate(2024, 11, 3)) == Sunday
    ensures GetDayOfWeek(LocalDate(2024, 11, 4)) == Monday
  {
    EpochDay2024(1, 1, 19723);
    EpochDay2024(7, 4, 19908);
    EpochDay2024(12, 25, 20082);
    EpochDay2024(11, 2, 20029);
    EpochDay2024(11, 3, 20030);
    EpochDay2024(11, 4, 20031);
  }

  /** The epoch day of a date in 2024 (a leap year), from the days before its month. */
  lemma EpochDay2024(month: int, day: int, epochDay: int)
    requires 1 <= month <= 12
    requires epochDay == 19723 + [0, 31, 60, 91, 121, 152, 182, 213, 244, 274, 305, 335][month - 1] + day - 1
    ensures ToEpochDay(LocalDate(2024, month, day)) == epochDay
    ensures GetDayOfWeek(LocalDate(2024, month, day)) == EpochDayOfWeek(epochDay)
  {
  }

  // ---------------------------------------------------------------------
  // toString: uuuu-MM-dd (four-digit year, zero-padded; '+' above 9999).

  /** `StringBuilder.deleteCharAt(k)` */
  function DeleteCharAt(s: string, k: nat): (r: string)
    requires k < |s|
    ensures |r| == |s| - 1
  {
    s[..k] + s[k + 1..]
  }

  function YearText(y: int): (s: string)
    ensures |s| > 0
  {
    if -1000 < y < 1000 then
      (if y < 0 then DeleteCharAt(IntToString(y - 10000), 1) else DeleteCharAt(IntToString(y + 10000), 0))
    else (if y > 9999 then "+" else "") + IntToString(y)
  }

  /** `LocalDate.toString` */
  function DateToString(d: LocalDate): (s: string)
    ensures |s| > 0
  {
    YearText(d.year)
      + (if d.month < 10 then "-0" else "-") + IntToString(d.month)
      + (if d.day < 10 then "-0" else "-") + IntToString(d.day)
  }

  /** A year from 1000 to 9999 is its four digits. */
  lemma Year2024Text()
    ensures YearText(2024) == "2024"
  {
    AppendDigit(2, 0);
    AppendDigit(20, 2);
    AppendDigit(202, 4);
    assert NatToString(2) == "2";
    assert NatToString(2024) == "2" + "0" + "2" + "4";
  }

  /** Months and days below 10 get a leading zero. */
  lemma NewYearText()
    ensures DateToString(LocalDate(2024, 1, 1)) == "2024-01-01"
  {
    Year2024Text();
    assert IntToString(1) == "1";
    assert DateToString(LocalDate(2024, 1, 1)) == "2024" + "-0" + "1" + "-0" + "1";
  }

  lemma ChristmasText()
    ensures DateToString(LocalDate(2024, 12, 25)) == "2024-12-25"
  {
    Year2024Text();
    AppendDigit(1, 2);
    AppendDigit(2, 5);
    assert IntToString(12) == "1" + "2";
    assert IntToString(25) == "2" + "5";
    assert DateToString(LocalDate(2024, 12, 25)) == "2024" + "-" + "12" + "-" + "25";
  }

  /** Years below 1000 are zero-padded to four digits. */
  lemma PaddedYearExample()
    ensures DateToString(LocalDate(5, 3, 9)) == "0005-03-09"
  {
    AppendDigit(1, 0);
    AppendDigit(10, 0);
    AppendDigit(100, 0);
    AppendDigit(1000, 5);
    var k, t := NatToString(1000), NatToString(10005);
    assert k == "1000";
    assert t == k + ['5'];
    assert t[1..] == k[1..] + ['5'];
    assert YearText(5) == t[1..];
    assert IntToString(3) == "3" && IntToString(9) == "9";
    assert DateToString(LocalDate(5, 3, 9)) == "000" + "5" + "-0" + "3" + "-0" + "9";
  }
}
