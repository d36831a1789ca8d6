/** `CountryHolidayCount`: a country code with its number of non-weekend holidays. */
module CountryCounts {
  import opened Text

  /** A Java `int`. */
  type Int32 = x: int | -0x8000_0000 <= x < 0x8000_0000

  /** `Integer.compare(x, y)`: -1, 0 or 1, by comparison, so it cannot overflow. */
  function IntegerCompare(x: Int32, y: Int32): (r: int)
    ensures r == -1 || r == 0 || r == 1
  {
    if x < y then -1 else if x == y then 0 else 1
  }

  /**
   * `compareTo` on the two counts: `Integer.compare(other, this)`, so a larger count sorts
   * first. Negative exactly when this count is larger, zero exactly when they are equal,
   * positive exactly when it is smaller, for every pair of 32-bit counts.
   */
  function CompareCounts(thisCount: Int32, otherCount: Int32): (r: int)
    ensures r < 0 <==> thisCount > otherCount
    ensures r == 0 <==> thisCount == otherCount
    ensures r > 0 <==> thisCount < otherCount
  {
    IntegerCompare(otherCount, thisCount)
  }

  /** The comparison is antisymmetric in sign and transitive, so it is a consistent total preorder. */
  lemma CompareCountsConsistent(a: Int32, b: Int32, c: Int32)
    ensures CompareCounts(a, b) == -CompareCounts(b, a)
    ensures CompareCounts(a, b) < 0 && CompareCounts(b, c) < 0 ==> CompareCounts(a, c) < 0
    ensures CompareCounts(a, b) == 0 && CompareCounts(b, c) == 0 ==> CompareCounts(a, c) == 0
  {
  }

  /**
   * A Java narrowing to `int` (a `(int)` cast, or the result of `int` arithmetic): the
   * value congruent to `n` modulo 2^32 in the `int` range; `n` itself when it fits.
   */
  function WrapInt32(n: int): (r: Int32)
    ensures (r - n) % 0x1_0000_0000 == 0
    ensures -0x8000_0000 <= n < 0x8000_0000 ==> r == n
  {
    (n + 0x8000_0000) % 0x1_0000_0000 - 0x8000_0000
  }

  /**
   * Why the comparison is by `Integer.compare` and not by `other - this`: the wrapped
   * difference has the wrong sign for counts far apart, e.g. this = -2^31, other = 1.
   */
  lemma SubtractionWouldOverflow()
    ensures CompareCounts(-0x8000_0000, 1) > 0
    ensures WrapInt32(1 - (-0x8000_0000)) < 0
  {
  }

  /** `toString`: `countryCode + ": " + holidayCount + " holidays"`. */
  function Describe(countryCode: string, holidayCount: Int32): string {
    countryCode + ": " + IntToString(holidayCount) + " holidays"
  }

  /** The text shows both fields so that they can be read back: the code up to ": ", the count up to " holidays". */
  lemma DescribeReadsBack(countryCode: string, holidayCount: Int32)
    ensures var s := Describe(countryCode, holidayCount);
      && s[..|countryCode|] == countryCode
      && s[|countryCode|..|countryCode| + 2] == ": "
      && s[|s| - 9..] == " holidays"
      && IntToString(holidayCount) == s[|countryCode| + 2..|s| - 9]
      && ParseInt(s[|countryCode| + 2..|s| - 9]) == holidayCount
  {
    IntToStringRoundTrip(holidayCount);
  }

  lemma DescribeExample()
    ensures Describe("US", 10) == "US: 10 holidays"
  {
  }

  class CountryHolidayCount {
    var countryCode: string
    var holidayCount: Int32

    constructor (countryCode: string, holidayCount: Int32)
      ensures this.countryCode == countryCode && this.holidayCount == holidayCount
    {
      this.countryCode := countryCode;
      this.holidayCount := holidayCount;
    }

    /** `setCountryCode`: changes the code only. */
    method SetCountryCode(countryCode: string)
      modifies this
      ensures this.countryCode == countryCode && holidayCount == old(holidayCount)
    {
      this.countryCode := countryCode;
    }

    /** `setHolidayCount`: changes the count only. */
    method SetHolidayCount(holidayCount: Int32)
      modifies this
      ensures this.holidayCount == holidayCount && countryCode == old(countryCode)
    {
      this.holidayCount := holidayCount;
    }

    /** `compareTo(other)`: descending by count, whatever the country codes. */
    function CompareTo(other: CountryHolidayCount): (r: int)
      reads this, other
      ensures r < 0 <==> holidayCount > other.holidayCount
      ensures r == 0 <==> holidayCount == other.holidayCount
      ensures r > 0 <==> holidayCount < other.holidayCount
    {
      CompareCounts(holidayCount, other.holidayCount)
    }

    /** `toString()` */
    function ToString(): string
      reads this
    {
      Describe(countryCode, holidayCount)
    }
  }

  /** The setters each change their own field: a count built as ("US", 5) and set to "GB" and 7 reads back ("GB", 7). */
  method SettersScenario()
  {
    var c := new CountryHolidayCount("US", 5);
    c.SetCountryCode("GB");
    assert c.holidayCount == 5;
    c.SetHolidayCount(7);
    assert c.countryCode == "GB" && c.holidayCount == 7;
  }
}
