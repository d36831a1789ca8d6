/**
 * `HolidayController`: the request validation in front of the service. Each endpoint
 * either answers 400 (`badRequest()`) without calling the service, or calls the service
 * with its arguments normalised (country codes upper-cased) and answers 200 with the
 * service's result. The model returns which of the two happens and, in the second case,
 * the exact arguments the service receives. A Java `null` parameter is `None`.
 */
module Controller {
  import opened Options
  import opened Text

  /** The years the counting and sharing endpoints accept. */
  const MIN_YEAR := 1900
  const MAX_YEAR := 2100

  /** What an endpoint does with a request: refuse it, or pass `args` to the service. */
  datatype Response<A> = BadRequest | Delegate(args: A)

  /** `s == null || s.trim().isEmpty()` */
  predicate IsBlank(s: Option<string>) {
    s.None? || Trim(s.value) == []
  }

  predicate YearInRange(year: int) {
    MIN_YEAR <= year <= MAX_YEAR
  }

  /** A code is blank exactly when it is missing or made only of characters at or below ' '. */
  lemma BlankIff(s: Option<string>)
    ensures IsBlank(s) <==> s.None? || forall i :: 0 <= i < |s.value| ==> IsTrimmable(s.value[i])
  {
    if s.Some? {
      TrimEmptyIff(s.value);
    }
  }

  /** Upper-casing changes no character at or below ' ', so it keeps a code blank or non-blank. */
  lemma UpperKeepsBlankness(s: string)
    ensures IsBlank(Some(ToUpper(s))) <==> IsBlank(Some(s))
  {
    var u := ToUpper(s);
    TrimEmptyIff(s);
    TrimEmptyIff(u);
    forall i | 0 <= i < |s| ensures IsTrimmable(u[i]) <==> IsTrimmable(s[i]) {
    }
  }

  /**
   * `getLastCelebratedHolidays(countryCode)`: refused exactly when the code is blank;
   * otherwise the service receives the code with every lower-case letter capitalised
   * and every other character as it was.
   */
  function LastCelebrated(countryCode: Option<string>): (r: Response<string>)
    ensures r.BadRequest? <==> IsBlank(countryCode)
    ensures r.Delegate? ==> && |r.args| == |countryCode.value|
                            && (forall i :: 0 <= i < |r.args| ==> r.args[i] == UpperChar(countryCode.value[i]))
                            && (forall i :: 0 <= i < |r.args| ==> !IsLowerAscii(r.args[i]))
  {
    if countryCode.None? || Trim(countryCode.value) == [] then BadRequest
    else Delegate(ToUpper(countryCode.value))
  }

  /** The list passed on by `countries.stream().map(String::toUpperCase).toList()`. */
  function UpperAll(countries: seq<string>): (r: seq<string>)
  {
    seq(|countries|, i requires 0 <= i < |countries| => ToUpper(countries[i]))
  }

  /**
   * `getNonWeekendHolidayCount(year, countries)`: refused exactly when the year is outside
   * 1900..2100 or the list is missing or empty; otherwise the service receives the year and
   * the codes, each upper-cased, in their order and with any repeats kept.
   */
  function NonWeekendCount(year: int, countries: Option<seq<string>>): (r: Response<(int, seq<string>)>)
    ensures r.BadRequest? <==> !YearInRange(year) || countries.None? || countries.value == []
    ensures r.Delegate? ==> && r.args.0 == year
                            && |r.args.1| == |countries.value|
                            && (forall i :: 0 <= i < |r.args.1| ==> r.args.1[i] == ToUpper(countries.value[i]))
  {
    if year < MIN_YEAR || year > MAX_YEAR then BadRequest
    else if countries.None? || countries.value == [] then BadRequest
    else Delegate((year, UpperAll(countries.value)))
  }

  /**
   * `getSharedHolidays(year, country1, country2)`: refused exactly when the year is outside
   * 1900..2100 or either code is blank; otherwise the service receives the year and both
   * codes upper-cased, in their order.
   */
  function Shared(year: int, country1: Option<string>, country2: Option<string>): (r: Response<(int, string, string)>)
    ensures r.BadRequest? <==> !YearInRange(year) || IsBlank(country1) || IsBlank(country2)
    ensures r.Delegate? ==> && r.args.0 == year
                            && |r.args.1| == |country1.value| && |r.args.2| == |country2.value|
                            && (forall i :: 0 <= i < |r.args.1| ==> r.args.1[i] == UpperChar(country1.value[i]))
                            && (forall i :: 0 <= i < |r.args.2| ==> r.args.2[i] == UpperChar(country2.value[i]))
  {
    if year < MIN_YEAR || year > MAX_YEAR then BadRequest
    else if IsBlank(country1) || IsBlank(country2) then BadRequest
    else Delegate((year, ToUpper(country1.value), ToUpper(country2.value)))
  }

  // ---------------------------------------------------------------------
  // Normalisation is idempotent: a request built from what an endpoint passed on is
  // accepted again and passed on unchanged, so the service sees one spelling per code.

  lemma LastCelebratedIdempotent(countryCode: Option<string>)
    ensures var r := LastCelebrated(countryCode);
      r.Delegate? ==> LastCelebrated(Some(r.args)) == r
  {
    if countryCode.Some? {
      UpperKeepsBlankness(countryCode.value);
      ToUpperIdempotent(countryCode.value);
    }
  }

  lemma NonWeekendCountIdempotent(year: int, countries: Option<seq<string>>)
    ensures var r := NonWeekendCount(year, countries);
      r.Delegate? ==> NonWeekendCount(year, Some(r.args.1)) == r
  {
    var r := NonWeekendCount(year, countries);
    if r.Delegate? {
      var u := r.args.1;
      forall i | 0 <= i < |u| ensures ToUpper(u[i]) == u[i] {
        ToUpperIdempotent(countries.value[i]);
      }
      assert UpperAll(u) == u;
    }
  }

  lemma SharedIdempotent(year: int, country1: Option<string>, country2: Option<string>)
    ensures var r := Shared(year, country1, country2);
      r.Delegate? ==> Shared(year, Some(r.args.1), Some(r.args.2)) == r
  {
    var r := Shared(year, country1, country2);
    if r.Delegate? {
      UpperKeepsBlankness(country1.value);
      UpperKeepsBlankness(country2.value);
      ToUpperIdempotent(country1.value);
      ToUpperIdempotent(country2.value);
    }
  }

  /** `health()`: the fixed text of the 200 answer. */
  function Health(): string {
    "Holiday API is running"
  }

  lemma HealthText()
    ensures Health() == "Holiday API is running"
  {
  }

  // ---------------------------------------------------------------------
  // Requests of the controller's tests.

  /** A lower-case code is passed on capitalised; a blank one is refused. */
  lemma LastCelebratedExamples()
    ensures LastCelebrated(Some("gb")) == Delegate("GB")
    ensures LastCelebrated(Some("  ")) == BadRequest
    ensures LastCelebrated(None) == BadRequest
  {
    assert ToUpper("gb") == "GB";
    TrimEmptyIff("  ");
  }

  /** Years 1800 and 2200 are refused, whatever the codes; the bounds themselves are accepted. */
  lemma YearBoundsExamples()
    ensures NonWeekendCount(1800, Some(["US"])) == BadRequest
    ensures NonWeekendCount(2200, Some(["US"])) == BadRequest
    ensures Shared(1800, Some("US"), Some("GB")) == BadRequest
    ensures Shared(2200, Some("US"), Some("GB")) == BadRequest
    ensures NonWeekendCount(1900, Some(["us", "GB"])).Delegate?
    ensures NonWeekendCount(2100, Some(["us", "GB"])).args.1 == ["US", "GB"]
    ensures Shared(1900, Some("us"), Some("GB")).Delegate?
    ensures Shared(2100, Some("us"), Some("GB")) == Delegate((2100, "US", "GB"))
  {
    assert ToUpper("us") == "US" && ToUpper("GB") == "GB";
    TrimNonBlank("us");
    TrimNonBlank("GB");
  }

  /** A code that starts with a character above ' ' is not blank. */
  lemma TrimNonBlank(s: string)
    requires s != [] && !IsTrimmable(s[0])
    ensures !IsBlank(Some(s))
  {
    TrimEmptyIff(s);
  }
}
