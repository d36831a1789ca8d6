/** The holiday record the remote data source produces, and the provider interface. */
module Holidays {
  import opened Options
  import opened Calendar

  /**
   * One public holiday (`PublicHoliday`). The optional fields the core never reads
   * (fixed, global, counties, launchYear, types) are not carried.
   */
  datatype PublicHoliday = PublicHoliday(date: LocalDate, localName: string, name: string, countryCode: string)

  /**
   * `HolidayProvider.getPublicHolidays(year, countryCode)` as a function of its arguments;
   * `None` is a `null` list.
   */
  type Provider = (int, string) -> Option<seq<PublicHoliday>>
}
