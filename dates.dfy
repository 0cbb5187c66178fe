/**
 * Calendar dates and the ISO 8601 calendar-date form `YYYY-MM-DD` (the form W3C Datetime
 * `lastmod` values and the service's `start_date`/`end_date` use). A date is compared the way
 * Python compares two midnight `datetime` values: by year, then month, then day.
 */
module Dates {
  import opened Common
  import opened Text

  datatype Date = Date(year: int, month: int, day: int)

  predicate IsLeapYear(y: int) {
    y % 4 == 0 && (y % 100 != 0 || y % 400 == 0)
  }

  function DaysInMonth(y: int, m: int): (n: int)
    requires 1 <= m <= 12
    ensures 28 <= n <= 31
  {
    if m == 2 then (if IsLeapYear(y) then 29 else 28)
    else if m == 4 || m == 6 || m == 9 || m == 11 then 30
    else 31
  }

  /** A date Python's `datetime` can hold: years 1 to 9999 and a real day of the month. */
  predicate IsValid(d: Date) {
    1 <= d.year <= 9999 && 1 <= d.month <= 12 && 1 <= d.day <= DaysInMonth(d.year, d.month)
  }

  /** `a <= b` on dates. */
  predicate LessEq(a: Date, b: Date) {
    a.year < b.year ||
    (a.year == b.year && (a.month < b.month || (a.month == b.month && a.day <= b.day)))
  }

  /** `a < b` on dates. */
  predicate Less(a: Date, b: Date) {
    LessEq(a, b) && a != b
  }

  /** The inclusive window `start <= d <= end`. */
  predicate InWindow(d: Date, start: Date, end: Date) {
    LessEq(start, d) && LessEq(d, end)
  }

  /**
   * The date order is a total order, as the comparisons of `datetime` values are: the window
   * test `start <= d <= end` and the check that the start is not after the end are read against
   * it. No other proof needs this fact; it is stated so the order can be checked on its own.
   */
  lemma LessEqTotalOrder(a: Date, b: Date, c: Date)
    ensures LessEq(a, a)
    ensures LessEq(a, b) && LessEq(b, a) ==> a == b
    ensures LessEq(a, b) && LessEq(b, c) ==> LessEq(a, c)
    ensures LessEq(a, b) || LessEq(b, a)
  {
  }

  /** Python's `d < start or d > end` holds exactly when `d` lies outside the inclusive window. */
  lemma OutsideWindow(d: Date, start: Date, end: Date)
    ensures (Less(d, start) || Less(end, d)) <==> !InWindow(d, start, end)
  {
  }

  /** `YYYY-MM-DD` for a date whose fields fit their widths. */
  function FormatIsoDate(d: Date): (s: string)
    requires 0 <= d.year < 10000 && 0 <= d.month < 100 && 0 <= d.day < 100
    ensures |s| == 10 && s[4] == '-' && s[7] == '-'
  {
    Decimal(d.year, 4) + "-" + Decimal(d.month, 2) + "-" + Decimal(d.day, 2)
  }

  /**
   * The date written as exactly `YYYY-MM-DD`, or None. This is the calendar-date form both
   * `datetime.fromisoformat` and `datetime.strptime(s, "%Y-%m-%d")` accept; their extra forms
   * are not modelled.
   */
  function ParseIsoDate(s: string): (r: Option<Date>)
    ensures r.Some? ==> IsValid(r.value)
  {
    if |s| == 10 && s[4] == '-' && s[7] == '-'
       && AllDigits(s[..4]) && AllDigits(s[5..7]) && AllDigits(s[8..])
    then
      var d := Date(DecimalValue(s[..4]), DecimalValue(s[5..7]), DecimalValue(s[8..]));
      if IsValid(d) then Some(d) else None
    else None
  }

  /** Every valid date is read back from its `YYYY-MM-DD` form. */
  lemma ParseFormat(d: Date)
    requires IsValid(d)
    ensures ParseIsoDate(FormatIsoDate(d)) == Some(d)
  {
    var y, m, dd := Decimal(d.year, 4), Decimal(d.month, 2), Decimal(d.day, 2);
    var s := FormatIsoDate(d);
    assert s[..4] == y && s[5..7] == m && s[8..] == dd;
    DecimalRoundTrip(d.year, 4);
    DecimalRoundTrip(d.month, 2);
    DecimalRoundTrip(d.day, 2);
  }

  /** A string that parses is exactly the `YYYY-MM-DD` form of the date it denotes. */
  lemma FormatParse(s: string)
    requires ParseIsoDate(s).Some?
    ensures FormatIsoDate(ParseIsoDate(s).value) == s
  {
    DigitsRoundTrip(s[..4]);
    DigitsRoundTrip(s[5..7]);
    DigitsRoundTrip(s[8..]);
    assert s == s[..4] + "-" + s[5..7] + "-" + s[8..];
  }
}
