/**
 * Calendar dates as the system compares them: by year, then month, then day.
 * The time of day (every booking date is built at 09:00) plays no part.
 */
module Dates {

  datatype Date = Date(year: int, month: int, day: int)

  /** a comes strictly before b in the lexicographic (year, month, day) order. */
  predicate Before(a: Date, b: Date) {
    a.year < b.year
    || (a.year == b.year && (a.month < b.month || (a.month == b.month && a.day < b.day)))
  }

  /** a is b or comes before it. */
  predicate NotAfter(a: Date, b: Date) {
    !Before(b, a)
  }

  /** Gregorian leap years. */
  predicate IsLeapYear(y: int) {
    (y % 4 == 0 && y % 100 != 0) || y % 400 == 0
  }

  function DaysInMonth(y: int, m: int): (n: int)
    requires 1 <= m <= 12
    ensures 28 <= n <= 31
    ensures m == 2 ==> (n == 29 <==> IsLeapYear(y)) && (n == 28 <==> !IsLeapYear(y))
    ensures m in {4, 6, 9, 11} <==> n == 30
    ensures m in {1, 3, 5, 7, 8, 10, 12} <==> n == 31
  {
    if m == 2 then (if IsLeapYear(y) then 29 else 28)
    else if m == 4 || m == 6 || m == 9 || m == 11 then 30
    else 31
  }

  /**
   * The dates that DateTime.Parse accepts when given "year/month/day 09:00":
   * years 1 to 9999, months 1 to 12, and a day that exists in that month.
   */
  predicate IsValidDate(d: Date) {
    1 <= d.year <= 9999 && 1 <= d.month <= 12 && 1 <= d.day <= DaysInMonth(d.year, d.month)
  }

  /** February 29 exists exactly in the leap years of the accepted range. */
  lemma LeapDayValidIff(y: int)
    ensures IsValidDate(Date(y, 2, 29)) <==> 1 <= y <= 9999 && IsLeapYear(y)
  {
  }

  /** A 31st exists exactly in the seven long months. */
  lemma ThirtyFirstValidIff(y: int, m: int)
    ensures IsValidDate(Date(y, m, 31)) <==> 1 <= y <= 9999 && m in {1, 3, 5, 7, 8, 10, 12}
  {
  }
}
