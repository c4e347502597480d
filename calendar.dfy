/** Proleptic Gregorian calendar dates and the two ways the application
    advances a date by whole months: date-fns `addMonths`, which clamps the
    day to the end of the target month, and JavaScript `Date.setMonth`, which
    lets a day that does not exist in the target month overflow into the
    month after it. Times are midnight UTC throughout. */
module Calendar {

  /** A calendar date as written in an ISO string YYYY-MM-DD (month 1..12). */
  datatype Date = Date(year: int, month: int, day: int)

  predicate IsLeapYear(y: int) {
    (y % 4 == 0 && y % 100 != 0) || y % 400 == 0
  }

  function DaysInMonth(y: int, m: int): (n: int)
    requires 1 <= m <= 12
    ensures 28 <= n <= 31
    ensures n == 31 <==> m in {1, 3, 5, 7, 8, 10, 12}
    ensures m == 2 ==> (n == 29 <==> IsLeapYear(y))
  {
    if m == 2 then (if IsLeapYear(y) then 29 else 28)
    else if m == 4 || m == 6 || m == 9 || m == 11 then 30
    else 31
  }

  /** A date that exists in the calendar; anything else is what JavaScript
      calls an Invalid Date. */
  predicate ValidDate(d: Date) {
    1 <= d.month <= 12 && 1 <= d.day <= DaysInMonth(d.year, d.month)
  }

  function Min(a: int, b: int): int { if a <= b then a else b }

  /** The number of months since January of year 0. */
  function MonthIndex(d: Date): int {
    12 * d.year + d.month - 1
  }

  /** The first day of the month `k` months after (or before) the month of `d`. */
  function MonthStart(d: Date, k: int): (r: Date)
    requires 1 <= d.month <= 12
    ensures ValidDate(r) && r.day == 1
    ensures MonthIndex(r) == MonthIndex(d) + k
  {
    var t := d.month - 1 + k;
    Date(d.year + t / 12, t % 12 + 1, 1)
  }

  /** date-fns `addMonths(d, k)`: same day of month, clamped to the last day
      of the target month. */
  function AddMonths(d: Date, k: int): (r: Date)
    requires ValidDate(d)
    ensures ValidDate(r)
    ensures MonthIndex(r) == MonthIndex(d) + k
    ensures r.day == Min(d.day, DaysInMonth(r.year, r.month))
  {
    var s := MonthStart(d, k);
    Date(s.year, s.month, Min(d.day, DaysInMonth(s.year, s.month)))
  }

  /** JavaScript `x.setMonth(x.getMonth() + k)` on a copy of `d`: the day of
      month is kept, and a day past the end of the target month runs on into
      the following month. */
  function SetMonthOffset(d: Date, k: int): (r: Date)
    requires ValidDate(d)
    ensures ValidDate(r)
    ensures var s := MonthStart(d, k);
      if d.day <= DaysInMonth(s.year, s.month) then
        MonthIndex(r) == MonthIndex(d) + k && r.day == d.day
      else
        MonthIndex(r) == MonthIndex(d) + k + 1 && r.day == d.day - DaysInMonth(s.year, s.month)
  {
    var s := MonthStart(d, k);
    var n := DaysInMonth(s.year, s.month);
    if d.day <= n then Date(s.year, s.month, d.day)
    else
      var u := MonthStart(d, k + 1);
      Date(u.year, u.month, d.day - n)
  }

  /** Chronological order of dates. */
  predicate Before(a: Date, b: Date) {
    a.year < b.year
    || (a.year == b.year && a.month < b.month)
    || (a.year == b.year && a.month == b.month && a.day < b.day)
  }

  predicate NotAfter(a: Date, b: Date) {
    a == b || Before(a, b)
  }

  /** On dates whose month is in range, a later month means a later date. */
  lemma MonthIndexOrder(a: Date, b: Date)
    requires 1 <= a.month <= 12 && 1 <= b.month <= 12
    requires MonthIndex(a) < MonthIndex(b)
    ensures Before(a, b)
  {
  }

  /** Valid dates are determined by their month index and day. */
  lemma MonthIndexDetermines(a: Date, b: Date)
    requires 1 <= a.month <= 12 && 1 <= b.month <= 12
    requires MonthIndex(a) == MonthIndex(b) && a.day == b.day
    ensures a == b
  {
  }
}
