/**
 The proleptic Gregorian calendar in UTC: days counted from 1970-01-01, and the date and
 weekday of each. `NextDate` is the rule book (one day to the next); `DateOf` is the
 arithmetic form, proved to follow it for every day, past and future.
 */
module Calendar {
  datatype Date = Date(year: int, month: int, day: int)

  predicate IsLeap(year: int) {
    year % 4 == 0 && (year % 100 != 0 || year % 400 == 0)
  }

  function MonthLength(year: int, month: int): (n: int)
    requires 1 <= month <= 12
    ensures 28 <= n <= 31
  {
    if month == 2 then if IsLeap(year) then 29 else 28
    else if month == 4 || month == 6 || month == 9 || month == 11 then 30
    else 31
  }

  ghost predicate ValidDate(d: Date) {
    1 <= d.month <= 12 && 1 <= d.day <= MonthLength(d.year, d.month)
  }

  /** Days before month `month` in its year; month 13 gives the length of the year. */
  function MonthStart(year: int, month: int): (n: int)
    requires 1 <= month <= 13
    ensures 28 * (month - 1) <= n <= 31 * (month - 1)
  {
    if month == 1 then 0 else MonthStart(year, month - 1) + MonthLength(year, month - 1)
  }

  /** How many multiples of `n` lie in [0, year), counted backwards for negative years. */
  function MultiplesBefore(year: int, n: int): int
    requires n > 0
  {
    (year + n - 1) / n
  }

  /** Day number of 1 January; 719528 days separate 0000-01-01 from 1970-01-01. */
  function YearStart(year: int): int {
    365 * year + MultiplesBefore(year, 4) - MultiplesBefore(year, 100) + MultiplesBefore(year, 400) - 719528
  }

  /** The table of month starts, by unfolding `MonthStart` two months at a time. */
  lemma {:induction false} MonthStarts(year: int)
    ensures var leap := if IsLeap(year) then 1 else 0;
      && MonthStart(year, 3) == 59 + leap && MonthStart(year, 5) == 120 + leap
      && MonthStart(year, 7) == 181 + leap && MonthStart(year, 9) == 243 + leap
      && MonthStart(year, 11) == 304 + leap && MonthStart(year, 13) == 365 + leap
  {
    assert MonthStart(year, 2) == 31;
    assert MonthStart(year, 4) == MonthStart(year, 3) + 31;
    assert MonthStart(year, 6) == MonthStart(year, 5) + 31;
    assert MonthStart(year, 8) == MonthStart(year, 7) + 31;
    assert MonthStart(year, 10) == MonthStart(year, 9) + 30;
    assert MonthStart(year, 12) == MonthStart(year, 11) + 30;
  }

  lemma {:induction false} YearLength(year: int)
    ensures MonthStart(year, 13) == if IsLeap(year) then 366 else 365
    ensures YearStart(year + 1) == YearStart(year) + MonthStart(year, 13)
  {
    MonthStarts(year);
    hide MonthStart, MultiplesBefore;
    LeapEvery(year, 4);
    LeapEvery(year, 100);
    LeapEvery(year, 400);
  }

  /** Counting the multiples of `n` below `year` steps up exactly at a multiple. */
  lemma {:induction false} LeapEvery(year: int, n: int)
    requires n > 0
    ensures MultiplesBefore(year + 1, n) == MultiplesBefore(year, n) + if year % n == 0 then 1 else 0
  {
    var q, r := year / n, year % n;
    assert year == q * n + r;
    assert year + 1 + (n - 1) == (q + 1) * n + r;
    QuotientIs(year + n, q + 1, r, n);
    if r == 0 {
      QuotientIs(year + n - 1, q, n - 1, n);
    } else {
      assert year + n - 1 == (q + 1) * n + (r - 1);
      QuotientIs(year + n - 1, q + 1, r - 1, n);
    }
  }

  lemma {:induction false} QuotientIs(x: int, q: int, r: int, n: int)
    requires n > 0 && 0 <= r < n && x == q * n + r
    ensures x / n == q && x % n == r
  {
    var d := x / n - q;
    assert d * n == r - x % n;
    assert -n < d * n < n;
    assert d < 1 && d > -1;
  }

  function DayNumber(d: Date): int
    requires 1 <= d.month <= 12
  {
    YearStart(d.year) + MonthStart(d.year, d.month) + d.day - 1
  }

  function YearFrom(day: int, year: int): (y: int)
    requires YearStart(year) <= day
    ensures YearStart(y) <= day < YearStart(y + 1)
    decreases day - YearStart(year)
  {
    YearLength(year);
    if day < YearStart(year + 1) then year else YearFrom(day, year + 1)
  }

  function YearOf(day: int): (y: int)
    ensures YearStart(y) <= day < YearStart(y + 1)
  {
    var cycle := (day + 719528) / 146097;
    assert YearStart(400 * cycle) == 146097 * cycle - 719528;
    YearFrom(day, 400 * cycle)
  }

  function MonthFrom(year: int, dayOfYear: int, month: int): (m: int)
    requires 1 <= month <= 12 && MonthStart(year, month) <= dayOfYear < MonthStart(year, 13)
    ensures 1 <= m <= 12 && MonthStart(year, m) <= dayOfYear < MonthStart(year, m + 1)
    decreases 12 - month
  {
    if dayOfYear < MonthStart(year, month + 1) then month else MonthFrom(year, dayOfYear, month + 1)
  }

  function DateOf(day: int): (d: Date)
    ensures ValidDate(d) && DayNumber(d) == day
  {
    var y := YearOf(day);
    YearLength(y);
    var dayOfYear := day - YearStart(y);
    var m := MonthFrom(y, dayOfYear, 1);
    Date(y, m, dayOfYear - MonthStart(y, m) + 1)
  }

  /** Sunday is 0; 1970-01-01 was a Thursday. */
  function Weekday(day: int): (w: int)
    ensures 0 <= w <= 6
  {
    (day + 4) % 7
  }

  function NextDate(d: Date): Date
    requires 1 <= d.month <= 12
  {
    if d.day < MonthLength(d.year, d.month) then Date(d.year, d.month, d.day + 1)
    else if d.month < 12 then Date(d.year, d.month + 1, 1)
    else Date(d.year + 1, 1, 1)
  }

  lemma {:induction false} YearStartMonotone(y: int, z: int)
    requires y <= z
    ensures YearStart(y) + 365 * (z - y) <= YearStart(z) <= YearStart(y) + 366 * (z - y)
    decreases z - y
  {
    if y < z {
      YearStartMonotone(y, z - 1);
      YearLength(z - 1);
    }
  }

  lemma {:induction false} MonthStartMonotone(year: int, m: int, n: int)
    requires 1 <= m <= n <= 13
    ensures MonthStart(year, m) + 28 * (n - m) <= MonthStart(year, n)
    decreases n - m
  {
    if m < n { MonthStartMonotone(year, m, n - 1); }
  }

  lemma {:induction false} DayNumberWithinYear(d: Date)
    requires ValidDate(d)
    ensures YearStart(d.year) <= DayNumber(d) < YearStart(d.year + 1)
  {
    YearLength(d.year);
    MonthStartMonotone(d.year, d.month + 1, 13);
  }

  /** Later in the calendar means a larger day number. */
  lemma {:induction false} DayNumberOrder(d: Date, e: Date)
    requires ValidDate(d) && ValidDate(e)
    requires d.year < e.year || (d.year == e.year && d.month < e.month)
    ensures DayNumber(d) < DayNumber(e)
  {
    DayNumberWithinYear(d);
    DayNumberWithinYear(e);
    if d.year < e.year {
      YearStartMonotone(d.year + 1, e.year);
    } else {
      MonthStartMonotone(d.year, d.month + 1, e.month);
    }
  }

  /** A valid date has exactly one day number, so `DateOf` and `DayNumber` are inverse. */
  lemma {:induction false} DayNumberInjective(d: Date, e: Date)
    requires ValidDate(d) && ValidDate(e) && DayNumber(d) == DayNumber(e)
    ensures d == e
  {
    if d.year != e.year || d.month != e.month {
      if d.year < e.year || (d.year == e.year && d.month < e.month) {
        DayNumberOrder(d, e);
      } else {
        DayNumberOrder(e, d);
      }
    }
  }

  lemma {:induction false} DateRoundTrip(d: Date)
    requires ValidDate(d)
    ensures DateOf(DayNumber(d)) == d
  {
    DayNumberInjective(DateOf(DayNumber(d)), d);
  }

  lemma {:induction false} NextDateNumber(d: Date)
    requires ValidDate(d)
    ensures ValidDate(NextDate(d)) && DayNumber(NextDate(d)) == DayNumber(d) + 1
  {
    YearLength(d.year);
    if d.month == 12 {
      assert MonthStart(d.year, 13) == MonthStart(d.year, 12) + MonthLength(d.year, 12);
    }
  }

  /** The arithmetic calendar follows the day-by-day rules: consecutive day numbers are consecutive dates. */
  lemma {:induction false} ConsecutiveDays(d: Date, e: Date)
    requires ValidDate(d) && ValidDate(e)
    ensures DayNumber(e) == DayNumber(d) + 1 <==> e == NextDate(d)
  {
    NextDateNumber(d);
    var n := NextDate(d);
    if DayNumber(e) == DayNumber(n) { DayNumberInjective(e, n); }
  }

  lemma {:induction false} ConsecutiveWeekdays(day: int)
    ensures Weekday(day + 1) == if Weekday(day) == 6 then 0 else Weekday(day) + 1
  {
  }

  /** Fixed points against which the rest is counted. */
  lemma {:induction false} CalendarAnchors()
    ensures DayNumber(Date(1970, 1, 1)) == 0 && Weekday(0) == 4
    ensures Weekday(DayNumber(Date(2026, 5, 7))) == 4
    ensures Weekday(DayNumber(Date(2026, 8, 1))) == 6
  {
    MonthStarts(2026);
    assert MonthStart(2026, 8) == MonthStart(2026, 7) + 31;
  }
}
