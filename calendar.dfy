/** Proleptic Gregorian calendar arithmetic on day numbers counted from
    1970-01-01, standing in for the JavaScript `Date` object that
    services/excelService.ts uses to find week starts and to compare dates.
    All dates are taken in UTC. */
module Calendar {
  import opened Outcomes

  predicate IsLeapYear(y: int) {
    (y % 4 == 0 && y % 100 != 0) || y % 400 == 0
  }

  function DaysInYear(y: int): int {
    if IsLeapYear(y) then 366 else 365
  }

  function DaysInMonth(y: int, m: int): int
    requires 1 <= m <= 12
  {
    if m == 2 then (if IsLeapYear(y) then 29 else 28)
    else if m == 4 || m == 6 || m == 9 || m == 11 then 30
    else 31
  }

  /** Days in the months before month `m` of year `y` (`m == 13` gives the whole year). */
  function DaysBeforeMonth(y: int, m: int): int
    requires 1 <= m <= 13
  {
    [0, 31, 59, 90, 120, 151, 181, 212, 243, 273, 304, 334, 365][m - 1]
      + (if m > 2 && IsLeapYear(y) then 1 else 0)
  }

  lemma MonthLengthsAddUp(y: int, m: int)
    requires 1 <= m <= 12
    ensures DaysBeforeMonth(y, m + 1) == DaysBeforeMonth(y, m) + DaysInMonth(y, m)
    ensures DaysBeforeMonth(y, 1) == 0 && DaysBeforeMonth(y, 13) == DaysInYear(y)
  {
  }

  /** Number of leap-year rules met up to year `x`, as a difference of counts. */
  function Leaps(x: int): int {
    x / 4 - x / 100 + x / 400
  }

  /** Day number of January 1st of year `y`. */
  function DaysBeforeYear(y: int): int {
    365 * (y - 1970) + Leaps(y - 1) - Leaps(1969)
  }

  /** Euclidean division by a positive literal steps by one exactly at multiples. */
  lemma DivStep4(y: int)
    ensures y / 4 - (y - 1) / 4 == if y % 4 == 0 then 1 else 0
  {
  }

  lemma DivStep100(y: int)
    ensures y / 100 - (y - 1) / 100 == if y % 100 == 0 then 1 else 0
  {
  }

  lemma DivStep400(y: int)
    ensures y / 400 - (y - 1) / 400 == if y % 400 == 0 then 1 else 0
  {
  }

  /** Consecutive new-year day numbers are one year length apart. */
  lemma YearStep(y: int)
    ensures DaysBeforeYear(y + 1) == DaysBeforeYear(y) + DaysInYear(y)
  {
    DivStep4(y);
    DivStep100(y);
    DivStep400(y);
    assert y % 400 == 0 ==> y % 100 == 0 && y % 4 == 0;
    assert y % 100 == 0 ==> y % 4 == 0;
  }

  /** New-year day numbers strictly increase. */
  lemma {:induction false} YearsIncrease(a: int, b: int)
    requires a < b
    ensures DaysBeforeYear(a) + 365 * (b - a) <= DaysBeforeYear(b)
    decreases b - a
  {
    YearStep(b - 1);
    if a < b - 1 {
      YearsIncrease(a, b - 1);
    }
  }

  predicate InYear(n: int, y: int) {
    DaysBeforeYear(y) <= n < DaysBeforeYear(y + 1)
  }

  function YearUp(n: int, y: int): (r: int)
    requires DaysBeforeYear(y) <= n
    ensures InYear(n, r)
    decreases n - DaysBeforeYear(y)
  {
    YearStep(y);
    if n < DaysBeforeYear(y + 1) then y else YearUp(n, y + 1)
  }

  function YearDown(n: int, y: int): (r: int)
    requires n < DaysBeforeYear(y + 1)
    ensures InYear(n, r)
    decreases DaysBeforeYear(y + 1) - n
  {
    YearStep(y);
    if DaysBeforeYear(y) <= n then y else YearDown(n, y - 1)
  }

  /** The year containing day `n`. */
  function YearOf(n: int): (y: int)
    ensures InYear(n, y)
  {
    if 0 <= n then YearUp(n, 1970) else YearDown(n, 1969)
  }

  /** Each day lies in exactly one year. */
  lemma YearUnique(n: int, a: int, b: int)
    requires InYear(n, a) && InYear(n, b)
    ensures a == b
  {
    if a < b {
      YearsIncrease(a + 1, b + 1);
      YearsIncrease(a, a + 1);
    } else if b < a {
      YearsIncrease(b + 1, a + 1);
      YearsIncrease(b, b + 1);
    }
  }

  function MonthFrom(y: int, doy: int, m: int): (r: int)
    requires 1 <= m <= 12 && DaysBeforeMonth(y, m) <= doy < DaysInYear(y)
    ensures m <= r <= 12
    ensures DaysBeforeMonth(y, r) <= doy < DaysBeforeMonth(y, r + 1)
    decreases 12 - m
  {
    if m == 12 || doy < DaysBeforeMonth(y, m + 1) then m else MonthFrom(y, doy, m + 1)
  }

  /** The month containing day-of-year `doy` (0-based). */
  function MonthOf(y: int, doy: int): (m: int)
    requires 0 <= doy < DaysInYear(y)
    ensures 1 <= m <= 12
    ensures DaysBeforeMonth(y, m) <= doy < DaysBeforeMonth(y, m + 1)
  {
    MonthFrom(y, doy, 1)
  }

  predicate ValidDate(y: int, m: int, d: int) {
    1 <= m <= 12 && 1 <= d <= DaysInMonth(y, m)
  }

  /** Day number of a valid calendar date. */
  function DayNumber(y: int, m: int, d: int): int
    requires 1 <= m <= 12
  {
    DaysBeforeYear(y) + DaysBeforeMonth(y, m) + d - 1
  }

  datatype Civil = Civil(year: int, month: int, day: int)

  /** The calendar date of day number `n`; it is a valid date naming that very day. */
  function CivilFromDays(n: int): (c: Civil)
    ensures ValidDate(c.year, c.month, c.day)
    ensures DayNumber(c.year, c.month, c.day) == n
  {
    var y := YearOf(n);
    var doy := n - DaysBeforeYear(y);
    YearStep(y);
    var m := MonthOf(y, doy);
    MonthLengthsAddUp(y, m);
    Civil(y, m, doy - DaysBeforeMonth(y, m) + 1)
  }

  /** A valid date survives the trip to a day number and back. */
  lemma CivilRoundTrip(y: int, m: int, d: int)
    requires ValidDate(y, m, d)
    ensures CivilFromDays(DayNumber(y, m, d)) == Civil(y, m, d)
  {
    var n := DayNumber(y, m, d);
    MonthLengthsAddUp(y, m);
    assert DaysBeforeMonth(y, m + 1) <= DaysBeforeMonth(y, 13) by {
      MonthsIncrease(y, m + 1);
    }
    YearStep(y);
    var c := CivilFromDays(n);
    YearUnique(n, y, YearOf(n));
    var doy := n - DaysBeforeYear(y);
    MonthUnique(y, doy, m, c.month);
  }

  lemma {:induction false} MonthsIncrease(y: int, m: int)
    requires 1 <= m <= 13
    ensures DaysBeforeMonth(y, m) <= DaysBeforeMonth(y, 13)
    decreases 13 - m
  {
    if m < 13 {
      MonthLengthsAddUp(y, m);
      MonthsIncrease(y, m + 1);
    }
  }

  /** Each day of a year lies in exactly one month. */
  lemma MonthUnique(y: int, doy: int, a: int, b: int)
    requires 1 <= a <= 12 && 1 <= b <= 12
    requires DaysBeforeMonth(y, a) <= doy < DaysBeforeMonth(y, a + 1)
    requires DaysBeforeMonth(y, b) <= doy < DaysBeforeMonth(y, b + 1)
    ensures a == b
  {
  }

  /** Day of the week, 0 for Sunday through 6 for Saturday; 1970-01-01 was a Thursday. */
  function WeekDay(n: int): (w: int)
    ensures 0 <= w < 7
  {
    (n + 4) % 7
  }

  /** The day after `n` falls on the next day of the week, Saturday wrapping to Sunday. */
  lemma WeekDayNext(n: int)
    ensures WeekDay(n + 1) == (WeekDay(n) + 1) % 7
  {
  }

  /** Day 0 was a Thursday and 2024-01-01 was a Monday. */
  lemma WeekDayAnchors()
    ensures WeekDay(DayNumber(1970, 1, 1)) == 4
    ensures WeekDay(DayNumber(2024, 1, 1)) == 1
  {
  }

  /** The Monday on or before day `n`: a Sunday steps back six days, any other day back to day 1. */
  function WeekStart(n: int): (r: int)
    ensures n - 6 <= r <= n
    ensures WeekDay(r) == 1
  {
    var w := WeekDay(n);
    n - (if w == 0 then 6 else w - 1)
  }

  /** The Monday found is the only Monday in the seven days ending at `n`. */
  lemma WeekStartIsLatestMonday(n: int, k: int)
    requires n - 6 <= k <= n && WeekDay(k) == 1
    ensures k == WeekStart(n)
  {
  }

  /** Mondays are their own week start, so taking the week start twice is taking it once. */
  lemma WeekStartIdempotent(n: int)
    ensures WeekStart(WeekStart(n)) == WeekStart(n)
  {
  }

  /** Two days of the same Monday-to-Sunday week share their week start. */
  lemma SameWeekSameStart(a: int, b: int)
    requires WeekStart(a) <= b <= WeekStart(a) + 6
    ensures WeekStart(b) == WeekStart(a)
  {
    WeekStartIsLatestMonday(b, WeekStart(a));
  }

  /** Year arguments 0 through 99 of the `Date(y, m, d)` constructor mean 1900 through 1999. */
  function FullYear(y: int): int {
    if 0 <= y <= 99 then 1900 + y else y
  }

  /** ECMAScript MakeDay: month indices outside 0..11 carry into the year, and the day of month is an offset. */
  function MakeDay(year: int, month0: int, date: int): (n: int)
    ensures 0 <= month0 <= 11 && ValidDate(year, month0 + 1, date) ==> n == DayNumber(year, month0 + 1, date)
  {
    var ym := year + month0 / 12;
    var mn := month0 % 12;
    DayNumber(ym, mn + 1, 1) + date - 1
  }

  /** ECMAScript TimeClip on a day count: beyond 10^8 days from the epoch the time value is NaN. */
  predicate InTimeRange(n: int) {
    -100000000 <= n <= 100000000
  }

  /** `new Date(y, m - 1, d)` as a day number, or `None` for an invalid date. */
  function JsDate(y: int, m: int, d: int): (r: Option<int>)
    ensures r.Some? ==> InTimeRange(r.value)
    ensures ValidDate(FullYear(y), m, d) && InTimeRange(DayNumber(FullYear(y), m, d)) ==>
              r == Some(DayNumber(FullYear(y), m, d))
  {
    var n := MakeDay(FullYear(y), m - 1, d);
    if InTimeRange(n) then Some(n) else None
  }
}
