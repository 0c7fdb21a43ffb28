/**
 * The part of Python's `datetime` the modelled code relies on: proleptic Gregorian
 * dates in years 1 to 9999, day ordinals as in `date.toordinal`, adding whole days,
 * and the `.days` field of the difference of two datetimes. Microseconds and time
 * zones are not modelled.
 */
module Calendar {

  datatype Date = Date(year: int, month: int, day: int)

  datatype DateTime = DateTime(date: Date, hour: int, minute: int, second: int)

  predicate IsLeapYear(y: int) {
    y % 4 == 0 && (y % 100 != 0 || y % 400 == 0)
  }

  function DaysInMonth(y: int, m: int): (n: int)
    ensures 28 <= n <= 31
  {
    if m == 2 then (if IsLeapYear(y) then 29 else 28)
    else if m == 4 || m == 6 || m == 9 || m == 11 then 30
    else 31
  }

  function DaysInYear(y: int): int {
    if IsLeapYear(y) then 366 else 365
  }

  predicate ValidDate(d: Date) {
    1 <= d.year <= 9999 && 1 <= d.month <= 12 && 1 <= d.day <= DaysInMonth(d.year, d.month)
  }

  /** What a `datetime` object always satisfies. */
  predicate ValidDateTime(t: DateTime) {
    ValidDate(t.date) && 0 <= t.hour < 24 && 0 <= t.minute < 60 && 0 <= t.second < 60
  }

  /** `date.max`. */
  const LastDate := Date(9999, 12, 31)

  /** Days in the years before `y`. */
  function DaysBeforeYear(y: int): int {
    var p := y - 1;
    365 * p + p / 4 - p / 100 + p / 400
  }

  /** Days in the months of year `y` before month `m`. */
  function DaysBeforeMonth(y: int, m: int): int {
    (if m <= 1 then 0 else if m == 2 then 31 else if m == 3 then 59 else if m == 4 then 90
     else if m == 5 then 120 else if m == 6 then 151 else if m == 7 then 181
     else if m == 8 then 212 else if m == 9 then 243 else if m == 10 then 273
     else if m == 11 then 304 else 334)
    + (if m > 2 && IsLeapYear(y) then 1 else 0)
  }

  /** `date.toordinal`: 1 for 0001-01-01, counting up by one per day. */
  function Ordinal(d: Date): int {
    DaysBeforeYear(d.year) + DaysBeforeMonth(d.year, d.month) + d.day
  }

  /** The calendar day after `d`. */
  function NextDay(d: Date): Date {
    if d.day < DaysInMonth(d.year, d.month) then Date(d.year, d.month, d.day + 1)
    else if d.month < 12 then Date(d.year, d.month + 1, 1)
    else Date(d.year + 1, 1, 1)
  }

  /** `d + timedelta(n)` on the date part. */
  function AddDays(d: Date, n: nat): Date {
    if n == 0 then d else NextDay(AddDays(d, n - 1))
  }

  /** Chronological order of dates. */
  predicate Before(a: Date, b: Date) {
    a.year < b.year || (a.year == b.year && (a.month < b.month || (a.month == b.month && a.day < b.day)))
  }

  /** Seconds since the start of day 0 (microseconds are not modelled). */
  function Seconds(t: DateTime): int {
    Ordinal(t.date) * 86400 + t.hour * 3600 + t.minute * 60 + t.second
  }

  /** `(end - start).days`: the difference rounded down to whole days. */
  function DaysBetween(start: DateTime, end: DateTime): int {
    (Seconds(end) - Seconds(start)) / 86400
  }

  /** `t + timedelta(n)`: the same time of day, `n` days later. */
  function PlusDays(t: DateTime, n: nat): DateTime {
    t.(date := AddDays(t.date, n))
  }

  lemma YearStep(y: int)
    requires y >= 1
    ensures DaysBeforeYear(y + 1) == DaysBeforeYear(y) + DaysInYear(y)
  {
    Step4(y);
    Step100(y);
    Step400(y);
    if y % 400 == 0 {
      MultipleOf400(y);
    }
    if y % 100 == 0 {
      MultipleOf100(y);
    }
    assert DaysBeforeYear(y + 1) - DaysBeforeYear(y)
        == 365 + (y / 4 - (y - 1) / 4) - (y / 100 - (y - 1) / 100) + (y / 400 - (y - 1) / 400);
  }

  /** A multiple of 400 is a multiple of 100. */
  lemma MultipleOf400(y: int)
    requires y % 400 == 0
    ensures y % 100 == 0
  {
    var q := y / 400;
    assert y == 100 * (4 * q) + 0;
    DivUnique100(y, 4 * q, 0);
  }

  /** A multiple of 100 is a multiple of 4. */
  lemma MultipleOf100(y: int)
    requires y % 100 == 0
    ensures y % 4 == 0
  {
    var q := y / 100;
    assert y == 4 * (25 * q) + 0;
    DivUnique4(y, 25 * q, 0);
  }

  lemma DivUnique100(y: int, q: int, r: int)
    requires y == 100 * q + r && 0 <= r < 100
    ensures y % 100 == r
  {
  }

  lemma DivUnique4(y: int, q: int, r: int)
    requires y == 4 * q + r && 0 <= r < 4
    ensures y % 4 == r
  {
  }

  // Going from `y - 1` to `y`, the count of multiples of 4, 100 and 400 grows exactly
  // when `y` is such a multiple.

  lemma Step4(y: int)
    ensures y / 4 - (y - 1) / 4 == if y % 4 == 0 then 1 else 0
  {
  }

  lemma Step100(y: int)
    ensures y / 100 - (y - 1) / 100 == if y % 100 == 0 then 1 else 0
  {
  }

  lemma Step400(y: int)
    ensures y / 400 - (y - 1) / 400 == if y % 400 == 0 then 1 else 0
  {
  }

  lemma MonthStep(y: int, m: int)
    requires 1 <= m <= 12
    ensures DaysBeforeMonth(y, m) + DaysInMonth(y, m)
            == if m < 12 then DaysBeforeMonth(y, m + 1) else DaysInYear(y)
  {
  }

  /** Consecutive days have consecutive ordinals; only `date.max` has no valid successor. */
  lemma {:induction false} NextDayOrdinal(d: Date)
    requires ValidDate(d)
    ensures Ordinal(NextDay(d)) == Ordinal(d) + 1
    ensures ValidDate(NextDay(d)) <==> d != LastDate
    ensures Before(d, NextDay(d))
  {
    MonthStep(d.year, d.month);
    if d.day == DaysInMonth(d.year, d.month) && d.month == 12 {
      YearStep(d.year);
    }
  }

  lemma {:induction false} DaysBeforeYearIncreasing(y1: int, y2: int)
    requires 1 <= y1 < y2
    ensures DaysBeforeYear(y1 + 1) <= DaysBeforeYear(y2)
    decreases y2 - y1
  {
    if y1 + 1 < y2 {
      DaysBeforeYearIncreasing(y1 + 1, y2);
      YearStep(y1 + 1);
    }
  }

  lemma DaysBeforeMonthIncreasing(y: int, m1: int, m2: int)
    requires 1 <= m1 < m2 <= 12
    ensures DaysBeforeMonth(y, m1) + DaysInMonth(y, m1) <= DaysBeforeMonth(y, m2)
  {
  }

  lemma OrdinalWithinYear(d: Date)
    requires ValidDate(d)
    ensures DaysBeforeYear(d.year) < Ordinal(d) <= DaysBeforeYear(d.year) + DaysInYear(d.year)
  {
    MonthStep(d.year, d.month);
    if d.month < 12 {
      DaysBeforeMonthIncreasing(d.year, d.month, 12);
      MonthStep(d.year, 12);
    }
  }

  /** Chronological order is ordinal order. */
  lemma BeforeOrdinal(a: Date, b: Date)
    requires ValidDate(a) && ValidDate(b)
    ensures Before(a, b) <==> Ordinal(a) < Ordinal(b)
  {
    if Before(a, b) {
      BeforeIncreasing(a, b);
    } else if a != b {
      BeforeIncreasing(b, a);
    }
  }

  lemma BeforeIncreasing(a: Date, b: Date)
    requires ValidDate(a) && ValidDate(b) && Before(a, b)
    ensures Ordinal(a) < Ordinal(b)
  {
    if a.year < b.year {
      OrdinalWithinYear(a);
      OrdinalWithinYear(b);
      YearStep(a.year);
      if a.year + 1 < b.year {
        DaysBeforeYearIncreasing(a.year, b.year);
      }
    } else if a.month < b.month {
      DaysBeforeMonthIncreasing(a.year, a.month, b.month);
    }
  }

  /** Two valid dates with the same ordinal are the same date. */
  lemma OrdinalInjective(a: Date, b: Date)
    requires ValidDate(a) && ValidDate(b) && Ordinal(a) == Ordinal(b)
    ensures a == b
  {
    BeforeOrdinal(a, b);
    BeforeOrdinal(b, a);
  }

  /** Every valid date is at most `date.max`. */
  lemma OrdinalAtMostLast(d: Date)
    requires ValidDate(d)
    ensures Ordinal(d) <= Ordinal(LastDate)
  {
    BeforeOrdinal(d, LastDate);
  }

  /** Adding days within range yields a valid date `n` ordinals later. */
  lemma {:induction false} AddDaysOrdinal(d: Date, n: nat)
    requires ValidDate(d) && Ordinal(d) + n <= Ordinal(LastDate)
    ensures ValidDate(AddDays(d, n)) && Ordinal(AddDays(d, n)) == Ordinal(d) + n
  {
    if n > 0 {
      AddDaysOrdinal(d, n - 1);
      var e := AddDays(d, n - 1);
      NextDayOrdinal(e);
    }
  }

  /** Between two datetimes with the same time of day, `.days` is the ordinal difference. */
  lemma DaysBetweenSameTime(start: DateTime, end: DateTime)
    requires start.hour == end.hour && start.minute == end.minute && start.second == end.second
    ensures DaysBetween(start, end) == Ordinal(end.date) - Ordinal(start.date)
  {
    var k := Ordinal(end.date) - Ordinal(start.date);
    assert Seconds(end) - Seconds(start) == k * 86400;
  }

  /** `.days` never exceeds the ordinal difference of the dates. */
  lemma DaysBetweenBound(start: DateTime, end: DateTime)
    requires ValidDateTime(start) && ValidDateTime(end)
    ensures DaysBetween(start, end) <= Ordinal(end.date) - Ordinal(start.date)
  {
    var k := Ordinal(end.date) - Ordinal(start.date);
    var diff := Seconds(end) - Seconds(start);
    assert diff < k * 86400 + 86400;
  }
}
