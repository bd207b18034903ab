/**
  Proleptic Gregorian calendar arithmetic, over all integers.

  The program takes its calendar from the `jiff` crate, which is not part of
  this model. `EpochDays` and `CivilOf` are defined here from the calendar
  rules, and proved to be inverse to each other, so they determine the day
  numbering that any correct calendar library computes.
*/
module Calendar {

  /** Days from 0000-01-01 to 1970-01-01. */
  const EPOCH_SHIFT := 719528

  datatype Date = Date(year: int, month: int, day: int)

  predicate IsLeap(y: int) {
    y % 4 == 0 && (y % 100 != 0 || y % 400 == 0)
  }

  function DaysInYear(y: int): int {
    if IsLeap(y) then 366 else 365
  }

  function DaysInMonth(y: int, m: int): int {
    if m == 2 then (if IsLeap(y) then 29 else 28)
    else if m == 4 || m == 6 || m == 9 || m == 11 then 30
    else 31
  }

  predicate IsDate(d: Date) {
    1 <= d.month <= 12 && 1 <= d.day <= DaysInMonth(d.year, d.month)
  }

  /** The days from 0000-01-01 to the first day of year `y`, negative before year 0. */
  function YearStart(y: int): int
    decreases if y < 0 then -y else y
  {
    if y == 0 then 0
    else if y > 0 then YearStart(y - 1) + DaysInYear(y - 1)
    else YearStart(y + 1) - DaysInYear(y)
  }

  /** The days from the first day of year `y` to the first day of its month `m`. */
  function MonthStart(y: int, m: int): int
    requires 1 <= m <= 13
    decreases m
  {
    if m == 1 then 0 else MonthStart(y, m - 1) + DaysInMonth(y, m - 1)
  }

  /** Days since 1970-01-01. */
  function EpochDays(d: Date): int
    requires 1 <= d.month <= 12
  {
    YearStart(d.year) + MonthStart(d.year, d.month) + d.day - 1 - EPOCH_SHIFT
  }

  /** The year that holds day `n` (counted from 0000-01-01), searched upwards from `y`. */
  function YearFrom(n: int, y: int): (year: int)
    requires YearStart(y) <= n
    ensures YearStart(year) <= n < YearStart(year + 1)
    decreases n - YearStart(y)
  {
    YearLength(y);
    if n < YearStart(y + 1) then y else YearFrom(n, y + 1)
  }

  function YearOf(n: int): (year: int)
    ensures YearStart(year) <= n < YearStart(year + 1)
  {
    EraStart(n);
    YearFrom(n, 400 * (n / 146097))
  }

  /** The month that holds day `r` of year `y`, searched upwards from `m`. */
  function MonthFrom(y: int, r: int, m: int): (month: int)
    requires 1 <= m <= 12 && MonthStart(y, m) <= r < MonthStart(y, 13)
    ensures m <= month <= 12 && MonthStart(y, month) <= r < MonthStart(y, month + 1)
    decreases 12 - m
  {
    if r < MonthStart(y, m + 1) then m else MonthFrom(y, r, m + 1)
  }

  /** The calendar date of a day number counted from 1970-01-01. */
  function CivilOf(days: int): (d: Date)
    ensures IsDate(d) && EpochDays(d) == days
  {
    var n := days + EPOCH_SHIFT;
    var y := YearOf(n);
    var r := n - YearStart(y);
    YearLength(y);
    MonthsFillYear(y);
    var m := MonthFrom(y, r, 1);
    Date(y, m, r - MonthStart(y, m) + 1)
  }

  // ----- Lemmas -----

  lemma YearLength(y: int)
    ensures YearStart(y + 1) - YearStart(y) == DaysInYear(y)
  {
  }

  /** The closed form of `YearStart`: 365 days a year and one for each leap year passed. */
  lemma {:induction false} YearStartClosed(y: int)
    ensures YearStart(y) == 365 * y + (y + 3) / 4 - (y + 99) / 100 + (y + 399) / 400
    decreases if y < 0 then -y else y
  {
    if y > 0 {
      YearStartClosed(y - 1);
      LeapStep(y - 1);
    } else if y < 0 {
      YearStartClosed(y + 1);
      LeapStep(y);
    }
  }

  function Ones(b: bool): int {
    if b then 1 else 0
  }

  lemma LeapFlags(y: int)
    ensures Ones(IsLeap(y)) == Ones(y % 4 == 0) - Ones(y % 100 == 0) + Ones(y % 400 == 0)
  {
    if y % 100 == 0 {
      assert y == 4 * (25 * (y / 100));
    }
    if y % 400 == 0 {
      assert y == 100 * (4 * (y / 400));
    }
  }

  lemma LeapStep(y: int)
    ensures (y + 4) / 4 - (y + 100) / 100 + (y + 400) / 400
         == (y + 3) / 4 - (y + 99) / 100 + (y + 399) / 400 + Ones(IsLeap(y))
  {
    LeapFlags(y);
    StepOfQuotient(y, 4);
    StepOfQuotient(y, 100);
    StepOfQuotient(y, 400);
  }

  lemma StepOfQuotient(y: int, k: int)
    requires k == 4 || k == 100 || k == 400
    ensures (y + k) / k - (y + k - 1) / k == Ones(y % k == 0)
  {
  }

  lemma EraStart(n: int)
    ensures YearStart(400 * (n / 146097)) <= n
  {
    var era := n / 146097;
    YearStartClosed(400 * era);
    assert (400 * era + 3) / 4 == 100 * era;
    assert (400 * era + 99) / 100 == 4 * era;
    assert (400 * era + 399) / 400 == era;
  }

  lemma MonthsFillYear(y: int)
    ensures MonthStart(y, 13) == DaysInYear(y)
  {
    assert MonthStart(y, 4) == MonthStart(y, 1) + 31 + DaysInMonth(y, 2) + 31;
    assert MonthStart(y, 7) == MonthStart(y, 4) + 30 + 31 + 30;
    assert MonthStart(y, 10) == MonthStart(y, 7) + 31 + 31 + 30;
    assert MonthStart(y, 13) == MonthStart(y, 10) + 31 + 30 + 31;
  }

  lemma {:induction false} YearStartIncreases(a: int, b: int)
    requires a <= b
    ensures YearStart(b) - YearStart(a) >= 365 * (b - a)
    decreases b - a
  {
    if a < b {
      YearLength(b - 1);
      YearStartIncreases(a, b - 1);
    }
  }

  lemma {:induction false} MonthStartIncreases(y: int, a: int, b: int)
    requires 1 <= a <= b <= 13
    ensures MonthStart(y, b) - MonthStart(y, a) >= 28 * (b - a)
    decreases b - a
  {
    if a < b {
      MonthStartIncreases(y, a, b - 1);
    }
  }

  lemma YearIsUnique(n: int, y: int, y': int)
    requires YearStart(y) <= n < YearStart(y + 1)
    requires YearStart(y') <= n < YearStart(y' + 1)
    ensures y == y'
  {
    if y < y' {
      YearStartIncreases(y + 1, y');
    } else if y' < y {
      YearStartIncreases(y' + 1, y);
    }
  }

  lemma MonthIsUnique(y: int, r: int, m: int, m': int)
    requires 1 <= m <= 12 && MonthStart(y, m) <= r < MonthStart(y, m + 1)
    requires 1 <= m' <= 12 && MonthStart(y, m') <= r < MonthStart(y, m' + 1)
    ensures m == m'
  {
    if m < m' {
      MonthStartIncreases(y, m + 1, m');
    } else if m' < m {
      MonthStartIncreases(y, m' + 1, m);
    }
  }

  lemma DayIsInsideYear(d: Date)
    requires IsDate(d)
    ensures MonthStart(d.year, d.month) <= MonthStart(d.year, d.month) + d.day - 1 < MonthStart(d.year, d.month + 1)
    ensures YearStart(d.year) <= EpochDays(d) + EPOCH_SHIFT < YearStart(d.year + 1)
  {
    YearLength(d.year);
    MonthsFillYear(d.year);
    MonthStartIncreases(d.year, d.month + 1, 13);
    MonthStartIncreases(d.year, 1, d.month);
  }

  lemma EqualDaysEqualYears(a: Date, b: Date)
    requires IsDate(a) && IsDate(b) && EpochDays(a) == EpochDays(b)
    ensures a.year == b.year
  {
    DayIsInsideYear(a);
    DayIsInsideYear(b);
    YearIsUnique(EpochDays(a) + EPOCH_SHIFT, a.year, b.year);
  }

  /** Two calendar dates with one day number are the same date. */
  lemma EpochDaysInjective(a: Date, b: Date)
    requires IsDate(a) && IsDate(b) && EpochDays(a) == EpochDays(b)
    ensures a == b
  {
    EqualDaysEqualYears(a, b);
    var r := MonthStart(a.year, a.month) + a.day - 1;
    assert r == MonthStart(a.year, b.month) + b.day - 1;
    MonthIsUnique(a.year, r, a.month, b.month);
  }

  /** A calendar date is the date of its own day number; `CivilOf` states the other direction. */
  lemma CivilOfEpochDays(d: Date)
    requires IsDate(d)
    ensures CivilOf(EpochDays(d)) == d
  {
    EpochDaysInjective(CivilOf(EpochDays(d)), d);
  }

  /** Day numbers grow with the year, so a bound on one bounds the other. */
  lemma YearBounds(d: Date, y: int)
    requires IsDate(d)
    ensures d.year < y <==> EpochDays(d) < YearStart(y) - EPOCH_SHIFT
  {
    DayIsInsideYear(d);
    YearLength(d.year);
    if d.year < y {
      YearStartIncreases(d.year + 1, y);
    } else {
      YearStartIncreases(y, d.year);
    }
  }

  // ----- The month lengths -----

  /** The days before a month that is counted from March, in a year that starts there. */
  lemma DaysBeforeMonth(y: int, m: int)
    requires 1 <= m <= 12
    ensures MonthStart(y, m)
         == if m <= 2 then 31 * (m - 1) else 59 + Ones(IsLeap(y)) + (153 * (m - 3) + 2) / 5
  {
    assert MonthStart(y, 1) == 0 && MonthStart(y, 2) == 31 && MonthStart(y, 3) == 59 + Ones(IsLeap(y));
    if m > 3 {
      DaysBeforeMonth(y, m - 1);
      assert MonthStart(y, m) == MonthStart(y, m - 1) + DaysInMonth(y, m - 1);
    }
  }

  lemma YearStartFloors(y: int)
    ensures YearStart(y) == 365 * y + (y - 1) / 4 - (y - 1) / 100 + (y - 1) / 400 + 1
    ensures YearStart(y) + Ones(IsLeap(y)) == 365 * y + y / 4 - y / 100 + y / 400 + 1
  {
    YearStartClosed(y);
    LeapStep(y);
    ShiftedQuotient(y, 4);
    ShiftedQuotient(y, 100);
    ShiftedQuotient(y, 400);
  }

  lemma ShiftedQuotient(y: int, k: int)
    requires k == 4 || k == 100 || k == 400
    ensures (y + k - 1) / k == (y - 1) / k + 1 && (y + k) / k == y / k + 1
  {
  }

  lemma MonthFromMarch(month: int)
    requires 1 <= month <= 12
    ensures var m := (month + 9) % 12;
            (153 * m + 2) / 5 == if month <= 2 then 275 + 31 * month else (153 * (month - 3) + 2) / 5
  {
    assert (month + 9) % 12 == if month <= 2 then month + 9 else month - 3;
  }

  /**
    The day number of every date in closed form, for years that start in March: it determines
    the length of every month and of every year.
  */
  lemma EpochDaysClosed(d: Date)
    requires 1 <= d.month <= 12
    ensures var y := if d.month <= 2 then d.year - 1 else d.year;
            var m := (d.month + 9) % 12;
            EpochDays(d) == 365 * y + y / 4 - y / 100 + y / 400 + (153 * m + 2) / 5 + d.day - 1 - 719468
  {
    MonthFromMarch(d.month);
    DaysBeforeMonth(d.year, d.month);
    YearStartFloors(d.year);
  }
}
