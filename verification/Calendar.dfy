/**
 * The calendar converter of the clock: seconds since 1970-01-01T00:00:00
 * to broken-down civil time and back, under the proleptic Gregorian leap rule.
 *
 * The functions (`CivilOf`, `InstantOf`) are the reference definitions; the methods
 * (`BreakTime`, `MakeTime`) are the loops of time.c, proved equal to them.
 * Years are kept as offsets from 1970, as the source does.
 */
module Calendar {

  const SECS_PER_MIN: nat := 60
  const SECS_PER_HOUR: nat := 3600
  const SECS_PER_DAY: nat := 86400

  /** Broken-down time. `year` is an offset from 1970, `wday` counts from Sunday = 1. */
  datatype Elements = Elements(second: nat, minute: nat, hour: nat, wday: nat, day: nat, month: nat, year: nat)

  /** Gregorian leap rule for the year `1970 + y`. */
  predicate IsLeap(y: nat)
  {
    var a := 1970 + y;
    a > 0 && a % 4 == 0 && (a % 100 != 0 || a % 400 == 0)
  }

  function YearLength(y: nat): nat
  {
    if IsLeap(y) then 366 else 365
  }

  /** Length of month `m` (1 = January) of year `1970 + y`. */
  function MonthLength(y: nat, m: nat): (len: nat)
    requires 1 <= m <= 12
    ensures 28 <= len <= 31
  {
    if m == 2 then (if IsLeap(y) then 29 else 28)
    else [31, 28, 31, 30, 31, 30, 31, 31, 30, 31, 30, 31][m - 1]
  }

  /** Days from 1970-01-01 to January 1 of year `1970 + y`. */
  function DaysBeforeYear(y: nat): nat
  {
    if y == 0 then 0 else DaysBeforeYear(y - 1) + YearLength(y - 1)
  }

  /** Days from January 1 to the first day of month `m` (13 means the next January 1). */
  function DaysBeforeMonth(y: nat, m: nat): nat
    requires 1 <= m <= 13
  {
    if m == 1 then 0 else DaysBeforeMonth(y, m - 1) + MonthLength(y, m - 1)
  }

  /** Day of the week of day number `days` since the epoch (Sunday = 1; the epoch was a Thursday). */
  function Weekday(days: nat): (w: nat)
    ensures 1 <= w <= 7
    ensures days % 7 == 0 ==> w == 5
  {
    (days + 4) % 7 + 1
  }

  /** Field ranges of a civil time: what `BreakTime` produces and `MakeTime` inverts. */
  predicate InRange(el: Elements)
  {
    && el.second < 60 && el.minute < 60 && el.hour < 24
    && 1 <= el.month <= 12
    && 1 <= el.day <= MonthLength(el.year, el.month)
  }

  /**
   * Walks whole years starting at year `y`, `rem` days in: the year that holds
   * the day and the day's index in it.
   */
  function YearScan(rem: nat, y: nat): (r: (nat, nat))
    ensures r.0 >= y && r.1 < YearLength(r.0)
    ensures DaysBeforeYear(r.0) + r.1 == DaysBeforeYear(y) + rem
    decreases rem
  {
    if rem < YearLength(y) then (y, rem) else YearScan(rem - YearLength(y), y + 1)
  }

  /**
   * Walks the months of year `y` from month `m`, `rem` days in: the month that
   * holds the day and the day's index in it.
   */
  function MonthScan(y: nat, rem: nat, m: nat): (r: (nat, nat))
    requires 1 <= m <= 12
    requires DaysBeforeMonth(y, m) + rem < DaysBeforeMonth(y, 13)
    ensures m <= r.0 <= 12 && r.1 < MonthLength(y, r.0)
    ensures DaysBeforeMonth(y, r.0) + r.1 == DaysBeforeMonth(y, m) + rem
    decreases 12 - m
  {
    if rem < MonthLength(y, m) then (m, rem)
    else
      assert DaysBeforeMonth(y, m + 1) == DaysBeforeMonth(y, m) + MonthLength(y, m);
      MonthScan(y, rem - MonthLength(y, m), m + 1)
  }

  lemma YearLengthIsMonthSum(y: nat)
    ensures DaysBeforeMonth(y, 13) == YearLength(y)
  {
    var feb := MonthLength(y, 2);
    assert DaysBeforeMonth(y, 2) == 31;
    assert DaysBeforeMonth(y, 3) == 31 + feb;
    assert DaysBeforeMonth(y, 4) == 62 + feb;
    assert DaysBeforeMonth(y, 5) == 92 + feb;
    assert DaysBeforeMonth(y, 6) == 123 + feb;
    assert DaysBeforeMonth(y, 7) == 153 + feb;
    assert DaysBeforeMonth(y, 8) == 184 + feb;
    assert DaysBeforeMonth(y, 9) == 215 + feb;
    assert DaysBeforeMonth(y, 10) == 245 + feb;
    assert DaysBeforeMonth(y, 11) == 276 + feb;
    assert DaysBeforeMonth(y, 12) == 306 + feb;
  }

  /** timeBreak, as a function: the civil time of the instant `t`. */
  function CivilOf(t: nat): Elements
  {
    var minutes := t / SECS_PER_MIN;
    var hours := minutes / 60;
    var days := hours / 24;
    var (y, dayOfYear) := YearScan(days, 0);
    YearLengthIsMonthSum(y);
    var (m, dayOfMonth) := MonthScan(y, dayOfYear, 1);
    Elements(t % 60, minutes % 60, hours % 24, Weekday(days), dayOfMonth + 1, m, y)
  }

  /** Day number since the epoch of the date in `el`. */
  function EpochDay(el: Elements): nat
    requires 1 <= el.month <= 12 && 1 <= el.day
  {
    DaysBeforeYear(el.year) + DaysBeforeMonth(el.year, el.month) + el.day - 1
  }

  /** timeMake, as a function: the instant of the civil time `el` (its weekday is ignored). */
  function InstantOf(el: Elements): nat
    requires 1 <= el.month <= 12 && 1 <= el.day
  {
    EpochDay(el) * SECS_PER_DAY + el.hour * SECS_PER_HOUR + el.minute * SECS_PER_MIN + el.second
  }

  // ---------------------------------------------------------------------------
  // Properties of the reference definitions

  lemma {:induction false} DaysBeforeYearGrows(a: nat, b: nat)
    requires a < b
    ensures DaysBeforeYear(a) + YearLength(a) <= DaysBeforeYear(b)
    decreases b
  {
    if a + 1 < b {
      DaysBeforeYearGrows(a, b - 1);
    }
  }

  /** Leap years among the calendar years 1 to `n`. */
  function LeapsThrough(n: nat): nat
  {
    n / 4 - n / 100 + n / 400
  }

  /** Dividing by 4, 100 or 400: the quotient grows by one exactly at multiples. */
  lemma DivStep(n: nat, d: nat)
    requires n > 0 && (d == 4 || d == 100 || d == 400)
    ensures n / d == (n - 1) / d + (if n % d == 0 then 1 else 0)
  {
    if d == 4 {
    } else if d == 100 {
    } else {
    }
  }

  /** A multiple of 400 is a multiple of 100, and a multiple of 100 is a multiple of 4. */
  lemma CenturyDivides(n: nat)
    ensures n % 400 == 0 ==> n % 100 == 0
    ensures n % 100 == 0 ==> n % 4 == 0
  {
    if n % 400 == 0 {
      assert n == 100 * (4 * (n / 400));
    }
    if n % 100 == 0 {
      assert n == 4 * (25 * (n / 100));
    }
  }

  /** Year `n` adds one to the count of leap years exactly when it is a leap year. */
  lemma LeapsStep(n: nat)
    requires n > 0
    ensures LeapsThrough(n) == LeapsThrough(n - 1) + (if n % 4 == 0 && (n % 100 != 0 || n % 400 == 0) then 1 else 0)
  {
    DivStep(n, 4);
    DivStep(n, 100);
    DivStep(n, 400);
    CenturyDivides(n);
  }

  /** Days before a year, in closed form: 365 per year plus one per leap year since 1970. */
  lemma {:induction false} DaysBeforeYearClosedForm(y: nat)
    ensures DaysBeforeYear(y) == 365 * y + LeapsThrough(1969 + y) - LeapsThrough(1969)
  {
    if y > 0 {
      DaysBeforeYearClosedForm(y - 1);
      LeapsStep(1969 + y);
    }
  }

  /** A day number has exactly one (year, day-of-year) decomposition. */
  lemma YearOfDayIsUnique(y1: nat, d1: nat, y2: nat, d2: nat)
    requires d1 < YearLength(y1) && d2 < YearLength(y2)
    requires DaysBeforeYear(y1) + d1 == DaysBeforeYear(y2) + d2
    ensures y1 == y2 && d1 == d2
  {
    if y1 < y2 {
      DaysBeforeYearGrows(y1, y2);
    } else if y2 < y1 {
      DaysBeforeYearGrows(y2, y1);
    }
  }

  lemma {:induction false} DaysBeforeMonthGrows(y: nat, a: nat, b: nat)
    requires 1 <= a < b <= 13
    ensures DaysBeforeMonth(y, a) + MonthLength(y, a) <= DaysBeforeMonth(y, b)
    decreases b
  {
    if a + 1 < b {
      DaysBeforeMonthGrows(y, a, b - 1);
    }
  }

  /** A day of the year has exactly one (month, day-of-month) decomposition. */
  lemma MonthOfDayIsUnique(y: nat, m1: nat, d1: nat, m2: nat, d2: nat)
    requires 1 <= m1 <= 12 && 1 <= m2 <= 12
    requires d1 < MonthLength(y, m1) && d2 < MonthLength(y, m2)
    requires DaysBeforeMonth(y, m1) + d1 == DaysBeforeMonth(y, m2) + d2
    ensures m1 == m2 && d1 == d2
  {
    if m1 < m2 {
      DaysBeforeMonthGrows(y, m1, m2);
    } else if m2 < m1 {
      DaysBeforeMonthGrows(y, m2, m1);
    }
  }

  /** Every field of a broken-down instant lies in its documented range. */
  lemma CivilOfInRange(t: nat)
    ensures InRange(CivilOf(t))
    ensures 1 <= CivilOf(t).wday <= 7
    ensures CivilOf(t).month == 2 && CivilOf(t).day == 29 ==> IsLeap(CivilOf(t).year)
  {
  }

  /** The epoch, 1970-01-01T00:00:00, is a Thursday (weekday 5). */
  lemma EpochIsThursday()
    ensures CivilOf(0) == Elements(0, 0, 0, 5, 1, 1, 0)
  {
  }

  /** Breaking an instant down and assembling it again gives the instant back. */
  lemma MakeAfterBreak(t: nat)
    ensures InstantOf(CivilOf(t)) == t
  {
    var minutes := t / SECS_PER_MIN;
    var hours := minutes / 60;
    var days := hours / 24;
    var (y, dayOfYear) := YearScan(days, 0);
    YearLengthIsMonthSum(y);
    var (m, dayOfMonth) := MonthScan(y, dayOfYear, 1);
    assert DaysBeforeYear(y) + DaysBeforeMonth(y, m) + dayOfMonth == days;
  }

  /** An instant between the starts of year `y` and of the year after lies in year `y`. */
  lemma CivilYearBounds(t: nat, y: nat)
    requires DaysBeforeYear(y) * SECS_PER_DAY <= t < (DaysBeforeYear(y) + YearLength(y)) * SECS_PER_DAY
    ensures CivilOf(t).year == y
  {
    var minutes := t / SECS_PER_MIN;
    var hours := minutes / 60;
    var days := hours / 24;
    assert t == days * SECS_PER_DAY + (hours % 24) * SECS_PER_HOUR + (minutes % 60) * SECS_PER_MIN + t % 60;
    assert DaysBeforeYear(y) <= days < DaysBeforeYear(y) + YearLength(y);
    var (yy, dayOfYear) := YearScan(days, 0);
    YearOfDayIsUnique(yy, dayOfYear, y, days - DaysBeforeYear(y));
  }

  /**
   * Assembling in-range fields and breaking the result down gives the fields
   * back, with the weekday recomputed from the date.
   */
  lemma BreakAfterMake(el: Elements)
    requires InRange(el)
    ensures CivilOf(InstantOf(el)) == el.(wday := Weekday(EpochDay(el)))
  {
    var t := InstantOf(el);
    var days := EpochDay(el);
    var minutes := t / SECS_PER_MIN;
    var hours := minutes / 60;
    assert t == ((days * 24 + el.hour) * 60 + el.minute) * 60 + el.second;
    assert minutes == (days * 24 + el.hour) * 60 + el.minute && t % 60 == el.second;
    assert hours == days * 24 + el.hour && minutes % 60 == el.minute;
    assert hours / 24 == days && hours % 24 == el.hour;
    YearLengthIsMonthSum(el.year);
    DaysBeforeMonthGrows(el.year, el.month, 13);
    var (y, dayOfYear) := YearScan(days, 0);
    YearOfDayIsUnique(y, dayOfYear, el.year, DaysBeforeMonth(el.year, el.month) + el.day - 1);
    var (m, dayOfMonth) := MonthScan(y, dayOfYear, 1);
    MonthOfDayIsUnique(y, m, dayOfMonth, el.month, el.day - 1);
  }

  // ---------------------------------------------------------------------------
  // The source's loops

  /** CivilOf, given the results of the two scans. */
  lemma CivilOfScans(time: nat, y: nat, d: nat, m: nat, dm: nat)
    requires YearScan(time / 60 / 60 / 24, 0) == (y, d)
    requires 1 <= m <= 12 && DaysBeforeMonth(y, 1) + d < DaysBeforeMonth(y, 13)
    requires MonthScan(y, d, 1) == (m, dm)
    ensures CivilOf(time) == Elements(time % 60, time / 60 % 60, time / 60 / 60 % 24, (time / 60 / 60 / 24 + 4) % 7 + 1, dm + 1, m, y)
  {
  }

  /**
   * The year loop of timeBreak: `days` accumulates the lengths of the years
   * from 1970 until it passes the day number `t`.
   */
  method YearOfDay(t: nat) returns (year: nat, dayOfYear: nat)
    ensures YearScan(t, 0) == (year, dayOfYear)
  {
    year := 0;
    var days: nat := YearLength(year);
    while days <= t
      invariant days == DaysBeforeYear(year + 1)
      invariant DaysBeforeYear(year) <= t
      decreases t - days
    {
      year := year + 1;
      days := days + YearLength(year);
    }
    days := days - YearLength(year);
    dayOfYear := t - days;
    var r := YearScan(t, 0);
    YearOfDayIsUnique(r.0, r.1, year, dayOfYear);
  }

  /**
   * The month loop of timeBreak: month lengths (February by the leap rule) are
   * taken off the day of the year until the remainder fits in the month.
   * `month` counts from 0, as in the source.
   */
  method MonthOfDay(year: nat, dayOfYear: nat) returns (month: nat, day: nat)
    requires dayOfYear < DaysBeforeMonth(year, 13)
    ensures month < 12
    ensures MonthScan(year, dayOfYear, 1) == (month + 1, day)
  {
    day := dayOfYear;
    month := 0;
    while month < 12
      invariant month <= 12
      invariant DaysBeforeMonth(year, month + 1) + day < DaysBeforeMonth(year, 13)
      invariant MonthScan(year, day, month + 1) == MonthScan(year, dayOfYear, 1)
      decreases 12 - month
    {
      var monthLength := MonthLength(year, month + 1);
      if day >= monthLength {
        day := day - monthLength;
      } else {
        break;
      }
      month := month + 1;
    }
  }

  /** timeBreak: the time of day by division, then whole years, then months. */
  method BreakTime(time: nat) returns (el: Elements)
    ensures el == CivilOf(time)
  {
    var second := time % 60;
    var t: nat := time / 60;  // now minutes
    var minute := t % 60;
    t := t / 60;  // now hours
    var hour := t % 24;
    t := t / 24;  // now days
    var wday := (t + 4) % 7 + 1;

    var year, dayOfYear := YearOfDay(t);
    YearLengthIsMonthSum(year);
    var month, day := MonthOfDay(year, dayOfYear);
    CivilOfScans(time, year, dayOfYear, month + 1, day);
    el := Elements(second, minute, hour, wday, day + 1, month + 1, year);
  }

  /** timeMake: whole years (with a leap day for each leap year), then months, days, hours. */
  method MakeTime(el: Elements) returns (seconds: nat)
    requires 1 <= el.month <= 12 && 1 <= el.day
    ensures seconds == InstantOf(el)
  {
    // whole years before el.year: 365 days each, plus a day per leap year
    seconds := el.year * (SECS_PER_DAY * 365);
    var i: nat := 0;
    while i < el.year
      invariant i <= el.year
      invariant seconds + i * 365 * SECS_PER_DAY == (el.year * 365 + DaysBeforeYear(i)) * SECS_PER_DAY
    {
      if IsLeap(i) {
        seconds := seconds + SECS_PER_DAY;
      }
      i := i + 1;
    }
    // whole months of el.year before el.month
    i := 1;
    while i < el.month
      invariant 1 <= i <= el.month
      invariant seconds == (DaysBeforeYear(el.year) + DaysBeforeMonth(el.year, i)) * SECS_PER_DAY
    {
      seconds := seconds + SECS_PER_DAY * MonthLength(el.year, i);
      i := i + 1;
    }
    seconds := seconds + (el.day - 1) * SECS_PER_DAY;
    seconds := seconds + el.hour * SECS_PER_HOUR;
    seconds := seconds + el.minute * SECS_PER_MIN;
    seconds := seconds + el.second;
  }
}
