/** Naive (time-zone-less) dates and times as Python's `datetime` module
    defines them: proleptic Gregorian ordinals, lexicographic comparison,
    subtraction in whole seconds, and `calculate_time_difference`'s
    conversion of an elapsed time to minutes truncated toward zero. */
module Calendar {
  import opened Wrappers

  datatype Date = Date(year: int, month: int, day: int)

  /** A `datetime` without microseconds (the form never sets them). */
  datatype DateTime = DateTime(date: Date, hour: int, minute: int, second: int)

  /** A `time(hour, minute)`; its seconds are zero. */
  datatype TimeOfDay = TimeOfDay(hour: int, minute: int)

  const SecondsPerDay := 86400

  predicate IsLeap(y: int) { y % 4 == 0 && (y % 100 != 0 || y % 400 == 0) }

  function DaysInMonth(y: int, m: int): (n: int)
    requires 1 <= m <= 12
    ensures 28 <= n <= 31
    ensures m == 2 <==> n < 30
  {
    if m == 2 then (if IsLeap(y) then 29 else 28)
    else if m == 4 || m == 6 || m == 9 || m == 11 then 30
    else 31
  }

  /** Python's `date` accepts years 1 to 9999 (MINYEAR, MAXYEAR). */
  predicate ValidDate(d: Date)
  {
    1 <= d.year <= 9999 && 1 <= d.month <= 12 && 1 <= d.day <= DaysInMonth(d.year, d.month)
  }

  predicate ValidTime(t: TimeOfDay) { 0 <= t.hour < 24 && 0 <= t.minute < 60 }

  predicate ValidDateTime(dt: DateTime)
  {
    ValidDate(dt.date) && 0 <= dt.hour < 24 && 0 <= dt.minute < 60 && 0 <= dt.second < 60
  }

  /** Days in the years before `y` (Python's `_days_before_year`). */
  function DaysBeforeYear(y: int): int
    requires y >= 1
  {
    var n := y - 1;
    n * 365 + n / 4 - n / 100 + n / 400
  }

  /** Days in the months of year `y` before month `m` (`_days_before_month`). */
  function DaysBeforeMonth(y: int, m: int): (n: int)
    requires 1 <= m <= 12
    ensures 0 <= n <= 335
  {
    var common :=
      if m == 1 then 0 else if m == 2 then 31 else if m == 3 then 59
      else if m == 4 then 90 else if m == 5 then 120 else if m == 6 then 151
      else if m == 7 then 181 else if m == 8 then 212 else if m == 9 then 243
      else if m == 10 then 273 else if m == 11 then 304 else 334;
    common + (if m > 2 && IsLeap(y) then 1 else 0)
  }

  /** Python's `date.toordinal()`: 0001-01-01 is day 1. */
  function Ordinal(d: Date): int
    requires ValidDate(d)
  {
    DaysBeforeYear(d.year) + DaysBeforeMonth(d.year, d.month) + d.day
  }

  /** Seconds since the start of day 0: the quantity whose differences are
      Python's `timedelta` between two naive datetimes. */
  function Seconds(dt: DateTime): (r: int)
    requires ValidDateTime(dt)
    ensures Ordinal(dt.date) * SecondsPerDay <= r < (Ordinal(dt.date) + 1) * SecondsPerDay
  {
    Ordinal(dt.date) * SecondsPerDay + dt.hour * 3600 + dt.minute * 60 + dt.second
  }

  /** Python's `a.date() < b.date()`: lexicographic on (year, month, day). */
  predicate DateBefore(a: Date, b: Date)
  {
    || a.year < b.year
    || (a.year == b.year && a.month < b.month)
    || (a.year == b.year && a.month == b.month && a.day < b.day)
  }

  /** Python's `a < b` on naive datetimes: lexicographic on all six fields. */
  predicate Before(a: DateTime, b: DateTime)
  {
    || DateBefore(a.date, b.date)
    || (a.date == b.date && a.hour < b.hour)
    || (a.date == b.date && a.hour == b.hour && a.minute < b.minute)
    || (a.date == b.date && a.hour == b.hour && a.minute == b.minute && a.second < b.second)
  }

  /** `datetime.combine(date_part, time_part)` (app.py `combine_date_time`). */
  function Combine(d: Date, t: TimeOfDay): (dt: DateTime)
    requires ValidDate(d) && ValidTime(t)
    ensures ValidDateTime(dt) && dt.date == d
    ensures Seconds(dt) == Ordinal(d) * SecondsPerDay + (t.hour * 60 + t.minute) * 60
  {
    DateTime(d, t.hour, t.minute, 0)
  }

  // ---------------------------------------------------------------------
  // The calendar: the ordinal is strictly increasing in date order.
  // ---------------------------------------------------------------------

  lemma DaysBeforeYearStep(y: int)
    requires y >= 1
    ensures DaysBeforeYear(y + 1) == DaysBeforeYear(y) + 365 + (if IsLeap(y) then 1 else 0)
  {
    var n := y - 1;
    assert (n + 1) / 4 == n / 4 + (if y % 4 == 0 then 1 else 0);
    assert (n + 1) / 100 == n / 100 + (if y % 100 == 0 then 1 else 0);
    assert (n + 1) / 400 == n / 400 + (if y % 400 == 0 then 1 else 0);
    assert y % 100 == 0 ==> y % 4 == 0;
    assert y % 400 == 0 ==> y % 100 == 0;
  }

  lemma {:induction false} DaysBeforeYearMonotone(y1: int, y2: int)
    requires 1 <= y1 < y2
    ensures DaysBeforeYear(y1) + 365 + (if IsLeap(y1) then 1 else 0) <= DaysBeforeYear(y2)
    decreases y2 - y1
  {
    DaysBeforeYearStep(y1);
    if y1 + 1 < y2 {
      DaysBeforeYearMonotone(y1 + 1, y2);
    }
  }

  /** A valid date's ordinal lies inside its own year. */
  lemma OrdinalWithinYear(d: Date)
    requires ValidDate(d)
    ensures DaysBeforeYear(d.year) < Ordinal(d) <= DaysBeforeYear(d.year) + 365 + (if IsLeap(d.year) then 1 else 0)
  {
  }

  /** Date order is ordinal order. */
  lemma OrdinalMonotone(a: Date, b: Date)
    requires ValidDate(a) && ValidDate(b) && DateBefore(a, b)
    ensures Ordinal(a) < Ordinal(b)
  {
    if a.year < b.year {
      OrdinalWithinYear(a);
      OrdinalWithinYear(b);
      DaysBeforeYearMonotone(a.year, b.year);
    } else if a.month < b.month {
      assert DaysBeforeMonth(a.year, a.month) + DaysInMonth(a.year, a.month) <= DaysBeforeMonth(b.year, b.month);
    }
  }

  /** Python's datetime comparison agrees with the order of the elapsed
      seconds, so durations between datetimes that passed a `<` check are
      non-negative. */
  lemma BeforeIffEarlier(a: DateTime, b: DateTime)
    requires ValidDateTime(a) && ValidDateTime(b)
    ensures Before(a, b) <==> Seconds(a) < Seconds(b)
    ensures a == b <==> Seconds(a) == Seconds(b)
  {
    if DateBefore(a.date, b.date) {
      OrdinalMonotone(a.date, b.date);
    } else if DateBefore(b.date, a.date) {
      OrdinalMonotone(b.date, a.date);
    } else {
      assert a.date == b.date;
    }
  }

  // ---------------------------------------------------------------------
  // calculate_time_difference
  // ---------------------------------------------------------------------

  /** `int(seconds / 60)`: whole minutes, truncated toward zero (not
      Dafny's Euclidean division). */
  function TruncMinutes(secs: int): (m: int)
    ensures secs >= 0 ==> 0 <= m * 60 <= secs < m * 60 + 60
    ensures secs < 0 ==> m * 60 - 60 < secs <= m * 60 <= 0
  {
    if secs >= 0 then secs / 60 else -((-secs) / 60)
  }

  /** app.py `calculate_time_difference(start, end)`: `None` when either
      end is missing, otherwise the minutes from `start` to `end`. */
  function TimeDifference(start: Option<DateTime>, end: Option<DateTime>): (r: Option<int>)
    requires start.Some? ==> ValidDateTime(start.value)
    requires end.Some? ==> ValidDateTime(end.value)
    ensures r.None? <==> start.None? || end.None?
  {
    if start.Some? && end.Some? then Some(TruncMinutes(Seconds(end.value) - Seconds(start.value)))
    else None
  }

  /** Whole-minute truncation is odd: reversing the interval negates the result. */
  lemma TruncMinutesOdd(secs: int)
    ensures TruncMinutes(-secs) == -TruncMinutes(secs)
  {
  }

  /** Adding a whole number of minutes to a non-negative interval adds
      exactly that many minutes after truncation. */
  lemma TruncMinutesAddWhole(secs: int, k: int)
    requires secs >= 0 && k >= 0
    ensures TruncMinutes(secs + k * 60) == TruncMinutes(secs) + k
  {
  }

  /** A whole number of minutes converts exactly. */
  lemma TruncMinutesWhole(k: int)
    ensures TruncMinutes(k * 60) == k
  {
  }

  lemma TimeDifferenceSelf(a: DateTime)
    requires ValidDateTime(a)
    ensures TimeDifference(Some(a), Some(a)) == Some(0)
  {
  }

  lemma TimeDifferenceAntisymmetric(a: DateTime, b: DateTime)
    requires ValidDateTime(a) && ValidDateTime(b)
    ensures TimeDifference(Some(a), Some(b)).value == -TimeDifference(Some(b), Some(a)).value
  {
    TruncMinutesOdd(Seconds(b) - Seconds(a));
  }

  /** The sign of the difference follows Python's datetime order once the
      two instants are at least a minute apart; a gap under a minute
      truncates to 0 (and so does equality). */
  lemma TimeDifferenceSign(a: DateTime, b: DateTime)
    requires ValidDateTime(a) && ValidDateTime(b)
    ensures TimeDifference(Some(a), Some(b)).value > 0 ==> Before(a, b)
    ensures TimeDifference(Some(a), Some(b)).value < 0 ==> Before(b, a)
    ensures Seconds(b) - Seconds(a) >= 60 ==> TimeDifference(Some(a), Some(b)).value > 0
    ensures Seconds(a) - Seconds(b) >= 60 ==> TimeDifference(Some(a), Some(b)).value < 0
  {
    BeforeIffEarlier(a, b);
    BeforeIffEarlier(b, a);
  }
}
