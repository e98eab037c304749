/** UTC calendar fields to Unix time, as the GNSS clock policy computes it. */
module CivilClock {
  import opened Wrappers

  const UTC_YEAR_MIN := 2023
  const UTC_YEAR_MAX := 2099
  const TRUSTED_EPOCH_MIN_MS := 1700000000000

  datatype Date = Date(year: int, month: int, day: int)
  datatype Utc = Utc(date: Date, hour: int, minute: int, second: int, centisecond: int)

  predicate IsLeapYear(year: int)
  {
    year % 4 == 0 && (year % 100 != 0 || year % 400 == 0)
  }

  function DaysInMonth(year: int, month: int): int
  {
    if month < 1 || month > 12 then 0
    else if month == 2 && IsLeapYear(year) then 29
    else [31, 28, 31, 30, 31, 30, 31, 31, 30, 31, 30, 31][month - 1]
  }

  /** A date of the proleptic Gregorian calendar, any year. */
  predicate IsDate(d: Date)
  {
    1 <= d.month <= 12 && 1 <= d.day <= DaysInMonth(d.year, d.month)
  }

  predicate IsValidUtc(u: Utc)
  {
    && UTC_YEAR_MIN <= u.date.year <= UTC_YEAR_MAX && IsDate(u.date)
    && 0 <= u.hour <= 23 && 0 <= u.minute <= 59 && 0 <= u.second <= 59 && 0 <= u.centisecond <= 99
  }

  /** Division rounding toward zero, as the compiler divides signed integers. */
  function TruncatingDiv(a: int, b: int): int
    requires b > 0
  {
    if a >= 0 then a / b else -((-a) / b)
  }

  /** Days from 1970-01-01, by 400-year eras of years starting in March. */
  function DaysSinceUnixEpoch(d: Date): int
  {
    var year := if d.month <= 2 then d.year - 1 else d.year;
    var era := TruncatingDiv(if year >= 0 then year else year - 399, 400);
    var yearOfEra := year - era * 400;
    var shiftedMonth := d.month + (if d.month > 2 then -3 else 9);
    var dayOfYear := (153 * shiftedMonth + 2) / 5 + (d.day - 1);
    var dayOfEra := yearOfEra * 365 + yearOfEra / 4 - yearOfEra / 100 + dayOfYear;
    era * 146097 + dayOfEra - 719468
  }

  /** Milliseconds of Unix time for the fields, and whether the clock trusts
      them; invalid fields leave the output unwritten. */
  function UtcToEpochMilliseconds(u: Utc): (bool, Option<int>)
  {
    if !IsValidUtc(u) then (false, None)
    else
      var seconds := DaysSinceUnixEpoch(u.date) * 86400 + u.hour * 3600 + u.minute * 60 + u.second;
      var epochMs := seconds * 1000 + u.centisecond * 10;
      (epochMs >= TRUSTED_EPOCH_MIN_MS, Some(epochMs))
  }

  // ------------------------------------------------- the calendar, by counting

  /** The day after. */
  function NextDate(d: Date): Date
  {
    if d.day < DaysInMonth(d.year, d.month) then d.(day := d.day + 1)
    else if d.month < 12 then Date(d.year, d.month + 1, 1)
    else Date(d.year + 1, 1, 1)
  }

  function DateAfter(d: Date, n: nat): Date
  {
    if n == 0 then d else NextDate(DateAfter(d, n - 1))
  }

  // -------------------------------------------------------------------- proofs

  /** Days before the March-based year `year`, by the Gregorian leap rule. */
  function YearStart(year: int): int
  {
    365 * year + year / 4 - year / 100 + year / 400 - 719468
  }

  function MonthStart(shiftedMonth: int): int
  {
    (153 * shiftedMonth + 2) / 5
  }

  lemma EraIsFloor(year: int)
    ensures TruncatingDiv(if year >= 0 then year else year - 399, 400) == year / 400
  {
  }

  lemma EraArithmetic(year: int)
    ensures var era, yearOfEra := year / 400, year % 400;
      era * 146097 + yearOfEra * 365 + yearOfEra / 4 - yearOfEra / 100 - 719468 == YearStart(year)
  {
    var era, r := year / 400, year % 400;
    assert year == 400 * era + r;
    assert year / 4 == 100 * era + r / 4;
    assert year / 100 == 4 * era + r / 100;
  }

  /** The March-based year a date falls in. */
  function MarchYear(d: Date): int
  {
    if d.month <= 2 then d.year - 1 else d.year
  }

  /** The closed form without eras: year start, month start and day. */
  function DayNumber(d: Date): int
  {
    YearStart(MarchYear(d)) + MonthStart(if d.month > 2 then d.month - 3 else d.month + 9) + d.day - 1
  }

  lemma DaysDecompose(d: Date)
    requires 1 <= d.month <= 12
    ensures DaysSinceUnixEpoch(d) == DayNumber(d)
  {
    var year := if d.month <= 2 then d.year - 1 else d.year;
    EraIsFloor(year);
    EraArithmetic(year);
    assert year - (year / 400) * 400 == year % 400;
  }

  /** A March-based year is a leap year exactly when the February that ends it is. */
  lemma YearLength(year: int)
    ensures YearStart(year + 1) - YearStart(year) == if IsLeapYear(year + 1) then 366 else 365
  {
    Carry(year, 4);
    Carry(year, 100);
    Carry(year, 400);
  }

  lemma Carry(year: int, n: int)
    requires n == 4 || n == 100 || n == 400
    ensures (year + 1) / n - year / n == if (year + 1) % n == 0 then 1 else 0
  {
  }

  lemma EpochIsDayZero()
    ensures DaysSinceUnixEpoch(Date(1970, 1, 1)) == 0
  {
  }

  /** Months in March-based order: all but February end where the next begins. */
  lemma MonthEnds(year: int, month: int)
    requires 1 <= month <= 12
    ensures var shifted := if month > 2 then month - 3 else month + 9;
      && 0 <= shifted <= 11 && (month == 2 <==> shifted == 11)
      && (month != 2 ==> MonthStart(shifted) + DaysInMonth(year, month) == MonthStart(shifted + 1))
      && (month == 2 ==> MonthStart(shifted) + DaysInMonth(year, month) == if IsLeapYear(year) then 366 else 365)
  {
  }

  /** The next date is always one day later: every year, month end and leap rule. */
  lemma NextDateIsOneDayLater(d: Date)
    requires IsDate(d)
    ensures IsDate(NextDate(d)) && DaysSinceUnixEpoch(NextDate(d)) == DaysSinceUnixEpoch(d) + 1
  {
    NextDateIsDate(d);
    DaysDecompose(d);
    DaysDecompose(NextDate(d));
    NextDayNumber(d);
  }

  lemma NextDateIsDate(d: Date)
    requires IsDate(d)
    ensures IsDate(NextDate(d))
  {
  }

  lemma NextDayNumber(d: Date)
    requires IsDate(d)
    ensures DayNumber(NextDate(d)) == DayNumber(d) + 1
  {
    if d.day < DaysInMonth(d.year, d.month) {
    } else if d.month == 2 {
      NextAfterFebruary(d);
    } else {
      NextAfterMonth(d);
    }
  }

  /** Every month but February ends where the next begins, in the same March-based year. */
  lemma NextAfterMonth(d: Date)
    requires IsDate(d) && d.month != 2 && d.day == DaysInMonth(d.year, d.month)
    ensures DayNumber(NextDate(d)) == DayNumber(d) + 1
  {
  }

  /** February ends its March-based year, which is as long as it should be. */
  lemma NextAfterFebruary(d: Date)
    requires IsDate(d) && d.month == 2 && d.day == DaysInMonth(d.year, d.month)
    ensures DayNumber(NextDate(d)) == DayNumber(d) + 1
  {
    MonthEnds(d.year, 2);
    YearLength(d.year - 1);
  }

  /** Counting days from any date agrees with the closed form. */
  lemma {:induction false} CountingAgrees(d: Date, n: nat)
    requires IsDate(d)
    ensures IsDate(DateAfter(d, n)) && DaysSinceUnixEpoch(DateAfter(d, n)) == DaysSinceUnixEpoch(d) + n
  {
    if n > 0 {
      CountingAgrees(d, n - 1);
      NextDateIsOneDayLater(DateAfter(d, n - 1));
    }
  }

  predicate Earlier(a: Date, b: Date)
  {
    a.year < b.year || (a.year == b.year && (a.month < b.month || (a.month == b.month && a.day < b.day)))
  }

  lemma {:induction false} YearStartGrows(a: int, b: int)
    requires a < b
    ensures YearStart(a + 1) <= YearStart(b)
    decreases b - a
  {
  }

  /** Day of the March-based year is within its length. */
  lemma DayOfYearFits(d: Date)
    requires IsDate(d)
    ensures YearStart(MarchYear(d)) <= DayNumber(d) < YearStart(MarchYear(d) + 1)
  {
    MonthEnds(d.year, d.month);
    YearLength(MarchYear(d));
  }

  /** Later dates have larger day numbers. */
  lemma DaysAreMonotone(a: Date, b: Date)
    requires IsDate(a) && IsDate(b) && Earlier(a, b)
    ensures DaysSinceUnixEpoch(a) < DaysSinceUnixEpoch(b)
  {
    DaysDecompose(a);
    DaysDecompose(b);
    DayNumberIsMonotone(a, b);
  }

  lemma DayNumberIsMonotone(a: Date, b: Date)
    requires IsDate(a) && IsDate(b) && Earlier(a, b)
    ensures DayNumber(a) < DayNumber(b)
  {
    if MarchYear(a) < MarchYear(b) {
      DayOfYearFits(a);
      DayOfYearFits(b);
      YearStartGrows(MarchYear(a), MarchYear(b));
    } else {
      SameYearMonotone(a, b);
    }
  }

  lemma SameYearMonotone(a: Date, b: Date)
    requires IsDate(a) && IsDate(b) && Earlier(a, b)
    requires MarchYear(a) == MarchYear(b)
    ensures DayNumber(a) < DayNumber(b)
  {
  }

  predicate EarlierUtc(a: Utc, b: Utc)
  {
    Earlier(a.date, b.date) || (a.date == b.date &&
      (a.hour < b.hour || (a.hour == b.hour &&
        (a.minute < b.minute || (a.minute == b.minute &&
          (a.second < b.second || (a.second == b.second && a.centisecond < b.centisecond)))))))
  }

  /** Unix time is strictly increasing on valid fields. */
  lemma EpochMillisecondsIncrease(a: Utc, b: Utc)
    requires IsValidUtc(a) && IsValidUtc(b) && EarlierUtc(a, b)
    ensures UtcToEpochMilliseconds(a).1.value < UtcToEpochMilliseconds(b).1.value
    ensures UtcToEpochMilliseconds(a).0 ==> UtcToEpochMilliseconds(b).0
  {
    if a.date != b.date { DaysAreMonotone(a.date, b.date); }
  }

  /** Hence no two valid field sets share a Unix time. */
  lemma EpochMillisecondsInjective(a: Utc, b: Utc)
    requires IsValidUtc(a) && IsValidUtc(b)
    ensures UtcToEpochMilliseconds(a) == UtcToEpochMilliseconds(b) <==> a == b
  {
    if EarlierUtc(a, b) { EpochMillisecondsIncrease(a, b); }
    else if EarlierUtc(b, a) { EpochMillisecondsIncrease(b, a); }
  }

  /** The trusted range starts at 2023-11-14 22:13:20. */
  lemma TrustedRangeStart()
    ensures UtcToEpochMilliseconds(Utc(Date(2023, 11, 14), 22, 13, 20, 0)) == (true, Some(TRUSTED_EPOCH_MIN_MS))
  {
  }
}
