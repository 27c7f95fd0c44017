/** Proleptic Gregorian calendar arithmetic on integer UTC instants, counted
    in seconds since 1970-01-01T00:00:00Z.  This is the part of the pipeline
    that turns a parsed timestamp into its hour, weekday, month and ISO 8601
    week number.  Day numbers are days since 1970-01-01; a negative instant
    falls on an earlier day (division is floor division throughout). */
module Calendar {

  predicate IsLeapYear(y: int) {
    y % 4 == 0 && (y % 100 != 0 || y % 400 == 0)
  }

  function DaysInYear(y: int): int {
    if IsLeapYear(y) then 366 else 365
  }

  function DaysInMonth(y: int, m: int): int
    requires 1 <= m <= 12
  {
    if m == 2 then (if IsLeapYear(y) then 29 else 28)
    else if m == 4 || m == 6 || m == 9 || m == 11 then 30
    else 31
  }

  datatype Date = Date(year: int, month: int, day: int)

  predicate ValidDate(d: Date) {
    1 <= d.month <= 12 && 1 <= d.day <= DaysInMonth(d.year, d.month)
  }

  /* The conversion counts years from March 1, so that the leap day is the
     last day of its year, and groups them into 400-year eras of 146097 days.
     Day 0 of era 0 is 0000-03-01, which is 719468 days before the epoch. */

  const EraDays: int := 146097
  const EpochShift: int := 719468

  /** Day within its era on which March-based year `yoe` of the era starts. */
  function YearStartInEra(yoe: int): int {
    365 * yoe + yoe / 4 - yoe / 100
  }

  /** Day within a March-based year on which its month `mp` starts (0 = March, 11 = February). */
  function MonthStartInYear(mp: int): int {
    (153 * mp + 2) / 5
  }

  /** Day (counted from 0000-03-01) on which March-based year `y` starts. */
  function MarchYearStart(y: int): int {
    (y / 400) * EraDays + YearStartInEra(y % 400)
  }

  /** Day number of a civil date. */
  function DaysFromCivil(d: Date): int {
    var y := if d.month <= 2 then d.year - 1 else d.year;
    var mp := if d.month > 2 then d.month - 3 else d.month + 9;
    MarchYearStart(y) + MonthStartInYear(mp) + d.day - 1 - EpochShift
  }

  /** A day of an era split into its March-based year and its day within that year. */
  datatype EraSplit = EraSplit(yoe: int, doy: int)

  function SplitDayOfEra(doe: int): (s: EraSplit)
    requires 0 <= doe < EraDays
    ensures 0 <= s.yoe < 400
    ensures 0 <= s.doy < DaysInYear(s.yoe + 1)
    ensures YearStartInEra(s.yoe) + s.doy == doe
  {
    // centuries (the last day of the era belongs to the fourth), then
    // four-year cycles, then years (the leap day belongs to the fourth)
    var c := if doe / 36524 < 3 then doe / 36524 else 3;
    var r1 := doe - 36524 * c;
    var q := r1 / 1461;
    var r2 := r1 - 1461 * q;
    var r := if r2 / 365 < 3 then r2 / 365 else 3;
    var k := r2 - 365 * r;
    assert 0 <= c <= 3 && 0 <= r1 <= 36524;
    assert 0 <= q <= 24;
    assert 0 <= r <= 3 && 0 <= k <= 365;
    assert (100 * c + 4 * q + r) / 4 == 25 * c + q;
    assert (100 * c + 4 * q + r) / 100 == c;
    assert k == 365 ==> IsLeapYear(100 * c + 4 * q + r + 1);
    EraSplit(100 * c + 4 * q + r, k)
  }

  lemma LeapYearPeriodic(y: int, k: int)
    ensures IsLeapYear(y + 400 * k) == IsLeapYear(y)
  {
    var a := y + 400 * k;
    assert a / 400 == y / 400 + k;
    assert a / 100 == y / 100 + 4 * k;
    assert a / 4 == y / 4 + 100 * k;
  }

  /** The month (0 = March) that day `doy` of a March-based year falls in. */
  function MonthIndexOfYearDay(doy: int): (mp: int)
    requires 0 <= doy <= 365
    ensures 0 <= mp <= 11
    ensures MonthStartInYear(mp) <= doy
    ensures mp < 11 ==> doy < MonthStartInYear(mp + 1)
  {
    (5 * doy + 2) / 153
  }

  lemma MonthLength(mp: int, y: int)
    requires 0 <= mp < 11
    ensures MonthStartInYear(mp + 1) - MonthStartInYear(mp) == DaysInMonth(y, if mp < 10 then mp + 3 else mp - 9)
  {
  }

  /** The civil date of a day number. */
  function CivilFromDays(z: int): Date {
    var zz := z + EpochShift;
    var s := SplitDayOfEra(zz % EraDays);
    var mp := MonthIndexOfYearDay(s.doy);
    var y := (zz / EraDays) * 400 + s.yoe;
    if mp < 10 then Date(y, mp + 3, s.doy - MonthStartInYear(mp) + 1)
    else Date(y + 1, mp - 9, s.doy - MonthStartInYear(mp) + 1)
  }

  /** `CivilFromDays` always yields a valid date. */
  lemma CivilFromDaysValid(z: int)
    ensures ValidDate(CivilFromDays(z))
  {
    var zz := z + EpochShift;
    var era := zz / EraDays;
    var s := SplitDayOfEra(zz % EraDays);
    var mp := MonthIndexOfYearDay(s.doy);
    LeapYearPeriodic(s.yoe + 1, era);
    if mp < 11 {
      MonthLength(mp, CivilFromDays(z).year);
    }
  }

  /** `DaysFromCivil` inverts `CivilFromDays`. */
  lemma CivilFromDaysRoundTrip(z: int)
    ensures ValidDate(CivilFromDays(z))
    ensures DaysFromCivil(CivilFromDays(z)) == z
  {
    CivilFromDaysValid(z);
    var zz := z + EpochShift;
    var era := zz / EraDays;
    var s := SplitDayOfEra(zz % EraDays);
    var y := era * 400 + s.yoe;
    assert y / 400 == era && y % 400 == s.yoe;
  }

  /** Day number of January 1 of year `y`. */
  function JanFirst(y: int): int {
    DaysFromCivil(Date(y, 1, 1))
  }

  lemma YearStartStep(yoe: int)
    requires 0 <= yoe < 399
    ensures YearStartInEra(yoe + 1) == YearStartInEra(yoe) + DaysInYear(yoe + 1)
  {
    assert (yoe + 1) / 4 == yoe / 4 + (if (yoe + 1) % 4 == 0 then 1 else 0);
    assert (yoe + 1) / 100 == yoe / 100 + (if (yoe + 1) % 100 == 0 then 1 else 0);
  }

  /** A March-based year is a leap year's length exactly when the February it ends with has 29 days. */
  lemma MarchYearLength(y: int)
    ensures MarchYearStart(y + 1) == MarchYearStart(y) + DaysInYear(y + 1)
  {
    var era := y / 400;
    var yoe := y % 400;
    LeapYearPeriodic(yoe + 1, era);
    assert y + 1 == yoe + 1 + 400 * era;
    if yoe < 399 {
      YearStartStep(yoe);
      assert (y + 1) / 400 == era && (y + 1) % 400 == yoe + 1;
    } else {
      assert (y + 1) / 400 == era + 1 && (y + 1) % 400 == 0;
    }
  }

  lemma NextJanFirst(y: int)
    ensures JanFirst(y + 1) == JanFirst(y) + DaysInYear(y)
  {
    MarchYearLength(y - 1);
  }

  /** Every valid date of year `y` lies in the days of that year. */
  lemma DateInYear(d: Date)
    requires ValidDate(d)
    ensures JanFirst(d.year) <= DaysFromCivil(d) < JanFirst(d.year) + DaysInYear(d.year)
  {
    var y := d.year;
    DayNumberInMonth(d);
    if d.month > 1 {
      MonthStartIncreasing(y, 1, d.month);
    }
    if d.month < 12 {
      MonthStartIncreasing(y, d.month, 12);
    }
    MarchYearLength(y - 1);
    assert MonthStartInYear(9) == 275 && MonthStartInYear(10) == 306;
    assert MonthStart(y, 12) == MarchYearStart(y) + 275 - EpochShift;
    assert JanFirst(y) == MarchYearStart(y - 1) + 306 - EpochShift;
  }

  lemma {:induction false} JanFirstIncreasing(a: int, b: int)
    requires a < b
    ensures JanFirst(a + 1) <= JanFirst(b)
    decreases b - a
  {
    if a + 1 < b {
      JanFirstIncreasing(a + 1, b);
      NextJanFirst(a + 1);
    }
  }

  /** A valid date whose day number lies in year `y`'s days is in year `y`. */
  lemma YearOfDate(d: Date, y: int)
    requires ValidDate(d) && JanFirst(y) <= DaysFromCivil(d) < JanFirst(y + 1)
    ensures d.year == y
  {
    DateInYear(d);
    NextJanFirst(d.year);
    if d.year < y {
      JanFirstIncreasing(d.year, y);
    } else if d.year > y {
      JanFirstIncreasing(y, d.year);
    }
  }

  /** A day between January 1 of `y` and January 1 of the next year has year `y`. */
  lemma YearOfDayUnique(z: int, y: int)
    requires JanFirst(y) <= z < JanFirst(y + 1)
    ensures CivilFromDays(z).year == y
  {
    CivilFromDaysRoundTrip(z);
    YearOfDate(CivilFromDays(z), y);
  }

  /** Day number of the first day of month `m` of year `y`. */
  function MonthStart(y: int, m: int): int
    requires 1 <= m <= 12
  {
    DaysFromCivil(Date(y, m, 1))
  }

  /** A date's day number is its month's first day number plus the day of the month, less one. */
  lemma DayNumberInMonth(d: Date)
    requires 1 <= d.month <= 12
    ensures DaysFromCivil(d) == MonthStart(d.year, d.month) + d.day - 1
  {
  }

  /** Each month starts where the previous one ends, February included. */
  lemma NextMonthStart(y: int, m: int)
    requires 1 <= m < 12
    ensures MonthStart(y, m + 1) == MonthStart(y, m) + DaysInMonth(y, m)
  {
    if m == 2 {
      MarchYearLength(y - 1);
    } else if m < 2 {
      MonthLength(10, y);
    } else {
      MonthLength(m - 3, y);
    }
  }

  lemma {:induction false} MonthStartIncreasing(y: int, a: int, b: int)
    requires 1 <= a < b <= 12
    ensures MonthStart(y, a) + DaysInMonth(y, a) <= MonthStart(y, b)
    decreases b - a
  {
    NextMonthStart(y, a);
    if a + 1 < b {
      MonthStartIncreasing(y, a + 1, b);
    }
  }

  /** Valid dates with the same day number are in the same year. */
  lemma SameDaySameYear(d: Date, e: Date)
    requires ValidDate(d) && ValidDate(e) && DaysFromCivil(d) == DaysFromCivil(e)
    ensures d.year == e.year
  {
    DateInYear(d);
    NextJanFirst(d.year);
    YearOfDate(e, d.year);
  }

  /** Within one year, a date's day number fixes its month and day. */
  lemma SameYearSameDate(d: Date, e: Date)
    requires ValidDate(d) && ValidDate(e) && d.year == e.year
    requires DaysFromCivil(d) == DaysFromCivil(e)
    ensures d == e
  {
    var y := d.year;
    DayNumberInMonth(d);
    DayNumberInMonth(e);
    if d.month < e.month {
      MonthStartIncreasing(y, d.month, e.month);
    } else if e.month < d.month {
      MonthStartIncreasing(y, e.month, d.month);
    }
  }

  /** Distinct valid dates have distinct day numbers. */
  lemma DaysFromCivilInjective(d: Date, e: Date)
    requires ValidDate(d) && ValidDate(e) && DaysFromCivil(d) == DaysFromCivil(e)
    ensures d == e
  {
    SameDaySameYear(d, e);
    SameYearSameDate(d, e);
  }

  /** `CivilFromDays` inverts `DaysFromCivil` on valid dates, so every valid
      date has exactly one day number and every day number one date. */
  lemma DaysFromCivilRoundTrip(d: Date)
    requires ValidDate(d)
    ensures CivilFromDays(DaysFromCivil(d)) == d
  {
    CivilFromDaysRoundTrip(DaysFromCivil(d));
    DaysFromCivilInjective(CivilFromDays(DaysFromCivil(d)), d);
  }

  const SecondsPerHour: int := 3600
  const SecondsPerDay: int := 86400

  /** The day an instant falls on. */
  function DayNumber(t: int): int {
    t / SecondsPerDay
  }

  /** The hour of the day (UTC) of an instant. */
  function Hour(t: int): (h: int)
    ensures 0 <= h <= 23
  {
    (t % SecondsPerDay) / SecondsPerHour
  }

  /** Day of the week of a day number, Monday = 0 through Sunday = 6 (1970-01-01 was a Thursday). */
  function DayOfWeek(z: int): (w: int)
    ensures 0 <= w <= 6
  {
    (z + 3) % 7
  }

  /** Day 0 is 1970-01-01, a Thursday, and each day's weekday follows the
      previous day's. */
  lemma EpochIsThursday(z: int)
    ensures DaysFromCivil(Date(1970, 1, 1)) == 0 && CivilFromDays(0) == Date(1970, 1, 1)
    ensures DayOfWeek(0) == 3
    ensures DayOfWeek(z + 1) == (DayOfWeek(z) + 1) % 7
  {
    assert YearStartInEra(369) == 134774;
    assert MarchYearStart(1969) == 4 * EraDays + 134774;
    assert MonthStartInYear(10) == 306;
    DaysFromCivilRoundTrip(Date(1970, 1, 1));
    assert (z + 1 + 3) % 7 == ((z + 3) % 7 + 1) % 7;
  }

  /** Ordinal day within its calendar year, January 1 = 1. */
  function DayOfYear(z: int): int {
    z - JanFirst(CivilFromDays(z).year) + 1
  }

  lemma DayOfYearBounds(z: int)
    ensures 1 <= DayOfYear(z) <= DaysInYear(CivilFromDays(z).year)
  {
    CivilFromDaysRoundTrip(z);
    DateInYear(CivilFromDays(z));
  }

  lemma DayOfYearWithin(x: int, y: int)
    requires JanFirst(y) <= x < JanFirst(y) + DaysInYear(y)
    ensures DayOfYear(x) == x - JanFirst(y) + 1
  {
    NextJanFirst(y);
    YearOfDayUnique(x, y);
  }

  /** ISO week number computed the way calendar libraries do it: estimate
      from the ordinal day and weekday, then correct the days that belong to
      the last week of the previous year or the first week of the next. */
  function WeekFromEstimate(doy: int, dow: int, daysInYear: int, prevLeap: bool): int {
    var e := doy - 1 - dow + 3;
    if e < 0 then
      (if e == -1 || (e == -2 && prevLeap) then 53 else 52)
    else if e / 7 + 1 == 53 && daysInYear - doy + dow < 3 then 1
    else e / 7 + 1
  }

  function IsoWeek(z: int): int {
    var y := CivilFromDays(z).year;
    WeekFromEstimate(DayOfYear(z), DayOfWeek(z), DaysInYear(y), IsLeapYear(y - 1))
  }

  /** The Thursday of the Monday-to-Sunday week containing day `z`. */
  function ThursdayOf(z: int): int {
    z - DayOfWeek(z) + 3
  }

  /** Week of the year, counted from the year's first day, that ordinal day `n` falls in. */
  function WeekOfYearDay(n: int): int {
    (n - 1) / 7 + 1
  }

  /** The ISO 8601 week number by its definition: a week belongs to the year
      of its Thursday, and week 1 is the week holding that year's first Thursday. */
  function IsoWeekOfThursday(z: int): (w: int)
    ensures 1 <= w <= 53
  {
    DayOfYearBounds(ThursdayOf(z));
    WeekOfYearDay(DayOfYear(ThursdayOf(z)))
  }

  /** Splits the Thursday of day `z`'s week as an offset `e` from January 1 of `z`'s year. */
  lemma ThursdayFromJanFirst(z: int)
    ensures var y := CivilFromDays(z).year;
            var e := DayOfYear(z) + 2 - DayOfWeek(z);
            ThursdayOf(z) == JanFirst(y) + e && -3 <= e <= DaysInYear(y) + 2
  {
    DayOfYearBounds(z);
  }

  lemma ThursdayInPreviousYear(z: int)
    requires DayOfYear(z) + 2 - DayOfWeek(z) < 0
    ensures var y := CivilFromDays(z).year;
            WeekFromEstimate(DayOfYear(z), DayOfWeek(z), DaysInYear(y), IsLeapYear(y - 1))
              == WeekOfYearDay(DayOfYear(ThursdayOf(z)))
  {
    var y := CivilFromDays(z).year;
    ThursdayFromJanFirst(z);
    NextJanFirst(y - 1);
    DayOfYearWithin(ThursdayOf(z), y - 1);
  }

  lemma ThursdayInSameYear(z: int)
    requires 0 <= DayOfYear(z) + 2 - DayOfWeek(z) < DaysInYear(CivilFromDays(z).year)
    ensures var y := CivilFromDays(z).year;
            WeekFromEstimate(DayOfYear(z), DayOfWeek(z), DaysInYear(y), IsLeapYear(y - 1))
              == WeekOfYearDay(DayOfYear(ThursdayOf(z)))
  {
    var y := CivilFromDays(z).year;
    ThursdayFromJanFirst(z);
    DayOfYearBounds(z);
    DayOfYearWithin(ThursdayOf(z), y);
  }

  lemma ThursdayInNextYear(z: int)
    requires DaysInYear(CivilFromDays(z).year) <= DayOfYear(z) + 2 - DayOfWeek(z)
    ensures var y := CivilFromDays(z).year;
            WeekFromEstimate(DayOfYear(z), DayOfWeek(z), DaysInYear(y), IsLeapYear(y - 1))
              == WeekOfYearDay(DayOfYear(ThursdayOf(z)))
  {
    var y := CivilFromDays(z).year;
    ThursdayFromJanFirst(z);
    DayOfYearBounds(z);
    NextJanFirst(y);
    DayOfYearWithin(ThursdayOf(z), y + 1);
  }

  lemma IsoWeekByEstimate(z: int)
    ensures var y := CivilFromDays(z).year;
            IsoWeek(z) == WeekFromEstimate(DayOfYear(z), DayOfWeek(z), DaysInYear(y), IsLeapYear(y - 1))
  {
  }

  lemma IsoWeekOfThursdayUnfolds(z: int)
    ensures IsoWeekOfThursday(z) == WeekOfYearDay(DayOfYear(ThursdayOf(z)))
  {
  }

  lemma EstimateIsWeekOfThursday(z: int)
    ensures var y := CivilFromDays(z).year;
            WeekFromEstimate(DayOfYear(z), DayOfWeek(z), DaysInYear(y), IsLeapYear(y - 1))
              == WeekOfYearDay(DayOfYear(ThursdayOf(z)))
  {
    var e := DayOfYear(z) + 2 - DayOfWeek(z);
    if e < 0 {
      ThursdayInPreviousYear(z);
    } else if e < DaysInYear(CivilFromDays(z).year) {
      ThursdayInSameYear(z);
    } else {
      ThursdayInNextYear(z);
    }
  }

  /** The estimate-and-correct week number is the ISO 8601 week number. */
  lemma IsoWeekIsWeekOfThursday(z: int)
    ensures IsoWeek(z) == IsoWeekOfThursday(z)
  {
    IsoWeekByEstimate(z);
    EstimateIsWeekOfThursday(z);
    IsoWeekOfThursdayUnfolds(z);
  }

  /** Instants are whole seconds; the calendar date and the hour of an
      instant give it back up to the seconds within that hour. */
  lemma InstantFromCalendar(t: int)
    ensures t == DaysFromCivil(CivilFromDays(DayNumber(t))) * SecondsPerDay
               + Hour(t) * SecondsPerHour + t % SecondsPerHour
  {
    CivilFromDaysRoundTrip(DayNumber(t));
    var s := t % SecondsPerDay;
    assert t == DayNumber(t) * SecondsPerDay + s;
    assert s == Hour(t) * SecondsPerHour + s % SecondsPerHour;
    assert t / SecondsPerHour == DayNumber(t) * 24 + Hour(t);
  }

  /** The calendar columns derived from one timestamp. */
  datatype CalendarFields = CalendarFields(hour: int, dayOfWeek: int, month: int, weekOfYear: int, isWeekend: int)

  /** 1 for Saturday and Sunday, 0 for the other days. */
  function WeekendFlag(dayOfWeek: int): int {
    if dayOfWeek == 5 || dayOfWeek == 6 then 1 else 0
  }

  /** The hour, weekday (Monday = 0), month, ISO 8601 week and weekend flag of instant `t`. */
  function FieldsOf(t: int): (c: CalendarFields)
    ensures 0 <= c.hour <= 23
    ensures DayNumber(t) * SecondsPerDay + c.hour * SecondsPerHour <= t
            < DayNumber(t) * SecondsPerDay + (c.hour + 1) * SecondsPerHour
    ensures var d := CivilFromDays(DayNumber(t));
            ValidDate(d) && DaysFromCivil(d) == DayNumber(t) && c.month == d.month
    ensures 0 <= c.dayOfWeek <= 6 && c.dayOfWeek == DayOfWeek(DayNumber(t))
    ensures 1 <= c.month <= 12
    ensures 1 <= c.weekOfYear <= 53
    ensures c.weekOfYear == IsoWeekOfThursday(DayNumber(t))
    ensures c.isWeekend == 1 <==> c.dayOfWeek == 5 || c.dayOfWeek == 6
    ensures c.isWeekend == 0 <==> c.dayOfWeek < 5
  {
    var z := DayNumber(t);
    CivilFromDaysRoundTrip(z);
    IsoWeekIsWeekOfThursday(z);
    CalendarFields(Hour(t), DayOfWeek(z), CivilFromDays(z).month, IsoWeek(z), WeekendFlag(DayOfWeek(z)))
  }

  /** Day numbers of the dates the examples below use. */
  lemma ExampleDayNumbers()
    ensures JanFirst(2020) == 18262 && DaysFromCivil(Date(2020, 12, 31)) == 18627
    ensures DaysFromCivil(Date(2021, 1, 3)) == 18630
    ensures DaysFromCivil(Date(2024, 12, 30)) == 20087
    ensures JanFirst(2025) == 20089 && DaysFromCivil(Date(2025, 1, 2)) == 20090
  {
    assert MarchYearStart(2019) == 5 * EraDays + YearStartInEra(19) == 737424;
    assert MarchYearStart(2020) == 5 * EraDays + YearStartInEra(20) == 737790;
    assert MarchYearStart(2024) == 5 * EraDays + YearStartInEra(24) == 739251;
    assert MonthStartInYear(9) == 275 && MonthStartInYear(10) == 306;
  }

  /** Sunday 2021-01-03 belongs to week 53 of 2020, whose Thursday is 2020-12-31. */
  lemma ExampleLastWeekOfPreviousYear()
    ensures var c := FieldsOf(DaysFromCivil(Date(2021, 1, 3)) * SecondsPerDay);
            c.dayOfWeek == 6 && c.isWeekend == 1 && c.month == 1 && c.weekOfYear == 53
  {
    ExampleDayNumbers();
    var z := 18630;
    assert DayNumber(z * SecondsPerDay) == z;
    assert DayOfWeek(z) == 6 && ThursdayOf(z) == 18627;
    DaysFromCivilRoundTrip(Date(2021, 1, 3));
    DaysFromCivilRoundTrip(Date(2020, 12, 31));
    assert DayOfYear(18627) == 366;
  }

  /** Monday 2024-12-30 belongs to week 1 of 2025, whose Thursday is 2025-01-02. */
  lemma ExampleFirstWeekOfNextYear()
    ensures var c := FieldsOf(DaysFromCivil(Date(2024, 12, 30)) * SecondsPerDay);
            c.dayOfWeek == 0 && c.isWeekend == 0 && c.month == 12 && c.weekOfYear == 1
  {
    ExampleDayNumbers();
    var z := 20087;
    assert DayNumber(z * SecondsPerDay) == z;
    assert DayOfWeek(z) == 0 && ThursdayOf(z) == 20090;
    DaysFromCivilRoundTrip(Date(2024, 12, 30));
    DaysFromCivilRoundTrip(Date(2025, 1, 2));
    assert DayOfYear(20090) == 2;
  }
}
