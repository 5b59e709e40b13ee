/**
 The proleptic Gregorian UTC calendar behind `Date.UTC` and the `getUTC*` readers,
 as sections 21.4.1.3 to 21.4.1.14 of ECMA-262 lay it down. Time values are
 integers counting milliseconds since 1 January 1970; months count from 0.
 */
module Calendar {

  const MINUTE_MS := 60_000
  const HOUR_MS := 3_600_000
  const DAY_MS := 86_400_000

  function DayOf(t: int): int { t / 86_400_000 }

  function HourOf(t: int): int { t / 3_600_000 % 24 }

  function MinuteOf(t: int): int { t / 60_000 % 60 }

  predicate IsLeap(y: int) { y % 4 == 0 && (y % 100 != 0 || y % 400 == 0) }

  /** The day number of 1 January of year y. */
  function DayFromYear(y: int): int {
    365 * (y - 1970) + (y - 1969) / 4 - (y - 1901) / 100 + (y - 1601) / 400
  }

  /** Days of a year that precede month m; m == 12 gives the length of the year. */
  function DaysBeforeMonth(leap: bool, m: int): int
    requires 0 <= m <= 12
  {
    var base := [0, 31, 59, 90, 120, 151, 181, 212, 243, 273, 304, 334, 365][m];
    if leap && m >= 2 then base + 1 else base
  }

  function DaysInMonth(y: int, m: int): int
    requires 0 <= m < 12
  {
    DaysBeforeMonth(IsLeap(y), m + 1) - DaysBeforeMonth(IsLeap(y), m)
  }

  /** The leap-day quotients grow by one exactly at the multiples of their divisors. */
  lemma FourthYears(y: int)
    ensures (y - 1968) / 4 - (y - 1969) / 4 == if y % 4 == 0 then 1 else 0
  {
  }

  lemma HundredthYears(y: int)
    ensures (y - 1900) / 100 - (y - 1901) / 100 == if y % 100 == 0 then 1 else 0
  {
  }

  lemma FourHundredthYears(y: int)
    ensures (y - 1600) / 400 - (y - 1601) / 400 == if y % 400 == 0 then 1 else 0
  {
  }

  lemma MultiplesNest(y: int)
    ensures y % 100 == 0 ==> y % 4 == 0
    ensures y % 400 == 0 ==> y % 100 == 0
  {
  }

  lemma YearLength(y: int)
    ensures DayFromYear(y + 1) - DayFromYear(y) == if IsLeap(y) then 366 else 365
    ensures DayFromYear(y + 1) - DayFromYear(y) == DaysBeforeMonth(IsLeap(y), 12)
  {
    FourthYears(y);
    HundredthYears(y);
    FourHundredthYears(y);
    MultiplesNest(y);
  }

  lemma {:induction false} MonthsAscend(leap: bool, a: int, b: int)
    requires 0 <= a <= b <= 12
    ensures DaysBeforeMonth(leap, a) <= DaysBeforeMonth(leap, b)
    decreases b - a
  {
    if a < b {
      MonthsAscend(leap, a + 1, b);
    }
  }

  lemma {:induction false} YearsAreLong(a: int, b: int)
    requires a <= b
    ensures DayFromYear(b) - DayFromYear(a) >= 365 * (b - a)
    decreases b - a
  {
    if a < b {
      YearLength(a);
      YearsAreLong(a + 1, b);
    }
  }

  /** The last year from y on that has started by day n. */
  function YearSearch(n: int, y: int): (r: int)
    requires DayFromYear(y) <= n
    ensures DayFromYear(r) <= n < DayFromYear(r + 1)
    decreases n - DayFromYear(y)
  {
    YearLength(y);
    if DayFromYear(y + 1) <= n then YearSearch(n, y + 1) else y
  }

  /** YearFromTime: the year that holds day n. */
  function YearOfDay(n: int): (r: int)
    ensures DayFromYear(r) <= n < DayFromYear(r + 1)
  {
    YearSearch(n, if n >= 0 then 1970 else 1970 + n / 365 - 1)
  }

  lemma DayLiesInYear(n: int)
    ensures var y := YearOfDay(n); DaysBeforeMonth(IsLeap(y), 0) <= n - DayFromYear(y) < DaysBeforeMonth(IsLeap(y), 12)
  {
    YearLength(YearOfDay(n));
  }

  function MonthSearch(leap: bool, k: int, m: int): (r: int)
    requires 0 <= m < 12 && DaysBeforeMonth(leap, m) <= k < DaysBeforeMonth(leap, 12)
    ensures m <= r < 12 && DaysBeforeMonth(leap, r) <= k < DaysBeforeMonth(leap, r + 1)
    decreases 12 - m
  {
    if DaysBeforeMonth(leap, m + 1) <= k then MonthSearch(leap, k, m + 1) else m
  }

  /** MonthFromTime for day n. */
  function MonthOfDay(n: int): (r: int)
    ensures 0 <= r < 12
    ensures var y := YearOfDay(n);
      DaysBeforeMonth(IsLeap(y), r) <= n - DayFromYear(y) < DaysBeforeMonth(IsLeap(y), r + 1)
  {
    var y := YearOfDay(n);
    DayLiesInYear(n);
    MonthSearch(IsLeap(y), n - DayFromYear(y), 0)
  }

  /** DateFromTime for day n, counted from 1. */
  function DateOfDay(n: int): int {
    var y := YearOfDay(n);
    n - DayFromYear(y) - DaysBeforeMonth(IsLeap(y), MonthOfDay(n)) + 1
  }

  /** The day of the week of day n, Sunday being 0. */
  function WeekDayOfDay(n: int): int { (n + 4) % 7 }

  /** 1 January 1970 is a Thursday, and the days of the week follow one another. */
  lemma WeekDaysFollow(n: int)
    ensures WeekDayOfDay(0) == 4 && 0 <= WeekDayOfDay(n) <= 6
    ensures WeekDayOfDay(n + 1) == if WeekDayOfDay(n) == 6 then 0 else WeekDayOfDay(n) + 1
  {
  }

  /** MakeDay: months outside 0..11 carry into the year, days carry freely. */
  function MakeDay(y: int, m: int, d: int): int {
    var year := y + m / 12;
    DayFromYear(year) + DaysBeforeMonth(IsLeap(year), m % 12) + d - 1
  }

  /** MakeFullYear: `Date.UTC` reads the years 0 to 99 as 1900 to 1999. */
  function FullYear(y: int): int {
    if 0 <= y <= 99 then 1900 + y else y
  }

  function DateUTC(y: int, m: int, d: int, h: int): int {
    MakeDay(FullYear(y), m, d) * 86_400_000 + h * 3_600_000
  }

  lemma OneYearHolds(n: int, x: int, y: int)
    requires DayFromYear(x) <= n && n < DayFromYear(y + 1)
    ensures x <= y
  {
    if y < x {
      YearsAreLong(y + 1, x);
    }
  }

  lemma YearIsUnique(n: int, y: int)
    requires DayFromYear(y) <= n < DayFromYear(y + 1)
    ensures YearOfDay(n) == y
  {
    OneYearHolds(n, YearOfDay(n), y);
    OneYearHolds(n, y, YearOfDay(n));
  }

  lemma YearsAscend(n: int, x: int)
    requires n <= x
    ensures YearOfDay(n) <= YearOfDay(x)
  {
    OneYearHolds(x, YearOfDay(n), YearOfDay(x));
  }

  lemma MonthIsUnique(n: int, m: int)
    requires 0 <= m < 12
    requires var y := YearOfDay(n);
      DaysBeforeMonth(IsLeap(y), m) <= n - DayFromYear(y) < DaysBeforeMonth(IsLeap(y), m + 1)
    ensures MonthOfDay(n) == m
  {
    var leap, r := IsLeap(YearOfDay(n)), MonthOfDay(n);
    if r < m {
      MonthsAscend(leap, r + 1, m);
    } else if m < r {
      MonthsAscend(leap, m + 1, r);
    }
  }

  /** A day between two firsts of the month belongs to that month. */
  lemma InMonth(n: int, y: int, m: int)
    requires 0 <= m < 12
    requires DaysBeforeMonth(IsLeap(y), m) <= n - DayFromYear(y) < DaysBeforeMonth(IsLeap(y), m + 1)
    ensures YearOfDay(n) == y && MonthOfDay(n) == m
  {
    MonthsAscend(IsLeap(y), 0, m);
    MonthsAscend(IsLeap(y), m + 1, 12);
    YearLength(y);
    YearIsUnique(n, y);
    MonthIsUnique(n, m);
  }

  /** Reading a day's year, month and date and writing them back gives the day. */
  lemma CivilRoundTrip(n: int)
    ensures 1 <= DateOfDay(n) <= DaysInMonth(YearOfDay(n), MonthOfDay(n))
    ensures MakeDay(YearOfDay(n), MonthOfDay(n), DateOfDay(n)) == n
  {
    var m := MonthOfDay(n);
    assert m / 12 == 0 && m % 12 == m;
  }

  /** Writing a real date and reading it back gives the date. */
  lemma DayRoundTrip(y: int, m: int, d: int)
    requires 0 <= m < 12 && 1 <= d <= DaysInMonth(y, m)
    ensures var n := MakeDay(y, m, d);
      YearOfDay(n) == y && MonthOfDay(n) == m && DateOfDay(n) == d
  {
    assert m / 12 == 0 && m % 12 == m;
    InMonth(MakeDay(y, m, d), y, m);
  }

  /** The first of the next month, with the carry out of December. */
  lemma FirstOfNextMonth(y: int, m: int)
    requires 0 <= m < 12
    ensures MakeDay(y, m + 1, 1) == DayFromYear(y) + DaysBeforeMonth(IsLeap(y), m + 1)
  {
    if m == 11 {
      YearLength(y);
      assert (m + 1) / 12 == 1 && (m + 1) % 12 == 0;
    } else {
      assert (m + 1) / 12 == 0 && (m + 1) % 12 == m + 1;
    }
  }

  lemma RestOfMonth(n: int, x: int)
    requires n <= x < DayFromYear(YearOfDay(n)) + DaysBeforeMonth(IsLeap(YearOfDay(n)), MonthOfDay(n) + 1)
    ensures YearOfDay(x) == YearOfDay(n) && MonthOfDay(x) == MonthOfDay(n)
  {
    var y, m := YearOfDay(n), MonthOfDay(n);
    assert DaysBeforeMonth(IsLeap(y), m) <= n - DayFromYear(y);
    InMonth(x, y, m);
  }

  /** The first of the next month is the first day past n that lies in another month. */
  lemma MonthSpan(n: int, x: int)
    requires n <= x < MakeDay(YearOfDay(n), MonthOfDay(n) + 1, 1)
    ensures YearOfDay(x) == YearOfDay(n) && MonthOfDay(x) == MonthOfDay(n)
  {
    FirstOfNextMonth(YearOfDay(n), MonthOfDay(n));
    RestOfMonth(n, x);
  }

  lemma NextMonthStartsLater(n: int)
    ensures n < MakeDay(YearOfDay(n), MonthOfDay(n) + 1, 1)
  {
    FirstOfNextMonth(YearOfDay(n), MonthOfDay(n));
  }

  lemma MakeDayCarriesDays(y: int, m: int, d: int, e: int)
    ensures MakeDay(y, m, d + e) == MakeDay(y, m, d) + e
  {
  }

  /** Outside the years 0 to 99 `Date.UTC` is plain calendar arithmetic. */
  lemma DateUTCDays(y: int, m: int, d: int, h: int)
    requires !(0 <= y <= 99)
    ensures DateUTC(y, m, d, h) == MakeDay(y, m, d) * 86_400_000 + h * 3_600_000
  {
  }

  lemma HoursOfDays(t: int)
    ensures DayOf(t) * 24 + HourOf(t) == t / 3_600_000
    ensures DayOf(t) * 86_400_000 <= t / 3_600_000 * 3_600_000 <= t
  {
    assert t / 86_400_000 == t / 3_600_000 / 24;
  }

  lemma MakeDayWithinYear(y: int, m: int, d: int)
    requires 0 <= m <= 12 && d >= 1
    ensures MakeDay(y, m, d) >= DayFromYear(y)
  {
    if m == 12 {
      YearLength(y);
      assert m / 12 == 1 && m % 12 == 0;
    } else {
      assert m / 12 == 0 && m % 12 == m;
      MonthsAscend(IsLeap(y), 0, m);
    }
  }

  /** `Date.UTC` lands on whole hours. */
  lemma DateUTCAligned(y: int, m: int, d: int, h: int)
    ensures DateUTC(y, m, d, h) % 60_000 == 0
  {
    var day := MakeDay(FullYear(y), m, d);
    assert day * 86_400_000 + h * 3_600_000 == 60_000 * (day * 1440 + h * 60);
  }

  /** A time in a two-digit year that goes through `Date.UTC` comes out over 1800 years later. */
  lemma DateUTCMisread(n: int, m: int, d: int, h: int)
    requires 0 <= YearOfDay(n) <= 99 && 0 <= m <= 12 && d >= 1 && h >= 0
    ensures DateUTC(YearOfDay(n), m, d, h) >= (n + 1800 * 365) * 86_400_000
  {
    var y := YearOfDay(n);
    YearsAreLong(y, 1900 + y);
    YearLength(y);
    MakeDayWithinYear(1900 + y, m, d);
    assert MakeDay(FullYear(y), m, d) >= n + 1800 * 365;
  }

  lemma WrittenClock(y: int, m: int, d: int, h: int)
    requires 0 <= h < 24
    ensures var t := DateUTC(y, m, d, h); DayOf(t) == MakeDay(FullYear(y), m, d) && HourOf(t) == h && MinuteOf(t) == 0
  {
    ClockRoundTrip(MakeDay(FullYear(y), m, d), h, 0);
  }

  /** What `Date.UTC` makes of a real date and an hour is read back as that hour of that date, or 1900 years later. */
  lemma WrittenDateIsRead(y: int, m: int, d: int, h: int, year: int)
    requires year == if 0 <= y <= 99 then y + 1900 else y
    requires 0 <= m < 12 && 1 <= d <= DaysInMonth(year, m) && 0 <= h < 24
    ensures var t := DateUTC(y, m, d, h);
      && YearOfDay(DayOf(t)) == year && MonthOfDay(DayOf(t)) == m && DateOfDay(DayOf(t)) == d
      && HourOf(t) == h && MinuteOf(t) == 0
  {
    WrittenClock(y, m, d, h);
    DayRoundTrip(year, m, d);
  }

  /** Months have the lengths of the civil calendar. */
  lemma MonthLengths(y: int, m: int)
    requires 0 <= m < 12
    ensures m == 1 ==> DaysInMonth(y, m) == if y % 4 == 0 && (y % 100 != 0 || y % 400 == 0) then 29 else 28
    ensures m in {3, 5, 8, 10} ==> DaysInMonth(y, m) == 30
    ensures m in {0, 2, 4, 6, 7, 9, 11} ==> DaysInMonth(y, m) == 31
  {
  }

  /** Day 0 is 1 January 1970. */
  lemma EpochDay()
    ensures DayFromYear(1970) == 0 && MakeDay(1970, 0, 1) == 0
  {
    assert 0 / 12 == 0 && 0 % 12 == 0;
  }

  /** Days, hours and minutes of a time are those that it was put together from. */
  lemma ClockRoundTrip(day: int, hour: int, minute: int)
    requires 0 <= hour < 24 && 0 <= minute < 60
    ensures var t := day * 86_400_000 + hour * 3_600_000 + minute * 60_000;
      DayOf(t) == day && HourOf(t) == hour && MinuteOf(t) == minute
  {
    var t := day * 86_400_000 + hour * 3_600_000 + minute * 60_000;
    assert t / 3_600_000 == day * 24 + hour;
    assert t / 60_000 == day * 1440 + hour * 60 + minute;
  }

  // ----- the calendar as the search sees it: a reader and a writer of dates -----

  datatype CivilDay = CivilDay(year: int, month: int, date: int, weekDay: int)

  /** `getUTC*` for a day number, and `Date.UTC` for year, month, date and hour. */
  datatype Calendar = Calendar(civil: int -> CivilDay, utc: (int, int, int, int) -> int)

  const GREGORIAN := Calendar(
    n => CivilDay(YearOfDay(n), MonthOfDay(n), DateOfDay(n), WeekDayOfDay(n)),
    (y, m, d, h) => DateUTC(y, m, d, h))

  lemma GregorianReads(n: int)
    ensures GREGORIAN.civil(n) == CivilDay(YearOfDay(n), MonthOfDay(n), DateOfDay(n), WeekDayOfDay(n))
  {
  }

  predicate TwoDigit(year: int) { 0 <= year <= 99 }

  /** Writing the date read for day n with an hour of its own. */
  ghost predicate HoursLand(cal: Calendar, n: int) {
    var c := cal.civil(n);
    forall h :: cal.utc(c.year, c.month, c.date, h) == n * 86_400_000 + h * 3_600_000
  }

  /** Writing the date after the one read for day n. */
  ghost predicate NextDayLands(cal: Calendar, n: int) {
    var c := cal.civil(n);
    cal.utc(c.year, c.month, c.date + 1, 0) == (n + 1) * 86_400_000
  }

  /** Writing the first of the month after the one read for day n. */
  ghost predicate NextMonthLands(cal: Calendar, n: int) {
    var c := cal.civil(n);
    exists k :: n < k && cal.utc(c.year, c.month + 1, 1, 0) == k * 86_400_000 && SameMonth(cal, n, k)
  }

  ghost predicate SameMonth(cal: Calendar, n: int, k: int) {
    forall x :: n <= x < k ==> cal.civil(x).year == cal.civil(n).year && cal.civil(x).month == cal.civil(n).month
  }

  /** In a two-digit year the same writes land on some minute, but over 1800 years late. */
  ghost predicate WritesStray(cal: Calendar, n: int) {
    HoursStray(cal, n) && NextDayStrays(cal, n) && NextMonthStrays(cal, n)
  }

  ghost predicate HoursStray(cal: Calendar, n: int) {
    var c := cal.civil(n);
    forall h :: 0 <= h <= 24 ==> Stray(n, cal.utc(c.year, c.month, c.date, h))
  }

  ghost predicate NextDayStrays(cal: Calendar, n: int) {
    var c := cal.civil(n);
    Stray(n, cal.utc(c.year, c.month, c.date + 1, 0))
  }

  ghost predicate NextMonthStrays(cal: Calendar, n: int) {
    var c := cal.civil(n);
    Stray(n, cal.utc(c.year, c.month + 1, 1, 0))
  }

  predicate Stray(n: int, t: int) { t % 60_000 == 0 && t >= (n + 1800 * 365) * 86_400_000 }

  ghost predicate LawfulDay(cal: Calendar, n: int) {
    if TwoDigit(cal.civil(n).year) then WritesStray(cal, n)
    else HoursLand(cal, n) && NextDayLands(cal, n) && NextMonthLands(cal, n)
  }

  ghost predicate Lawful(cal: Calendar) {
    forall n :: LawfulDay(cal, n)
  }

  lemma GregorianHours(n: int)
    requires !TwoDigit(YearOfDay(n))
    ensures HoursLand(GREGORIAN, n)
  {
    var c := GREGORIAN.civil(n);
    CivilRoundTrip(n);
    forall h ensures GREGORIAN.utc(c.year, c.month, c.date, h) == n * 86_400_000 + h * 3_600_000 {
      DateUTCDays(c.year, c.month, c.date, h);
    }
  }

  lemma GregorianNextDay(n: int)
    requires !TwoDigit(YearOfDay(n))
    ensures NextDayLands(GREGORIAN, n)
  {
    var c := GREGORIAN.civil(n);
    CivilRoundTrip(n);
    MakeDayCarriesDays(c.year, c.month, c.date, 1);
    DateUTCDays(c.year, c.month, c.date + 1, 0);
  }

  lemma GregorianNextMonth(n: int)
    requires !TwoDigit(YearOfDay(n))
    ensures NextMonthLands(GREGORIAN, n)
  {
    var c := GREGORIAN.civil(n);
    var k := MakeDay(c.year, c.month + 1, 1);
    DateUTCDays(c.year, c.month + 1, 1, 0);
    NextMonthStartsLater(n);
    GregorianMonth(n, k);
  }

  lemma GregorianMonth(n: int, k: int)
    requires k == MakeDay(YearOfDay(n), MonthOfDay(n) + 1, 1)
    ensures SameMonth(GREGORIAN, n, k)
  {
    forall x | n <= x < k
      ensures GREGORIAN.civil(x).year == GREGORIAN.civil(n).year && GREGORIAN.civil(x).month == GREGORIAN.civil(n).month
    {
      MonthSpan(n, x);
    }
  }

  lemma StrayWrite(n: int, m: int, d: int, h: int)
    requires TwoDigit(YearOfDay(n)) && 0 <= m <= 12 && d >= 1 && h >= 0
    ensures Stray(n, GREGORIAN.utc(GREGORIAN.civil(n).year, m, d, h))
  {
    DateUTCMisread(n, m, d, h);
    DateUTCAligned(YearOfDay(n), m, d, h);
  }

  lemma MonthAndDateAreReal(n: int)
    ensures 0 <= MonthOfDay(n) < 12 && DateOfDay(n) >= 1
  {
    CivilRoundTrip(n);
  }

  lemma GregorianHoursStray(n: int)
    requires TwoDigit(YearOfDay(n))
    ensures HoursStray(GREGORIAN, n)
  {
    MonthAndDateAreReal(n);
    var c := GREGORIAN.civil(n);
    forall h | 0 <= h <= 24 ensures Stray(n, GREGORIAN.utc(c.year, c.month, c.date, h)) {
      StrayWrite(n, c.month, c.date, h);
    }
  }

  lemma GregorianNextDayStrays(n: int)
    requires TwoDigit(YearOfDay(n))
    ensures NextDayStrays(GREGORIAN, n)
  {
    MonthAndDateAreReal(n);
    StrayWrite(n, MonthOfDay(n), DateOfDay(n) + 1, 0);
  }

  lemma GregorianNextMonthStrays(n: int)
    requires TwoDigit(YearOfDay(n))
    ensures NextMonthStrays(GREGORIAN, n)
  {
    MonthAndDateAreReal(n);
    StrayWrite(n, MonthOfDay(n) + 1, 1, 0);
  }

  lemma GregorianIsLawful()
    ensures Lawful(GREGORIAN)
  {
    forall n ensures LawfulDay(GREGORIAN, n) {
      if TwoDigit(YearOfDay(n)) {
        GregorianHoursStray(n);
        GregorianNextDayStrays(n);
        GregorianNextMonthStrays(n);
      } else {
        GregorianHours(n);
        GregorianNextDay(n);
        GregorianNextMonth(n);
      }
    }
  }
}
