/**
 Five-field cron expressions and the search for the next run (src/automation/cronSchedule.ts).
 The search jumps whole months, days and hours; the reference is a scan over every UTC minute.
 */
module CronSchedule {
  import opened Wrappers
  import opened Arithmetic
  import opened Calendar
  import opened MinuteScan

  const LOOKAHEAD_MS := 366 * 86_400_000
  const MAX_GUARD := 366 * 1440 + 1440

  datatype Fields = Fields(
    minute: set<int>,
    hour: set<int>,
    dayOfMonth: set<int>,
    month: set<int>,
    dayOfWeek: set<int>,
    dayOfMonthRestricted: bool,
    dayOfWeekRestricted: bool)

  // ----- which minutes match -----

  predicate Aligned(t: int) { t % 60_000 == 0 }

  predicate MonthMatches(f: Fields, c: CivilDay) { c.month + 1 in f.month }

  /** The POSIX rule: two restricted day fields are alternatives. */
  predicate DayMatches(f: Fields, c: CivilDay) {
    var domOk := c.date in f.dayOfMonth;
    var dowOk := c.weekDay in f.dayOfWeek;
    if f.dayOfMonthRestricted && f.dayOfWeekRestricted then domOk || dowOk
    else if f.dayOfMonthRestricted then domOk
    else if f.dayOfWeekRestricted then dowOk
    else true
  }

  /** The parts of a match that the search skips by: month, day and hour. */
  predicate HourSlotMatches(cal: Calendar, f: Fields, t: int) {
    var c := cal.civil(DayOf(t));
    MonthMatches(f, c) && DayMatches(f, c) && HourOf(t) in f.hour
  }

  predicate Matches(cal: Calendar, f: Fields, t: int) {
    HourSlotMatches(cal, f, t) && MinuteOf(t) in f.minute
  }

  function FirstCandidate(afterMs: int): int { afterMs / 60_000 * 60_000 + 60_000 }

  function Deadline(afterMs: int): int { FirstCandidate(afterMs) + LOOKAHEAD_MS }

  function Hit(cal: Calendar, f: Fields): int -> bool { t => Matches(cal, f, t) }

  /** The minute-by-minute scan. */
  function FirstMatch(cal: Calendar, f: Fields, afterMs: int): Option<int> {
    Scan(Hit(cal, f), _ => false, FirstCandidate(afterMs), Deadline(afterMs))
  }

  /** A skip that starts in a two-digit year goes astray, because `Date.UTC` cannot name that year. */
  predicate GoesAstray(cal: Calendar, f: Fields, t: int) {
    TwoDigit(cal.civil(DayOf(t)).year) && !HourSlotMatches(cal, f, t)
  }

  function Astray(cal: Calendar, f: Fields): int -> bool { t => GoesAstray(cal, f, t) }

  /** What the search computes: the scan, cut off at the first skip that goes astray. */
  function NextCronMatch(cal: Calendar, f: Fields, afterMs: int): Option<int> {
    Scan(Hit(cal, f), Astray(cal, f), FirstCandidate(afterMs), Deadline(afterMs))
  }

  // ----- the skip search -----

  /** Where a pass goes on from when the month, day or hour of t does not match. */
  function Skip(cal: Calendar, f: Fields, t: int): int {
    var c := cal.civil(DayOf(t));
    if !MonthMatches(f, c) then cal.utc(c.year, c.month + 1, 1, 0)
    else if !DayMatches(f, c) then cal.utc(c.year, c.month, c.date + 1, 0)
    else cal.utc(c.year, c.month, c.date, HourOf(t) + 1)
  }

  lemma WithinDays(t: int, x: int, n: int)
    requires t <= x < n * 86_400_000
    ensures DayOf(t) <= DayOf(x) < n
  {
  }

  lemma WithinHour(t: int, x: int)
    requires t <= x < DayOf(t) * 86_400_000 + (HourOf(t) + 1) * 3_600_000
    ensures DayOf(x) == DayOf(t) && HourOf(x) == HourOf(t)
  {
    HoursOfDays(t);
    HoursOfDays(x);
    assert x / 3_600_000 == t / 3_600_000;
  }

  /** Whole minutes lie a minute apart. */
  lemma MinutesApart(t: int, m: int)
    requires Aligned(t) && t < m * 60_000
    ensures Aligned(m * 60_000) && m * 60_000 >= t + 60_000
  {
    Spread(t / 60_000, m, 60_000);
    DivModUnique(m * 60_000, m, 0, 60_000);
  }

  lemma LaterDay(t: int, n: int)
    requires Aligned(t) && DayOf(t) < n
    ensures Aligned(n * 86_400_000) && n * 86_400_000 >= t + 60_000
  {
    assert t < n * 86_400_000 == n * 1440 * 60_000;
    MinutesApart(t, n * 1440);
  }

  lemma LaterHour(t: int)
    requires Aligned(t)
    ensures var next := DayOf(t) * 86_400_000 + (HourOf(t) + 1) * 3_600_000; Aligned(next) && next >= t + 60_000
  {
    HoursOfDays(t);
    var h := t / 3_600_000 + 1;
    assert t < h * 3_600_000 == h * 60 * 60_000;
    MinutesApart(t, h * 60);
  }

  lemma SkipMovesOn(cal: Calendar, f: Fields, t: int)
    requires Lawful(cal) && Aligned(t) && !TwoDigit(cal.civil(DayOf(t)).year)
    ensures Aligned(Skip(cal, f, t)) && Skip(cal, f, t) >= t + 60_000
  {
    var n := DayOf(t);
    var c := cal.civil(n);
    assert LawfulDay(cal, n);
    if !MonthMatches(f, c) {
      var k :| n < k && cal.utc(c.year, c.month + 1, 1, 0) == k * 86_400_000;
      LaterDay(t, k);
    } else if !DayMatches(f, c) {
      LaterDay(t, n + 1);
    } else {
      LaterHour(t);
    }
  }

  /** In a two-digit year every skip lands beyond the search window. */
  lemma SkipLeavesWindow(cal: Calendar, f: Fields, t: int)
    requires Lawful(cal) && TwoDigit(cal.civil(DayOf(t)).year)
    ensures Aligned(Skip(cal, f, t)) && Skip(cal, f, t) > t + LOOKAHEAD_MS
  {
    assert LawfulDay(cal, DayOf(t));
  }

  /** While a skip stays inside one month, day or hour that does not match, it passes no match. */
  lemma SkipPassesNoMatch(cal: Calendar, f: Fields, t: int, x: int)
    requires Lawful(cal) && !TwoDigit(cal.civil(DayOf(t)).year) && !HourSlotMatches(cal, f, t)
    requires t <= x < Skip(cal, f, t)
    ensures !Matches(cal, f, x) && !GoesAstray(cal, f, x)
  {
    var n := DayOf(t);
    var c := cal.civil(n);
    assert LawfulDay(cal, n);
    if !MonthMatches(f, c) {
      var k :| n < k && cal.utc(c.year, c.month + 1, 1, 0) == k * 86_400_000 && SameMonth(cal, n, k);
      WithinDays(t, x, k);
    } else if !DayMatches(f, c) {
      WithinDays(t, x, n + 1);
    } else {
      WithinHour(t, x);
    }
  }

  lemma AlignedIsOnGrid(t: int, x: int)
    requires Aligned(t) && Aligned(x) && t <= x
    ensures OnGrid(t, x)
  {
  }

  lemma SkipKeepsAnswer(cal: Calendar, f: Fields, t: int, deadline: int)
    requires Lawful(cal) && Aligned(t) && !HourSlotMatches(cal, f, t) && !TwoDigit(cal.civil(DayOf(t)).year)
    ensures Scan(Hit(cal, f), Astray(cal, f), Skip(cal, f, t), deadline)
            == Scan(Hit(cal, f), Astray(cal, f), t, deadline)
  {
    SkipMovesOn(cal, f, t);
    SkippedAreNeither(cal, f, t);
    AlignedIsOnGrid(t, Skip(cal, f, t));
    ScanOver(Hit(cal, f), Astray(cal, f), t, Skip(cal, f, t), deadline);
  }

  lemma SkippedAreNeither(cal: Calendar, f: Fields, t: int)
    requires Lawful(cal) && !TwoDigit(cal.civil(DayOf(t)).year) && !HourSlotMatches(cal, f, t)
    ensures forall x :: OnGrid(t, x) && x < Skip(cal, f, t) ==> !Hit(cal, f)(x) && !Astray(cal, f)(x)
  {
    forall x | OnGrid(t, x) && x < Skip(cal, f, t) ensures !Hit(cal, f)(x) && !Astray(cal, f)(x) {
      SkipPassesNoMatch(cal, f, t, x);
    }
  }

  /** Where a pass goes on from when t does not match. */
  function NextTry(cal: Calendar, f: Fields, t: int): int {
    if HourSlotMatches(cal, f, t) then t + 60_000 else Skip(cal, f, t)
  }

  lemma NextMinuteIsAligned(t: int)
    requires Aligned(t)
    ensures Aligned(t + 60_000)
  {
  }

  lemma PassMovesOn(cal: Calendar, f: Fields, t: int)
    requires Lawful(cal) && Aligned(t)
    ensures Aligned(NextTry(cal, f, t)) && NextTry(cal, f, t) >= t + 60_000
  {
    if HourSlotMatches(cal, f, t) {
      NextMinuteIsAligned(t);
    } else if TwoDigit(cal.civil(DayOf(t)).year) {
      SkipLeavesWindow(cal, f, t);
    } else {
      SkipMovesOn(cal, f, t);
    }
  }

  lemma MinuteKeepsAnswer(cal: Calendar, f: Fields, t: int, deadline: int)
    requires !Matches(cal, f, t) && HourSlotMatches(cal, f, t) && t <= deadline
    ensures Scan(Hit(cal, f), Astray(cal, f), t + 60_000, deadline) == Scan(Hit(cal, f), Astray(cal, f), t, deadline)
  {
    assert !Hit(cal, f)(t) && !Astray(cal, f)(t);
  }

  /** The scan stops where a jump leaves the window. */
  lemma StrayKeepsAnswer(cal: Calendar, f: Fields, t: int, deadline: int)
    requires Lawful(cal) && GoesAstray(cal, f, t) && t <= deadline <= t + LOOKAHEAD_MS
    ensures Scan(Hit(cal, f), Astray(cal, f), Skip(cal, f, t), deadline) == Scan(Hit(cal, f), Astray(cal, f), t, deadline)
  {
    SkipLeavesWindow(cal, f, t);
    assert !Hit(cal, f)(t) && Astray(cal, f)(t);
  }

  /** One pass that found no match at t leaves the answer of the scan as it was. */
  lemma PassKeepsAnswer(cal: Calendar, f: Fields, t: int, deadline: int)
    requires Lawful(cal) && Aligned(t) && !Matches(cal, f, t) && t <= deadline <= t + LOOKAHEAD_MS
    ensures Scan(Hit(cal, f), Astray(cal, f), NextTry(cal, f, t), deadline)
            == Scan(Hit(cal, f), Astray(cal, f), t, deadline)
  {
    if HourSlotMatches(cal, f, t) {
      MinuteKeepsAnswer(cal, f, t, deadline);
    } else if GoesAstray(cal, f, t) {
      StrayKeepsAnswer(cal, f, t, deadline);
    } else {
      SkipKeepsAnswer(cal, f, t, deadline);
    }
  }

  method ComputeNextCronMatchMs(cal: Calendar, fields: Fields, afterMs: int)
    returns (r: Option<int>, ghost passes: int)
    requires Lawful(cal)
    ensures r == NextCronMatch(cal, fields, afterMs)
    ensures 0 <= passes < MAX_GUARD
  {
    var t := afterMs / MINUTE_MS * MINUTE_MS + MINUTE_MS;
    var deadline := t + LOOKAHEAD_MS;
    var guard := 0;
    passes := 0;
    while t <= deadline && guard < MAX_GUARD
      invariant Aligned(t) && passes == guard >= 0
      invariant FirstCandidate(afterMs) + guard * 60_000 <= t
      invariant guard <= 366 * 1440 + 1
      invariant Scan(Hit(cal, fields), Astray(cal, fields), t, deadline) == NextCronMatch(cal, fields, afterMs)
      decreases MAX_GUARD - guard
    {
      guard := guard + 1;
      passes := guard;
      var c := cal.civil(DayOf(t));
      var next;
      if !MonthMatches(fields, c) {
        next := cal.utc(c.year, c.month + 1, 1, 0);
      } else if !DayMatches(fields, c) {
        next := cal.utc(c.year, c.month, c.date + 1, 0);
      } else if HourOf(t) !in fields.hour {
        next := cal.utc(c.year, c.month, c.date, HourOf(t) + 1);
      } else if MinuteOf(t) !in fields.minute {
        next := t + MINUTE_MS;
      } else {
        return Some(t), passes;
      }
      assert next == NextTry(cal, fields, t);
      PassMovesOn(cal, fields, t);
      PassKeepsAnswer(cal, fields, t, deadline);
      t := next;
    }
    return None, passes;
  }

  // ----- what the search answers -----

  /** r is the least minute after afterMs that matches, and lies within the look-ahead. */
  ghost predicate IsNextMatch(cal: Calendar, f: Fields, afterMs: int, r: int) {
    && Aligned(r) && afterMs < r <= Deadline(afterMs) && Matches(cal, f, r)
    && forall x :: Aligned(x) && afterMs < x < r ==> !Matches(cal, f, x)
  }

  ghost predicate NoMatch(cal: Calendar, f: Fields, afterMs: int) {
    forall x :: Aligned(x) && afterMs < x <= Deadline(afterMs) ==> !Matches(cal, f, x)
  }

  /** Some minute before the first match starts a skip in a two-digit year. */
  ghost predicate StraysFirst(cal: Calendar, f: Fields, afterMs: int) {
    exists x :: && Aligned(x) && afterMs < x <= Deadline(afterMs) && GoesAstray(cal, f, x)
                && forall w :: Aligned(w) && afterMs < w < x ==> !Matches(cal, f, w)
  }

  lemma GridIsMinutesAfter(afterMs: int, x: int)
    ensures OnGrid(FirstCandidate(afterMs), x) <==> Aligned(x) && afterMs < x
  {
    var k := afterMs / 60_000 + 1;
    if Aligned(x) && afterMs < x {
      assert x == x / 60_000 * 60_000;
    }
    if OnGrid(k * 60_000, x) {
      var j := (x - k * 60_000) / 60_000;
      assert x == (k + j) * 60_000;
    }
  }

  lemma GridIsMinutes(afterMs: int)
    ensures forall x :: OnGrid(FirstCandidate(afterMs), x) <==> Aligned(x) && afterMs < x
  {
    forall x ensures OnGrid(FirstCandidate(afterMs), x) <==> Aligned(x) && afterMs < x {
      GridIsMinutesAfter(afterMs, x);
    }
  }

  /** The scan returns exactly the least match. */
  lemma ScanIsLeastMatch(cal: Calendar, f: Fields, afterMs: int)
    ensures match FirstMatch(cal, f, afterMs)
            case Some(r) => IsNextMatch(cal, f, afterMs, r)
            case None => NoMatch(cal, f, afterMs)
  {
    GridIsMinutes(afterMs);
    var hit := Hit(cal, f);
    ScanFindsFirst(hit, _ => false, FirstCandidate(afterMs), Deadline(afterMs));
    var r := FirstMatch(cal, f, afterMs);
    if r.Some? {
      forall x | Aligned(x) && afterMs < x < r.value ensures !Matches(cal, f, x) {
        assert OnGrid(FirstCandidate(afterMs), x);
        assert !hit(x);
      }
    } else {
      forall x | Aligned(x) && afterMs < x <= Deadline(afterMs) ensures !Matches(cal, f, x) {
        assert OnGrid(FirstCandidate(afterMs), x);
        assert !hit(x);
      }
    }
  }

  lemma StoppedIsStray(cal: Calendar, f: Fields, afterMs: int)
    ensures Stopped(Hit(cal, f), Astray(cal, f), FirstCandidate(afterMs), Deadline(afterMs))
            <==> StraysFirst(cal, f, afterMs)
  {
    GridIsMinutes(afterMs);
    var t, dl := FirstCandidate(afterMs), Deadline(afterMs);
    var hit, stop := Hit(cal, f), Astray(cal, f);
    if Stopped(hit, stop, t, dl) {
      var x :| OnGrid(t, x) && x <= dl && stop(x) && !hit(x) && forall w :: OnGrid(t, w) && w < x ==> !hit(w);
      forall w | Aligned(w) && afterMs < w < x ensures !Matches(cal, f, w) {
        assert OnGrid(t, w) && !hit(w);
      }
      assert Aligned(x) && GoesAstray(cal, f, x);
    }
    if StraysFirst(cal, f, afterMs) {
      var x :| && Aligned(x) && afterMs < x <= dl && GoesAstray(cal, f, x)
               && forall w :: Aligned(w) && afterMs < w < x ==> !Matches(cal, f, w);
      forall w | OnGrid(t, w) && w < x ensures !hit(w) {
        assert Aligned(w) && !Matches(cal, f, w);
      }
      assert OnGrid(t, x) && stop(x) && !hit(x);
    }
  }

  /** The search never returns anything but the least match, and misses it exactly when it strays first. */
  lemma SearchIsExact(cal: Calendar, f: Fields, afterMs: int)
    ensures var r := NextCronMatch(cal, f, afterMs);
            r.Some? ==> IsNextMatch(cal, f, afterMs, r.value)
    ensures NextCronMatch(cal, f, afterMs) == FirstMatch(cal, f, afterMs)
            <==> !(StraysFirst(cal, f, afterMs) && FirstMatch(cal, f, afterMs).Some?)
  {
    ScanStopped(Hit(cal, f), Astray(cal, f), FirstCandidate(afterMs), Deadline(afterMs));
    StoppedIsStray(cal, f, afterMs);
    ScanIsLeastMatch(cal, f, afterMs);
  }

  /** On every clock a server can show, the jumps agree with the minute-by-minute scan. */
  lemma SearchMatchesScan(f: Fields, afterMs: int)
    requires YearOfDay(DayOf(FirstCandidate(afterMs))) >= 100 || YearOfDay(DayOf(Deadline(afterMs))) < 0
    ensures match NextCronMatch(GREGORIAN, f, afterMs)
            case Some(r) => IsNextMatch(GREGORIAN, f, afterMs, r)
            case None => NoMatch(GREGORIAN, f, afterMs)
  {
    if StraysFirst(GREGORIAN, f, afterMs) {
      var x :| Aligned(x) && afterMs < x <= Deadline(afterMs) && GoesAstray(GREGORIAN, f, x);
      GridIsMinutesAfter(afterMs, x);
      YearsAscend(DayOf(FirstCandidate(afterMs)), DayOf(x));
      YearsAscend(DayOf(x), DayOf(Deadline(afterMs)));
      assert false;
    }
    SearchIsExact(GREGORIAN, f, afterMs);
    ScanIsLeastMatch(GREGORIAN, f, afterMs);
  }

  predicate Within(lo: int, v: int, hi: int) { lo <= v <= hi }

  function Numbers(lo: int, hi: int): (r: set<int>)
    ensures forall v :: v in r <==> lo <= v <= hi
  {
    set v | lo <= v <= hi && Within(lo, v, hi)
  }

  /** Every day of every month, at minute 0 of every hour but one. */
  function AllHoursBut(hour: int): Fields {
    Fields({0}, Numbers(0, 23) - {hour}, Numbers(1, 31), Numbers(1, 12), Numbers(0, 6), false, false)
  }

  lemma AllHoursButMatches(cal: Calendar, t: int, r: int)
    requires 0 <= cal.civil(DayOf(r)).month < 12
    requires HourOf(r) != HourOf(t) && MinuteOf(r) == 0
    ensures Matches(cal, AllHoursBut(HourOf(t)), r)
  {
  }

  lemma AllHoursButStrays(cal: Calendar, t: int, deadline: int)
    requires TwoDigit(cal.civil(DayOf(t)).year)
    ensures var f := AllHoursBut(HourOf(t)); Scan(Hit(cal, f), Astray(cal, f), t, deadline) == None
  {
    var f := AllHoursBut(HourOf(t));
    assert !Hit(cal, f)(t) && Astray(cal, f)(t);
  }

  /** From any time in a two-digit year there is a schedule whose next run the search misses. */
  lemma TwoDigitYearsMissRuns(afterMs: int)
    requires TwoDigit(YearOfDay(DayOf(FirstCandidate(afterMs))))
    ensures var f := AllHoursBut(HourOf(FirstCandidate(afterMs)));
      NextCronMatch(GREGORIAN, f, afterMs) == None && FirstMatch(GREGORIAN, f, afterMs).Some?
  {
    var t := FirstCandidate(afterMs);
    AllHoursButStrays(GREGORIAN, t, Deadline(afterMs));
    var r := (t / 3_600_000 + 1) * 3_600_000;
    NextHourReads(t);
    AllHoursButMatches(GREGORIAN, t, r);
    ScanIsLeastMatch(GREGORIAN, AllHoursBut(HourOf(t)), afterMs);
  }

  lemma NextHourReads(t: int)
    ensures var r := (t / 3_600_000 + 1) * 3_600_000;
      MinuteOf(r) == 0 && HourOf(r) != HourOf(t) && Aligned(r) && t < r <= t + LOOKAHEAD_MS
  {
    var h := t / 3_600_000 + 1;
    assert h * 3_600_000 == 60_000 * (h * 60);
    assert h * 60 % 60 == 0;
  }
}
