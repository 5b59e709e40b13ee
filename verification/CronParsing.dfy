/**
 Schedules and cron fields from their tokens (src/automation/cronSchedule.ts): `Number(...)` has
 already been applied, with None for a token that is not an integer.
 */
module CronParsing {
  import opened Wrappers
  import opened Arithmetic
  import opened Calendar
  import opened CronSchedule

  datatype Schedule =
    | Manual
    | Interval(intervalMs: int)
    | Cron(fields: Fields)
    | Invalid

  datatype Range = Star | Span(bounds: seq<Option<int>>) | Single(value: Option<int>)

  /** One comma-separated part; step is None when the part has no slash. */
  datatype Part = Blank | Part(range: Range, step: Option<Option<int>>)

  datatype Unit = Minutes | Hours | Days

  datatype ScheduleText =
    | EmptyText
    | ManualOnly
    | Every(amount: nat, unit: Unit)
    | Words(words: seq<seq<Part>>)

  const STAR: seq<Part> := [Part(Star, None)]

  function UnitMs(unit: Unit): int {
    match unit
    case Minutes => MINUTE_MS
    case Hours => HOUR_MS
    case Days => DAY_MS
  }

  // ----- what a part selects -----

  function StepOf(p: Part): int
    requires p.Part?
  {
    if p.step.Some? && p.step.value.Some? then p.step.value.value else 1
  }

  predicate StepIsValid(p: Part)
    requires p.Part?
  {
    p.step.Some? ==> p.step.value.Some? && p.step.value.value > 0
  }

  /** The bounds of a part, where "N/step" runs up to the maximum. */
  function Bounds(p: Part, min: int, max: int): Option<(int, int)>
    requires p.Part?
  {
    match p.range
    case Star => Some((min, max))
    case Span(b) =>
      if |b| == 2 && b[0].Some? && b[1].Some? then Some((b[0].value, b[1].value)) else None
    case Single(v) =>
      if v.None? then None else Some((v.value, if p.step.Some? then max else v.value))
  }

  predicate PartIsValid(p: Part, min: int, max: int) {
    && p.Part? && StepIsValid(p)
    && var b := Bounds(p, min, max);
    b.Some? && min <= b.value.0 <= b.value.1 <= max
  }

  predicate Selects(p: Part, min: int, max: int, v: int)
    requires PartIsValid(p, min, max)
  {
    var b := Bounds(p, min, max).value;
    b.0 <= v <= b.1 && (v - b.0) % StepOf(p) == 0
  }

  predicate FieldIsValid(spec: seq<Part>, min: int, max: int) {
    spec != [] && forall i :: 0 <= i < |spec| ==> PartIsValid(spec[i], min, max)
  }

  ghost predicate FieldSelects(spec: seq<Part>, min: int, max: int, v: int)
    requires FieldIsValid(spec, min, max)
  {
    exists i :: 0 <= i < |spec| && Selects(spec[i], min, max, v)
  }

  /** Past a value it selects, a part selects nothing before the next step. */
  lemma SelectsNextAfter(p: Part, min: int, max: int, value: int)
    requires PartIsValid(p, min, max) && Selects(p, min, max, value)
    ensures var lo := Bounds(p, min, max).value.0;
      (value + StepOf(p) - lo) % StepOf(p) == 0
    ensures forall v :: value < v < value + StepOf(p) ==> !Selects(p, min, max, v)
  {
    var lo, step := Bounds(p, min, max).value.0, StepOf(p);
    NextMultiple(value - lo, value + step - lo, step);
    forall v | value < v < value + step ensures !Selects(p, min, max, v) {
      NextMultiple(value - lo, v - lo, step);
    }
  }

  // ----- the parsers -----

  /** A field parses exactly when all its parts are well formed, and then holds what they select. */
  method ParseCronField(spec: seq<Part>, min: int, max: int) returns (r: Option<set<int>>)
    requires min <= max
    ensures r.Some? <==> FieldIsValid(spec, min, max)
    ensures r.Some? ==> forall v :: v in r.value <==> FieldSelects(spec, min, max, v)
    ensures r.Some? ==> r.value != {} && forall v :: v in r.value ==> min <= v <= max
  {
    var values: set<int> := {};
    var i := 0;
    while i < |spec|
      invariant 0 <= i <= |spec|
      invariant forall k :: 0 <= k < i ==> PartIsValid(spec[k], min, max)
      invariant forall v :: v in values <==> exists k :: 0 <= k < i && Selects(spec[k], min, max, v)
      invariant i > 0 ==> values != {}
    {
      var part := spec[i];
      if part.Blank? || !StepIsValid(part) {
        return None;
      }
      var step := StepOf(part);
      var bounds := Bounds(part, min, max);
      if bounds.None? {
        return None;
      }
      var (lo, hi) := bounds.value;
      if lo < min || hi > max || lo > hi {
        return None;
      }
      var before := values;
      var value := lo;
      assert (lo - lo) % step == 0;
      while value <= hi
        invariant lo <= value && (value - lo) % step == 0
        invariant forall v :: v in values <==> v in before || (v < value && Selects(part, min, max, v))
        invariant value > lo ==> values != {}
        decreases hi - value
      {
        values := values + {value};
        SelectsNextAfter(part, min, max, value);
        value := value + step;
      }
      i := i + 1;
    }
    return if values != {} then Some(values) else None;
  }

  /** Sunday may be written 0 or 7. */
  method ParseDayOfWeekField(spec: seq<Part>) returns (r: Option<set<int>>)
    ensures r.Some? <==> FieldIsValid(spec, 0, 7)
    ensures r.Some? ==> forall d :: 0 <= d <= 6 ==>
              (d in r.value <==> FieldSelects(spec, 0, 7, d) || (d == 0 && FieldSelects(spec, 0, 7, 7)))
    ensures r.Some? ==> forall d :: d in r.value ==> 0 <= d <= 6
  {
    var raw := ParseCronField(spec, 0, 7);
    if raw.None? {
      return None;
    }
    var normalized: set<int> := {};
    var rest := raw.value;
    while rest != {}
      invariant rest <= raw.value
      invariant forall d :: d in normalized ==> 0 <= d <= 6
      invariant forall d :: 0 <= d <= 6 ==>
        (d in normalized <==> (d in raw.value && d !in rest) || (d == 0 && 7 in raw.value && 7 !in rest))
      decreases rest
    {
      assert |rest| != 0;
      var value :| value in rest;
      normalized := normalized + {if value == 7 then 0 else value};
      rest := rest - {value};
    }
    return Some(normalized);
  }

  predicate FieldsInRange(f: Fields) {
    && (forall v :: v in f.minute ==> 0 <= v <= 59)
    && (forall v :: v in f.hour ==> 0 <= v <= 23)
    && (forall v :: v in f.dayOfMonth ==> 1 <= v <= 31)
    && (forall v :: v in f.month ==> 1 <= v <= 12)
    && (forall v :: v in f.dayOfWeek ==> 0 <= v <= 6)
  }

  predicate WordsAreValid(words: seq<seq<Part>>) {
    && |words| == 5
    && FieldIsValid(words[0], 0, 59) && FieldIsValid(words[1], 0, 23) && FieldIsValid(words[2], 1, 31)
    && FieldIsValid(words[3], 1, 12) && FieldIsValid(words[4], 0, 7)
  }

  ghost predicate HoldsSelected(values: set<int>, spec: seq<Part>, min: int, max: int)
    requires FieldIsValid(spec, min, max)
  {
    forall v :: v in values <==> FieldSelects(spec, min, max, v)
  }

  /** Day 7 counts as Sunday. */
  ghost predicate HoldsSelectedDays(values: set<int>, spec: seq<Part>)
    requires FieldIsValid(spec, 0, 7)
  {
    forall d :: 0 <= d <= 6 ==>
      (d in values <==> FieldSelects(spec, 0, 7, d) || (d == 0 && FieldSelects(spec, 0, 7, 7)))
  }

  /** The fields hold what the five words select, and flag the day words that are no star. */
  ghost predicate FieldsAre(words: seq<seq<Part>>, f: Fields)
    requires WordsAreValid(words)
  {
    && FieldsInRange(f)
    && HoldsSelected(f.minute, words[0], 0, 59) && HoldsSelected(f.hour, words[1], 0, 23)
    && HoldsSelected(f.dayOfMonth, words[2], 1, 31) && HoldsSelected(f.month, words[3], 1, 12)
    && HoldsSelectedDays(f.dayOfWeek, words[4])
    && f.dayOfMonthRestricted == (words[2] != STAR) && f.dayOfWeekRestricted == (words[4] != STAR)
  }

  method ParseNeonCronSchedule(text: ScheduleText) returns (r: Schedule)
    ensures r.Manual? <==> text.ManualOnly?
    ensures r.Interval? <==> text.Every? && text.amount > 0
    ensures r.Interval? ==> r.intervalMs > 0
    ensures r.Interval? && text.unit.Minutes? ==> r.intervalMs == text.amount * 60_000
    ensures r.Interval? && text.unit.Hours? ==> r.intervalMs == text.amount * 3_600_000
    ensures r.Interval? && text.unit.Days? ==> r.intervalMs == text.amount * 86_400_000
    ensures r.Cron? <==> text.Words? && WordsAreValid(text.words)
    ensures r.Cron? ==> FieldsAre(text.words, r.fields)
  {
    match text
    case EmptyText => return Invalid;
    case ManualOnly => return Manual;
    case Every(amount, unit) =>
      return if amount == 0 then Invalid else Interval(amount * UnitMs(unit));
    case Words(words) =>
      if |words| != 5 {
        return Invalid;
      }
      var minute := ParseCronField(words[0], 0, 59);
      var hour := ParseCronField(words[1], 0, 23);
      var dayOfMonth := ParseCronField(words[2], 1, 31);
      var month := ParseCronField(words[3], 1, 12);
      var dayOfWeek := ParseDayOfWeekField(words[4]);
      if minute.None? || hour.None? || dayOfMonth.None? || month.None? || dayOfWeek.None? {
        return Invalid;
      }
      return Cron(Fields(minute.value, hour.value, dayOfMonth.value, month.value, dayOfWeek.value,
                         words[2] != STAR, words[4] != STAR));
  }

  // ----- what the search returns, in terms of the text -----

  /**
   The minute that starts at t is one that the five words name: minute, hour and month by their words, and the
   day by the word for days or the word for week days when neither is a star, by the one that is no star, and
   any day when both are stars. Sunday is 0 or 7.
   */
  ghost predicate Names(cal: Calendar, words: seq<seq<Part>>, t: int)
    requires WordsAreValid(words)
  {
    var c := cal.civil(DayOf(t));
    var byDate := FieldSelects(words[2], 1, 31, c.date);
    var byWeekDay := FieldSelects(words[4], 0, 7, c.weekDay) || (c.weekDay == 0 && FieldSelects(words[4], 0, 7, 7));
    && t % 60_000 == 0
    && FieldSelects(words[0], 0, 59, MinuteOf(t)) && FieldSelects(words[1], 0, 23, HourOf(t))
    && FieldSelects(words[3], 1, 12, c.month + 1)
    && (words[2] != STAR && words[4] != STAR ==> byDate || byWeekDay)
    && (words[2] != STAR && words[4] == STAR ==> byDate)
    && (words[2] == STAR && words[4] != STAR ==> byWeekDay)
  }

  /** What the fields of a text match is what the text names. */
  lemma MatchesIsNames(cal: Calendar, words: seq<seq<Part>>, f: Fields, t: int)
    requires WordsAreValid(words) && FieldsAre(words, f) && t % 60_000 == 0 && 0 <= cal.civil(DayOf(t)).weekDay <= 6
    ensures Matches(cal, f, t) <==> Names(cal, words, t)
  {
    var c := cal.civil(DayOf(t));
    DaySelected(words, f, c);
    assert c.month + 1 in f.month <==> FieldSelects(words[3], 1, 12, c.month + 1);
  }

  predicate HasSevenWeekDays(cal: Calendar, t: int) { 0 <= cal.civil(DayOf(t)).weekDay <= 6 }

  lemma GregorianHasSevenWeekDays(t: int)
    ensures HasSevenWeekDays(GREGORIAN, t)
  {
    GregorianReads(DayOf(t));
    WeekDaysFollow(DayOf(t));
  }

  lemma DaySelected(words: seq<seq<Part>>, f: Fields, c: CivilDay)
    requires WordsAreValid(words) && FieldsAre(words, f) && 0 <= c.weekDay <= 6
    ensures var byDate := FieldSelects(words[2], 1, 31, c.date);
      var byWeekDay := FieldSelects(words[4], 0, 7, c.weekDay) || (c.weekDay == 0 && FieldSelects(words[4], 0, 7, 7));
      DayMatches(f, c) <==>
        && (words[2] != STAR && words[4] != STAR ==> byDate || byWeekDay)
        && (words[2] != STAR && words[4] == STAR ==> byDate)
        && (words[2] == STAR && words[4] != STAR ==> byWeekDay)
  {
    assert c.date in f.dayOfMonth <==> FieldSelects(words[2], 1, 31, c.date);
  }

  /** The last minute that the search considers: 366 days past the first one after afterMs. */
  function LastConsidered(afterMs: int): int { (afterMs / 60_000 + 1) * 60_000 + 366 * 86_400_000 }

  lemma LeastMatchIsLeastNamed(cal: Calendar, words: seq<seq<Part>>, f: Fields, afterMs: int, r: int)
    requires WordsAreValid(words) && FieldsAre(words, f) && forall t :: HasSevenWeekDays(cal, t)
    requires IsNextMatch(cal, f, afterMs, r)
    ensures afterMs < r <= LastConsidered(afterMs) && Names(cal, words, r)
    ensures forall x :: afterMs < x < r ==> !Names(cal, words, x)
  {
    assert HasSevenWeekDays(cal, r);
    MatchesIsNames(cal, words, f, r);
    forall x | afterMs < x < r ensures !Names(cal, words, x) {
      if x % 60_000 == 0 {
        assert HasSevenWeekDays(cal, x);
        MatchesIsNames(cal, words, f, x);
        assert Aligned(x) && !Matches(cal, f, x);
      }
    }
  }

  lemma NoMatchIsNoneNamed(cal: Calendar, words: seq<seq<Part>>, f: Fields, afterMs: int)
    requires WordsAreValid(words) && FieldsAre(words, f) && forall t :: HasSevenWeekDays(cal, t)
    requires NoMatch(cal, f, afterMs)
    ensures forall x :: afterMs < x <= LastConsidered(afterMs) ==> !Names(cal, words, x)
  {
    forall x | afterMs < x <= LastConsidered(afterMs) ensures !Names(cal, words, x) {
      if x % 60_000 == 0 {
        assert HasSevenWeekDays(cal, x);
        MatchesIsNames(cal, words, f, x);
        assert Aligned(x) && !Matches(cal, f, x);
      }
    }
  }

  /** Whatever the search returns for a text is the least minute after afterMs that the text names. */
  lemma SearchFindsLeastNamed(words: seq<seq<Part>>, f: Fields, afterMs: int)
    requires WordsAreValid(words) && FieldsAre(words, f)
    ensures var r := NextCronMatch(GREGORIAN, f, afterMs);
      r.Some? ==>
        && afterMs < r.value <= LastConsidered(afterMs) && Names(GREGORIAN, words, r.value)
        && forall x :: afterMs < x < r.value ==> !Names(GREGORIAN, words, x)
  {
    SearchIsExact(GREGORIAN, f, afterMs);
    forall t ensures HasSevenWeekDays(GREGORIAN, t) {
      GregorianHasSevenWeekDays(t);
    }
    var r := NextCronMatch(GREGORIAN, f, afterMs);
    if r.Some? {
      LeastMatchIsLeastNamed(GREGORIAN, words, f, afterMs, r.value);
    }
  }

  /** And for windows that avoid the years 0 to 99 it returns nothing only if the text names no minute there. */
  lemma SearchMissesNoNamed(words: seq<seq<Part>>, f: Fields, afterMs: int)
    requires WordsAreValid(words) && FieldsAre(words, f)
    requires YearOfDay(DayOf(FirstCandidate(afterMs))) >= 100 || YearOfDay(DayOf(Deadline(afterMs))) < 0
    requires NextCronMatch(GREGORIAN, f, afterMs).None?
    ensures forall x :: afterMs < x <= LastConsidered(afterMs) ==> !Names(GREGORIAN, words, x)
  {
    SearchMatchesScan(f, afterMs);
    forall t ensures HasSevenWeekDays(GREGORIAN, t) {
      GregorianHasSevenWeekDays(t);
    }
    NoMatchIsNoneNamed(GREGORIAN, words, f, afterMs);
  }

  // ----- what the parts of a word select -----

  /** A star, a number or a range, each with or without a step; a number with a step runs up to the maximum. */
  lemma PartSelects(min: int, max: int, a: int, b: int, step: int, v: int)
    requires min <= a <= b <= max && step > 0
    ensures var star, starStep := Part(Star, None), Part(Star, Some(Some(step)));
      && PartIsValid(star, min, max) && (Selects(star, min, max, v) <==> min <= v <= max)
      && PartIsValid(starStep, min, max) && (Selects(starStep, min, max, v) <==> min <= v <= max && (v - min) % step == 0)
    ensures var one, oneStep := Part(Single(Some(a)), None), Part(Single(Some(a)), Some(Some(step)));
      && PartIsValid(one, min, max) && (Selects(one, min, max, v) <==> v == a)
      && PartIsValid(oneStep, min, max) && (Selects(oneStep, min, max, v) <==> a <= v <= max && (v - a) % step == 0)
    ensures var span := [Some(a), Some(b)];
      var range, rangeStep := Part(Span(span), None), Part(Span(span), Some(Some(step)));
      && PartIsValid(range, min, max) && (Selects(range, min, max, v) <==> a <= v <= b)
      && PartIsValid(rangeStep, min, max) && (Selects(rangeStep, min, max, v) <==> a <= v <= b && (v - a) % step == 0)
  {
    PlainPartSelects(Part(Star, None), min, max, v);
    PlainPartSelects(Part(Single(Some(a)), None), min, max, v);
    PlainPartSelects(Part(Span([Some(a), Some(b)]), None), min, max, v);
  }

  /** Nothing else is a part: a step must be a positive integer, a range have two ends in order and within bounds. */
  lemma PartIsOneOf(p: Part, min: int, max: int)
    requires min <= max
    ensures PartIsValid(p, min, max) ==>
      && p.Part? && (p.step.None? || (p.step.value.Some? && p.step.value.value > 0))
      && match p.range
         case Star => true
         case Single(v) => v.Some? && min <= v.value <= max
         case Span(b) => |b| == 2 && b[0].Some? && b[1].Some? && min <= b[0].value <= b[1].value <= max
  {
  }

  /** A schedule is due when its next run after the last one has come; without a last run only an interval is. */
  lemma DueExactly(cal: Calendar, s: Schedule, nowMs: int, lastRunAtMs: Option<int>)
    ensures IsNeonCronScheduleDue(cal, s, nowMs, lastRunAtMs) <==>
      match s
      case Manual => false
      case Invalid => false
      case Interval(ms) => lastRunAtMs.None? || lastRunAtMs.value + ms <= nowMs
      case Cron(f) =>
        lastRunAtMs.Some? && var next := NextCronMatch(cal, f, lastRunAtMs.value); next.Some? && next.value <= nowMs
  {
  }

  // ----- a schedule whose runs are missed -----

  /** "0", the hours of the day but one, and three stars: up to hour - 1, from hour + 1, or both. */
  function HourParts(hour: int): seq<Part>
    requires 0 <= hour <= 23
  {
    (if hour > 0 then [Part(Span([Some(0), Some(hour - 1)]), None)] else [])
    + (if hour < 23 then [Part(Span([Some(hour + 1), Some(23)]), None)] else [])
  }

  function WordsForAllHoursBut(hour: int): seq<seq<Part>>
    requires 0 <= hour <= 23
  {
    [[Part(Single(Some(0)), None)], HourParts(hour), STAR, STAR, STAR]
  }

  /** A part without a step selects all between its bounds. */
  lemma PlainPartSelects(p: Part, min: int, max: int, v: int)
    requires PartIsValid(p, min, max) && p.step.None?
    ensures var b := Bounds(p, min, max).value; Selects(p, min, max, v) <==> b.0 <= v <= b.1
  {
    assert StepOf(p) == 1;
  }

  lemma OnePartSelects(p: Part, min: int, max: int, v: int)
    requires PartIsValid(p, min, max) && p.step.None?
    ensures FieldIsValid([p], min, max)
    ensures var b := Bounds(p, min, max).value; FieldSelects([p], min, max, v) <==> b.0 <= v <= b.1
  {
    PlainPartSelects(p, min, max, v);
    assert [p][0] == p;
  }

  lemma TwoPartsSelect(p: Part, q: Part, min: int, max: int, v: int)
    requires PartIsValid(p, min, max) && PartIsValid(q, min, max) && p.step.None? && q.step.None?
    ensures FieldIsValid([p, q], min, max)
    ensures var b, c := Bounds(p, min, max).value, Bounds(q, min, max).value;
      FieldSelects([p, q], min, max, v) <==> b.0 <= v <= b.1 || c.0 <= v <= c.1
  {
    PlainPartSelects(p, min, max, v);
    PlainPartSelects(q, min, max, v);
    assert [p, q][0] == p && [p, q][1] == q;
  }

  lemma HourPartsSelect(hour: int, v: int)
    requires 0 <= hour <= 23
    ensures FieldIsValid(HourParts(hour), 0, 23)
    ensures FieldSelects(HourParts(hour), 0, 23, v) <==> 0 <= v <= 23 && v != hour
  {
    var below, above := Part(Span([Some(0), Some(hour - 1)]), None), Part(Span([Some(hour + 1), Some(23)]), None);
    if hour == 0 {
      assert HourParts(hour) == [above];
      OnePartSelects(above, 0, 23, v);
    } else if hour == 23 {
      assert HourParts(hour) == [below];
      OnePartSelects(below, 0, 23, v);
    } else {
      assert HourParts(hour) == [below, above];
      TwoPartsSelect(below, above, 0, 23, v);
    }
  }

  lemma SingleHolds(n: int, min: int, max: int)
    requires min <= n <= max
    ensures var one := [Part(Single(Some(n)), None)]; FieldIsValid(one, min, max) && HoldsSelected({n}, one, min, max)
  {
    var one := Part(Single(Some(n)), None);
    OnePartSelects(one, min, max, n);
    forall v ensures v in {n} <==> FieldSelects([one], min, max, v) {
      OnePartSelects(one, min, max, v);
    }
  }

  lemma HoursHold(hour: int)
    requires 0 <= hour <= 23
    ensures FieldIsValid(HourParts(hour), 0, 23) && HoldsSelected(Numbers(0, 23) - {hour}, HourParts(hour), 0, 23)
  {
    HourPartsSelect(hour, 0);
    forall v ensures v in Numbers(0, 23) - {hour} <==> FieldSelects(HourParts(hour), 0, 23, v) {
      HourPartsSelect(hour, v);
    }
  }

  lemma StarHolds(min: int, max: int)
    requires min <= max
    ensures FieldIsValid(STAR, min, max) && HoldsSelected(Numbers(min, max), STAR, min, max)
  {
    var star := Part(Star, None);
    OnePartSelects(star, min, max, min);
    forall v ensures v in Numbers(min, max) <==> FieldSelects([star], min, max, v) {
      OnePartSelects(star, min, max, v);
    }
  }

  lemma StarHoldsDays()
    ensures FieldIsValid(STAR, 0, 7) && HoldsSelectedDays(Numbers(0, 6), STAR)
  {
    StarHolds(0, 7);
  }

  /** Five words, each with the values that it selects. */
  lemma FiveWords(minute: seq<Part>, hour: seq<Part>, day: seq<Part>, month: seq<Part>, weekDay: seq<Part>, f: Fields)
    requires FieldIsValid(minute, 0, 59) && HoldsSelected(f.minute, minute, 0, 59)
    requires FieldIsValid(hour, 0, 23) && HoldsSelected(f.hour, hour, 0, 23)
    requires FieldIsValid(day, 1, 31) && HoldsSelected(f.dayOfMonth, day, 1, 31)
    requires FieldIsValid(month, 1, 12) && HoldsSelected(f.month, month, 1, 12)
    requires FieldIsValid(weekDay, 0, 7) && HoldsSelectedDays(f.dayOfWeek, weekDay)
    requires FieldsInRange(f) && f.dayOfMonthRestricted == (day != STAR) && f.dayOfWeekRestricted == (weekDay != STAR)
    ensures var words := [minute, hour, day, month, weekDay]; WordsAreValid(words) && FieldsAre(words, f)
  {
  }

  lemma AllHoursButInRange(hour: int)
    ensures FieldsInRange(AllHoursBut(hour))
  {
  }

  /** The words parse, and to the schedule of every hour but one. */
  lemma AllHoursButIsWritten(hour: int)
    requires 0 <= hour <= 23
    ensures WordsAreValid(WordsForAllHoursBut(hour)) && FieldsAre(WordsForAllHoursBut(hour), AllHoursBut(hour))
  {
    SingleHolds(0, 0, 59);
    HoursHold(hour);
    StarHolds(1, 31);
    StarHolds(1, 12);
    StarHoldsDays();
    AllHoursButInRange(hour);
    FiveWords([Part(Single(Some(0)), None)], HourParts(hour), STAR, STAR, STAR, AllHoursBut(hour));
  }

  lemma SelectedIsUnique(s: set<int>, t: set<int>, spec: seq<Part>, min: int, max: int)
    requires FieldIsValid(spec, min, max) && HoldsSelected(s, spec, min, max) && HoldsSelected(t, spec, min, max)
    ensures s == t
  {
    forall v ensures v in s <==> v in t {
      assert v in s <==> FieldSelects(spec, min, max, v);
    }
  }

  lemma SelectedDaysAreUnique(s: set<int>, t: set<int>, spec: seq<Part>)
    requires FieldIsValid(spec, 0, 7) && HoldsSelectedDays(s, spec) && HoldsSelectedDays(t, spec)
    requires forall d :: d in s + t ==> 0 <= d <= 6
    ensures s == t
  {
    forall d ensures d in s <==> d in t {
      if d in s + t {
        assert d in s <==> FieldSelects(spec, 0, 7, d) || (d == 0 && FieldSelects(spec, 0, 7, 7));
      }
    }
  }

  /** Two-digit years miss runs of a schedule that a text gives: every parse of these words does. */
  lemma TwoDigitYearsMissWrittenRuns(afterMs: int, f: Fields)
    requires TwoDigit(YearOfDay(DayOf(FirstCandidate(afterMs))))
    requires var words := WordsForAllHoursBut(HourOf(FirstCandidate(afterMs))); WordsAreValid(words) && FieldsAre(words, f)
    ensures NextCronMatch(GREGORIAN, f, afterMs) == None && FirstMatch(GREGORIAN, f, afterMs).Some?
  {
    var hour := HourOf(FirstCandidate(afterMs));
    AllHoursButIsWritten(hour);
    FieldsAreUnique(WordsForAllHoursBut(hour), f, AllHoursBut(hour));
    TwoDigitYearsMissRuns(afterMs);
  }

  lemma FieldsAreUnique(words: seq<seq<Part>>, f: Fields, g: Fields)
    requires WordsAreValid(words) && FieldsAre(words, f) && FieldsAre(words, g)
    ensures f == g
  {
    SelectedIsUnique(f.minute, g.minute, words[0], 0, 59);
    SelectedIsUnique(f.hour, g.hour, words[1], 0, 23);
    SelectedIsUnique(f.dayOfMonth, g.dayOfMonth, words[2], 1, 31);
    SelectedIsUnique(f.month, g.month, words[3], 1, 12);
    SelectedDaysAreUnique(f.dayOfWeek, g.dayOfWeek, words[4]);
  }

  // ----- next run and due decision -----

  /** The earliest scheduled time after afterMs; ComputeNextCronMatchMs is the search behind the cron case. */
  function ComputeNeonNextRunAtMs(cal: Calendar, schedule: Schedule, afterMs: int): Option<int> {
    match schedule
    case Manual => None
    case Invalid => None
    case Interval(intervalMs) => Some(afterMs + intervalMs)
    case Cron(fields) => NextCronMatch(cal, fields, afterMs)
  }

  function IsNeonCronScheduleDue(cal: Calendar, schedule: Schedule, nowMs: int, lastRunAtMs: Option<int>): bool {
    if schedule.Manual? || schedule.Invalid? then false
    else if lastRunAtMs.None? then schedule.Interval?
    else
      var next := ComputeNeonNextRunAtMs(cal, schedule, lastRunAtMs.value);
      next.Some? && next.value <= nowMs
  }
}
