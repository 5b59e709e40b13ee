/** Wake deferral and the flood guard (src/automation/heartbeatCooldown.ts). */
module HeartbeatCooldown {
  import opened Wrappers
  import opened HeartbeatWake

  datatype DeferReason = WakeNotDue | MinSpacing | Flood

  datatype Decision = Run | Defer(reason: DeferReason)

  datatype Limits = Limits(minSpacingMs: int, floodWindowMs: int, floodThreshold: int)

  const DEFAULT_LIMITS := Limits(30_000, 60_000, 5)

  /** How many of the newest entries in a row are at or after windowStart. */
  function TrailingFrom(buffer: seq<int>, windowStart: int): nat {
    if buffer == [] || buffer[|buffer| - 1] < windowStart then 0
    else 1 + TrailingFrom(buffer[..|buffer| - 1], windowStart)
  }

  predicate FloodTrips(recent: Option<seq<int>>, now: int, limits: Limits) {
    && recent.Some? && |recent.value| >= limits.floodThreshold && limits.floodWindowMs > 0
    && TrailingFrom(recent.value, now - limits.floodWindowMs) >= limits.floodThreshold
  }

  method CheckFloodGuard(recent: Option<seq<int>>, now: int, limits: Limits) returns (trips: bool)
    ensures trips == FloodTrips(recent, now, limits)
  {
    if recent.None? || |recent.value| < limits.floodThreshold || limits.floodWindowMs <= 0 {
      return false;
    }
    var starts := recent.value;
    var windowStart := now - limits.floodWindowMs;
    var inWindow := 0;
    var i := |starts| - 1;
    assert starts[..i + 1] == starts;
    while i >= 0
      invariant -1 <= i < |starts|
      invariant inWindow + TrailingFrom(starts[..i + 1], windowStart) == TrailingFrom(starts, windowStart)
      decreases i
    {
      if starts[i] < windowStart {
        break;
      }
      assert starts[..i + 1][..i] == starts[..i];
      inWindow := inWindow + 1;
      i := i - 1;
    }
    return inWindow >= limits.floodThreshold;
  }

  /** Manual wakes always run; every other wake passes the flood guard first. */
  function ShouldDefer(
    intent: Intent, now: int, nextDueMs: int, lastRunStartedAt: Option<int>, recent: Option<seq<int>>, limits: Limits)
    : Decision
  {
    if intent.Manual? then Run
    else if FloodTrips(recent, now, limits) then Defer(Flood)
    else if intent.Immediate? then Run
    else if intent.Scheduled? then if now < nextDueMs then Defer(WakeNotDue) else Run
    else if lastRunStartedAt.None? then Run
    else if now < nextDueMs then Defer(WakeNotDue)
    else if limits.minSpacingMs > 0 && now - lastRunStartedAt.value < limits.minSpacingMs then Defer(MinSpacing)
    else Run
  }

  lemma {:induction false} TrailingExactly(buffer: seq<int>, windowStart: int, n: int)
    requires n <= |buffer|
    ensures n <= TrailingFrom(buffer, windowStart)
            <==> forall i :: 0 <= i < |buffer| && |buffer| - n <= i ==> windowStart <= buffer[i]
  {
    if buffer != [] && n > 0 {
      var m := |buffer| - 1;
      assert buffer[m] >= windowStart || |buffer| - n <= m;
      TrailingExactly(buffer[..m], windowStart, n - 1);
      assert forall i :: 0 <= i < m ==> buffer[..m][i] == buffer[i];
    }
  }

  /** The guard trips exactly when the newest starts, as many as the threshold, all lie in the window. */
  lemma FloodExactly(recent: Option<seq<int>>, now: int, limits: Limits)
    ensures FloodTrips(recent, now, limits)
            <==> && recent.Some? && limits.floodWindowMs > 0 && |recent.value| >= limits.floodThreshold
                 && forall i :: 0 <= i < |recent.value| && |recent.value| - limits.floodThreshold <= i ==>
                      now - limits.floodWindowMs <= recent.value[i]
  {
    if recent.Some? && |recent.value| >= limits.floodThreshold {
      TrailingExactly(recent.value, now - limits.floodWindowMs, limits.floodThreshold);
    }
  }

  /** Which wakes are deferred, and for which reason. */
  lemma DeferExactly(
    intent: Intent, now: int, nextDueMs: int, lastRunStartedAt: Option<int>, recent: Option<seq<int>>, limits: Limits)
    ensures var d := ShouldDefer(intent, now, nextDueMs, lastRunStartedAt, recent, limits);
      var flood := FloodTrips(recent, now, limits);
      && (d == Defer(Flood) <==> intent != Manual && flood)
      && (d == Defer(WakeNotDue)
          <==> !flood && now < nextDueMs && (intent == Scheduled || (intent == Event && lastRunStartedAt.Some?)))
      && (d == Defer(MinSpacing)
          <==> && !flood && nextDueMs <= now && intent == Event && lastRunStartedAt.Some?
               && limits.minSpacingMs > 0 && now < lastRunStartedAt.value + limits.minSpacingMs)
  {
  }

  /** `slice(-max)`: the last max elements, or a drop from the front when max is not positive. */
  function SliceFromEnd(s: seq<int>, max: int): seq<int> {
    if max > 0 then s[if |s| > max then |s| - max else 0..]
    else s[if -max < |s| then -max else |s|..]
  }

  function RecordRunStart(buffer: seq<int>, ts: int, floodThreshold: int): seq<int> {
    var next := buffer + [ts];
    if |next| > floodThreshold + 1 then SliceFromEnd(next, floodThreshold + 1) else next
  }

  // ----- the trimmed buffer against the full history -----

  /** The buffer after recording a whole history of starts. */
  function Recorded(history: seq<int>, floodThreshold: int): seq<int> {
    if history == [] then []
    else
      var n := |history| - 1;
      RecordRunStart(Recorded(history[..n], floodThreshold), history[n], floodThreshold)
  }

  function CountFrom(history: seq<int>, windowStart: int): nat {
    if history == [] then 0
    else
      var n := |history| - 1;
      CountFrom(history[..n], windowStart) + if history[n] >= windowStart then 1 else 0
  }

  predicate Sorted(s: seq<int>) { forall i, j :: 0 <= i < j < |s| ==> s[i] <= s[j] }

  lemma RecordKeepsSuffix(before: seq<int>, b: seq<int>, ts: int, max: int)
    requires max > 0 && b == before[if |before| > max then |before| - max else 0..]
    ensures var all := before + [ts];
      RecordRunStart(b, ts, max - 1) == all[if |all| > max then |all| - max else 0..]
  {
    var all, next := before + [ts], b + [ts];
    var cut := if |before| > max then |before| - max else 0;
    assert next == all[cut..];
    if |next| > max {
      assert next[1..] == all[cut + 1..];
    }
  }

  lemma {:induction false} RecordedIsSuffix(history: seq<int>, floodThreshold: int)
    requires floodThreshold >= 0
    ensures var b := Recorded(history, floodThreshold);
      && |b| == (if |history| <= floodThreshold + 1 then |history| else floodThreshold + 1)
      && b == history[|history| - |b|..]
  {
    if history != [] {
      var n := |history| - 1;
      RecordedIsSuffix(history[..n], floodThreshold);
      RecordKeepsSuffix(history[..n], Recorded(history[..n], floodThreshold), history[n], floodThreshold + 1);
      assert history == history[..n] + [history[n]];
    }
  }

  /** Cutting the front off a buffer only caps the trailing count. */
  lemma {:induction false} TrailingOfSuffix(s: seq<int>, k: nat, windowStart: int)
    requires k <= |s|
    ensures TrailingFrom(s[k..], windowStart)
            == if TrailingFrom(s, windowStart) <= |s| - k then TrailingFrom(s, windowStart) else |s| - k
    ensures TrailingFrom(s, windowStart) <= |s|
  {
    if k < |s| {
      var n := |s| - 1;
      assert s[k..][..n - k] == s[..n][k..];
      TrailingOfSuffix(s[..n], k, windowStart);
    } else {
      TrailingIsBounded(s, windowStart);
    }
  }

  lemma {:induction false} TrailingIsBounded(s: seq<int>, windowStart: int)
    ensures TrailingFrom(s, windowStart) <= |s|
  {
    if s != [] {
      TrailingIsBounded(s[..|s| - 1], windowStart);
    }
  }

  lemma {:induction false} TrailingIsCount(s: seq<int>, windowStart: int)
    requires Sorted(s)
    ensures TrailingFrom(s, windowStart) == CountFrom(s, windowStart)
  {
    if s != [] {
      var n := |s| - 1;
      TrailingIsCount(s[..n], windowStart);
      if s[n] < windowStart {
        NoneFrom(s[..n], windowStart);
      }
    }
  }

  lemma {:induction false} NoneFrom(s: seq<int>, windowStart: int)
    requires forall i :: 0 <= i < |s| ==> s[i] < windowStart
    ensures CountFrom(s, windowStart) == 0
  {
    if s != [] {
      NoneFrom(s[..|s| - 1], windowStart);
    }
  }

  /** The trimmed buffer and the early break decide as the whole history would. */
  lemma TrimmedBufferDecides(history: seq<int>, now: int, limits: Limits)
    requires Sorted(history)
    ensures FloodTrips(Some(Recorded(history, limits.floodThreshold)), now, limits)
            <==> limits.floodWindowMs > 0 && CountFrom(history, now - limits.floodWindowMs) >= limits.floodThreshold
  {
    var start := now - limits.floodWindowMs;
    TrailingIsCount(history, start);
    TrailingIsBounded(history, start);
    if limits.floodThreshold >= 0 {
      var b := Recorded(history, limits.floodThreshold);
      RecordedIsSuffix(history, limits.floodThreshold);
      TrailingOfSuffix(history, |history| - |b|, start);
    }
  }

  // ----- runs -----

  datatype Wake = Wake(intent: Intent, now: int, nextDueMs: int, lastRunStartedAt: Option<int>)

  datatype Start = Start(at: int, manual: bool)

  function Times(starts: seq<Start>): seq<int> {
    seq(|starts|, i requires 0 <= i < |starts| => starts[i].at)
  }

  /** The runs that start over a sequence of wakes, each recorded at its own time. */
  function Starts(wakes: seq<Wake>, limits: Limits): seq<Start> {
    if wakes == [] then []
    else
      var n := |wakes| - 1;
      var before := Starts(wakes[..n], limits);
      var w := wakes[n];
      var recent := Some(Recorded(Times(before), limits.floodThreshold));
      if ShouldDefer(w.intent, w.now, w.nextDueMs, w.lastRunStartedAt, recent, limits).Run?
      then before + [Start(w.now, w.intent.Manual?)]
      else before
  }

  /** Non-manual starts in the closed interval from x to x + length. */
  function UnforcedIn(starts: seq<Start>, x: int, length: int): nat {
    if starts == [] then 0
    else
      var n := |starts| - 1;
      UnforcedIn(starts[..n], x, length) + if !starts[n].manual && x <= starts[n].at <= x + length then 1 else 0
  }

  predicate ClockNeverGoesBack(wakes: seq<Wake>) {
    forall i, j :: 0 <= i < j < |wakes| ==> wakes[i].now <= wakes[j].now
  }

  lemma {:induction false} StartsAreSorted(wakes: seq<Wake>, limits: Limits)
    requires ClockNeverGoesBack(wakes)
    ensures var starts := Starts(wakes, limits);
      && Sorted(Times(starts))
      && forall i :: 0 <= i < |starts| ==> wakes != [] && starts[i].at <= wakes[|wakes| - 1].now
  {
    if wakes != [] {
      var n := |wakes| - 1;
      StartsAreSorted(wakes[..n], limits);
      var before, starts := Starts(wakes[..n], limits), Starts(wakes, limits);
      forall i, j | 0 <= i < j < |starts| ensures Times(starts)[i] <= Times(starts)[j] {
        if j < |before| {
          assert Times(before)[i] <= Times(before)[j];
        }
      }
    }
  }

  lemma {:induction false} UnforcedAreFrom(starts: seq<Start>, x: int, length: int, windowStart: int)
    requires windowStart <= x
    ensures UnforcedIn(starts, x, length) <= CountFrom(Times(starts), windowStart)
  {
    if starts != [] {
      var n := |starts| - 1;
      UnforcedAreFrom(starts[..n], x, length, windowStart);
      assert Times(starts)[..n] == Times(starts[..n]);
    }
  }

  /** A wake that runs unforced has passed the flood guard, so the whole history has few starts in the window. */
  lemma UnforcedRunsPassFlood(history: seq<int>, w: Wake, limits: Limits)
    requires Sorted(history) && limits.floodWindowMs > 0 && !w.intent.Manual?
    requires var recent := Some(Recorded(history, limits.floodThreshold));
      ShouldDefer(w.intent, w.now, w.nextDueMs, w.lastRunStartedAt, recent, limits).Run?
    ensures CountFrom(history, w.now - limits.floodWindowMs) < limits.floodThreshold
  {
    TrimmedBufferDecides(history, w.now, limits);
  }

  lemma StartKeepsBound(before: seq<Start>, s: Start, x: int, length: int, max: int)
    requires UnforcedIn(before, x, length) <= max
    requires !s.manual ==> CountFrom(Times(before), s.at - length) < max
    ensures UnforcedIn(before + [s], x, length) <= max
  {
    assert (before + [s])[..|before|] == before;
    if s.at <= x + length {
      UnforcedAreFrom(before, x, length, s.at - length);
    }
  }

  /** In any closed interval of the window's length, no more runs start unforced than the threshold allows. */
  lemma {:induction false} FloodBound(wakes: seq<Wake>, limits: Limits, x: int)
    requires ClockNeverGoesBack(wakes) && limits.floodWindowMs > 0
    ensures UnforcedIn(Starts(wakes, limits), x, limits.floodWindowMs)
            <= if limits.floodThreshold > 0 then limits.floodThreshold else 0
  {
    if wakes != [] {
      var before, w := Starts(wakes[..|wakes| - 1], limits), wakes[|wakes| - 1];
      FloodBound(wakes[..|wakes| - 1], limits, x);
      StartsAreSorted(wakes[..|wakes| - 1], limits);
      if !w.intent.Manual? && Starts(wakes, limits) != before {
        UnforcedRunsPassFlood(Times(before), w, limits);
      }
      if Starts(wakes, limits) != before {
        StartKeepsBound(before, Start(w.now, w.intent.Manual?), x, limits.floodWindowMs,
                        if limits.floodThreshold > 0 then limits.floodThreshold else 0);
      }
    }
  }
}
