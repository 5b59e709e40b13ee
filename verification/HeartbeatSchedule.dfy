/** Phase-aligned heartbeat slots (src/automation/heartbeatSchedule.ts) over integer milliseconds. */
module HeartbeatSchedule {
  import opened Wrappers
  import opened Arithmetic
  import opened HeartbeatActiveHours

  const MAX_SEEK_HORIZON_MS := 7 * 24 * 60 * 60 * 1000
  const MAX_SEEK_ITERATIONS := 10080

  /** The source language's `%`, whose result takes the sign of the dividend. */
  function Rem(a: int, b: int): int
    requires b > 0
  {
    if a >= 0 then a % b else -((-a) % b)
  }

  function NormalizeModulo(value: int, divisor: int): int
    requires divisor > 0
  {
    Rem(Rem(value, divisor) + divisor, divisor)
  }

  function ResolvePositiveInterval(value: int): (r: int)
    ensures r >= 1 && r >= value && (r == value || r == 1)
  {
    if value >= 1 then value else 1
  }

  function ResolvePhaseMs(digest: nat, intervalMs: int): int {
    digest % ResolvePositiveInterval(intervalMs)
  }

  function ComputeNextPhaseDueMs(nowMs: int, intervalMs: int, phaseMs: int): int {
    var interval := ResolvePositiveInterval(intervalMs);
    var phase := NormalizeModulo(phaseMs, interval);
    var cyclePos := NormalizeModulo(nowMs, interval);
    var delta := NormalizeModulo(phase - cyclePos, interval);
    nowMs + (if delta == 0 then interval else delta)
  }

  datatype PreviousDue = PreviousDue(intervalMs: int, phaseMs: int, nextDueMs: int)

  function ResolveNextDueMs(nowMs: int, intervalMs: int, phaseMs: int, prev: Option<PreviousDue>): int {
    var interval := ResolvePositiveInterval(intervalMs);
    var phase := NormalizeModulo(phaseMs, interval);
    if && prev.Some?
       && ResolvePositiveInterval(prev.value.intervalMs) == interval
       && NormalizeModulo(prev.value.phaseMs, interval) == phase
       && prev.value.nextDueMs > nowMs
    then prev.value.nextDueMs
    else ComputeNextPhaseDueMs(nowMs, interval, phase)
  }

  predicate OnPhase(t: int, intervalMs: int, phaseMs: int) {
    t % ResolvePositiveInterval(intervalMs) == phaseMs % ResolvePositiveInterval(intervalMs)
  }

  lemma NormalizeIsEuclidean(v: int, d: int)
    requires d > 0
    ensures NormalizeModulo(v, d) == v % d
  {
    if v >= 0 {
      ModShift(v % d, 1, d);
      DivModUnique(v % d, 0, v % d, d);
    } else {
      var w := -v;
      var r := w % d;
      assert v == (-(w / d)) * d - r;
      if r == 0 {
        DivModUnique(v, -(w / d), 0, d);
        DivModUnique(d, 1, 0, d);
      } else {
        DivModUnique(v, -(w / d) - 1, d - r, d);
        DivModUnique(d - r, 0, d - r, d);
      }
    }
  }

  /** a and a + k lie on the same phase exactly when d divides k. */
  lemma SamePhase(a: int, b: int, d: int)
    requires d > 0
    ensures a % d == b % d <==> (b - a) % d == 0
  {
    if a % d == b % d {
      assert b - a == (b / d - a / d) * d;
      DivModUnique(b - a, b / d - a / d, 0, d);
    }
    if (b - a) % d == 0 {
      assert b == a + (b - a) / d * d;
      ModShift(a, (b - a) / d, d);
    }
  }

  lemma DeltaAligns(v: int, delta: int, d: int)
    requires d > 0 && delta == if v % d == 0 then d else v % d
    ensures (delta - v) % d == 0
  {
    if v % d == 0 {
      assert delta - v == (1 - v / d) * d;
      DivModUnique(delta - v, 1 - v / d, 0, d);
    } else {
      assert delta - v == (-(v / d)) * d;
      DivModUnique(delta - v, -(v / d), 0, d);
    }
  }

  /** How far the next due time lies ahead. */
  lemma NextDueStep(nowMs: int, intervalMs: int, phaseMs: int)
    ensures var d := ResolvePositiveInterval(intervalMs);
      var v := phaseMs % d - nowMs % d;
      ComputeNextPhaseDueMs(nowMs, intervalMs, phaseMs) == nowMs + if v % d == 0 then d else v % d
  {
    var d := ResolvePositiveInterval(intervalMs);
    NormalizeIsEuclidean(phaseMs, d);
    NormalizeIsEuclidean(nowMs, d);
    NormalizeIsEuclidean(phaseMs % d - nowMs % d, d);
  }

  lemma StepLandsOnPhase(nowMs: int, phaseMs: int, delta: int, d: int)
    requires d > 0 && delta == var v := phaseMs % d - nowMs % d; if v % d == 0 then d else v % d
    ensures (nowMs + delta) % d == phaseMs % d
  {
    var v := phaseMs % d - nowMs % d;
    DeltaAligns(v, delta, d);
    SamePhase(nowMs + v, nowMs + delta, d);
    assert nowMs + v == phaseMs % d + nowMs / d * d;
    ModShift(phaseMs % d, nowMs / d, d);
    DivModUnique(phaseMs % d, 0, phaseMs % d, d);
  }

  lemma NoneOnPhaseBetween(r: int, x: int, d: int)
    requires d > 0 && r - d < x < r
    ensures x % d != r % d
  {
    SamePhase(x, r, d);
    DivModUnique(r - x, 0, r - x, d);
  }

  /** The next due time is the least time after now on the phase. */
  lemma NextDueIsLeast(nowMs: int, intervalMs: int, phaseMs: int, x: int)
    ensures var r := ComputeNextPhaseDueMs(nowMs, intervalMs, phaseMs);
      && nowMs < r <= nowMs + ResolvePositiveInterval(intervalMs)
      && OnPhase(r, intervalMs, phaseMs)
      && (nowMs < x && OnPhase(x, intervalMs, phaseMs) ==> r <= x)
  {
    var d := ResolvePositiveInterval(intervalMs);
    var r := ComputeNextPhaseDueMs(nowMs, intervalMs, phaseMs);
    NextDueStep(nowMs, intervalMs, phaseMs);
    StepLandsOnPhase(nowMs, phaseMs, r - nowMs, d);
    if nowMs < x < r {
      NoneOnPhaseBetween(r, x, d);
    }
  }

  /** A phase is the digest, up to whole intervals. */
  lemma PhaseIsDigest(digest: nat, intervalMs: int)
    ensures var d := ResolvePositiveInterval(intervalMs);
      0 <= ResolvePhaseMs(digest, intervalMs) < d && (digest - ResolvePhaseMs(digest, intervalMs)) % d == 0
  {
    var d := ResolvePositiveInterval(intervalMs);
    DivModUnique(digest - digest % d, digest / d, 0, d);
  }

  /** The previous due time is of the same interval and phase, and still ahead. */
  predicate StillHolds(nowMs: int, intervalMs: int, phaseMs: int, prev: PreviousDue) {
    var d := ResolvePositiveInterval(intervalMs);
    ResolvePositiveInterval(prev.intervalMs) == d && prev.phaseMs % d == phaseMs % d && nowMs < prev.nextDueMs
  }

  /** The resolved due time is the previous one as long as that holds, and else the least one on the phase. */
  lemma ResolvedDue(nowMs: int, intervalMs: int, phaseMs: int, prev: Option<PreviousDue>, x: int)
    ensures var r := ResolveNextDueMs(nowMs, intervalMs, phaseMs, prev);
      if prev.Some? && StillHolds(nowMs, intervalMs, phaseMs, prev.value) then r == prev.value.nextDueMs
      else nowMs < r && OnPhase(r, intervalMs, phaseMs) && (nowMs < x && OnPhase(x, intervalMs, phaseMs) ==> r <= x)
  {
    var d := ResolvePositiveInterval(intervalMs);
    NormalizeIsEuclidean(phaseMs, d);
    DivModUnique(phaseMs % d, 0, phaseMs % d, d);
    NextDueIsLeast(nowMs, d, phaseMs % d, x);
    if prev.Some? {
      NormalizeIsEuclidean(prev.value.phaseMs, d);
    }
  }

  /** Resolving again with the resolved due time changes nothing until that time has come. */
  lemma ResolveIsIdempotent(nowMs: int, laterMs: int, intervalMs: int, phaseMs: int, prev: Option<PreviousDue>)
    requires var due := ResolveNextDueMs(nowMs, intervalMs, phaseMs, prev); nowMs <= laterMs < due
    ensures var due := ResolveNextDueMs(nowMs, intervalMs, phaseMs, prev);
      ResolveNextDueMs(laterMs, intervalMs, phaseMs, Some(PreviousDue(intervalMs, phaseMs, due))) == due
  {
  }

  // ----- the active-slot seek -----

  /** The slots the seek looks at: at most 7 days ahead, and at most 10080 of them. */
  predicate IsCandidate(intervalMs: int, k: int) {
    0 <= k < 10_080 && k * ResolvePositiveInterval(intervalMs) <= 604_800_000
  }

  function Slot(startMs: int, intervalMs: int, k: int): int {
    startMs + k * ResolvePositiveInterval(intervalMs)
  }

  predicate NoneActiveBelow(startMs: int, intervalMs: int, active: int -> bool, k: int) {
    forall j :: 0 <= j < k ==> !active(Slot(startMs, intervalMs, j))
  }

  /** The first active candidate, or the start when no candidate is active. */
  ghost predicate IsSeekResult(startMs: int, intervalMs: int, active: int -> bool, r: int) {
    || (exists k :: && IsCandidate(intervalMs, k) && r == Slot(startMs, intervalMs, k) && active(r)
                    && NoneActiveBelow(startMs, intervalMs, active, k))
    || (r == startMs && forall k :: IsCandidate(intervalMs, k) ==> !active(Slot(startMs, intervalMs, k)))
  }

  method SeekNextActivePhaseDueMs(startMs: int, intervalMs: int, isActive: Option<int -> bool>) returns (r: int)
    ensures isActive.None? ==> r == startMs
    ensures isActive.Some? ==> IsSeekResult(startMs, intervalMs, isActive.value, r)
    ensures OnPhase(r, intervalMs, startMs)
  {
    if isActive.None? {
      return startMs;
    }
    var interval := ResolvePositiveInterval(intervalMs);
    var horizonMs := startMs + MAX_SEEK_HORIZON_MS;
    var candidateMs := startMs;
    var iterations := 0;
    while candidateMs <= horizonMs && iterations < MAX_SEEK_ITERATIONS
      invariant 0 <= iterations <= MAX_SEEK_ITERATIONS
      invariant candidateMs == Slot(startMs, intervalMs, iterations)
      invariant forall j :: 0 <= j < iterations ==> !isActive.value(Slot(startMs, intervalMs, j))
    {
      if isActive.value(candidateMs) {
        assert IsCandidate(intervalMs, iterations) && NoneActiveBelow(startMs, intervalMs, isActive.value, iterations);
        ModShift(startMs, iterations, interval);
        return candidateMs;
      }
      candidateMs := candidateMs + interval;
      iterations := iterations + 1;
    }
    forall k | IsCandidate(intervalMs, k) ensures k < iterations {
      if k >= iterations {
        Spread(iterations - 1, k, interval);
      }
    }
    return startMs;
  }

  /** Going on for add milliseconds past the end of the day ends add - gap into the next one. */
  lemma Wrapped(a: int, add: int, D: int)
    requires D > 0 && var gap := D - a % D; gap <= add < gap + D
    ensures (a + add) % D == add - (D - a % D)
  {
    DivModUnique(a + add, a / D + 1, add - (D - a % D), D);
  }

  /** The first step of length I that covers the gap. */
  lemma StepsOver(gap: int, I: int) returns (k: int)
    requires 0 < gap <= 86_400_000 && I >= 60_000
    ensures 0 <= k <= 1440 && gap <= k * I < gap + I
  {
    k := (gap + I - 1) / I;
    assert k * I == gap + I - 1 - (gap + I - 1) % I;
    Spread(1440, k, I);
  }

  /** With a proper window at least as long as the interval, some candidate is active. */
  lemma SeekFindsActive(startMs: int, intervalMs: int, h: ActiveHours) returns (k: int)
    requires IsProper(h) && 60_000 <= intervalMs <= LengthMs(h)
    ensures IsCandidate(intervalMs, k) && IsWithin(Some(h), Slot(startMs, intervalMs, k))
  {
    k := 0;
    if OffsetMs(h, startMs) >= LengthMs(h) {
      var gap := 86_400_000 - OffsetMs(h, startMs);
      k := StepsOver(gap, intervalMs);
      Wrapped(startMs - StartMs(h), k * intervalMs, 86_400_000);
      assert Slot(startMs, intervalMs, k) - StartMs(h) == (startMs - StartMs(h)) + k * intervalMs;
    }
    ActiveIsOffset(h, Slot(startMs, intervalMs, k));
  }

  /** So the seek never ends on an inactive slot for such a window. */
  lemma SeekEndsActive(startMs: int, intervalMs: int, h: ActiveHours, r: int)
    requires IsProper(h) && 60_000 <= intervalMs <= LengthMs(h)
    requires IsSeekResult(startMs, intervalMs, t => IsWithin(Some(h), t), r)
    ensures IsWithin(Some(h), r)
  {
    var k := SeekFindsActive(startMs, intervalMs, h);
  }
}
