/**
 Bounded back-fill of missed windows, shared by the cron and the heartbeat daemon
 (`computeCatchupWindows` in src/automation/cronDaemonRuntime.ts and heartbeatDaemonRuntime.ts).
 */
module Catchup {
  import opened Wrappers
  import opened Arithmetic

  function Min(a: int, b: int): int { if a <= b then a else b }

  function Max(a: int, b: int): int { if a <= b then b else a }

  /** How many windows lie strictly between last and current, stepping back from current. */
  function MissedCount(step: int, current: int, last: int): nat
    requires step > 0
  {
    if current <= last then 0 else (current - last - 1) / step
  }

  /** The count newest windows before current, oldest first. */
  function WindowsBefore(step: int, current: int, count: nat): seq<int> {
    seq(count, i requires 0 <= i < count => current - (count - i) * step)
  }

  datatype Backfill = Backfill(windows: seq<int>, skipped: nat)

  function BackfillOf(step: int, current: int, last: Option<int>, maxCatchup: nat): Backfill
    requires step > 0
  {
    if last.None? then Backfill([], 0)
    else
      var missed := MissedCount(step, current, last.value);
      var kept := Min(missed, maxCatchup);
      Backfill(WindowsBefore(step, current, kept), missed - kept)
  }

  function Reversed(s: seq<int>): (r: seq<int>)
    ensures |r| == |s| && forall i :: 0 <= i < |s| ==> r[i] == s[|s| - 1 - i]
  {
    if s == [] then [] else Reversed(s[1..]) + [s[0]]
  }

  lemma OneStepBack(step: int, n: int)
    ensures (n + 1) * step + step == (n + 1 + 1) * step
  {
  }

  /** Stepping back n times to a window no later than last has passed n missed windows. */
  lemma CountsMissed(step: int, current: int, last: int, n: nat, windowMs: int)
    requires step > 0 && windowMs == current - (n + 1) * step && windowMs <= last < windowMs + step && last < current
    ensures MissedCount(step, current, last) == n
  {
    assert (n + 1) * step == n * step + step;
    DivModUnique(current - last - 1, n, windowMs + step - last - 1, step);
  }

  method ComputeCatchupWindows(step: int, currentWindow: int, lastEmittedWindow: Option<int>, maxCatchupPerJob: nat)
    returns (windows: seq<int>, skipped: nat)
    requires step > 0
    ensures Backfill(windows, skipped) == BackfillOf(step, currentWindow, lastEmittedWindow, maxCatchupPerJob)
  {
    if lastEmittedWindow.None? || currentWindow <= lastEmittedWindow.value {
      return [], 0;
    }
    var last := lastEmittedWindow.value;
    var missedNewestFirst := [];
    var windowMs := currentWindow - step;
    while windowMs > last
      invariant windowMs == currentWindow - (|missedNewestFirst| + 1) * step
      invariant last < windowMs + step
      invariant forall i :: 0 <= i < |missedNewestFirst| ==> missedNewestFirst[i] == currentWindow - (i + 1) * step
      decreases windowMs - last
    {
      OneStepBack(step, |missedNewestFirst|);
      missedNewestFirst := missedNewestFirst + [windowMs];
      windowMs := windowMs - step;
    }
    var n := |missedNewestFirst|;
    CountsMissed(step, currentWindow, last, n, windowMs);
    if maxCatchupPerJob == 0 {
      return [], n;
    }
    var kept := missedNewestFirst[..Min(n, maxCatchupPerJob)];
    return Reversed(kept), n - |kept|;
  }

  /** The kept windows ascend by the step and lie strictly between last and current. */
  lemma BackfillLiesBetween(step: int, current: int, last: int, maxCatchup: nat)
    requires step > 0
    ensures var b := BackfillOf(step, current, Some(last), maxCatchup);
      && |b.windows| <= maxCatchup
      && |b.windows| + b.skipped == MissedCount(step, current, last)
      && (forall i :: 0 <= i < |b.windows| ==> last < b.windows[i] < current)
      && (forall i, j :: 0 <= i < j < |b.windows| ==> b.windows[i] < b.windows[j])
  {
    var b := BackfillOf(step, current, Some(last), maxCatchup);
    var k := |b.windows|;
    forall i | 0 <= i < k ensures last < b.windows[i] < current {
      var missed := MissedCount(step, current, last);
      assert missed * step <= current - last - 1;
      assert (k - i) * step <= missed * step by { Scaled(k - i, missed, step); }
      Scaled(1, k - i, step);
    }
    forall i, j | 0 <= i < j < k ensures b.windows[i] < b.windows[j] {
      Spread(k - j, k - i, step);
    }
  }

  /**
   The window k steps back is missed while it lies after last; the newest of them are kept, as many as the bound allows,
   oldest first, and the others are counted as skipped.
   */
  lemma BackfillIsNewest(step: int, current: int, last: int, maxCatchup: nat, k: int)
    requires step > 0 && k >= 1
    ensures var b := BackfillOf(step, current, Some(last), maxCatchup);
      && (last < current - k * step <==> k <= |b.windows| + b.skipped)
      && (k <= |b.windows| <==> k <= maxCatchup && last < current - k * step)
      && (k <= |b.windows| ==> b.windows[|b.windows| - k] == current - k * step)
    ensures BackfillOf(step, current, None, maxCatchup) == Backfill([], 0)
  {
    if current <= last {
      Scaled(1, k, step);
    } else {
      var missed := MissedCount(step, current, last);
      assert missed * step <= current - last - 1 < missed * step + step;
      if k <= missed {
        Scaled(k, missed, step);
      } else {
        Spread(missed, k, step);
      }
    }
  }

  lemma Scaled(a: int, b: int, d: int)
    requires a <= b && d > 0
    ensures a * d <= b * d
  {
  }
}
