/**
 What status changes reach, told over the log and the due list (src/commitments/commitmentStore.ts,
 commitmentLifecycle.ts): which commitments are listed, until when a snoozed one is not, and that a closed one never is.
 */
module CommitmentStatus {
  import opened Wrappers
  import opened CommitmentStore
  import opened CommitmentLifecycle
  import opened HeartbeatWake

  // ----- the due list -----

  /** Pending, or snoozed; every other status is closed. */
  predicate IsOpen(c: Record) { c.status == Pending || c.status == Snoozed }

  /** The commitment is in the due list of the log, for one session or for all. */
  predicate IsListed(log: seq<Record>, nowMs: int, sessionKey: Option<string>, id: string) {
    var due := ListDue(Project(log), nowMs, sessionKey);
    exists k :: 0 <= k < |due| && due[k].id == id
  }

  /** A commitment is listed exactly when its current record is open, its window has come and no snooze runs. */
  lemma ListedExactly(log: seq<Record>, nowMs: int, sessionKey: Option<string>, id: string)
    ensures IsListed(log, nowMs, sessionKey, id)
            <==> && Current(log, id).Some?
                 && var c := Current(log, id).value;
                    && IsOpen(c) && c.dueWindow.earliestMs <= nowMs
                    && (sessionKey == None || sessionKey == Some(c.sessionKey))
                    && (c.status == Pending || c.snoozedUntilMs.None? || c.snoozedUntilMs.value <= nowMs)
  {
    var due, byId := ListDue(Project(log), nowMs, sessionKey), Project(log);
    if k :| 0 <= k < |due| && due[k].id == id {
      DueContains(byId, nowMs, sessionKey, due[k]);
      var p :| 0 <= p < |byId| && byId[p] == due[k];
      ProjectedIsInLog(log, p);
    }
    if Current(log, id).Some? {
      var c := Current(log, id).value;
      assert byId[IndexOf(byId, id)] == c;
      DueContains(byId, nowMs, sessionKey, c);
      if c in due {
        var k :| 0 <= k < |due| && due[k] == c;
      }
    }
  }

  // ----- the lifecycle pass -----

  /** A pass at nowMs that snoozed this commitment, or left it as it was. */
  predicate Passed(before: Option<Record>, after: Option<Record>, snoozed: bool, nowMs: int, untilMs: int) {
    if snoozed then
      before.Some? && IsOpen(before.value)
      && after == Some(before.value.(status := Snoozed, snoozedUntilMs := Some(untilMs), updatedAtMs := nowMs,
                                     attempts := before.value.attempts + 1))
    else after == before
  }

  lemma {:induction false} ObservableContains(
    observe: Record -> Option<Record>, latest: seq<Record>, ids: seq<string>, id: string)
    ensures id in Observable(observe, latest, ids, true) <==> id in ids && Bind(Find(latest, id), observe).Some?
    ensures id in Observable(observe, latest, ids, false) <==> id in ids && Bind(Find(latest, id), observe).None?
  {
    if ids != [] {
      var n := |ids| - 1;
      assert ids == ids[..n] + [ids[n]];
      ObservableContains(observe, latest, ids[..n], id);
    }
  }

  /** The log after a lifecycle pass over the ids. */
  function PassedLog(log: seq<Record>, ids: seq<string>, nowMs: int, snoozeMs: int): seq<Record> {
    log + ObservedRecords(Observation(nowMs, snoozeMs), Project(log), UniqueIds(ids))
  }

  /** The ids that the pass reports as updated, or as skipped. */
  function Reported(log: seq<Record>, ids: seq<string>, nowMs: int, snoozeMs: int, updated: bool): seq<string> {
    Observable(Observation(nowMs, snoozeMs), Project(log), UniqueIds(ids), updated)
  }

  /** What a pass makes of one current record. */
  lemma ObservationSnoozes(c: Option<Record>, nowMs: int, snoozeMs: int)
    ensures var r := Bind(c, Observation(nowMs, snoozeMs));
      && (r.Some? <==> c.Some? && IsOpen(c.value))
      && (r.Some? ==> Passed(c, r, true, nowMs, nowMs + snoozeMs))
  {
  }

  /** A lifecycle pass snoozes exactly the open commitments among the ids that are not blank, and leaves the others. */
  lemma PassSnoozes(log: seq<Record>, ids: seq<string>, nowMs: int, snoozeMs: int, id: string)
    requires NotAfter(log, nowMs)
    ensures var c, named := Current(log, id), id in ids && Trim(id) != "";
      && (id in Reported(log, ids, nowMs, snoozeMs, true) <==> named && c.Some? && IsOpen(c.value))
      && (id in Reported(log, ids, nowMs, snoozeMs, false) <==> named && !(c.Some? && IsOpen(c.value)))
      && Passed(c, Current(PassedLog(log, ids, nowMs, snoozeMs), id), id in Reported(log, ids, nowMs, snoozeMs, true),
                nowMs, nowMs + snoozeMs)
  {
    var observe := Observation(nowMs, snoozeMs);
    ObservableContains(observe, Project(log), UniqueIds(ids), id);
    ObservedAt(observe, log, UniqueIds(ids), nowMs, id);
    assert Find(Project(log), id) == Current(log, id);
    ObservationSnoozes(Current(log, id), nowMs, snoozeMs);
  }

  /** An updated commitment is not listed while its snooze runs, and is listed from then on if its window has come. */
  lemma PassDefersListing(log: seq<Record>, ids: seq<string>, nowMs: int, snoozeMs: int, id: string, laterMs: int)
    requires NotAfter(log, nowMs) && id in Reported(log, ids, nowMs, snoozeMs, true)
    ensures IsListed(PassedLog(log, ids, nowMs, snoozeMs), laterMs, None, id)
            <==> && nowMs + snoozeMs <= laterMs
                 && Current(log, id).Some? && Current(log, id).value.dueWindow.earliestMs <= laterMs
  {
    PassSnoozes(log, ids, nowMs, snoozeMs, id);
    ListedExactly(PassedLog(log, ids, nowMs, snoozeMs), laterMs, None, id);
  }

  /** One id comes before another. */
  predicate Precedes(ids: seq<string>, a: string, b: string) {
    exists p :: 0 <= p < |ids| && ids[p] == a && b !in ids[..p + 1]
  }

  predicate InOrderOf(ids: seq<string>, s: seq<string>) {
    forall i, j :: 0 <= i < j < |s| ==> Precedes(ids, s[i], s[j])
  }

  lemma PrecedesLonger(ids: seq<string>, id: string, a: string, b: string)
    requires Precedes(ids, a, b)
    ensures Precedes(ids + [id], a, b)
  {
    var p :| 0 <= p < |ids| && ids[p] == a && b !in ids[..p + 1];
    assert (ids + [id])[p] == a && (ids + [id])[..p + 1] == ids[..p + 1];
  }

  lemma PrecedesLast(ids: seq<string>, a: string, b: string)
    requires a in ids && b !in ids
    ensures Precedes(ids + [b], a, b)
  {
    var p :| 0 <= p < |ids| && ids[p] == a;
    assert (ids + [b])[p] == a && (ids + [b])[..p + 1] == ids[..p + 1];
  }

  /** The ids of a pass keep the order of their first appearance. */
  lemma {:induction false} UniqueInOrder(ids: seq<string>)
    ensures InOrderOf(ids, UniqueIds(ids))
  {
    if ids != [] {
      var before, id := ids[..|ids| - 1], ids[|ids| - 1];
      var s := UniqueIds(before);
      UniqueInOrder(before);
      assert ids == before + [id];
      forall i, j | 0 <= i < j < |s| ensures Precedes(ids, s[i], s[j]) {
        PrecedesLonger(before, id, s[i], s[j]);
      }
      if Trim(id) != "" && id !in s {
        forall i | 0 <= i < |s| ensures Precedes(ids, s[i], id) {
          PrecedesLast(before, s[i], id);
        }
      }
    }
  }

  /** And so do the ids that it reports. */
  lemma {:induction false} ReportedInOrder(
    observe: Record -> Option<Record>, latest: seq<Record>, ids: seq<string>, wanted: bool)
    requires forall i, j :: 0 <= i < j < |ids| ==> ids[i] != ids[j]
    ensures InOrderOf(ids, Observable(observe, latest, ids, wanted))
  {
    if ids != [] {
      var before, id := ids[..|ids| - 1], ids[|ids| - 1];
      var s := Observable(observe, latest, before, wanted);
      ReportedInOrder(observe, latest, before, wanted);
      assert ids == before + [id];
      forall i, j | 0 <= i < j < |s| ensures Precedes(ids, s[i], s[j]) {
        PrecedesLonger(before, id, s[i], s[j]);
      }
      forall i | 0 <= i < |s| ensures Precedes(ids, s[i], id) {
        ObservableContains(observe, latest, before, s[i]);
        PrecedesLast(before, s[i], id);
      }
    }
  }

  // ----- changes of status, over runs -----

  /** The current record of an id after the first n events of a run. */
  function CurrentAfter(events: seq<Event>, n: nat, id: string): Option<Record>
    requires n <= |events|
  {
    Current(LogOf(events[..n]), id)
  }

  /** A status can be reached from an open one: never pending, and snoozed only until some time. */
  predicate IsReachable(status: Status, untilMs: Option<int>) {
    status == Sent || status == Dismissed || status == Expired || (status == Snoozed && untilMs.Some?)
  }

  /** The record with a status since nowMs, and nothing else changed. */
  predicate HasChanged(before: Record, after: Record, status: Status, nowMs: int, untilMs: Option<int>) {
    && after == before.(status := status, updatedAtMs := nowMs, sentAtMs := after.sentAtMs,
                        dismissedAtMs := after.dismissedAtMs, expiredAtMs := after.expiredAtMs,
                        snoozedUntilMs := after.snoozedUntilMs)
    && after.sentAtMs == (if status == Sent then Some(nowMs) else before.sentAtMs)
    && after.dismissedAtMs == (if status == Dismissed then Some(nowMs) else before.dismissedAtMs)
    && after.expiredAtMs == (if status == Expired then Some(nowMs) else before.expiredAtMs)
    && after.snoozedUntilMs == (if status == Snoozed then untilMs else before.snoozedUntilMs)
  }

  lemma RunStep(events: seq<Event>, n: nat, id: string)
    requires ClockNeverGoesBack(events) && n < |events|
    ensures CurrentAfter(events, n + 1, id) == Lived(CurrentAfter(events, n, id), id, events[n])
  {
    LogIsRegister(events[..n], id);
    LogIsRegister(events[..n + 1], id);
    assert events[..n + 1][..n] == events[..n];
  }

  /** Which transition is refused, and why; the others change the record. */
  lemma TransitionExactly(c: Record, status: Status, nowMs: int, untilMs: Option<int>)
    ensures var t := ApplyStatus(c, status, nowMs, untilMs);
      && (t == Inactive <==> !IsOpen(c))
      && (t == BackToPending <==> IsOpen(c) && status == Pending)
      && (t == SnoozeWithoutTime <==> IsOpen(c) && status == Snoozed && untilMs.None?)
      && (t.Applied? ==> HasChanged(c, t.commitment, status, nowMs, untilMs))
  {
  }

  lemma ChangedExactly(c: Record, status: Status, nowMs: int, untilMs: Option<int>)
    ensures var r := Changed(c, status, nowMs, untilMs);
      && (r.Some? <==> IsOpen(c) && IsReachable(status, untilMs))
      && (r.Some? ==> HasChanged(c, r.value, status, nowMs, untilMs))
  {
  }

  lemma ChangeLives(c: Option<Record>, id: string, e: Event, status: Status, untilMs: Option<int>)
    requires e.step == Change(id, status, untilMs)
    ensures var changed := Bind(c, Changing(status, e.nowMs, untilMs));
      Lived(c, id, e) == if changed.Some? then changed else c
  {
  }

  /** An observation in a run is a lifecycle pass, with a snooze of at least a millisecond. */
  lemma ObservationIsPass(events: seq<Event>, n: nat, ids: seq<string>, snoozeMs: int)
    requires ClockNeverGoesBack(events) && n < |events| && events[n].step == Observe(ids, snoozeMs)
    ensures var log, snooze := LogOf(events[..n]), if snoozeMs >= 1 then snoozeMs else 1;
      && NotAfter(log, events[n].nowMs)
      && LogOf(events[..n + 1]) == PassedLog(log, ids, events[n].nowMs, snooze)
  {
    assert events[..n + 1][..n] == events[..n];
    LogIsRegister(events[..n], "");
  }

  /** A change reaches the status asked for exactly when the commitment is open and the status can be reached. */
  lemma ChangeReaches(events: seq<Event>, n: nat, id: string, status: Status, untilMs: Option<int>)
    requires ClockNeverGoesBack(events) && n < |events| && events[n].step == Change(id, status, untilMs)
    ensures var before, after := CurrentAfter(events, n, id), CurrentAfter(events, n + 1, id);
      if before.Some? && IsOpen(before.value) && IsReachable(status, untilMs)
      then after.Some? && HasChanged(before.value, after.value, status, events[n].nowMs, untilMs)
      else after == before
  {
    var before := CurrentAfter(events, n, id);
    RunStep(events, n, id);
    ChangeLives(before, id, events[n], status, untilMs);
    if before.Some? {
      ChangedExactly(before.value, status, events[n].nowMs, untilMs);
    }
  }

  /** A creation starts the commitment afresh: pending, unattempted, with a confidence between 0 and 1. */
  lemma CreationReaches(events: seq<Event>, n: nat, inp: Input)
    requires ClockNeverGoesBack(events) && n < |events| && events[n].step == Create(inp)
    ensures var after, now := CurrentAfter(events, n + 1, inp.id), events[n].nowMs;
      && after.Some?
      && after.value == Record(inp.id, inp.agentId, inp.sessionKey, inp.channel, inp.kind, inp.origin, Pending,
                               inp.suggestedText, inp.dedupeKey, after.value.confidence, inp.dueWindow, now, now, 0,
                               None, None, None, None)
      && 0.0 <= after.value.confidence <= 1.0
      && (after.value.confidence < inp.confidence ==> after.value.confidence == 1.0)
      && (after.value.confidence > inp.confidence ==> after.value.confidence == 0.0)
  {
    RunStep(events, n, inp.id);
  }

  /** No event changes the current record of an id that it does not name. */
  lemma OthersStay(events: seq<Event>, n: nat, id: string)
    requires ClockNeverGoesBack(events) && n < |events|
    requires match events[n].step
      case Create(inp) => inp.id != id
      case Change(other, _, _) => other != id
      case Observe(ids, _) => id !in ids
    ensures CurrentAfter(events, n + 1, id) == CurrentAfter(events, n, id)
  {
    RunStep(events, n, id);
  }

  lemma ClosedIsUnlisted(log: seq<Record>, id: string)
    requires Current(log, id).Some? && !IsOpen(Current(log, id).value)
    ensures forall nowMs, sessionKey :: !IsListed(log, nowMs, sessionKey, id)
  {
    forall nowMs, sessionKey ensures !IsListed(log, nowMs, sessionKey, id) {
      ListedExactly(log, nowMs, sessionKey, id);
    }
  }

  /** Sent, dismissed or expired at this time. */
  predicate IsClosedAt(c: Record, status: Status, nowMs: int) {
    && c.status == status && c.updatedAtMs == nowMs
    && ((status == Sent && c.sentAtMs == Some(nowMs)) || (status == Dismissed && c.dismissedAtMs == Some(nowMs))
        || (status == Expired && c.expiredAtMs == Some(nowMs)))
  }

  lemma ChangeCloses(events: seq<Event>, n: nat, id: string, status: Status, untilMs: Option<int>)
    requires ClockNeverGoesBack(events) && n < |events| && events[n].step == Change(id, status, untilMs)
    requires status == Sent || status == Dismissed || status == Expired
    requires CurrentAfter(events, n, id).Some? && IsOpen(CurrentAfter(events, n, id).value)
    ensures var c := CurrentAfter(events, n + 1, id); c.Some? && IsClosedAt(c.value, status, events[n].nowMs)
  {
    ChangeReaches(events, n, id, status, untilMs);
  }

  lemma ClosedStays(events: seq<Event>, n: nat, m: nat, id: string)
    requires ClockNeverGoesBack(events) && n <= m <= |events| && forall i :: n <= i < m ==> !Creates(events[i], id)
    requires CurrentAfter(events, n, id).Some? && !IsOpen(CurrentAfter(events, n, id).value)
    ensures CurrentAfter(events, m, id) == CurrentAfter(events, n, id)
  {
    assert events[..m][..n] == events[..n];
    ClosedIsAbsorbing(events[..m], id, n);
  }

  /**
   A commitment that is sent, dismissed or expired while open stays so, with the time of that change, and is in no due
   list, in every later state of the log, until its id is created again.
   */
  lemma ClosedIsNeverListed(events: seq<Event>, n: nat, m: nat, id: string, status: Status, untilMs: Option<int>)
    requires ClockNeverGoesBack(events) && n < m <= |events| && events[n].step == Change(id, status, untilMs)
    requires status == Sent || status == Dismissed || status == Expired
    requires CurrentAfter(events, n, id).Some? && IsOpen(CurrentAfter(events, n, id).value)
    requires forall i :: n < i < m ==> !Creates(events[i], id)
    ensures var c := CurrentAfter(events, m, id); c.Some? && IsClosedAt(c.value, status, events[n].nowMs)
    ensures forall nowMs, sessionKey :: !IsListed(LogOf(events[..m]), nowMs, sessionKey, id)
  {
    ChangeCloses(events, n, id, status, untilMs);
    ClosedStays(events, n + 1, m, id);
    ClosedIsUnlisted(LogOf(events[..m]), id);
  }

  // ----- the order of the due list -----

  /** Records in the order of their ids' first places in the log. */
  predicate InLogOrder(log: seq<Record>, s: seq<Record>) {
    forall i, j :: 0 <= i < j < |s| ==> IndexOf(log, s[i].id) < IndexOf(log, s[j].id)
  }

  lemma IndexInLonger(log: seq<Record>, r: Record, id: string)
    ensures IndexOf(log + [r], id) == if IndexOf(log, id) < |log| || r.id == id then IndexOf(log, id) else |log| + 1
  {
    var i := IndexOf(log + [r], id);
    if i < |log| {
      assert (log + [r])[i] == log[i];
    }
    if IndexOf(log, id) < |log| {
      assert (log + [r])[IndexOf(log, id)] == log[IndexOf(log, id)];
    } else if r.id == id {
      assert (log + [r])[|log|].id == id;
    }
  }

  lemma LongerLogOrder(log: seq<Record>, s: seq<Record>, r: Record)
    requires InLogOrder(log, s) && forall k :: 0 <= k < |s| ==> IndexOf(log, s[k].id) < |log|
    ensures InLogOrder(log + [r], s) && forall k :: 0 <= k < |s| ==> IndexOf(log + [r], s[k].id) < |log|
  {
    forall k | 0 <= k < |s| ensures IndexOf(log + [r], s[k].id) == IndexOf(log, s[k].id) {
      IndexInLonger(log, r, s[k].id);
    }
  }

  lemma UpsertInLogOrder(log: seq<Record>, byId: seq<Record>, r: Record)
    requires InLogOrder(log, byId) && forall k :: 0 <= k < |byId| ==> IndexOf(log, byId[k].id) < |log| - 1
    requires IndexOf(byId, r.id) == |byId| ==> IndexOf(log, r.id) == |log| - 1
    ensures InLogOrder(log, Upsert(byId, r))
  {
    var after := Upsert(byId, r);
    UpsertKeepsIds(byId, r);
    forall k, l | 0 <= k < l < |after| ensures IndexOf(log, after[k].id) < IndexOf(log, after[l].id) {
      if l < |byId| {
        assert IndexOf(log, byId[k].id) < IndexOf(log, byId[l].id);
      }
    }
  }

  lemma UpsertKeepsIds(byId: seq<Record>, r: Record)
    ensures var after := Upsert(byId, r);
      && |after| == (if IndexOf(byId, r.id) == |byId| then |byId| + 1 else |byId|)
      && (forall k :: 0 <= k < |byId| ==> after[k].id == byId[k].id)
      && (|after| > |byId| ==> after[|byId|].id == r.id)
  {
  }

  lemma ProjectedIndex(log: seq<Record>, k: nat)
    requires k < |Project(log)|
    ensures IndexOf(log, Project(log)[k].id) < |log|
  {
    ProjectedIsInLog(log, k);
  }

  lemma {:induction false} ProjectionInLogOrder(log: seq<Record>)
    ensures InLogOrder(log, Project(log))
  {
    if log != [] {
      var n := |log| - 1;
      ProjectionInLogOrder(log[..n]);
      forall k | 0 <= k < |Project(log[..n])| ensures IndexOf(log[..n], Project(log[..n])[k].id) < n {
        ProjectedIndex(log[..n], k);
      }
      if Current(log[..n], log[n].id).None? {
        NewIdIsLast(log[..n], log[n].id);
      }
      LongerLogOrder(log[..n], Project(log[..n]), log[n]);
      IndexInLonger(log[..n], log[n], log[n].id);
      assert log == log[..n] + [log[n]];
      UpsertInLogOrder(log, Project(log[..n]), log[n]);
    }
  }

  lemma NewIdIsLast(log: seq<Record>, id: string)
    requires Current(log, id).None?
    ensures IndexOf(log, id) == |log|
  {
    var i := ProjectionIsLatest(log, id);
  }

  lemma {:induction false} ListedInLogOrder(
    log: seq<Record>, commitments: seq<Record>, nowMs: int, sessionKey: Option<string>)
    requires InLogOrder(log, commitments)
    ensures InLogOrder(log, ListDue(commitments, nowMs, sessionKey))
  {
    if commitments != [] {
      var n := |commitments| - 1;
      ListedInLogOrder(log, commitments[..n], nowMs, sessionKey);
      forall i | 0 <= i < |ListDue(commitments[..n], nowMs, sessionKey)|
        ensures ListDue(commitments[..n], nowMs, sessionKey)[i] in commitments[..n]
      {
        DueContains(commitments[..n], nowMs, sessionKey, ListDue(commitments[..n], nowMs, sessionKey)[i]);
      }
    }
  }

  /** The due list names each id once, in the order of first appearance in the log. */
  lemma DueInLogOrder(log: seq<Record>, nowMs: int, sessionKey: Option<string>)
    ensures InLogOrder(log, ListDue(Project(log), nowMs, sessionKey))
  {
    ProjectionInLogOrder(log);
    ListedInLogOrder(log, Project(log), nowMs, sessionKey);
  }
}
