/**
 The heartbeat lifecycle of commitments (src/commitments/commitmentLifecycle.ts), and what the log means
 over runs: under a clock that never goes back, the projected log is one register per id.
 */
module CommitmentLifecycle {
  import opened Wrappers
  import opened CommitmentStore
  import opened HeartbeatWake

  const DEFAULT_SNOOZE_MS := 15 * 60_000

  /** Non-blank ids, each once, in the order of their first appearance. */
  function UniqueIds(ids: seq<string>): (r: seq<string>)
    ensures forall i, j :: 0 <= i < j < |r| ==> r[i] != r[j]
    ensures forall id :: id in r <==> id in ids && Trim(id) != ""
  {
    if ids == [] then []
    else
      var before, id := UniqueIds(ids[..|ids| - 1]), ids[|ids| - 1];
      assert ids == ids[..|ids| - 1] + [id];
      if Trim(id) == "" || id in before then before else before + [id]
  }

  function AtLeastOne(ms: int): int { if ms >= 1 then ms else 1 }

  /** The record that a lifecycle pass appends for a commitment that can still be snoozed. */
  function Observed(c: Record, nowMs: int, snoozeMs: int): Option<Record> {
    var t := ApplyStatus(c, Snoozed, nowMs, Some(nowMs + snoozeMs));
    if t.Applied? then Some(t.commitment.(attempts := c.attempts + 1)) else None
  }

  function Observation(nowMs: int, snoozeMs: int): Record -> Option<Record> {
    c => Observed(c, nowMs, snoozeMs)
  }

  function Find(latest: seq<Record>, id: string): Option<Record> {
    var i := IndexOf(latest, id);
    if i < |latest| then Some(latest[i]) else None
  }

  function Bind(c: Option<Record>, observe: Record -> Option<Record>): Option<Record> {
    if c.Some? then observe(c.value) else None
  }

  function ObservedRecords(observe: Record -> Option<Record>, latest: seq<Record>, ids: seq<string>): seq<Record> {
    if ids == [] then []
    else
      var n := |ids| - 1;
      var r := Bind(Find(latest, ids[n]), observe);
      var before := ObservedRecords(observe, latest, ids[..n]);
      if r.Some? then before + [r.value] else before
  }

  /** The ids whose commitment can, or cannot, be snoozed. */
  function Observable(
    observe: Record -> Option<Record>, latest: seq<Record>, ids: seq<string>, wanted: bool): seq<string>
  {
    if ids == [] then []
    else
      var n := |ids| - 1;
      var before := Observable(observe, latest, ids[..n], wanted);
      if Bind(Find(latest, ids[n]), observe).Some? == wanted then before + [ids[n]] else before
  }

  /** The loop over observed ids. */
  method ObserveEach(
    store: Store, ids: seq<string>, latest: seq<Record>, observe: Record -> Option<Record>, storeEnabled: bool)
    returns (updatedIds: seq<string>, skippedIds: seq<string>)
    modifies store
    ensures store.log == old(store.log) + if storeEnabled then ObservedRecords(observe, latest, ids) else []
    ensures storeEnabled ==> updatedIds == Observable(observe, latest, ids, true)
    ensures storeEnabled ==> skippedIds == Observable(observe, latest, ids, false)
    ensures !storeEnabled ==> updatedIds == [] && skippedIds == ids
  {
    updatedIds, skippedIds := [], [];
    ghost var start, added := store.log, [];
    var n := 0;
    while n < |ids|
      invariant 0 <= n <= |ids|
      invariant store.log == start + added
      invariant storeEnabled ==> added == ObservedRecords(observe, latest, ids[..n])
      invariant !storeEnabled ==> added == []
      invariant storeEnabled ==> updatedIds == Observable(observe, latest, ids[..n], true)
      invariant storeEnabled ==> skippedIds == Observable(observe, latest, ids[..n], false)
      invariant !storeEnabled ==> updatedIds == [] && skippedIds == ids[..n]
    {
      var id := ids[n];
      assert ids[..n + 1][..n] == ids[..n];
      n := n + 1;
      var commitment := Find(latest, id);
      if commitment.None? {
        skippedIds := skippedIds + [id];
        continue;
      }
      var observed := observe(commitment.value);
      assert observed == Bind(commitment, observe);
      if observed.None? {
        skippedIds := skippedIds + [id];
        continue;
      }
      var appended := store.Append(storeEnabled, observed.value);
      if !appended {
        skippedIds := skippedIds + [id];
        continue;
      }
      assert start + added + [observed.value] == start + (added + [observed.value]);
      added := added + [observed.value];
      updatedIds := updatedIds + [id];
    }
    assert ids[..n] == ids;
  }

  /** Snoozes the commitments that a heartbeat has emitted. */
  method MarkNeonCommitmentsHeartbeatObserved(
    store: Store, enabled: bool, storeEnabled: bool, commitmentIds: seq<string>, nowMs: int, snoozeMs: Option<int>)
    returns (updatedIds: seq<string>, skippedIds: seq<string>)
    modifies store
    ensures var ids := UniqueIds(commitmentIds);
      var snooze := if snoozeMs.None? then 900_000 else if snoozeMs.value >= 1 then snoozeMs.value else 1;
      var observe := Observation(nowMs, snooze);
      var latest := Project(old(store.log));
      if enabled && storeEnabled then
        && store.log == old(store.log) + ObservedRecords(observe, latest, ids)
        && updatedIds == Observable(observe, latest, ids, true) && skippedIds == Observable(observe, latest, ids, false)
      else store.log == old(store.log) && updatedIds == [] && skippedIds == ids
  {
    var ids := UniqueIds(commitmentIds);
    if !enabled {
      return [], ids;
    }
    if ids == [] {
      return [], [];
    }
    var latest := store.Read();
    var snooze := AtLeastOne(if snoozeMs.Some? then snoozeMs.value else DEFAULT_SNOOZE_MS);
    updatedIds, skippedIds := ObserveEach(store, ids, latest, Observation(nowMs, snooze), storeEnabled);
  }

  // ----- steps of the log -----

  datatype Step =
    | Create(inp: Input)
    | Change(id: string, status: Status, snoozedUntilMs: Option<int>)
    | Observe(ids: seq<string>, snoozeMs: int)

  datatype Event = Event(nowMs: int, step: Step)

  function Changed(c: Record, status: Status, nowMs: int, snoozedUntilMs: Option<int>): Option<Record> {
    var t := ApplyStatus(c, status, nowMs, snoozedUntilMs);
    if t.Applied? then Some(t.commitment) else None
  }

  function Changing(status: Status, nowMs: int, snoozedUntilMs: Option<int>): Record -> Option<Record> {
    c => Changed(c, status, nowMs, snoozedUntilMs)
  }

  function ActOf(e: Event): Record -> Option<Record> {
    match e.step
    case Create(_) => c => None
    case Change(_, status, until) => Changing(status, e.nowMs, until)
    case Observe(_, snoozeMs) => Observation(e.nowMs, AtLeastOne(snoozeMs))
  }

  function IdsOf(e: Event): (r: seq<string>)
    ensures forall i, j :: 0 <= i < j < |r| ==> r[i] != r[j]
  {
    match e.step
    case Create(_) => []
    case Change(id, _, _) => [id]
    case Observe(ids, _) => UniqueIds(ids)
  }

  /** The records that an event appends: a new one, or successors of current ones. */
  function Appended(log: seq<Record>, e: Event): seq<Record> {
    if e.step.Create? then [BuildRecord(e.step.inp, e.nowMs)]
    else ObservedRecords(ActOf(e), Project(log), IdsOf(e))
  }

  function Appending(): (seq<Record>, Event) -> seq<Record> {
    (log, e) => Appended(log, e)
  }

  /** A log grown by events, each adding records that depend on the log so far. */
  function Grown(add: (seq<Record>, Event) -> seq<Record>, events: seq<Event>): seq<Record> {
    if events == [] then []
    else
      var n := |events| - 1;
      Grown(add, events[..n]) + add(Grown(add, events[..n]), events[n])
  }

  function LogOf(events: seq<Event>): seq<Record> { Grown(Appending(), events) }

  // ----- the log as one register per id -----

  /** An event applied to the register of one id. */
  function Lived(c: Option<Record>, id: string, e: Event): Option<Record> {
    if e.step.Create? then if e.step.inp.id == id then Some(BuildRecord(e.step.inp, e.nowMs)) else c
    else if id in IdsOf(e) && Bind(c, ActOf(e)).Some? then Bind(c, ActOf(e))
    else c
  }

  function Living(id: string): (Option<Record>, Event) -> Option<Record> {
    (c, e) => Lived(c, id, e)
  }

  function Fold(step: (Option<Record>, Event) -> Option<Record>, events: seq<Event>): Option<Record> {
    if events == [] then None else step(Fold(step, events[..|events| - 1]), events[|events| - 1])
  }

  function Life(events: seq<Event>, id: string): Option<Record> { Fold(Living(id), events) }

  /** Successors keep the id and carry the time of the event. */
  ghost predicate Stamps(act: Record -> Option<Record>, nowMs: int) {
    forall c :: act(c).Some? ==> act(c).value.id == c.id && act(c).value.updatedAtMs == nowMs
  }

  predicate NotAfter(log: seq<Record>, nowMs: int) {
    forall i :: 0 <= i < |log| ==> log[i].updatedAtMs <= nowMs
  }

  lemma ActStamps(e: Event)
    ensures Stamps(ActOf(e), e.nowMs)
  {
  }

  lemma CurrentIsInLog(log: seq<Record>, id: string)
    ensures Current(log, id).Some? ==> Current(log, id).value in log && Current(log, id).value.id == id
  {
    var i := ProjectionIsLatest(log, id);
  }

  lemma {:induction false} ObservedAt(
    act: Record -> Option<Record>, log: seq<Record>, ids: seq<string>, nowMs: int, id: string)
    requires Stamps(act, nowMs) && NotAfter(log, nowMs)
    requires forall i, j :: 0 <= i < j < |ids| ==> ids[i] != ids[j]
    ensures var after := log + ObservedRecords(act, Project(log), ids);
      && NotAfter(after, nowMs)
      && Current(after, id)
         == if id in ids && Bind(Current(log, id), act).Some? then Bind(Current(log, id), act) else Current(log, id)
  {
    if ids == [] {
      assert log + [] == log;
    } else {
      var n := |ids| - 1;
      assert ids == ids[..n] + [ids[n]];
      ObservedAt(act, log, ids[..n], nowMs, id);
      var before := log + ObservedRecords(act, Project(log), ids[..n]);
      CurrentIsInLog(log, ids[n]);
      CurrentIsInLog(before, id);
      assert Find(Project(log), ids[n]) == Current(log, ids[n]);
      var r := Bind(Current(log, ids[n]), act);
      var after := log + ObservedRecords(act, Project(log), ids);
      if r.Some? {
        assert after == before + [r.value];
        AppendTakesEffect(before, r.value, id);
      } else {
        assert after == before;
      }
    }
  }

  lemma ProjectedIsInLog(log: seq<Record>, k: nat)
    requires k < |Project(log)|
    ensures Project(log)[k] in log && Current(log, Project(log)[k].id) == Some(Project(log)[k])
  {
    ProjectionHasDistinctIds(log);
    IndexIsUnique(Project(log), k);
    CurrentIsInLog(log, Project(log)[k].id);
  }

  lemma {:induction false} ObservedSucceed(act: Record -> Option<Record>, latest: seq<Record>, ids: seq<string>, i: nat)
    returns (k: nat)
    requires i < |ObservedRecords(act, latest, ids)|
    ensures k < |latest| && act(latest[k]) == Some(ObservedRecords(act, latest, ids)[i])
  {
    var n := |ids| - 1;
    if i < |ObservedRecords(act, latest, ids[..n])| {
      k := ObservedSucceed(act, latest, ids[..n], i);
    } else {
      k := IndexOf(latest, ids[n]);
    }
  }

  /** Each record that an event other than a creation appends succeeds a current one of the same commitment. */
  lemma SuccessorOf(log: seq<Record>, e: Event, i: nat) returns (c: Record)
    requires !e.step.Create? && i < |Appended(log, e)|
    ensures c in log && Current(log, c.id) == Some(c) && SameCommitment(Appended(log, e)[i], c)
  {
    var k := ObservedSucceed(ActOf(e), Project(log), IdsOf(e), i);
    c := Project(log)[k];
    ProjectedIsInLog(log, k);
  }

  predicate ClockNeverGoesBack(events: seq<Event>) {
    forall i, j :: 0 <= i < j < |events| ==> events[i].nowMs <= events[j].nowMs
  }

  /** What an event adds to a log shows in the projected record as the step of a register. */
  ghost predicate Refines(
    add: (seq<Record>, Event) -> seq<Record>, step: (Option<Record>, Event) -> Option<Record>, id: string) {
    forall log: seq<Record>, e: Event :: NotAfter(log, e.nowMs) ==>
      NotAfter(log + add(log, e), e.nowMs) && Current(log + add(log, e), id) == step(Current(log, id), e)
  }

  lemma {:induction false} GrownIsFolded(
    add: (seq<Record>, Event) -> seq<Record>, step: (Option<Record>, Event) -> Option<Record>, id: string,
    events: seq<Event>)
    requires Refines(add, step, id) && ClockNeverGoesBack(events)
    ensures Current(Grown(add, events), id) == Fold(step, events)
    ensures events != [] ==> NotAfter(Grown(add, events), events[|events| - 1].nowMs)
  {
    if events != [] {
      GrownIsFolded(add, step, id, events[..|events| - 1]);
    }
  }

  lemma AppendedIsLived(log: seq<Record>, e: Event, id: string)
    requires NotAfter(log, e.nowMs)
    ensures NotAfter(log + Appended(log, e), e.nowMs)
    ensures Current(log + Appended(log, e), id) == Lived(Current(log, id), id, e)
  {
    if e.step.Create? {
      CurrentIsInLog(log, id);
      AppendTakesEffect(log, BuildRecord(e.step.inp, e.nowMs), id);
    } else {
      ActStamps(e);
      ObservedAt(ActOf(e), log, IdsOf(e), e.nowMs, id);
    }
  }

  /** The projected log is the register that each event updates in place. */
  lemma LogIsRegister(events: seq<Event>, id: string)
    requires ClockNeverGoesBack(events)
    ensures Current(LogOf(events), id) == Life(events, id)
    ensures events != [] ==> NotAfter(LogOf(events), events[|events| - 1].nowMs)
  {
    forall log: seq<Record>, e: Event | NotAfter(log, e.nowMs)
      ensures NotAfter(log + Appending()(log, e), e.nowMs)
      ensures Current(log + Appending()(log, e), id) == Living(id)(Current(log, id), e)
    {
      AppendedIsLived(log, e, id);
    }
    GrownIsFolded(Appending(), Living(id), id, events);
  }

  // ----- what never changes -----

  predicate Creates(e: Event, id: string) { e.step.Create? && e.step.inp.id == id }

  /** A sent, dismissed or expired commitment keeps its record exactly until its id is created anew. */
  lemma ClosedUntilCreated(c: Record, id: string, e: Event)
    requires !IsActive(c.status)
    ensures Lived(Some(c), id, e) == Some(c) <==> !Creates(e, id)
  {
  }

  lemma {:induction false} FoldStays(
    step: (Option<Record>, Event) -> Option<Record>, events: seq<Event>, n: nat, c: Option<Record>)
    requires n <= |events| && Fold(step, events[..n]) == c
    requires forall i :: n <= i < |events| ==> step(c, events[i]) == c
    ensures Fold(step, events) == c
  {
    if n == |events| {
      assert events[..n] == events;
    } else {
      var m := |events| - 1;
      assert events[..m][..n] == events[..n];
      FoldStays(step, events[..m], n, c);
    }
  }

  lemma ClosedIsAbsorbing(events: seq<Event>, id: string, n: nat)
    requires n <= |events| && ClockNeverGoesBack(events)
    requires forall i :: n <= i < |events| ==> !Creates(events[i], id)
    requires var c := Current(LogOf(events[..n]), id); c.Some? && !IsActive(c.value.status)
    ensures Current(LogOf(events), id) == Current(LogOf(events[..n]), id)
  {
    LogIsRegister(events, id);
    LogIsRegister(events[..n], id);
    var c := Life(events[..n], id);
    forall i | n <= i < |events| ensures Living(id)(c, events[i]) == c {
      ClosedUntilCreated(c.value, id, events[i]);
    }
    FoldStays(Living(id), events, n, c);
  }

  /** Everything but status, times of status changes and attempts. */
  predicate SameCommitment(a: Record, b: Record) {
    a == b.(status := a.status, updatedAtMs := a.updatedAtMs, attempts := a.attempts, sentAtMs := a.sentAtMs,
            dismissedAtMs := a.dismissedAtMs, snoozedUntilMs := a.snoozedUntilMs, expiredAtMs := a.expiredAtMs)
  }

  /** A heartbeat observation that finds the commitment active. */
  predicate Snoozes(c: Option<Record>, id: string, e: Event) {
    e.step.Observe? && id in UniqueIds(e.step.ids) && c.Some? && IsActive(c.value.status)
  }

  function Snoozing(id: string): (Option<Record>, Event) -> bool {
    (c, e) => Snoozes(c, id, e)
  }

  /** How many events meet a condition on the register they find. */
  function CountAlong(
    step: (Option<Record>, Event) -> Option<Record>, counts: (Option<Record>, Event) -> bool, events: seq<Event>): nat
  {
    if events == [] then 0
    else
      var n := |events| - 1;
      CountAlong(step, counts, events[..n]) + if counts(Fold(step, events[..n]), events[n]) then 1 else 0
  }

  /** The lifecycle snoozes of an id: observations that find its register, which is its projected record, active. */
  function LifecycleSnoozes(events: seq<Event>, id: string): nat { CountAlong(Living(id), Snoozing(id), events) }

  /** A step that keeps the commitment and counts in its attempts. */
  predicate Keeps(
    step: (Option<Record>, Event) -> Option<Record>, counts: (Option<Record>, Event) -> bool, c: Record, e: Event)
  {
    var r := step(Some(c), e);
    r.Some? && SameCommitment(r.value, c) && r.value.attempts == c.attempts + if counts(Some(c), e) then 1 else 0
  }

  lemma LivedKeeps(c: Record, id: string, e: Event)
    requires !Creates(e, id)
    ensures Keeps(Living(id), Snoozing(id), c, e)
  {
  }

  lemma {:induction false} FoldKeeps(
    step: (Option<Record>, Event) -> Option<Record>, counts: (Option<Record>, Event) -> bool, events: seq<Event>,
    k: nat, first: Record)
    requires k <= |events| && Fold(step, events[..k]) == Some(first)
            && first.attempts == CountAlong(step, counts, events[..k])
    requires forall c: Record, i :: k <= i < |events| ==> Keeps(step, counts, c, events[i])
    ensures var c := Fold(step, events);
      c.Some? && SameCommitment(c.value, first) && c.value.attempts == CountAlong(step, counts, events)
  {
    if k == |events| {
      assert events[..k] == events;
    } else {
      var n := |events| - 1;
      assert events[..n][..k] == events[..k];
      FoldKeeps(step, counts, events[..n], k, first);
      assert Keeps(step, counts, Fold(step, events[..n]).value, events[n]);
    }
  }

  lemma {:induction false} FoldsToNothing(
    step: (Option<Record>, Event) -> Option<Record>, counts: (Option<Record>, Event) -> bool, events: seq<Event>)
    requires forall i :: 0 <= i < |events| ==> step(None, events[i]).None? && !counts(None, events[i])
    ensures Fold(step, events).None? && CountAlong(step, counts, events) == 0
  {
    if events != [] {
      FoldsToNothing(step, counts, events[..|events| - 1]);
    }
  }

  /**
   An id created once keeps its creation time, due window and the rest of its first record for ever, and
   its attempts count the heartbeat observations that snoozed it.
   */
  lemma CommitmentKeepsItsRecord(events: seq<Event>, id: string, k: nat)
    requires ClockNeverGoesBack(events) && k < |events| && Creates(events[k], id)
    requires forall i :: 0 <= i < |events| && i != k ==> !Creates(events[i], id)
    ensures var c := Current(LogOf(events), id);
      && c.Some? && SameCommitment(c.value, BuildRecord(events[k].step.inp, events[k].nowMs))
      && c.value.attempts == LifecycleSnoozes(events, id)
  {
    LogIsRegister(events, id);
    FoldsToNothing(Living(id), Snoozing(id), events[..k]);
    assert events[..k + 1][..k] == events[..k];
    forall c: Record, i | k + 1 <= i < |events| ensures Keeps(Living(id), Snoozing(id), c, events[i]) {
      LivedKeeps(c, id, events[i]);
    }
    FoldKeeps(Living(id), Snoozing(id), events, k + 1, BuildRecord(events[k].step.inp, events[k].nowMs));
  }
}
