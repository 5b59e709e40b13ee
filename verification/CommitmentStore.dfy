/** The append-only commitment log, its projection and its status machine (src/commitments/commitmentStore.ts). */
module CommitmentStore {
  import opened Wrappers

  datatype Status = Pending | Sent | Dismissed | Snoozed | Expired

  datatype Kind = EventCheckIn | DeadlineCheck | CareCheckIn | OpenLoop

  datatype Origin = InferredUserContext | AgentPromise

  datatype DueWindow = DueWindow(earliestMs: int, latestMs: int, timezone: string)

  datatype Record = Record(
    id: string,
    agentId: string,
    sessionKey: string,
    channel: string,
    kind: Kind,
    origin: Origin,
    status: Status,
    suggestedText: string,
    dedupeKey: string,
    confidence: real,
    dueWindow: DueWindow,
    createdAtMs: int,
    updatedAtMs: int,
    attempts: int,
    sentAtMs: Option<int>,
    dismissedAtMs: Option<int>,
    snoozedUntilMs: Option<int>,
    expiredAtMs: Option<int>)

  predicate IsActive(s: Status) { s.Pending? || s.Snoozed? }

  /** What a caller gives for a new commitment, its text already redacted. */
  datatype Input = Input(
    id: string,
    agentId: string,
    sessionKey: string,
    channel: string,
    kind: Kind,
    origin: Origin,
    suggestedText: string,
    dedupeKey: string,
    confidence: real,
    dueWindow: DueWindow)

  function ClampConfidence(c: real): real { if c < 0.0 then 0.0 else if c > 1.0 then 1.0 else c }

  function BuildRecord(inp: Input, nowMs: int): Record {
    Record(inp.id, inp.agentId, inp.sessionKey, inp.channel, inp.kind, inp.origin, Pending, inp.suggestedText,
           inp.dedupeKey, ClampConfidence(inp.confidence), inp.dueWindow, nowMs, nowMs, 0, None, None, None, None)
  }

  // ----- the status machine -----

  datatype Transition = Applied(commitment: Record) | Inactive | BackToPending | SnoozeWithoutTime

  function ApplyStatus(c: Record, status: Status, nowMs: int, snoozedUntilMs: Option<int>): Transition {
    if !IsActive(c.status) then Inactive
    else if status.Pending? then BackToPending
    else if status.Snoozed? && snoozedUntilMs.None? then SnoozeWithoutTime
    else Applied(c.(
      status := status,
      updatedAtMs := nowMs,
      sentAtMs := if status.Sent? then Some(nowMs) else c.sentAtMs,
      dismissedAtMs := if status.Dismissed? then Some(nowMs) else c.dismissedAtMs,
      expiredAtMs := if status.Expired? then Some(nowMs) else c.expiredAtMs,
      snoozedUntilMs := if status.Snoozed? then snoozedUntilMs else c.snoozedUntilMs))
  }

  // ----- the projection -----

  /** The place of an id in a list of records, or the length when it has none. */
  function IndexOf(s: seq<Record>, id: string): (i: nat)
    ensures i <= |s|
    ensures i < |s| ==> s[i].id == id
    ensures forall j :: 0 <= j < i ==> s[j].id != id
  {
    if s == [] then 0 else if s[0].id == id then 0 else 1 + IndexOf(s[1..], id)
  }

  /** A map from ids to records keeps the place of the first insertion. */
  function Upsert(byId: seq<Record>, r: Record): seq<Record> {
    var i := IndexOf(byId, r.id);
    if i == |byId| then byId + [r]
    else if r.updatedAtMs >= byId[i].updatedAtMs then byId[i := r]
    else byId
  }

  function Project(log: seq<Record>): seq<Record> {
    if log == [] then [] else Upsert(Project(log[..|log| - 1]), log[|log| - 1])
  }

  function Current(log: seq<Record>, id: string): Option<Record> {
    var byId := Project(log);
    var i := IndexOf(byId, id);
    if i < |byId| then Some(byId[i]) else None
  }

  predicate DistinctIds(s: seq<Record>) {
    forall i, j :: 0 <= i < j < |s| ==> s[i].id != s[j].id
  }

  lemma IndexIsUnique(s: seq<Record>, i: nat)
    requires i < |s| && DistinctIds(s)
    ensures IndexOf(s, s[i].id) == i
  {
  }

  lemma {:induction false} ProjectionHasDistinctIds(log: seq<Record>)
    ensures DistinctIds(Project(log))
  {
    if log != [] {
      ProjectionHasDistinctIds(log[..|log| - 1]);
    }
  }

  /** Appending a record changes what is current for its own id only, and only if it is not older. */
  lemma AppendTakesEffect(log: seq<Record>, r: Record, id: string)
    ensures Current(log + [r], id)
            == if r.id == id && (Current(log, id).Some? ==> r.updatedAtMs >= Current(log, id).value.updatedAtMs)
               then Some(r) else Current(log, id)
  {
    assert (log + [r])[..|log|] == log;
    var byId := Project(log);
    var after := Upsert(byId, r);
    ProjectionHasDistinctIds(log);
    ProjectionHasDistinctIds(log + [r]);
    var i := IndexOf(byId, id);
    if i < |byId| {
      IndexIsUnique(after, i);
    } else if r.id == id {
      IndexIsUnique(after, |byId|);
    }
  }

  /** Record i is the last among those of its id with the greatest updatedAtMs. */
  predicate IsLatest(log: seq<Record>, id: string, i: int) {
    && 0 <= i < |log| && log[i].id == id
    && forall j :: 0 <= j < |log| && log[j].id == id ==>
         log[j].updatedAtMs <= log[i].updatedAtMs && (i < j ==> log[j].updatedAtMs < log[i].updatedAtMs)
  }

  lemma {:induction false} ProjectionIsLatest(log: seq<Record>, id: string) returns (i: int)
    ensures Current(log, id).None? <==> forall j :: 0 <= j < |log| ==> log[j].id != id
    ensures Current(log, id).Some? ==> IsLatest(log, id, i) && Current(log, id) == Some(log[i])
  {
    i := 0;
    if log != [] {
      var n := |log| - 1;
      var before := log[..n];
      assert log == before + [log[n]];
      AppendTakesEffect(before, log[n], id);
      i := ProjectionIsLatest(before, id);
      if log[n].id == id && (Current(before, id).Some? ==> log[n].updatedAtMs >= Current(before, id).value.updatedAtMs) {
        i := n;
      }
    }
  }

  /** The projecting loop of the reader. */
  method ProjectLatestCommitmentPerId(records: seq<Record>) returns (r: seq<Record>)
    ensures r == Project(records)
  {
    var byId: seq<Record> := [];
    var n := 0;
    while n < |records|
      invariant 0 <= n <= |records|
      invariant byId == Project(records[..n])
    {
      var record := records[n];
      assert records[..n + 1][..n] == records[..n];
      var i := IndexOf(byId, record.id);
      if i == |byId| {
        byId := byId + [record];
      } else if record.updatedAtMs >= byId[i].updatedAtMs {
        byId := byId[i := record];
      }
      n := n + 1;
    }
    assert records[..n] == records;
    return byId;
  }

  predicate IsDue(c: Record, nowMs: int, sessionKey: Option<string>) {
    && IsActive(c.status)
    && (sessionKey.Some? ==> c.sessionKey == sessionKey.value)
    && !(c.status.Snoozed? && c.snoozedUntilMs.Some? && c.snoozedUntilMs.value > nowMs)
    && c.dueWindow.earliestMs <= nowMs
  }

  /** Active commitments whose window has opened and whose snooze is over, of one session or of all. */
  function ListDue(commitments: seq<Record>, nowMs: int, sessionKey: Option<string>): seq<Record> {
    if commitments == [] then []
    else
      var n := |commitments| - 1;
      ListDue(commitments[..n], nowMs, sessionKey)
      + if IsDue(commitments[n], nowMs, sessionKey) then [commitments[n]] else []
  }

  lemma {:induction false} DueContains(commitments: seq<Record>, nowMs: int, sessionKey: Option<string>, c: Record)
    ensures c in ListDue(commitments, nowMs, sessionKey) <==> c in commitments && IsDue(c, nowMs, sessionKey)
  {
    if commitments != [] {
      var n := |commitments| - 1;
      assert commitments == commitments[..n] + [commitments[n]];
      DueContains(commitments[..n], nowMs, sessionKey, c);
    }
  }

  /** The log file. */
  class Store {
    var log: seq<Record>

    constructor ()
      ensures log == []
    {
      log := [];
    }

    method Append(enabled: bool, r: Record) returns (appended: bool)
      modifies this
      ensures appended == enabled
      ensures log == if enabled then old(log) + [r] else old(log)
    {
      if enabled {
        log := log + [r];
      }
      return enabled;
    }

    method Read() returns (r: seq<Record>)
      ensures r == Project(log)
    {
      r := ProjectLatestCommitmentPerId(log);
    }
  }
}
