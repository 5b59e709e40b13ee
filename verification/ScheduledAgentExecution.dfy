/**
 The retry loop of scheduled agent runs and the records it writes (src/automation/scheduledAgentExecution.ts).
 What the harness does on each attempt, the clock and the outcome of a delivery are parameters.
 */
module ScheduledAgentExecution {
  import opened Wrappers

  const DEFAULT_MAX_ATTEMPTS := 2
  const MAXIMUM_MAX_ATTEMPTS := 3
  const AGENT_UNRESOLVED := "Scheduled agent profile could not be resolved."
  const INVOCATION_FAILED := "Scheduled harness invocation failed."

  datatype Status = Running | Completed | Failed | Cancelled

  datatype HarnessEvent = Failure(message: string) | RetryMarker(attempt: int,
      maxAttempts: int) | OtherEvent(text: string)

  datatype Delivery = Delivery(state: string, reason: string, messageId: Option<string>, cutoverStage: Option<string>)

  datatype GatewayRun = GatewayRun(
    runId: string,
    live: bool,
    status: Status,
    events: seq<HarnessEvent>,
    finalText: string,
    delivery: Delivery,
    startedAt: int,
    completedAt: Option<int>)

  // ----- one attempt -----

  /**
   How an attempt ends: it never got its running record written (though a failing write may have left it in the
   store), the harness threw, or it returned a run.
   */
  datatype End = NotPersisted(recorded: bool) | Threw(transient: bool, now: int) | Returned(run: GatewayRun)

  /** An attempt with the outcome of writing its terminal record. */
  datatype Attempt = Attempt(running: GatewayRun, end: End, terminalWrite: Write)

  /** Both records are written, so that the execution goes on; otherwise it throws. */
  predicate Persists(a: Attempt) { !a.end.NotPersisted? && a.terminalWrite.Succeeds? }

  function ResolveMaxAttempts(value: Option<int>): (r: int)
    ensures 1 <= r <= 3 && (value.None? ==> r == 2)
    ensures value.Some? ==> (r > 1 ==> r <= value.value) && (r < 3 ==> value.value <= r)
  {
    if value.None? then DEFAULT_MAX_ATTEMPTS
    else if value.value < 1 then 1
    else if value.value > MAXIMUM_MAX_ATTEMPTS then MAXIMUM_MAX_ATTEMPTS
    else value.value
  }

  function ResolveRetryDelayMs(attempt: int): int {
    if attempt <= 1 then 1_000 else if attempt == 2 then 2_000 else if attempt == 3 then 4_000 else 5_000
  }

  /** The delay doubles from a second up to five seconds. */
  lemma RetryDelayDoubles(attempt: int)
    ensures attempt <= 1 ==> ResolveRetryDelayMs(attempt) == 1_000
    ensures attempt > 1 ==>
      var doubled := 2 * ResolveRetryDelayMs(attempt - 1);
      ResolveRetryDelayMs(attempt) == if doubled <= 5_000 then doubled else 5_000
  {
  }

  function Markers(n: nat, max: int): seq<HarnessEvent> {
    seq(n, i requires 0 <= i < n => RetryMarker(i + 1, max))
  }

  lemma MarkersGrow(n: nat, max: int)
    requires n > 0
    ensures Markers(n, max) == Markers(n - 1, max) + [RetryMarker(n, max)]
  {
  }

  /** The last failure among the events has a transient message. */
  predicate EndsTransient(events: seq<HarnessEvent>, isTransient: string -> bool) {
    if events == [] then false
    else
      var last := events[|events| - 1];
      if last.Failure? then isTransient(last.message) else EndsTransient(events[..|events| - 1], isTransient)
  }

  /** The terminal record of attempt k, with the markers of the attempts before it. */
  function TerminalRun(a: Attempt, k: nat, max: int): GatewayRun
    requires k > 0 && !a.end.NotPersisted?
  {
    match a.end
    case Threw(_, now) =>
      a.running.(status := Failed, events := Markers(k - 1, max) + [Failure(INVOCATION_FAILED)], finalText := "",
                 completedAt := Some(now))
    case Returned(run) => run.(events := Markers(k - 1, max) + run.events)
  }

  /** A transient failure: the harness threw one, or returned a failed run whose last failure is one. */
  predicate IsTransientFailure(a: Attempt, isTransient: string -> bool) {
    match a.end
    case NotPersisted(_) => false
    case Threw(transient, _) => transient
    case Returned(run) => run.status.Failed? && EndsTransient(run.events, isTransient)
  }

  /** What a write leaves in the store. */
  function Recorded(run: GatewayRun, write: Write): seq<GatewayRun> { if write.FailsBefore? then [] else [run] }

  /** The records that attempt k leaves in the store. */
  function AttemptRecords(a: Attempt, k: nat, max: int): seq<GatewayRun>
    requires k > 0
  {
    if a.end.NotPersisted? then if a.end.recorded then [a.running] else []
    else [a.running] + Recorded(TerminalRun(a, k, max), a.terminalWrite)
  }

  /** The records of the first n attempts. */
  function AttemptWrites(harness: nat -> Attempt, n: nat, max: int): seq<GatewayRun> {
    if n == 0 then [] else AttemptWrites(harness, n - 1, max) + AttemptRecords(harness(n), n, max)
  }

  lemma {:induction false} MarkersAreNoFailures(n: nat, max: int, events: seq<HarnessEvent>, isTransient: string -> bool)
    ensures EndsTransient(Markers(n, max) + events, isTransient) == EndsTransient(events, isTransient)
  {
    if events != [] {
      var all := Markers(n, max) + events;
      assert all[..|all| - 1] == Markers(n, max) + events[..|events| - 1];
      MarkersAreNoFailures(n, max, events[..|events| - 1], isTransient);
    } else if n > 0 {
      assert Markers(n, max)[..n - 1] == Markers(n - 1, max);
      assert Markers(n, max) + [] == Markers(n, max) && Markers(n - 1, max) + [] == Markers(n - 1, max);
      MarkersAreNoFailures(n - 1, max, [], isTransient);
    }
  }

  // ----- the loop -----

  /** The log of writes to the run store, which keeps the latest record of each run id. */
  class RunStore {
    var writes: seq<GatewayRun>

    constructor ()
      ensures writes == []
    {
      writes := [];
    }

    method WriteRun(run: GatewayRun, write: Write) returns (succeeds: bool)
      modifies this
      ensures writes == old(writes) + Recorded(run, write) && succeeds == write.Succeeds?
    {
      if !write.FailsBefore? {
        writes := writes + [run];
      }
      return write.Succeeds?;
    }
  }

  /** The attempt is followed by another one, if one is left. */
  predicate IsRetried(a: Attempt, isTransient: string -> bool) { Persists(a) && IsTransientFailure(a, isTransient) }

  predicate AllRetried(harness: nat -> Attempt, isTransient: string -> bool, n: nat) {
    forall k :: 1 <= k <= n ==> IsRetried(harness(k), isTransient)
  }

  /** Every attempt but the last was a recorded transient failure; the last was none, or was the last one allowed. */
  predicate Tries(harness: nat -> Attempt, isTransient: string -> bool, attempts: nat, max: int) {
    && 1 <= attempts <= max && AllRetried(harness, isTransient, attempts - 1)
    && (attempts == max || !IsRetried(harness(attempts), isTransient))
  }

  /** The decision of the loop on a terminal record: what the harness threw, or the record's own last failure. */
  predicate SeesTransient(a: Attempt, run: GatewayRun, isTransient: string -> bool) {
    || (a.end.Threw? && a.end.transient)
    || (run.status == Failed && EndsTransient(run.events, isTransient))
  }

  /** The markers and the loop's own failure message do not mislead it. */
  lemma DecisionIsTransience(a: Attempt, k: nat, max: int, isTransient: string -> bool)
    requires k > 0 && Persists(a) && !isTransient(INVOCATION_FAILED)
    ensures SeesTransient(a, TerminalRun(a, k, max), isTransient) <==> IsRetried(a, isTransient)
  {
    var events := if a.end.Returned? then a.end.run.events else [Failure(INVOCATION_FAILED)];
    MarkersAreNoFailures(k - 1, max, events, isTransient);
  }

  /** One attempt and the writes around it; not written stands for an exception. */
  method RunOnce(store: RunStore, attempt: Attempt, k: nat, max: int, retryEvents: seq<HarnessEvent>)
    returns (run: GatewayRun, written: bool)
    requires k > 0 && retryEvents == Markers(k - 1, max)
    modifies store
    ensures store.writes == old(store.writes) + AttemptRecords(attempt, k, max)
    ensures written <==> Persists(attempt)
    ensures written ==> run == TerminalRun(attempt, k, max)
  {
    run := attempt.running;
    if attempt.end.NotPersisted? {
      written := store.WriteRun(run, if attempt.end.recorded then FailsAfter else FailsBefore);
      return;
    }
    written := store.WriteRun(run, Succeeds);
    match attempt.end {
      case Returned(returned) =>
        run := if retryEvents != [] then returned.(events := retryEvents + returned.events) else returned;
      case Threw(_, now) =>
        run := run.(status := Failed, events := retryEvents + [Failure(INVOCATION_FAILED)], finalText := "",
                    completedAt := Some(now));
    }
    assert run == TerminalRun(attempt, k, max);
    written := store.WriteRun(run, attempt.terminalWrite);
  }

  lemma WritesGrow(start: seq<GatewayRun>, harness: nat -> Attempt, n: nat, max: int)
    requires n > 0
    ensures start + AttemptWrites(harness, n, max)
            == start + AttemptWrites(harness, n - 1, max) + AttemptRecords(harness(n), n, max)
  {
  }

  method RunAttempts(store: RunStore, harness: nat -> Attempt, isTransient: string -> bool, max: int)
    returns (attempts: nat, terminal: Option<GatewayRun>, delays: seq<int>)
    requires max >= 1 && !isTransient(INVOCATION_FAILED)
    modifies store
    ensures Tries(harness, isTransient, attempts, max)
    ensures terminal.Some? <==> Persists(harness(attempts))
    ensures terminal.Some? ==> terminal.value == TerminalRun(harness(attempts), attempts, max)
    ensures store.writes == old(store.writes) + AttemptWrites(harness, attempts, max)
    ensures |delays| == attempts - 1 && forall i :: 0 <= i < |delays| ==> delays[i] == ResolveRetryDelayMs(i + 1)
  {
    var retryEvents: seq<HarnessEvent> := [];
    ghost var start := store.writes;
    attempts, terminal, delays := 0, None, [];
    while attempts < max
      invariant 0 <= attempts < max
      invariant retryEvents == Markers(attempts, max)
      invariant AllRetried(harness, isTransient, attempts)
      invariant store.writes == start + AttemptWrites(harness, attempts, max)
      invariant |delays| == attempts && forall i :: 0 <= i < |delays| ==> delays[i] == ResolveRetryDelayMs(i + 1)
    {
      attempts := attempts + 1;
      var attempt := harness(attempts);
      var run, written := RunOnce(store, attempt, attempts, max, retryEvents);
      WritesGrow(start, harness, attempts, max);
      if !written {
        return attempts, None, delays;
      }
      DecisionIsTransience(attempt, attempts, max, isTransient);
      if attempts < max && SeesTransient(attempt, run, isTransient) {
        MarkersGrow(attempts, max);
        retryEvents := retryEvents + [RetryMarker(attempts, max)];
        delays := delays + [ResolveRetryDelayMs(attempts)];
        continue;
      }
      return attempts, Some(run), delays;
    }
  }

  // ----- what the records and the number of attempts mean -----

  /** Attempts are persisted in turn: a running record, then the terminal one. */
  lemma {:induction false} WritesAlternate(harness: nat -> Attempt, n: nat, max: int, k: nat)
    requires 1 <= k <= n && forall j :: 1 <= j <= n ==> Persists(harness(j))
    ensures var writes := AttemptWrites(harness, n, max);
      && Persists(harness(k)) && |writes| == 2 * n
      && writes[2 * k - 2] == harness(k).running && writes[2 * k - 1] == TerminalRun(harness(k), k, max)
  {
    if k < n {
      WritesAlternate(harness, n - 1, max, k);
    } else if n > 1 {
      WritesAlternate(harness, n - 1, max, n - 1);
    } else {
      assert AttemptWrites(harness, 0, max) == [];
    }
  }

  /** What the harness does decides how many attempts there are. */
  lemma TriesAreDetermined(harness: nat -> Attempt, isTransient: string -> bool, a: nat, b: nat, max: int)
    requires Tries(harness, isTransient, a, max) && Tries(harness, isTransient, b, max)
    ensures a == b
  {
    assert a < b ==> IsRetried(harness(a), isTransient);
    assert b < a ==> IsRetried(harness(b), isTransient);
  }

  predicate NoFailureAfter(events: seq<HarnessEvent>, i: int) {
    forall j :: 0 <= j < |events| && i < j ==> !events[j].Failure?
  }

  /** Some failure among the events has a transient message, and none comes after it. */
  predicate LastFailureIsTransient(events: seq<HarnessEvent>, isTransient: string -> bool) {
    exists i :: 0 <= i < |events| && events[i].Failure? && isTransient(events[i].message) && NoFailureAfter(events, i)
  }

  lemma LastFailureOfFront(events: seq<HarnessEvent>, isTransient: string -> bool)
    requires events != []
    ensures var last := events[|events| - 1];
      LastFailureIsTransient(events, isTransient)
      <==> if last.Failure? then isTransient(last.message) else LastFailureIsTransient(events[..|events| - 1], isTransient)
  {
    var n := |events| - 1;
    assert NoFailureAfter(events, n);
    forall i | 0 <= i < n ensures NoFailureAfter(events, i) <==> NoFailureAfter(events[..n], i) && !events[n].Failure? {
      assert NoFailureAfter(events, i) ==> forall j :: i < j < n ==> events[..n][j] == events[j];
      assert NoFailureAfter(events[..n], i) ==> forall j :: i < j < n ==> events[j] == events[..n][j];
    }
    assert forall i :: 0 <= i < n ==> events[..n][i] == events[i];
  }

  lemma {:induction false} EndsTransientExactly(events: seq<HarnessEvent>, isTransient: string -> bool)
    ensures EndsTransient(events, isTransient) <==> LastFailureIsTransient(events, isTransient)
  {
    if events != [] {
      LastFailureOfFront(events, isTransient);
      EndsTransientExactly(events[..|events| - 1], isTransient);
    }
  }

  /** An attempt is retried exactly when its record is written and its harness failed for a passing reason. */
  lemma RetriedExactly(a: Attempt, isTransient: string -> bool)
    ensures IsRetried(a, isTransient) <==>
      && a.terminalWrite.Succeeds?
      && match a.end
         case NotPersisted(_) => false
         case Threw(transient, _) => transient
         case Returned(run) => run.status == Failed && LastFailureIsTransient(run.events, isTransient)
  {
    if a.end.Returned? {
      EndsTransientExactly(a.end.run.events, isTransient);
    }
  }

  // ----- the whole execution -----

  datatype Specification = Specification(runId: string, receivedAt: int, deliveryChannel: Option<string>)

  datatype DeliveryOutcome =
    | SenderThrew
    | Outcome(state: string, messageId: Option<string>, reason: Option<string>, stage: Option<string>)

  datatype State = Blocked | Executed | ExecutionFailed

  datatype Result = Result(state: State, run: GatewayRun, attempts: nat, retryCount: nat, outboundSent: bool)

  /** The record of an execution that never reaches the harness. */
  function UnstartedRun(spec: Specification, status: Status, events: seq<HarnessEvent>, completedAt: int): GatewayRun {
    var delivery := Delivery("suppressed", "scheduled-agent-execution-blocked", None, None);
    GatewayRun(spec.runId, false, status, events, "", delivery, spec.receivedAt, Some(completedAt))
  }

  /** Present and not empty. */
  predicate Truthy(o: Option<string>) { o.Some? && o.value != "" }

  function MarkDelivered(run: GatewayRun, o: DeliveryOutcome): GatewayRun
    requires o.Outcome? && o.messageId.Some?
  {
    run.(live := true,
         delivery := Delivery("delivered", if Truthy(o.reason) then o.reason.value else "canary-reply", o.messageId,
                              if Truthy(o.stage) then o.stage else run.delivery.cutoverStage))
  }

  predicate IsDelivered(o: DeliveryOutcome) { o.Outcome? && o.state == "delivered" && Truthy(o.messageId) }

  /** The record after an attempted delivery: marked as delivered, or with the reason why not. */
  function AfterDelivery(run: GatewayRun, o: DeliveryOutcome): GatewayRun
    requires o.Outcome?
  {
    if IsDelivered(o) then MarkDelivered(run, o)
    else
      var reason := if o.reason.Some? then o.reason.value else o.state;
      run.(delivery := run.delivery.(reason := "scheduled-outbound-" + reason))
  }

  predicate IsDeliverable(spec: Specification, hasSender: bool, run: GatewayRun) {
    run.status.Completed? && spec.deliveryChannel == Some("discord") && hasSender
  }

  method PersistDelivery(store: RunStore, run: GatewayRun, delivery: DeliveryOutcome, write: Write)
    returns (persisted: GatewayRun, outboundSent: bool, succeeds: bool)
    requires delivery.Outcome?
    modifies store
    ensures persisted == AfterDelivery(run, delivery) && outboundSent == IsDelivered(delivery)
    ensures persisted.events == run.events && persisted.status == run.status
    ensures store.writes == old(store.writes) + Recorded(persisted, write) && succeeds == write.Succeeds?
  {
    if delivery.state == "delivered" && Truthy(delivery.messageId) {
      persisted, outboundSent := MarkDelivered(run, delivery), true;
      succeeds := store.WriteRun(persisted, write);
      return;
    }
    persisted := run.(delivery := run.delivery.(
      reason := "scheduled-outbound-" + if delivery.reason.Some? then delivery.reason.value else delivery.state));
    outboundSent := false;
    succeeds := store.WriteRun(persisted, write);
  }

  lemma BeginsWithMarkers(a: Attempt, k: nat, max: int)
    requires k > 0 && !a.end.NotPersisted?
    ensures var events := TerminalRun(a, k, max).events;
      k - 1 <= |events| && events[..k - 1] == Markers(k - 1, max)
  {
  }

  /** The last attempt, or the delivery after it, makes the execution throw. */
  predicate Throws(
    spec: Specification, last: Attempt, attempts: nat, max: int, hasSender: bool, deliver: GatewayRun -> DeliveryOutcome,
    deliveryWrite: Write)
    requires attempts > 0
  {
    || !Persists(last)
    || (var terminal := TerminalRun(last, attempts, max);
        IsDeliverable(spec, hasSender, terminal) && (deliver(terminal).SenderThrew? || !deliveryWrite.Succeeds?))
  }

  /** The run that is returned after the last attempt. */
  function FinalRun(spec: Specification, terminal: GatewayRun, hasSender: bool, o: DeliveryOutcome): GatewayRun {
    if IsDeliverable(spec, hasSender, terminal) && o.Outcome? then AfterDelivery(terminal, o) else terminal
  }

  /** The records that a delivery leaves in the store. */
  function DeliveryRecords(
    spec: Specification, terminal: GatewayRun, hasSender: bool, o: DeliveryOutcome, write: Write): seq<GatewayRun>
  {
    if IsDeliverable(spec, hasSender, terminal) && o.Outcome? then Recorded(AfterDelivery(terminal, o), write) else []
  }

  /** A disarmed execution, or one without its agent, only leaves a record. */
  method RecordUnstarted(store: RunStore, run: GatewayRun, state: State, write: Write) returns (r: Option<Result>)
    modifies store
    ensures store.writes == old(store.writes) + Recorded(run, write)
    ensures r == if write.Succeeds? then Some(Result(state, run, 0, 0, false)) else None
  {
    var succeeds := store.WriteRun(run, write);
    return if succeeds then Some(Result(state, run, 0, 0, false)) else None;
  }

  lemma LastRecord(harness: nat -> Attempt, n: nat, max: int)
    requires n > 0 && Persists(harness(n))
    ensures var writes := AttemptWrites(harness, n, max);
      writes != [] && writes[|writes| - 1] == TerminalRun(harness(n), n, max)
  {
  }

  /**
   What an execution with its agent comes to after its last attempt: the records that it adds to the store, and
   its result, or None for an exception.
   */
  predicate ArmedOutcome(
    spec: Specification, last: Attempt, attempts: nat, max: int, hasSender: bool, deliver: GatewayRun -> DeliveryOutcome,
    deliveryWrite: Write, attemptWrites: seq<GatewayRun>, added: seq<GatewayRun>, r: Option<Result>)
    requires attempts > 0
  {
    && (r.None? <==> Throws(spec, last, attempts, max, hasSender, deliver, deliveryWrite))
    && if !Persists(last) then added == attemptWrites
       else
         var terminal := TerminalRun(last, attempts, max);
         var run := FinalRun(spec, terminal, hasSender, deliver(terminal));
         var sent := IsDeliverable(spec, hasSender, terminal) && IsDelivered(deliver(terminal));
         var state := if run.status.Completed? then Executed else ExecutionFailed;
         && added == attemptWrites + DeliveryRecords(spec, terminal, hasSender, deliver(terminal), deliveryWrite)
         && (r.Some? ==>
               && r.value == Result(state, run, attempts, attempts - 1, sent)
               && attempts - 1 <= |run.events| && run.events[..attempts - 1] == Markers(attempts - 1, max)
               && added != [] && added[|added| - 1] == run)
  }

  /** A delivery is tried for a completed run that goes to Discord, if there is a sender. */
  predicate IsOffered(spec: Specification, end: End, hasSender: bool) {
    end.Returned? && end.run.status == Completed && spec.deliveryChannel == Some("discord") && hasSender
  }

  /** The run sent out: the returned one, after the markers of its retries. */
  function Offered(end: End, events: seq<HarnessEvent>): GatewayRun
    requires end.Returned?
  {
    end.run.(events := events)
  }

  /** What a delivery makes of the record of the run that it sent. */
  predicate IsAnswered(r: Result, sent: GatewayRun, o: DeliveryOutcome) {
    && o.Outcome?
    && (r.outboundSent <==> o.state == "delivered" && o.messageId.Some? && o.messageId.value != "")
    && (r.outboundSent ==>
          && r.run == sent.(live := true, delivery := r.run.delivery)
          && r.run.delivery.state == "delivered" && r.run.delivery.messageId == o.messageId
          && r.run.delivery.reason == (if o.reason in {None, Some("")} then "canary-reply" else o.reason.value)
          && r.run.delivery.cutoverStage == if o.stage in {None, Some("")} then sent.delivery.cutoverStage else o.stage)
    && (!r.outboundSent ==>
          r.run == sent.(delivery := sent.delivery.(
                           reason := "scheduled-outbound-" + if o.reason.Some? then o.reason.value else o.state)))
  }

  /**
   The result of an execution by the end of its last attempt: only a run that the harness returned as completed is
   executed; a harness that threw leaves a failed run without text, whose last event says so, and nothing is sent.
   */
  predicate ResultOf(
    spec: Specification, last: Attempt, max: int, hasSender: bool, deliver: GatewayRun -> DeliveryOutcome, records: nat,
    r: Result)
  {
    && r.attempts >= 1 && r.retryCount == r.attempts - 1 <= |r.run.events|
    && (forall i :: 0 <= i < r.retryCount ==> r.run.events[i] == RetryMarker(i + 1, max))
    && (r.state == Executed <==> last.end.Returned? && last.end.run.status == Completed) && r.state != Blocked
    && records == 2 * r.attempts + (if IsOffered(spec, last.end, hasSender) then 1 else 0)
    && match last.end
       case NotPersisted(_) => false
       case Threw(_, at) =>
         && r.run.events[r.retryCount..] == [Failure("Scheduled harness invocation failed.")]
         && r.run == last.running.(status := Failed, finalText := "", completedAt := Some(at), events := r.run.events)
         && !r.outboundSent
       case Returned(run) =>
         && r.run.events[r.retryCount..] == run.events
         && if IsOffered(spec, last.end, hasSender)
            then IsAnswered(r, Offered(last.end, r.run.events), deliver(Offered(last.end, r.run.events)))
            else r.run == Offered(last.end, r.run.events) && !r.outboundSent
  }

  lemma TwoRecords(a: Attempt, k: nat, max: int)
    requires k > 0 && Persists(a)
    ensures |AttemptRecords(a, k, max)| == 2
  {
  }

  /** A record of the last attempt or of its delivery is not written, or the sender throws. */
  predicate Raises(
    spec: Specification, last: Attempt, attempts: nat, max: int, hasSender: bool, deliver: GatewayRun -> DeliveryOutcome,
    deliveryWrite: Write)
    requires attempts > 0
  {
    || last.end.NotPersisted? || !last.terminalWrite.Succeeds?
    || (&& IsOffered(spec, last.end, hasSender)
        && var sent := Offered(last.end, Markers(attempts - 1, max) + last.end.run.events);
           deliver(sent).SenderThrew? || !deliveryWrite.Succeeds?)
  }

  lemma {:induction false} TwoRecordsEach(harness: nat -> Attempt, n: nat, max: int)
    requires forall k :: 1 <= k <= n ==> Persists(harness(k))
    ensures |AttemptWrites(harness, n, max)| == 2 * n
  {
    if n > 0 {
      TwoRecordsEach(harness, n - 1, max);
      TwoRecords(harness(n), n, max);
    }
  }

  lemma RunByEnd(last: Attempt, attempts: nat, max: int)
    requires attempts > 0 && Persists(last)
    ensures var t := TerminalRun(last, attempts, max);
      && attempts - 1 <= |t.events|
      && (forall i :: 0 <= i < attempts - 1 ==> t.events[i] == RetryMarker(i + 1, max))
      && (last.end.Threw? ==>
            && t.events[attempts - 1..] == [Failure("Scheduled harness invocation failed.")]
            && t == last.running.(status := Failed, finalText := "", completedAt := Some(last.end.now), events := t.events))
      && (last.end.Returned? ==>
            t.events[attempts - 1..] == last.end.run.events && t == Offered(last.end, t.events))
  {
  }

  lemma DeliveryByOutcome(terminal: GatewayRun, o: DeliveryOutcome, state: State, attempts: nat, retryCount: nat)
    requires o.Outcome?
    ensures IsAnswered(Result(state, AfterDelivery(terminal, o), attempts, retryCount, IsDelivered(o)), terminal, o)
    ensures AfterDelivery(terminal, o).events == terminal.events && AfterDelivery(terminal, o).status == terminal.status
  {
  }

  lemma ResultByEnd(
    spec: Specification, harness: nat -> Attempt, isTransient: string -> bool, attempts: nat, max: int, hasSender: bool,
    deliver: GatewayRun -> DeliveryOutcome, deliveryWrite: Write, added: seq<GatewayRun>, r: Option<Result>)
    requires Tries(harness, isTransient, attempts, max)
    requires ArmedOutcome(spec, harness(attempts), attempts, max, hasSender, deliver, deliveryWrite,
                          AttemptWrites(harness, attempts, max), added, r)
    ensures r.Some? ==> ResultOf(spec, harness(attempts), max, hasSender, deliver, |added|, r.value)
    ensures r.None? <==> Raises(spec, harness(attempts), attempts, max, hasSender, deliver, deliveryWrite)
  {
    if r.Some? {
      var last := harness(attempts);
      var terminal := TerminalRun(last, attempts, max);
      RunByEnd(last, attempts, max);
      assert forall k :: 1 <= k < attempts ==> IsRetried(harness(k), isTransient);
      TwoRecordsEach(harness, attempts, max);
      if IsOffered(spec, last.end, hasSender) {
        DeliveryByOutcome(terminal, deliver(terminal), Executed, attempts, attempts - 1);
      }
    }
  }

  /** An execution with its agent. */
  method ExecuteArmed(
    store: RunStore, spec: Specification, harness: nat -> Attempt, isTransient: string -> bool, max: int, hasSender: bool,
    deliver: GatewayRun -> DeliveryOutcome, deliveryWrite: Write)
    returns (r: Option<Result>, attempts: nat, delays: seq<int>)
    requires max >= 1 && !isTransient(INVOCATION_FAILED)
    modifies store
    ensures Tries(harness, isTransient, attempts, max) && attempts - 1 == |delays|
    ensures old(store.writes) <= store.writes
    ensures ArmedOutcome(spec, harness(attempts), attempts, max, hasSender, deliver, deliveryWrite,
                  AttemptWrites(harness, attempts, max), store.writes[|old(store.writes)|..], r)
  {
    var last;
    attempts, last, delays := RunAttempts(store, harness, isTransient, max);
    if last.None? {
      return None, attempts, delays;
    }
    BeginsWithMarkers(harness(attempts), attempts, max);
    LastRecord(harness, attempts, max);
    var persisted, outboundSent := last.value, false;
    if IsDeliverable(spec, hasSender, persisted) {
      var delivery := deliver(persisted);
      if delivery.SenderThrew? {
        return None, attempts, delays;
      }
      var succeeds;
      persisted, outboundSent, succeeds := PersistDelivery(store, persisted, delivery, deliveryWrite);
      if !succeeds {
        return None, attempts, delays;
      }
    }
    var state := if persisted.status.Completed? then Executed else ExecutionFailed;
    return Some(Result(state, persisted, attempts, attempts - 1, outboundSent)), attempts, delays;
  }

  /**
   An armed execution with a resolved agent makes 1 to max attempts. The run it returns is the last attempt's,
   begins with one marker per retry, and is the last record written. None stands for an exception, which comes
   exactly when a record is not written or the sender throws. The one write that is no attempt's is otherWrite.
   */
  method ExecuteNeonScheduledAgentRun(
    store: RunStore, spec: Specification, enabled: bool, agentResolves: bool, now: int, harness: nat -> Attempt,
    isTransient: string -> bool, maxAttempts: Option<int>, hasSender: bool, deliver: GatewayRun -> DeliveryOutcome,
    otherWrite: Write)
    returns (r: Option<Result>, attempts: nat, delays: seq<int>)
    requires !isTransient(INVOCATION_FAILED)
    modifies store
    ensures !enabled || !agentResolves ==>
      var suppressed := Delivery("suppressed", "scheduled-agent-execution-blocked", None, None);
      var run := if enabled
                 then GatewayRun(spec.runId, false, Failed, [Failure("Scheduled agent profile could not be resolved.")], "",
                                 suppressed, spec.receivedAt, Some(now))
                 else GatewayRun(spec.runId, false, Completed, [], "", suppressed, spec.receivedAt, Some(spec.receivedAt));
      && store.writes == old(store.writes) + Recorded(run, otherWrite)
      && (r.Some? <==> otherWrite.Succeeds?)
      && (r.Some? ==> r.value == Result(if enabled then ExecutionFailed else Blocked, run, 0, 0, false))
    ensures enabled && agentResolves ==>
      var max := ResolveMaxAttempts(maxAttempts);
      && Tries(harness, isTransient, attempts, max) && attempts - 1 == |delays| && old(store.writes) <= store.writes
      && ArmedOutcome(spec, harness(attempts), attempts, max, hasSender, deliver, otherWrite,
               AttemptWrites(harness, attempts, max), store.writes[|old(store.writes)|..], r)
      && (r.Some? ==>
            ResultOf(spec, harness(attempts), max, hasSender, deliver, |store.writes| - |old(store.writes)|, r.value))
      && (r.None? <==> Raises(spec, harness(attempts), attempts, max, hasSender, deliver, otherWrite))
  {
    attempts, delays := 0, [];
    if !enabled {
      r := RecordUnstarted(store, UnstartedRun(spec, Completed, [], spec.receivedAt), Blocked, otherWrite);
      return;
    }
    if !agentResolves {
      var run := UnstartedRun(spec, Failed, [Failure(AGENT_UNRESOLVED)], now);
      r := RecordUnstarted(store, run, ExecutionFailed, otherWrite);
      return;
    }
    r, attempts, delays :=
      ExecuteArmed(store, spec, harness, isTransient, ResolveMaxAttempts(maxAttempts), hasSender, deliver, otherWrite);
    ResultByEnd(spec, harness, isTransient, attempts, ResolveMaxAttempts(maxAttempts), hasSender, deliver, otherWrite,
                store.writes[|old(store.writes)|..], r);
  }
}
