/**
 Commitments and heartbeat together (src/automation/heartbeatDaemonService.ts, heartbeatTimerRuntime.ts,
 src/commitments/): every tick wakes the due commitments of the log, and the log moves on between ticks.
 */
module CommitmentWakes {
  import opened Wrappers
  import opened HeartbeatActiveHours
  import opened HeartbeatCooldown
  import opened HeartbeatDriver
  import opened HeartbeatWake
  import opened CommitmentStore
  import opened CommitmentLifecycle

  predicate Knows(agents: seq<Agent>, agentId: string) {
    exists i :: 0 <= i < |agents| && agents[i].id == agentId
  }

  function WakeFor(c: Record): CommitmentWake { CommitmentWake(c.agentId, c.id, c.dueWindow.earliestMs) }

  /** The wakes of due commitments whose agent is known. */
  function WakesOf(due: seq<Record>, agents: seq<Agent>): seq<CommitmentWake> {
    if due == [] then []
    else
      var n := |due| - 1;
      WakesOf(due[..n], agents)
      + if Knows(agents, due[n].agentId) then [WakeFor(due[n])] else []
  }

  function DueWakes(log: seq<Record>, nowMs: int, agents: seq<Agent>): seq<CommitmentWake> {
    WakesOf(ListDue(Project(log), nowMs, None), agents)
  }

  // ----- runs: ticks and log events in any order -----

  datatype State = State(log: seq<Record>, cursor: Cursor)

  /** Beat takes its wakes from the log, not from its input. */
  datatype Step = Beat(inp: TickInput) | Write(e: Event)

  function BeatTick(digest: string -> nat, s: State, inp: TickInput): Tick {
    TickOf(digest, inp.(wakes := DueWakes(s.log, inp.now, inp.agents)), s.cursor)
  }

  function After(digest: string -> nat, s: State, step: Step): State {
    match step
    case Beat(inp) => s.(cursor := BeatTick(digest, s, inp).next)
    case Write(e) => s.(log := s.log + Appended(s.log, e))
  }

  function Run(digest: string -> nat, start: State, steps: seq<Step>): State {
    if steps == [] then start
    else After(digest, Run(digest, start, steps[..|steps| - 1]), steps[|steps| - 1])
  }

  /** Emissions that wake a commitment. */
  function WakeCount(emissions: seq<Emission>, id: string): nat {
    if emissions == [] then 0
    else
      var n := |emissions| - 1;
      WakeCount(emissions[..n], id)
      + if emissions[n].key.CommitmentKey? && emissions[n].key.commitmentId == id then 1 else 0
  }

  function WakesInRun(digest: string -> nat, start: State, steps: seq<Step>, id: string): nat {
    if steps == [] then 0
    else
      var n := |steps| - 1;
      WakesInRun(digest, start, steps[..n], id)
      + match steps[n]
        case Beat(inp) => WakeCount(BeatTick(digest, Run(digest, start, steps[..n]), inp).emissions, id)
        case Write(_) => 0
  }

  // ----- one tick -----

  predicate OneWakeEach(wakes: seq<CommitmentWake>) {
    forall i, j :: 0 <= i < j < |wakes| ==> wakes[i].commitmentId != wakes[j].commitmentId
  }

  /** Every wake of the commitment is for this agent and this time. */
  predicate WakesAre(wakes: seq<CommitmentWake>, id: string, agentId: string, dueMs: int) {
    forall i :: 0 <= i < |wakes| && wakes[i].commitmentId == id ==> wakes[i] == CommitmentWake(agentId, id, dueMs)
  }

  lemma BookCounts(tick: Tick, agentId: string, key: CursorKey, priority: int, outcome: Outcome, id: string)
    ensures WakeCount(Book(tick, agentId, key, priority, outcome).emissions, id)
            == WakeCount(tick.emissions, id)
               + if outcome.Emitted? && key.CommitmentKey? && key.commitmentId == id then 1 else 0
  {
    if outcome.Emitted? {
      assert (tick.emissions + [Emission(key, priority, outcome.window)])[..|tick.emissions|] == tick.emissions;
    }
  }

  lemma {:induction false} AgentsWakeNothing(
    outcome: Agent -> Outcome, agents: seq<Agent>, already: Cursor, id: string, key: CursorKey)
    requires key.CommitmentKey?
    ensures var t := AgentTick(outcome, agents, already);
      WakeCount(t.emissions, id) == 0 && Lookup(t.next, key) == Lookup(already, key)
  {
    if agents != [] {
      var n := |agents| - 1;
      AgentsWakeNothing(outcome, agents[..n], already, id, key);
      BookCounts(AgentTick(outcome, agents[..n], already), agents[n].id, AgentKey(agents[n].id),
                 ResolvePriority(IntervalSource, Scheduled, "interval"), outcome(agents[n]), id);
    }
  }

  /** From one tick to another at most one wake of the commitment is emitted, and then the cursor holds its time. */
  predicate WakesAtMostOnce(from: Tick, to: Tick, id: string, key: CursorKey, dueMs: int) {
    || (WakeCount(to.emissions, id) == WakeCount(from.emissions, id) && Lookup(to.next, key) == Lookup(from.next, key))
    || (WakeCount(to.emissions, id) == WakeCount(from.emissions, id) + 1 && Lookup(to.next, key) == Some(dueMs))
  }

  /** The commitment's wake, if emitted, is emitted with its time, and never when that is already in the cursor. */
  ghost predicate EmitsDue(outcome: CommitmentWake -> Outcome, wake: CommitmentWake, already: Option<int>) {
    outcome(wake).Emitted? ==> outcome(wake).window == wake.dueMs && already != Some(wake.dueMs)
  }

  lemma {:induction false} OtherWakes(
    outcome: CommitmentWake -> Outcome, start: Tick, wakes: seq<CommitmentWake>, id: string, key: CursorKey)
    requires key.CommitmentKey? && key.commitmentId == id
    requires forall i :: 0 <= i < |wakes| ==> wakes[i].commitmentId != id
    ensures var t := WakeTick(outcome, start, wakes);
      WakeCount(t.emissions, id) == WakeCount(start.emissions, id) && Lookup(t.next, key) == Lookup(start.next, key)
  {
    if wakes != [] {
      var n := |wakes| - 1;
      OtherWakes(outcome, start, wakes[..n], id, key);
      BookCounts(WakeTick(outcome, start, wakes[..n]), wakes[n].agentId, KeyOfWake(wakes[n]),
                 ResolvePriority(CommitmentSource, Intent.Event, "commitment-due"), outcome(wakes[n]), id);
    }
  }

  /** What booking one wake of this commitment, or of another, does. */
  lemma BookAtMostOnce(
    start: Tick, before: Tick, wake: CommitmentWake, outcome: Outcome, priority: int, id: string, agentId: string,
    dueMs: int)
    requires wake.commitmentId == id ==>
      && wake.agentId == agentId && (outcome.Emitted? ==> outcome.window == dueMs)
      && WakeCount(before.emissions, id) == WakeCount(start.emissions, id)
      && Lookup(before.next, CommitmentKey(agentId, id)) == Lookup(start.next, CommitmentKey(agentId, id))
    requires WakesAtMostOnce(start, before, id, CommitmentKey(agentId, id), dueMs)
    ensures var after := Book(before, wake.agentId, KeyOfWake(wake), priority, outcome);
      && WakesAtMostOnce(start, after, id, CommitmentKey(agentId, id), dueMs)
      && (!outcome.Emitted? || wake.commitmentId != id ==>
            && WakeCount(after.emissions, id) == WakeCount(before.emissions, id)
            && Lookup(after.next, CommitmentKey(agentId, id)) == Lookup(before.next, CommitmentKey(agentId, id)))
  {
    BookCounts(before, wake.agentId, KeyOfWake(wake), priority, outcome, id);
  }

  lemma {:induction false} WakeTickAt(
    outcome: CommitmentWake -> Outcome, start: Tick, wakes: seq<CommitmentWake>, id: string, agentId: string,
    dueMs: int, already: Option<int>)
    requires OneWakeEach(wakes) && WakesAre(wakes, id, agentId, dueMs)
    requires EmitsDue(outcome, CommitmentWake(agentId, id, dueMs), already)
    ensures var t, key := WakeTick(outcome, start, wakes), CommitmentKey(agentId, id);
      && WakesAtMostOnce(start, t, id, key, dueMs)
      && (already == Some(dueMs) ==> WakeCount(t.emissions, id) == WakeCount(start.emissions, id)
                                     && Lookup(t.next, key) == Lookup(start.next, key))
  {
    if wakes != [] {
      var n := |wakes| - 1;
      if wakes[n].commitmentId == id {
        OtherWakes(outcome, start, wakes[..n], id, CommitmentKey(agentId, id));
      } else {
        WakeTickAt(outcome, start, wakes[..n], id, agentId, dueMs, already);
      }
      BookAtMostOnce(start, WakeTick(outcome, start, wakes[..n]), wakes[n], outcome(wakes[n]),
                     ResolvePriority(CommitmentSource, Intent.Event, "commitment-due"), id, agentId, dueMs);
    }
  }

  // ----- the wakes of a log -----

  /** All records of the id are for this agent and open at this time. */
  predicate SharesWindow(log: seq<Record>, id: string, agentId: string, dueMs: int) {
    forall i :: 0 <= i < |log| && log[i].id == id ==> log[i].agentId == agentId && log[i].dueWindow.earliestMs == dueMs
  }

  lemma {:induction false} DueAreListed(commitments: seq<Record>, nowMs: int)
    requires DistinctIds(commitments)
    ensures var due := ListDue(commitments, nowMs, None);
      DistinctIds(due) && forall i :: 0 <= i < |due| ==> due[i] in commitments && IsDue(due[i], nowMs, None)
  {
    if commitments != [] {
      var n := |commitments| - 1;
      DueAreListed(commitments[..n], nowMs);
    }
  }

  lemma {:induction false} WakesFollowDue(due: seq<Record>, agents: seq<Agent>, i: nat) returns (k: nat)
    requires DistinctIds(due)
    requires i < |WakesOf(due, agents)|
    ensures i <= k < |due|
    ensures WakesOf(due, agents)[i] == WakeFor(due[k])
    ensures OneWakeEach(WakesOf(due, agents))
  {
    var n := |due| - 1;
    var before := WakesOf(due[..n], agents);
    forall j | 0 <= j < |before| ensures before[j].commitmentId != due[n].id {
      var l := WakesFollowDue(due[..n], agents, j);
    }
    if before != [] {
      var l := WakesFollowDue(due[..n], agents, 0);
    }
    if i < |before| {
      k := WakesFollowDue(due[..n], agents, i);
    } else {
      LengthOfWakes(due[..n], agents);
      k := n;
    }
  }

  lemma {:induction false} LengthOfWakes(due: seq<Record>, agents: seq<Agent>)
    ensures |WakesOf(due, agents)| <= |due|
  {
    if due != [] {
      LengthOfWakes(due[..|due| - 1], agents);
    }
  }

  lemma DueWakesShareWindow(log: seq<Record>, nowMs: int, agents: seq<Agent>, id: string, agentId: string, dueMs: int)
    requires SharesWindow(log, id, agentId, dueMs)
    ensures OneWakeEach(DueWakes(log, nowMs, agents)) && WakesAre(DueWakes(log, nowMs, agents), id, agentId, dueMs)
  {
    ProjectionHasDistinctIds(log);
    DueAreListed(Project(log), nowMs);
    var due, wakes := ListDue(Project(log), nowMs, None), DueWakes(log, nowMs, agents);
    if wakes != [] {
      var k := WakesFollowDue(due, agents, 0);
    }
    forall i | 0 <= i < |wakes| && wakes[i].commitmentId == id ensures wakes[i] == CommitmentWake(agentId, id, dueMs) {
      var k := WakesFollowDue(due, agents, i);
      var p :| 0 <= p < |Project(log)| && Project(log)[p] == due[k];
      ProjectedIsInLog(log, p);
    }
  }

  // ----- runs -----

  lemma BeatWakesAtMostOnce(digest: string -> nat, s: State, inp: TickInput, id: string, agentId: string, dueMs: int)
    requires SharesWindow(s.log, id, agentId, dueMs)
    ensures var t, key := BeatTick(digest, s, inp), CommitmentKey(agentId, id);
      var count := WakeCount(t.emissions, id);
      && (|| (count == 0 && Lookup(t.next, key) == Lookup(s.cursor, key))
          || (count == 1 && Lookup(t.next, key) == Some(dueMs) && Lookup(s.cursor, key) != Some(dueMs)))
  {
    if inp.enabled {
      var key, wakes := CommitmentKey(agentId, id), DueWakes(s.log, inp.now, inp.agents);
      var agentOutcomes := AgentOutcomes(digest, inp.now, s.cursor, inp.limits);
      var outcome := WakeOutcomes(AgentsById(inp.agents), inp.now, s.cursor, inp.limits);
      var start := AgentTick(agentOutcomes, inp.agents, s.cursor);
      AgentsWakeNothing(agentOutcomes, inp.agents, s.cursor, id, key);
      DueWakesShareWindow(s.log, inp.now, inp.agents, id, agentId, dueMs);
      WakeTickAt(outcome, start, wakes, id, agentId, dueMs, Lookup(s.cursor, key));
    }
  }

  lemma WriteSharesWindow(log: seq<Record>, e: Event, id: string, agentId: string, dueMs: int)
    requires SharesWindow(log, id, agentId, dueMs)
    requires Creates(e, id) ==> e.step.inp.agentId == agentId && e.step.inp.dueWindow.earliestMs == dueMs
    ensures SharesWindow(log + Appended(log, e), id, agentId, dueMs)
  {
    var added := Appended(log, e);
    if !e.step.Create? {
      forall i | 0 <= i < |added| && added[i].id == id
        ensures added[i].agentId == agentId && added[i].dueWindow.earliestMs == dueMs
      {
        var c := SuccessorOf(log, e, i);
      }
    }
  }

  /**
   A commitment wakes at most once over any run of ticks and log events, whatever the clock does and however
   often it is snoozed, as long as its id is only created for one agent and one opening time.
   */
  lemma {:induction false} CommitmentWakesOnce(
    digest: string -> nat, start: State, steps: seq<Step>, id: string, agentId: string, dueMs: int)
    requires SharesWindow(start.log, id, agentId, dueMs)
    requires forall i :: 0 <= i < |steps| && steps[i].Write? && Creates(steps[i].e, id) ==>
      steps[i].e.step.inp.agentId == agentId && steps[i].e.step.inp.dueWindow.earliestMs == dueMs
    ensures var s, count := Run(digest, start, steps), WakesInRun(digest, start, steps, id);
      var key := CommitmentKey(agentId, id);
      && SharesWindow(s.log, id, agentId, dueMs)
      && (|| (count == 0 && Lookup(s.cursor, key) == Lookup(start.cursor, key))
          || (count == 1 && Lookup(s.cursor, key) == Some(dueMs) && Lookup(start.cursor, key) != Some(dueMs)))
  {
    if steps != [] {
      var n := |steps| - 1;
      CommitmentWakesOnce(digest, start, steps[..n], id, agentId, dueMs);
      var s := Run(digest, start, steps[..n]);
      match steps[n] {
        case Beat(inp) => BeatWakesAtMostOnce(digest, s, inp, id, agentId, dueMs);
        case Write(e) => WriteSharesWindow(s.log, e, id, agentId, dueMs);
      }
    }
  }

  // ----- exactly when a tick wakes a commitment -----

  lemma {:induction false} WakesContain(due: seq<Record>, agents: seq<Agent>, c: Record)
    requires c in due && Knows(agents, c.agentId)
    ensures WakeFor(c) in WakesOf(due, agents)
  {
    var n := |due| - 1;
    assert due == due[..n] + [due[n]];
    if c != due[n] {
      WakesContain(due[..n], agents, c);
    }
  }

  lemma {:induction false} WakesAreOfKnown(due: seq<Record>, agents: seq<Agent>, i: nat)
    requires i < |WakesOf(due, agents)|
    ensures exists k :: 0 <= k < |due| && WakesOf(due, agents)[i] == WakeFor(due[k]) && Knows(agents, due[k].agentId)
  {
    var n := |due| - 1;
    if i < |WakesOf(due[..n], agents)| {
      WakesAreOfKnown(due[..n], agents, i);
      var k :| 0 <= k < n && WakesOf(due[..n], agents)[i] == WakeFor(due[..n][k]) && Knows(agents, due[..n][k].agentId);
      assert due[k] == due[..n][k];
    }
  }

  lemma {:induction false} WakeTickEmits(
    outcome: CommitmentWake -> Outcome, start: Tick, wakes: seq<CommitmentWake>, id: string, k: nat)
    requires OneWakeEach(wakes) && k < |wakes| && wakes[k].commitmentId == id
    ensures WakeCount(WakeTick(outcome, start, wakes).emissions, id)
            == WakeCount(start.emissions, id) + if outcome(wakes[k]).Emitted? then 1 else 0
  {
    var n := |wakes| - 1;
    if k == n {
      OtherWakes(outcome, start, wakes[..n], id, CommitmentKey("", id));
    } else {
      WakeTickEmits(outcome, start, wakes[..n], id, k);
    }
    BookCounts(WakeTick(outcome, start, wakes[..n]), wakes[n].agentId, KeyOfWake(wakes[n]),
               ResolvePriority(CommitmentSource, Intent.Event, "commitment-due"), outcome(wakes[n]), id);
  }

  /** The commitment's agent is known and awake, no gate defers it, and the cursor does not show its time. */
  predicate LetsThrough(cursor: Cursor, inp: TickInput, c: Record) {
    && c.agentId in AgentsById(inp.agents)
    && Lookup(cursor, CommitmentKey(c.agentId, c.id)) != Some(c.dueWindow.earliestMs)
    && var agent := AgentsById(inp.agents)[c.agentId];
       && (agent.activeHours.None? || IsWithin(agent.activeHours, inp.now))
       && ShouldDefer(Intent.Event, inp.now, c.dueWindow.earliestMs, agent.lastRunStartedAt, agent.recentRunStarts,
                      inp.limits) == Decision.Run
  }

  /** The current commitment of the id is due, and the tick lets it through. */
  predicate WakesNow(s: State, inp: TickInput, id: string) {
    var c := Current(s.log, id);
    c.Some? && IsDue(c.value, inp.now, None) && LetsThrough(s.cursor, inp, c.value)
  }

  lemma EmittedIsLetThrough(cursor: Cursor, inp: TickInput, c: Record)
    ensures WakeOutcomes(AgentsById(inp.agents), inp.now, cursor, inp.limits)(WakeFor(c)).Emitted?
            <==> LetsThrough(cursor, inp, c)
    ensures LetsThrough(cursor, inp, c) ==> Knows(inp.agents, c.agentId)
  {
    if c.agentId in AgentsById(inp.agents) {
      var k := AgentsByIdFrom(inp.agents, c.agentId);
    }
  }

  /** The wake of an id in a tick, if there is one, is that of its current commitment, due and with a known agent. */
  lemma WakeIsOfCurrent(log: seq<Record>, nowMs: int, agents: seq<Agent>, id: string, i: nat)
    requires i < |DueWakes(log, nowMs, agents)| && DueWakes(log, nowMs, agents)[i].commitmentId == id
    ensures var c := Current(log, id);
      c.Some? && IsDue(c.value, nowMs, None) && Knows(agents, c.value.agentId)
          && DueWakes(log, nowMs, agents)[i] == WakeFor(c.value)
  {
    var due := ListDue(Project(log), nowMs, None);
    WakesAreOfKnown(due, agents, i);
    var k :| 0 <= k < |due| && WakesOf(due, agents)[i] == WakeFor(due[k]) && Knows(agents, due[k].agentId);
    DueContains(Project(log), nowMs, None, due[k]);
    var p :| 0 <= p < |Project(log)| && Project(log)[p] == due[k];
    ProjectedIsInLog(log, p);
  }

  lemma CurrentHasWake(log: seq<Record>, nowMs: int, agents: seq<Agent>, id: string)
    requires var c := Current(log, id); c.Some? && IsDue(c.value, nowMs, None) && Knows(agents, c.value.agentId)
    ensures exists i :: 0 <= i < |DueWakes(log, nowMs, agents)| && DueWakes(log, nowMs, agents)[i].commitmentId == id
  {
    var c := Current(log, id).value;
    CurrentIsInLog(log, id);
    DueContains(Project(log), nowMs, None, c);
    assert Project(log)[IndexOf(Project(log), id)] == c;
    WakesContain(ListDue(Project(log), nowMs, None), agents, c);
    var i :| 0 <= i < |DueWakes(log, nowMs, agents)| && DueWakes(log, nowMs, agents)[i] == WakeFor(c);
  }

  lemma WakesAreSingle(log: seq<Record>, nowMs: int, agents: seq<Agent>)
    ensures OneWakeEach(DueWakes(log, nowMs, agents))
  {
    ProjectionHasDistinctIds(log);
    DueAreListed(Project(log), nowMs);
    if DueWakes(log, nowMs, agents) != [] {
      var k := WakesFollowDue(ListDue(Project(log), nowMs, None), agents, 0);
    }
  }

  /** An armed tick wakes a commitment, once, exactly when it is due, its agent known, and nothing defers it. */
  lemma BeatWakesExactly(digest: string -> nat, s: State, inp: TickInput, id: string)
    requires inp.enabled
    ensures WakeCount(BeatTick(digest, s, inp).emissions, id) == if WakesNow(s, inp, id) then 1 else 0
  {
    var wakes, c := DueWakes(s.log, inp.now, inp.agents), Current(s.log, id);
    var agentOutcomes := AgentOutcomes(digest, inp.now, s.cursor, inp.limits);
    var outcome := WakeOutcomes(AgentsById(inp.agents), inp.now, s.cursor, inp.limits);
    var start := AgentTick(agentOutcomes, inp.agents, s.cursor);
    AgentsWakeNothing(agentOutcomes, inp.agents, s.cursor, id, CommitmentKey("", id));
    WakesAreSingle(s.log, inp.now, inp.agents);
    if c.Some? {
      EmittedIsLetThrough(s.cursor, inp, c.value);
    }
    if k :| 0 <= k < |wakes| && wakes[k].commitmentId == id {
      WakeIsOfCurrent(s.log, inp.now, inp.agents, id, k);
      WakeTickEmits(outcome, start, wakes, id, k);
    } else {
      OtherWakes(outcome, start, wakes, id, CommitmentKey("", id));
      if WakesNow(s, inp, id) {
        CurrentHasWake(s.log, inp.now, inp.agents, id);
      }
    }
  }
}
