/**
 The heartbeat tick and its daemon (src/automation/heartbeatTimerRuntime.ts, heartbeatDaemonRuntime.ts).
 The cursor keeps, per agent and per commitment, the last emitted window in milliseconds. The keys
 `agentId` and `commitment:agentId:id` of the source are kept apart by construction.
 */
module HeartbeatDriver {
  import opened Wrappers
  import opened Arithmetic
  import opened Catchup
  import opened HeartbeatActiveHours
  import opened HeartbeatSchedule
  import opened HeartbeatWake
  import opened HeartbeatCooldown

  datatype CursorKey = AgentKey(agentId: string) | CommitmentKey(agentId: string, commitmentId: string)

  type Cursor = map<CursorKey, int>

  datatype Agent = Agent(
    id: string,
    intervalMs: int,
    lastRunStartedAt: Option<int>,
    recentRunStarts: Option<seq<int>>,
    activeHours: Option<ActiveHours>)

  datatype CommitmentWake = CommitmentWake(agentId: string, commitmentId: string, dueMs: int)

  datatype Emission = Emission(key: CursorKey, priority: int, window: int)

  datatype Deferred = Deferred(agentId: string, reason: DeferReason)

  function Lookup(cursor: Cursor, key: CursorKey): Option<int> {
    if key in cursor then Some(cursor[key]) else None
  }

  // ----- what a tick does with one agent and with one commitment wake -----

  datatype Outcome = Ignored | Outside | Delayed(reason: DeferReason) | Deduped | Emitted(window: int)

  /** The reached phase slot: one interval before the next due time. digest is the seeded hash of agent ids. */
  function ReachedSlot(digest: string -> nat, id: string, intervalMs: int, now: int): int {
    ComputeNextPhaseDueMs(now, intervalMs, ResolvePhaseMs(digest(id), intervalMs)) - ResolvePositiveInterval(intervalMs)
  }

  function Gated(agent: Agent, key: CursorKey, window: int, now: int, already: Cursor, limits: Limits): Outcome {
    if agent.activeHours.Some? && !IsWithin(agent.activeHours, now) then Outside
    else
      var decision := ShouldDefer(Event, now, window, agent.lastRunStartedAt, agent.recentRunStarts, limits);
      if decision.Defer? then Delayed(decision.reason)
      else if Lookup(already, key) == Some(window) then Deduped
      else Emitted(window)
  }

  function AgentOutcome(digest: string -> nat, agent: Agent, now: int, already: Cursor, limits: Limits): Outcome {
    Gated(agent, AgentKey(agent.id), ReachedSlot(digest, agent.id, agent.intervalMs, now), now, already, limits)
  }

  function AgentOutcomes(digest: string -> nat, now: int, already: Cursor, limits: Limits): Agent -> Outcome {
    agent => AgentOutcome(digest, agent, now, already, limits)
  }

  function AgentsById(agents: seq<Agent>): map<string, Agent> {
    if agents == [] then map[]
    else AgentsById(agents[..|agents| - 1])[agents[|agents| - 1].id := agents[|agents| - 1]]
  }

  function WakeOutcome(
    byId: map<string, Agent>, wake: CommitmentWake, now: int, already: Cursor, limits: Limits): Outcome
  {
    if wake.agentId !in byId then Ignored
    else Gated(byId[wake.agentId], KeyOfWake(wake), wake.dueMs, now, already, limits)
  }

  function WakeOutcomes(byId: map<string, Agent>, now: int, already: Cursor, limits: Limits): CommitmentWake -> Outcome {
    wake => WakeOutcome(byId, wake, now, already, limits)
  }

  function KeyOfWake(wake: CommitmentWake): CursorKey { CommitmentKey(wake.agentId, wake.commitmentId) }

  // ----- the tick -----

  datatype Tick = Tick(
    emissions: seq<Emission>,
    deferred: seq<Deferred>,
    outside: seq<string>,
    deduped: seq<CursorKey>,
    next: Cursor)

  function Book(tick: Tick, agentId: string, key: CursorKey, priority: int, outcome: Outcome): Tick {
    match outcome
    case Ignored => tick
    case Outside => tick.(outside := tick.outside + [agentId])
    case Delayed(reason) => tick.(deferred := tick.deferred + [Deferred(agentId, reason)])
    case Deduped => tick.(deduped := tick.deduped + [key])
    case Emitted(window) =>
      tick.(emissions := tick.emissions + [Emission(key, priority, window)], next := tick.next[key := window])
  }

  function AgentTick(outcome: Agent -> Outcome, agents: seq<Agent>, already: Cursor): Tick {
    if agents == [] then Tick([], [], [], [], already)
    else
      var n := |agents| - 1;
      Book(AgentTick(outcome, agents[..n], already), agents[n].id, AgentKey(agents[n].id),
           ResolvePriority(IntervalSource, Scheduled, "interval"), outcome(agents[n]))
  }

  function WakeTick(outcome: CommitmentWake -> Outcome, start: Tick, wakes: seq<CommitmentWake>): Tick {
    if wakes == [] then start
    else
      var n := |wakes| - 1;
      Book(WakeTick(outcome, start, wakes[..n]), wakes[n].agentId, KeyOfWake(wakes[n]),
           ResolvePriority(CommitmentSource, Event, "commitment-due"), outcome(wakes[n]))
  }

  datatype TickInput = TickInput(
    enabled: bool,
    now: int,
    agents: seq<Agent>,
    wakes: seq<CommitmentWake>,
    limits: Limits,
    maxCatchup: nat)

  function TickOf(digest: string -> nat, inp: TickInput, already: Cursor): Tick {
    if !inp.enabled then Tick([], [], [], [], already)
    else WakeTick(WakeOutcomes(AgentsById(inp.agents), inp.now, already, inp.limits),
                  AgentTick(AgentOutcomes(digest, inp.now, already, inp.limits), inp.agents, already), inp.wakes)
  }

  method EvaluateNeonHeartbeatTick(digest: string -> nat, inp: TickInput, already: Cursor) returns (tick: Tick)
    ensures tick == TickOf(digest, inp, already)
  {
    if !inp.enabled {
      return Tick([], [], [], [], already);
    }
    tick := TickAgents(digest, inp.agents, inp.now, already, inp.limits);
    tick := TickWakes(tick, AgentsById(inp.agents), inp.wakes, inp.now, already, inp.limits);
  }

  /** The loop over agents. */
  method TickAgents(
    digest: string -> nat, agents: seq<Agent>, now: int, already: Cursor, limits: Limits) returns (tick: Tick)
    ensures tick == AgentTick(AgentOutcomes(digest, now, already, limits), agents, already)
  {
    var emissions, deferred, outside, deduped, next := [], [], [], [], already;
    var i := 0;
    while i < |agents|
      invariant 0 <= i <= |agents|
      invariant Tick(emissions, deferred, outside, deduped, next)
                == AgentTick(AgentOutcomes(digest, now, already, limits), agents[..i], already)
    {
      var agent := agents[i];
      assert agents[..i + 1][..i] == agents[..i];
      var key := AgentKey(agent.id);
      match AgentOutcome(digest, agent, now, already, limits) {
        case Ignored =>
        case Outside => outside := outside + [agent.id];
        case Delayed(reason) => deferred := deferred + [Deferred(agent.id, reason)];
        case Deduped => deduped := deduped + [key];
        case Emitted(window) =>
          emissions := emissions + [Emission(key, ResolvePriority(IntervalSource, Scheduled, "interval"), window)];
          next := next[key := window];
      }
      i := i + 1;
    }
    assert agents[..i] == agents;
    return Tick(emissions, deferred, outside, deduped, next);
  }

  /** The loop over due commitments, after the agents. */
  method TickWakes(
    start: Tick, byId: map<string, Agent>, wakes: seq<CommitmentWake>, now: int, already: Cursor, limits: Limits)
    returns (tick: Tick)
    ensures tick == WakeTick(WakeOutcomes(byId, now, already, limits), start, wakes)
  {
    tick := start;
    var i := 0;
    while i < |wakes|
      invariant 0 <= i <= |wakes|
      invariant tick == WakeTick(WakeOutcomes(byId, now, already, limits), start, wakes[..i])
    {
      var wake := wakes[i];
      assert wakes[..i + 1][..i] == wakes[..i];
      var key := KeyOfWake(wake);
      match WakeOutcome(byId, wake, now, already, limits) {
        case Ignored =>
        case Outside => tick := tick.(outside := tick.outside + [wake.agentId]);
        case Delayed(reason) => tick := tick.(deferred := tick.deferred + [Deferred(wake.agentId, reason)]);
        case Deduped => tick := tick.(deduped := tick.deduped + [key]);
        case Emitted(window) =>
          var emission := Emission(key, ResolvePriority(CommitmentSource, Event, "commitment-due"), window);
          tick := tick.(emissions := tick.emissions + [emission], next := tick.next[key := window]);
      }
      i := i + 1;
    }
    assert wakes[..i] == wakes;
  }

  // ----- the daemon -----

  datatype CatchupEmission = CatchupEmission(agentId: string, window: int)

  function Tagged(id: string, windows: seq<int>): seq<CatchupEmission> {
    seq(|windows|, i requires 0 <= i < |windows| => CatchupEmission(id, windows[i]))
  }

  /** Commitment keys are no agent ids, so only agent emissions are back-filled. */
  function EmissionBackfill(
    byId: map<string, Agent>, key: CursorKey, previous: Cursor, next: Cursor, maxCatchup: nat): Backfill {
    if key.AgentKey? && key.agentId in byId && key in next then
      BackfillOf(ResolvePositiveInterval(byId[key.agentId].intervalMs), next[key], Lookup(previous, key), maxCatchup)
    else Backfill([], 0)
  }

  function CatchupOf(byId: map<string, Agent>, emissions: seq<Emission>, previous: Cursor, next: Cursor, maxCatchup: nat)
    : (seq<CatchupEmission>, nat)
  {
    if emissions == [] then ([], 0)
    else
      var n := |emissions| - 1;
      var (before, skipped) := CatchupOf(byId, emissions[..n], previous, next, maxCatchup);
      var b := EmissionBackfill(byId, emissions[n].key, previous, next, maxCatchup);
      (before + Tagged(emissions[n].key.agentId, b.windows), skipped + b.skipped)
  }

  /** The loop over emissions; commitment keys name no agent. */
  method BackfillEmitted(
    byId: map<string, Agent>, emissions: seq<Emission>, previous: Cursor, next: Cursor, maxCatchup: nat)
    returns (catchup: seq<CatchupEmission>, catchupTruncated: nat)
    ensures (catchup, catchupTruncated) == CatchupOf(byId, emissions, previous, next, maxCatchup)
  {
    catchup, catchupTruncated := [], 0;
    var i := 0;
    while i < |emissions|
      invariant 0 <= i <= |emissions|
      invariant (catchup, catchupTruncated) == CatchupOf(byId, emissions[..i], previous, next, maxCatchup)
    {
      var key := emissions[i].key;
      assert emissions[..i + 1][..i] == emissions[..i];
      assert catchup + Tagged(key.agentId, []) == catchup;
      if key.AgentKey? && key.agentId in byId && key in next {
        var step := ResolvePositiveInterval(byId[key.agentId].intervalMs);
        var windows, skipped := ComputeCatchupWindows(step, next[key], Lookup(previous, key), maxCatchup);
        catchup := catchup + Tagged(key.agentId, windows);
        catchupTruncated := catchupTruncated + skipped;
      }
      i := i + 1;
    }
    assert emissions[..i] == emissions;
  }

  /** The cursor file of the daemon, rewritten by every armed tick. */
  class HeartbeatDaemon {
    const digest: string -> nat
    var emitted: Cursor
    var lastTickAt: Option<int>
    var ticks: nat

    constructor (digest: string -> nat)
      ensures this.digest == digest && emitted == map[] && lastTickAt == None && ticks == 0
    {
      this.digest := digest;
      emitted, lastTickAt, ticks := map[], None, 0;
    }

    method RunTick(inp: TickInput) returns (tick: Tick, catchup: seq<CatchupEmission>, catchupTruncated: nat)
      modifies this
      ensures tick == TickOf(digest, inp, old(emitted))
      ensures emitted == tick.next
      ensures !inp.enabled ==>
        && catchup == [] && catchupTruncated == 0
        && emitted == old(emitted) && lastTickAt == old(lastTickAt) && ticks == old(ticks)
      ensures inp.enabled ==>
        && (catchup, catchupTruncated)
           == CatchupOf(AgentsById(inp.agents), tick.emissions, old(emitted), emitted, inp.maxCatchup)
        && lastTickAt == Some(inp.now) && ticks == old(ticks) + 1
    {
      var previous := emitted;
      tick := EvaluateNeonHeartbeatTick(digest, inp, previous);
      catchup, catchupTruncated := [], 0;
      if !inp.enabled {
        return;
      }
      catchup, catchupTruncated :=
        BackfillEmitted(AgentsById(inp.agents), tick.emissions, previous, tick.next, inp.maxCatchup);
      emitted, lastTickAt, ticks := tick.next, Some(inp.now), ticks + 1;
    }
  }

  // ----- one tick, seen from one key -----

  predicate Emits(emissions: seq<Emission>, key: CursorKey) {
    exists i :: 0 <= i < |emissions| && emissions[i].key == key
  }

  predicate DistinctAgents(agents: seq<Agent>) {
    forall i, j :: 0 <= i < j < |agents| ==> agents[i].id != agents[j].id
  }

  lemma BookAt(tick: Tick, agentId: string, booked: CursorKey, priority: int, outcome: Outcome, key: CursorKey)
    ensures var t := Book(tick, agentId, booked, priority, outcome);
      if outcome.Emitted? && booked == key
      then Emits(t.emissions, key) && Lookup(t.next, key) == Some(outcome.window)
      else (Emits(t.emissions, key) <==> Emits(tick.emissions, key)) && Lookup(t.next, key) == Lookup(tick.next, key)
  {
    if outcome.Emitted? {
      var es := tick.emissions + [Emission(booked, priority, outcome.window)];
      assert es[|tick.emissions|].key == booked;
      assert forall i :: 0 <= i < |tick.emissions| ==> es[i] == tick.emissions[i];
    }
  }

  lemma {:induction false} AgentTickAt(outcome: Agent -> Outcome, agents: seq<Agent>, already: Cursor, key: CursorKey)
    requires DistinctAgents(agents)
    ensures var t := AgentTick(outcome, agents, already);
      (key.AgentKey? ==> forall k :: 0 <= k < |agents| ==> agents[k].id != key.agentId) ==>
        !Emits(t.emissions, key) && Lookup(t.next, key) == Lookup(already, key)
    ensures key.AgentKey? ==> forall k :: 0 <= k < |agents| && agents[k].id == key.agentId ==>
      var t, o := AgentTick(outcome, agents, already), outcome(agents[k]);
      if o.Emitted? then Emits(t.emissions, key) && Lookup(t.next, key) == Some(o.window)
      else !Emits(t.emissions, key) && Lookup(t.next, key) == Lookup(already, key)
  {
    if agents != [] {
      var n := |agents| - 1;
      AgentTickAt(outcome, agents[..n], already, key);
      BookAt(AgentTick(outcome, agents[..n], already), agents[n].id, AgentKey(agents[n].id),
             ResolvePriority(IntervalSource, Scheduled, "interval"), outcome(agents[n]), key);
    }
  }

  lemma {:induction false} WakesLeaveAgents(
    outcome: CommitmentWake -> Outcome, start: Tick, wakes: seq<CommitmentWake>, key: CursorKey)
    requires key.AgentKey?
    ensures var t := WakeTick(outcome, start, wakes);
      (Emits(t.emissions, key) <==> Emits(start.emissions, key)) && Lookup(t.next, key) == Lookup(start.next, key)
  {
    if wakes != [] {
      var n := |wakes| - 1;
      WakesLeaveAgents(outcome, start, wakes[..n], key);
      BookAt(WakeTick(outcome, start, wakes[..n]), wakes[n].agentId, KeyOfWake(wakes[n]),
             ResolvePriority(CommitmentSource, Event, "commitment-due"), outcome(wakes[n]), key);
    }
  }

  lemma GatedEmitsItsWindow(agent: Agent, key: CursorKey, window: int, now: int, already: Cursor, limits: Limits)
    ensures var o := Gated(agent, key, window, now, already, limits);
      o.Emitted? ==> o.window == window && Lookup(already, key) != Some(window)
  {
  }

  /** Whenever the agent is listed, it has this interval, and it is listed once. */
  predicate Keeps(inp: TickInput, id: string, intervalMs: int) {
    && DistinctAgents(inp.agents)
    && forall k :: 0 <= k < |inp.agents| && inp.agents[k].id == id ==> inp.agents[k].intervalMs == intervalMs
  }

  /** A tick emits an agent only with its reached slot, and only if the cursor shows another one. */
  lemma TickOnAgent(digest: string -> nat, inp: TickInput, cursor: Cursor, id: string, intervalMs: int)
    requires Keeps(inp, id, intervalMs)
    ensures var t, key, slot := TickOf(digest, inp, cursor), AgentKey(id), ReachedSlot(digest, id, intervalMs, inp.now);
      if Emits(t.emissions, key)
      then Lookup(t.next, key) == Some(slot) && Lookup(cursor, key) != Some(slot) && id in AgentsById(inp.agents)
           && AgentsById(inp.agents)[id].intervalMs == intervalMs
      else Lookup(t.next, key) == Lookup(cursor, key)
  {
    if inp.enabled {
      var key := AgentKey(id);
      var outcome := AgentOutcomes(digest, inp.now, cursor, inp.limits);
      AgentTickAt(outcome, inp.agents, cursor, key);
      WakesLeaveAgents(WakeOutcomes(AgentsById(inp.agents), inp.now, cursor, inp.limits),
                       AgentTick(outcome, inp.agents, cursor), inp.wakes, key);
      if k :| 0 <= k < |inp.agents| && inp.agents[k].id == id {
        var slot := ReachedSlot(digest, id, intervalMs, inp.now);
        GatedEmitsItsWindow(inp.agents[k], key, slot, inp.now, cursor, inp.limits);
        AgentsByIdAt(inp.agents, k);
      }
    }
  }

  lemma {:induction false} AgentsByIdAt(agents: seq<Agent>, k: nat)
    requires DistinctAgents(agents) && k < |agents|
    ensures agents[k].id in AgentsById(agents) && AgentsById(agents)[agents[k].id] == agents[k]
  {
    if k < |agents| - 1 {
      AgentsByIdAt(agents[..|agents| - 1], k);
    }
  }

  // ----- runs of ticks: the slots of one agent -----

  lemma ReachedSlotIsOnPhase(digest: string -> nat, id: string, intervalMs: int, now: int)
    ensures var s, d := ReachedSlot(digest, id, intervalMs, now), ResolvePositiveInterval(intervalMs);
      s <= now < s + d && OnPhase(s, intervalMs, ResolvePhaseMs(digest(id), intervalMs))
  {
    var d, p := ResolvePositiveInterval(intervalMs), ResolvePhaseMs(digest(id), intervalMs);
    var next := ComputeNextPhaseDueMs(now, intervalMs, p);
    NextDueIsLeast(now, intervalMs, p, now);
    ModShift(next, -1, d);
  }

  /** Later clocks reach the same or later slots of the same phase. */
  lemma SlotsAscend(digest: string -> nat, id: string, intervalMs: int, now: int, later: int)
    requires now <= later
    ensures var s, t := ReachedSlot(digest, id, intervalMs, now), ReachedSlot(digest, id, intervalMs, later);
      s <= t && (t - s) % ResolvePositiveInterval(intervalMs) == 0
  {
    var d := ResolvePositiveInterval(intervalMs);
    var s, t := ReachedSlot(digest, id, intervalMs, now), ReachedSlot(digest, id, intervalMs, later);
    ReachedSlotIsOnPhase(digest, id, intervalMs, now);
    ReachedSlotIsOnPhase(digest, id, intervalMs, later);
    SamePhase(s, t, d);
    if t < s {
      DivModUnique(t - s, -1, t - s + d, d);
    }
  }

  /** From slot c to a later slot w: the step itself and the slots missed in between. */
  lemma SlotsBetween(first: int, c: int, w: int, d: int)
    requires d > 0 && c < w && (w - c) % d == 0 && (c - first) % d == 0
    ensures (w - first) % d == 0
    ensures (w - first) / d == (c - first) / d + 1 + MissedCount(d, w, c)
  {
    var a, b := (c - first) / d, (w - c) / d;
    assert w - first == (a + b) * d;
    DivModUnique(w - first, a + b, 0, d);
    assert w - c - 1 == (b - 1) * d + (d - 1);
    DivModUnique(w - c - 1, b - 1, d - 1, d);
  }

  /** The slots of one agent in the order they come out: back-filled ones, then the emitted one. */
  datatype Log = Log(slots: seq<int>, emitted: nat, truncated: nat)

  function RunCursor(digest: string -> nat, inputs: seq<TickInput>, cursor: Cursor): Cursor {
    if inputs == [] then cursor
    else
      var n := |inputs| - 1;
      TickOf(digest, inputs[n], RunCursor(digest, inputs[..n], cursor)).next
  }

  /** What one tick adds to the log: nothing, or the back-fill of RunTick and then the emitted slot. */
  function Logged(log: Log, id: string, tick: Tick, byId: map<string, Agent>, previous: Cursor, maxCatchup: nat): Log {
    var key := AgentKey(id);
    if Emits(tick.emissions, key) && key in tick.next then
      var b := EmissionBackfill(byId, key, previous, tick.next, maxCatchup);
      Log(log.slots + b.windows + [tick.next[key]], log.emitted + 1, log.truncated + b.skipped)
    else log
  }

  function AgentLog(digest: string -> nat, id: string, inputs: seq<TickInput>, cursor: Cursor): Log {
    if inputs == [] then Log([], 0, 0)
    else
      var n := |inputs| - 1;
      var previous := RunCursor(digest, inputs[..n], cursor);
      Logged(AgentLog(digest, id, inputs[..n], cursor), id, TickOf(digest, inputs[n], previous),
             AgentsById(inputs[n].agents), previous, inputs[n].maxCatchup)
  }

  predicate Ascending(s: seq<int>) { forall i, j :: 0 <= i < j < |s| ==> s[i] < s[j] }

  function Last(s: seq<int>): int
    requires s != []
  {
    s[|s| - 1]
  }

  /**
   The log of an agent whose cursor is c: it ends in c, ascends, never leaves the phase, and together
   with the truncated slots it accounts for every slot from the first to c.
   */
  predicate Accounts(log: Log, c: Option<int>, d: int)
    requires d > 0
  {
    if c.None? then log == Log([], 0, 0)
    else
      && log.slots != [] && Last(log.slots) == c.value && Ascending(log.slots)
      && (forall i :: 0 <= i < |log.slots| ==> (log.slots[i] - log.slots[0]) % d == 0)
      && |log.slots| + log.truncated == (c.value - log.slots[0]) / d + 1
      && log.emitted <= |log.slots|
  }

  lemma WindowsOnPhase(d: int, w: int, count: nat, first: int)
    requires d > 0 && (w - first) % d == 0
    ensures forall i :: 0 <= i < count ==> (WindowsBefore(d, w, count)[i] - first) % d == 0
  {
    forall i | 0 <= i < count ensures (WindowsBefore(d, w, count)[i] - first) % d == 0 {
      assert WindowsBefore(d, w, count)[i] - first == (w - first) + (i - count) * d;
      ModShift(w - first, i - count, d);
    }
  }

  /** What an emission of slot w adds. */
  lemma AccountsForOneMore(log: Log, c: Option<int>, w: int, d: int, maxCatchup: nat)
    requires d > 0 && Accounts(log, c, d)
    requires c.Some? ==> c.value < w && (w - c.value) % d == 0
    ensures var b := BackfillOf(d, w, c, maxCatchup);
      Accounts(Log(log.slots + b.windows + [w], log.emitted + 1, log.truncated + b.skipped), Some(w), d)
  {
    var b := BackfillOf(d, w, c, maxCatchup);
    if c.Some? {
      var first := log.slots[0];
      SlotsBetween(first, c.value, w, d);
      BackfillLiesBetween(d, w, c.value, maxCatchup);
      WindowsOnPhase(d, w, |b.windows|, first);
      AscendingJoin(log.slots, b.windows, w);
      assert forall i :: 0 <= i < |b.windows| ==> (b.windows[i] - first) % d == 0;
    } else {
      DivModUnique(0, 0, 0, d);
    }
  }

  lemma AscendingJoin(s: seq<int>, m: seq<int>, w: int)
    requires s != [] && Ascending(s) && Ascending(m) && Last(s) < w
    requires forall i :: 0 <= i < |m| ==> Last(s) < m[i] < w
    ensures Ascending(s + m + [w])
  {
    var all := s + m + [w];
    forall i, j | 0 <= i < j < |all| ensures all[i] < all[j] {
      assert i < |s| ==> s[i] <= Last(s);
    }
  }

  predicate ClockNeverGoesBack(inputs: seq<TickInput>) {
    forall i, j :: 0 <= i < j < |inputs| ==> inputs[i].now <= inputs[j].now
  }

  /** The value is the slot that some tick of the run had reached. */
  ghost predicate WasReached(digest: string -> nat, id: string, intervalMs: int, inputs: seq<TickInput>, slot: int) {
    exists i :: 0 <= i < |inputs| && slot == ReachedSlot(digest, id, intervalMs, inputs[i].now)
  }

  lemma ReachedEarlier(digest: string -> nat, id: string, intervalMs: int, inputs: seq<TickInput>, slot: int)
    requires inputs != [] && ClockNeverGoesBack(inputs)
    requires WasReached(digest, id, intervalMs, inputs[..|inputs| - 1], slot)
    ensures WasReached(digest, id, intervalMs, inputs, slot)
    ensures var s := ReachedSlot(digest, id, intervalMs, Final(inputs).now);
      slot <= s && (s - slot) % ResolvePositiveInterval(intervalMs) == 0
  {
    var i :| 0 <= i < |inputs| - 1 && slot == ReachedSlot(digest, id, intervalMs, inputs[..|inputs| - 1][i].now);
    assert inputs[i] == inputs[..|inputs| - 1][i];
    SlotsAscend(digest, id, intervalMs, inputs[i].now, Final(inputs).now);
  }

  function Final(inputs: seq<TickInput>): TickInput
    requires inputs != []
  {
    inputs[|inputs| - 1]
  }

  /** What TickOnAgent says of a tick. */
  predicate ActsOnAgent(tick: Tick, byId: map<string, Agent>, previous: Cursor, id: string, intervalMs: int, slot: int) {
    var key := AgentKey(id);
    if Emits(tick.emissions, key)
    then Lookup(tick.next, key) == Some(slot) && Lookup(previous, key) != Some(slot) && id in byId
         && byId[id].intervalMs == intervalMs
    else Lookup(tick.next, key) == Lookup(previous, key)
  }

  /** One tick keeps the account. */
  lemma TickKeepsAccount(
    tick: Tick, byId: map<string, Agent>, previous: Cursor, id: string, intervalMs: int, slot: int, log: Log,
    maxCatchup: nat)
    requires ActsOnAgent(tick, byId, previous, id, intervalMs, slot)
    requires var c := Lookup(previous, AgentKey(id));
      && Accounts(log, c, ResolvePositiveInterval(intervalMs))
      && (c.Some? ==> c.value <= slot && (slot - c.value) % ResolvePositiveInterval(intervalMs) == 0)
    ensures var c := Lookup(tick.next, AgentKey(id));
      && Accounts(Logged(log, id, tick, byId, previous, maxCatchup), c, ResolvePositiveInterval(intervalMs))
      && (c == Some(slot) || c == Lookup(previous, AgentKey(id)))
  {
    if Emits(tick.emissions, AgentKey(id)) {
      AccountsForOneMore(log, Lookup(previous, AgentKey(id)), slot, ResolvePositiveInterval(intervalMs), maxCatchup);
    }
  }

  /**
   Conservation: over any run with a clock that never goes back, starting with no cursor for the agent,
   whatever is deferred, quiet or absent. Emitted, back-filled and truncated slots add up to
   (last - first) / interval + 1, and no slot comes out twice.
   */
  lemma {:induction false} WindowsAreConserved(
    digest: string -> nat, id: string, intervalMs: int, inputs: seq<TickInput>, cursor: Cursor)
    requires AgentKey(id) !in cursor && ClockNeverGoesBack(inputs)
    requires forall i :: 0 <= i < |inputs| ==> Keeps(inputs[i], id, intervalMs)
    ensures var log, c := AgentLog(digest, id, inputs, cursor), Lookup(RunCursor(digest, inputs, cursor), AgentKey(id));
      && Accounts(log, c, ResolvePositiveInterval(intervalMs))
      && (c.Some? ==> WasReached(digest, id, intervalMs, inputs, c.value))
  {
    if inputs != [] {
      var before, last := inputs[..|inputs| - 1], Final(inputs);
      WindowsAreConserved(digest, id, intervalMs, before, cursor);
      var previous := RunCursor(digest, before, cursor);
      RunStep(digest, id, intervalMs, inputs, previous, TickOf(digest, last, previous),
              AgentLog(digest, id, before, cursor));
    }
  }

  /** The last tick of a run, after a run that kept the account. */
  lemma RunStep(
    digest: string -> nat, id: string, intervalMs: int, inputs: seq<TickInput>, previous: Cursor, tick: Tick, log: Log)
    requires inputs != [] && ClockNeverGoesBack(inputs) && Keeps(Final(inputs), id, intervalMs)
    requires tick == TickOf(digest, Final(inputs), previous)
    requires var c := Lookup(previous, AgentKey(id));
      && Accounts(log, c, ResolvePositiveInterval(intervalMs))
      && (c.Some? ==> WasReached(digest, id, intervalMs, inputs[..|inputs| - 1], c.value))
    ensures var last, c := Final(inputs), Lookup(tick.next, AgentKey(id));
      var next := Logged(log, id, tick, AgentsById(last.agents), previous, last.maxCatchup);
      && Accounts(next, c, ResolvePositiveInterval(intervalMs))
      && (c.Some? ==> WasReached(digest, id, intervalMs, inputs, c.value))
  {
    var last, c := Final(inputs), Lookup(previous, AgentKey(id));
    var slot := ReachedSlot(digest, id, intervalMs, last.now);
    if c.Some? {
      ReachedEarlier(digest, id, intervalMs, inputs, c.value);
    }
    TickOnAgent(digest, last, previous, id, intervalMs);
    TickKeepsAccount(tick, AgentsById(last.agents), previous, id, intervalMs, slot, log, last.maxCatchup);
    ReachedNow(digest, id, intervalMs, inputs);
  }

  lemma ReachedNow(digest: string -> nat, id: string, intervalMs: int, inputs: seq<TickInput>)
    requires inputs != []
    ensures WasReached(digest, id, intervalMs, inputs, ReachedSlot(digest, id, intervalMs, Final(inputs).now))
  {
    assert inputs[|inputs| - 1] == Final(inputs);
  }

  // ----- what a tick reports, entry by entry -----

  /** A condition for each kind of entry in a tick's report. */
  datatype Checks = Checks(
    emission: Emission -> bool,
    deferred: Deferred -> bool,
    outside: string -> bool,
    deduped: CursorKey -> bool)

  predicate AllReports(t: Tick, c: Checks) {
    && (forall i :: 0 <= i < |t.emissions| ==> c.emission(t.emissions[i]))
    && (forall i :: 0 <= i < |t.deferred| ==> c.deferred(t.deferred[i]))
    && (forall i :: 0 <= i < |t.outside| ==> c.outside(t.outside[i]))
    && (forall i :: 0 <= i < |t.deduped| ==> c.deduped(t.deduped[i]))
  }

  /** What one outcome is booked as meets its condition. */
  predicate Reports(o: Outcome, agentId: string, key: CursorKey, priority: int, c: Checks) {
    match o
    case Ignored => true
    case Outside => c.outside(agentId)
    case Delayed(reason) => c.deferred(Deferred(agentId, reason))
    case Deduped => c.deduped(key)
    case Emitted(window) => c.emission(Emission(key, priority, window))
  }

  lemma {:induction false} AgentsReport(outcome: Agent -> Outcome, agents: seq<Agent>, already: Cursor, c: Checks)
    requires forall k :: 0 <= k < |agents| ==>
      Reports(outcome(agents[k]), agents[k].id, AgentKey(agents[k].id), INTERVAL, c)
    ensures AllReports(AgentTick(outcome, agents, already), c)
  {
    if agents != [] {
      var n := |agents| - 1;
      AgentsReport(outcome, agents[..n], already, c);
      assert Reports(outcome(agents[n]), agents[n].id, AgentKey(agents[n].id), INTERVAL, c);
    }
  }

  lemma {:induction false} WakesReport(
    outcome: CommitmentWake -> Outcome, start: Tick, wakes: seq<CommitmentWake>, c: Checks)
    requires AllReports(start, c)
    requires forall k :: 0 <= k < |wakes| ==>
      Reports(outcome(wakes[k]), wakes[k].agentId, KeyOfWake(wakes[k]), DEFAULT, c)
    ensures AllReports(WakeTick(outcome, start, wakes), c)
  {
    if wakes != [] {
      var n := |wakes| - 1;
      WakesReport(outcome, start, wakes[..n], c);
      assert Reports(outcome(wakes[n]), wakes[n].agentId, KeyOfWake(wakes[n]), DEFAULT, c);
    }
  }

  /** An interval of at least one millisecond. */
  function StepOf(intervalMs: int): int { if intervalMs >= 1 then intervalMs else 1 }

  /** The agent's slot: on the phase of its digest, reached by now, and the last such. */
  predicate IsReached(digest: string -> nat, agent: Agent, now: int, window: int) {
    && window % StepOf(agent.intervalMs) == digest(agent.id) % StepOf(agent.intervalMs)
    && window <= now < window + StepOf(agent.intervalMs)
  }

  predicate IsAwake(agent: Agent, now: int) { agent.activeHours.None? || IsWithin(agent.activeHours, now) }

  function DecisionFor(agent: Agent, now: int, window: int, limits: Limits): Decision {
    ShouldDefer(Event, now, window, agent.lastRunStartedAt, agent.recentRunStarts, limits)
  }

  /** The agent at k is active and its gates decide so on a window. */
  ghost predicate Decides(inp: TickInput, k: int, id: string, window: int, decision: Decision) {
    && 0 <= k < |inp.agents| && inp.agents[k].id == id && IsAwake(inp.agents[k], inp.now)
    && DecisionFor(inp.agents[k], inp.now, window, inp.limits) == decision
  }

  /** The window is the slot that the agent at k has reached. */
  ghost predicate IsSlotOf(digest: string -> nat, inp: TickInput, k: int, id: string, window: int) {
    0 <= k < |inp.agents| && inp.agents[k].id == id && IsReached(digest, inp.agents[k], inp.now, window)
  }

  /** The window is the due time of the listed wake of a commitment. */
  ghost predicate IsDueAt(inp: TickInput, agentId: string, commitmentId: string, window: int) {
    exists j :: 0 <= j < |inp.wakes| && inp.wakes[j] == CommitmentWake(agentId, commitmentId, window)
  }

  /** An emission is of an agent with its reached slot, or of a wake with its due time, and the agent may run. */
  ghost predicate IsRealEmission(digest: string -> nat, inp: TickInput, already: Cursor, e: Emission) {
    && Lookup(already, e.key) != Some(e.window)
    && match e.key
       case AgentKey(id) =>
         && e.priority == INTERVAL
         && exists k :: IsSlotOf(digest, inp, k, id, e.window) && Decides(inp, k, id, e.window, Run)
       case CommitmentKey(agentId, commitmentId) =>
         && e.priority == DEFAULT
         && IsDueAt(inp, agentId, commitmentId, e.window)
         && exists k :: Decides(inp, k, agentId, e.window, Run)
  }

  /** A deferral has the reason that the gates give for a listed agent's slot, or for a wake of its. */
  ghost predicate IsRealDeferral(digest: string -> nat, inp: TickInput, d: Deferred) {
    exists k, window ::
      && Decides(inp, k, d.agentId, window, Defer(d.reason))
      && (IsSlotOf(digest, inp, k, d.agentId, window) || exists c :: IsDueAt(inp, d.agentId, c, window))
  }

  ghost predicate IsReallyOutside(inp: TickInput, id: string) {
    exists k :: 0 <= k < |inp.agents| && inp.agents[k].id == id && !IsAwake(inp.agents[k], inp.now)
  }

  /** A deduplicated key is one whose reached slot or due time the cursor shows. */
  ghost predicate IsRealDuplicate(digest: string -> nat, inp: TickInput, already: Cursor, key: CursorKey) {
    && key in already
    && match key
       case AgentKey(id) => exists k :: IsSlotOf(digest, inp, k, id, already[key])
       case CommitmentKey(agentId, commitmentId) => IsDueAt(inp, agentId, commitmentId, already[key])
  }

  ghost function Reality(digest: string -> nat, inp: TickInput, already: Cursor): Checks {
    Checks(e => IsRealEmission(digest, inp, already, e), d => IsRealDeferral(digest, inp, d),
           id => IsReallyOutside(inp, id), k => IsRealDuplicate(digest, inp, already, k))
  }

  lemma ReachedSlotIsReached(digest: string -> nat, agent: Agent, now: int)
    ensures IsReached(digest, agent, now, ReachedSlot(digest, agent.id, agent.intervalMs, now))
  {
    ReachedSlotIsOnPhase(digest, agent.id, agent.intervalMs, now);
    var d := StepOf(agent.intervalMs);
    DivModUnique(digest(agent.id) % d, 0, digest(agent.id) % d, d);
  }

  lemma AgentOutcomeIsReal(digest: string -> nat, inp: TickInput, already: Cursor, k: nat)
    requires k < |inp.agents|
    ensures var agent := inp.agents[k];
      Reports(AgentOutcome(digest, agent, inp.now, already, inp.limits), agent.id, AgentKey(agent.id), INTERVAL,
              Reality(digest, inp, already))
  {
    var agent := inp.agents[k];
    var window := ReachedSlot(digest, agent.id, agent.intervalMs, inp.now);
    ReachedSlotIsReached(digest, agent, inp.now);
    assert IsSlotOf(digest, inp, k, agent.id, window);
    assert IsAwake(agent, inp.now) ==>
      Decides(inp, k, agent.id, window, DecisionFor(agent, inp.now, window, inp.limits));
  }

  lemma WakeOutcomeIsReal(digest: string -> nat, inp: TickInput, already: Cursor, j: nat)
    requires j < |inp.wakes|
    ensures var wake := inp.wakes[j];
      Reports(WakeOutcome(AgentsById(inp.agents), wake, inp.now, already, inp.limits), wake.agentId, KeyOfWake(wake),
              DEFAULT, Reality(digest, inp, already))
  {
    var w := inp.wakes[j];
    assert w == CommitmentWake(w.agentId, w.commitmentId, w.dueMs);
    assert IsDueAt(inp, w.agentId, w.commitmentId, w.dueMs);
    if w.agentId in AgentsById(inp.agents) {
      var k := AgentsByIdFrom(inp.agents, w.agentId);
      var agent := inp.agents[k];
      assert IsAwake(agent, inp.now) ==>
        Decides(inp, k, agent.id, w.dueMs, DecisionFor(agent, inp.now, w.dueMs, inp.limits));
    }
  }

  lemma {:induction false} AgentsByIdFrom(agents: seq<Agent>, id: string) returns (k: nat)
    requires id in AgentsById(agents)
    ensures k < |agents| && agents[k].id == id && AgentsById(agents)[id] == agents[k]
  {
    var n := |agents| - 1;
    if agents[n].id == id {
      k := n;
    } else {
      k := AgentsByIdFrom(agents[..n], id);
    }
  }

  /** Every entry of an armed tick's report is what it says. */
  lemma TickReportsAreReal(digest: string -> nat, inp: TickInput, already: Cursor)
    requires inp.enabled
    ensures var t := TickOf(digest, inp, already);
      && (forall i :: 0 <= i < |t.emissions| ==> IsRealEmission(digest, inp, already, t.emissions[i]))
      && (forall i :: 0 <= i < |t.deferred| ==> IsRealDeferral(digest, inp, t.deferred[i]))
      && (forall i :: 0 <= i < |t.outside| ==> IsReallyOutside(inp, t.outside[i]))
      && (forall i :: 0 <= i < |t.deduped| ==> IsRealDuplicate(digest, inp, already, t.deduped[i]))
  {
    var byId, reality := AgentsById(inp.agents), Reality(digest, inp, already);
    var outcome := AgentOutcomes(digest, inp.now, already, inp.limits);
    var wakeOutcome := WakeOutcomes(byId, inp.now, already, inp.limits);
    forall k | 0 <= k < |inp.agents|
      ensures var agent := inp.agents[k]; Reports(outcome(agent), agent.id, AgentKey(agent.id), INTERVAL, reality)
    {
      AgentOutcomeIsReal(digest, inp, already, k);
    }
    forall k | 0 <= k < |inp.wakes|
      ensures var wake := inp.wakes[k]; Reports(wakeOutcome(wake), wake.agentId, KeyOfWake(wake), DEFAULT, reality)
    {
      WakeOutcomeIsReal(digest, inp, already, k);
    }
    AgentsReport(outcome, inp.agents, already, reality);
    WakesReport(wakeOutcome, AgentTick(outcome, inp.agents, already), inp.wakes, reality);
    assert AllReports(TickOf(digest, inp, already), reality);
  }

  // ----- nothing is left out of the report, and the cursor follows it -----

  function Entries(t: Tick): nat { |t.emissions| + |t.deferred| + |t.outside| + |t.deduped| }

  function KnownWakes(byId: map<string, Agent>, wakes: seq<CommitmentWake>): nat {
    if wakes == [] then 0
    else KnownWakes(byId, wakes[..|wakes| - 1]) + if wakes[|wakes| - 1].agentId in byId then 1 else 0
  }

  lemma {:induction false} AgentsEntered(outcome: Agent -> Outcome, agents: seq<Agent>, already: Cursor)
    requires forall k :: 0 <= k < |agents| ==> !outcome(agents[k]).Ignored?
    ensures Entries(AgentTick(outcome, agents, already)) == |agents|
  {
    if agents != [] {
      AgentsEntered(outcome, agents[..|agents| - 1], already);
    }
  }

  lemma {:induction false} WakesEntered(
    byId: map<string, Agent>, outcome: CommitmentWake -> Outcome, start: Tick, wakes: seq<CommitmentWake>)
    requires forall k :: 0 <= k < |wakes| ==> (outcome(wakes[k]).Ignored? <==> wakes[k].agentId !in byId)
    ensures Entries(WakeTick(outcome, start, wakes)) == Entries(start) + KnownWakes(byId, wakes)
  {
    if wakes != [] {
      WakesEntered(byId, outcome, start, wakes[..|wakes| - 1]);
    }
  }

  /** An armed tick reports every agent and every wake of a known agent, once each. */
  lemma TickReportsAll(digest: string -> nat, inp: TickInput, already: Cursor)
    requires inp.enabled
    ensures Entries(TickOf(digest, inp, already)) == |inp.agents| + KnownWakes(AgentsById(inp.agents), inp.wakes)
  {
    var outcome := AgentOutcomes(digest, inp.now, already, inp.limits);
    AgentsEntered(outcome, inp.agents, already);
    WakesEntered(AgentsById(inp.agents), WakeOutcomes(AgentsById(inp.agents), inp.now, already, inp.limits),
                 AgentTick(outcome, inp.agents, already), inp.wakes);
  }

  /** The cursor shows the window of every emission, and the emissions are in the order of a rank. */
  ghost predicate Settles(t: Tick, rank: CursorKey -> int, n: int) {
    && (forall i :: 0 <= i < |t.emissions| ==> Lookup(t.next, t.emissions[i].key) == Some(t.emissions[i].window))
    && (forall i :: 0 <= i < |t.emissions| ==> rank(t.emissions[i].key) < n)
    && (forall i, j :: 0 <= i < j < |t.emissions| ==> rank(t.emissions[i].key) < rank(t.emissions[j].key))
  }

  lemma BookSettles(
    t: Tick, agentId: string, key: CursorKey, priority: int, outcome: Outcome, rank: CursorKey -> int, n: int)
    requires Settles(t, rank, n) && rank(key) == n
    ensures Settles(Book(t, agentId, key, priority, outcome), rank, n + 1)
  {
  }

  lemma {:induction false} AgentsSettle(
    outcome: Agent -> Outcome, agents: seq<Agent>, already: Cursor, rank: CursorKey -> int)
    requires forall k :: 0 <= k < |agents| ==> rank(AgentKey(agents[k].id)) == k
    ensures Settles(AgentTick(outcome, agents, already), rank, |agents|)
  {
    if agents != [] {
      var n := |agents| - 1;
      AgentsSettle(outcome, agents[..n], already, rank);
      BookSettles(AgentTick(outcome, agents[..n], already), agents[n].id, AgentKey(agents[n].id),
                  ResolvePriority(IntervalSource, Scheduled, "interval"), outcome(agents[n]), rank, n);
    }
  }

  lemma {:induction false} WakesSettle(
    outcome: CommitmentWake -> Outcome, start: Tick, wakes: seq<CommitmentWake>, rank: CursorKey -> int, n: int)
    requires Settles(start, rank, n)
    requires forall k :: 0 <= k < |wakes| ==> rank(KeyOfWake(wakes[k])) == n + k
    ensures Settles(WakeTick(outcome, start, wakes), rank, n + |wakes|)
  {
    if wakes != [] {
      var m := |wakes| - 1;
      WakesSettle(outcome, start, wakes[..m], rank, n);
      BookSettles(WakeTick(outcome, start, wakes[..m]), wakes[m].agentId, KeyOfWake(wakes[m]),
                  ResolvePriority(CommitmentSource, Event, "commitment-due"), outcome(wakes[m]), rank, n + m);
    }
  }

  predicate DistinctWakes(wakes: seq<CommitmentWake>) {
    forall i, j :: 0 <= i < j < |wakes| ==> KeyOfWake(wakes[i]) != KeyOfWake(wakes[j])
  }

  /** The place of a key in a tick: agents in their order, and after them the wakes in theirs. */
  function PlaceOf(inp: TickInput, key: CursorKey): int {
    match key
    case AgentKey(id) => AgentPlace(inp.agents, id)
    case CommitmentKey(_, _) => |inp.agents| + WakePlace(inp.wakes, key)
  }

  function AgentPlace(agents: seq<Agent>, id: string): (r: nat)
    ensures r <= |agents| && (forall i :: 0 <= i < r ==> agents[i].id != id) && (r < |agents| ==> agents[r].id == id)
  {
    if agents == [] || agents[0].id == id then 0 else 1 + AgentPlace(agents[1..], id)
  }

  function WakePlace(wakes: seq<CommitmentWake>, key: CursorKey): (r: nat)
    ensures r <= |wakes| && (forall i :: 0 <= i < r ==> KeyOfWake(wakes[i]) != key)
    ensures r < |wakes| ==> KeyOfWake(wakes[r]) == key
  {
    if wakes == [] || KeyOfWake(wakes[0]) == key then 0 else 1 + WakePlace(wakes[1..], key)
  }

  /** With distinct agents and wakes the next cursor shows every emitted window, and emissions keep the input's order. */
  lemma TickSettles(digest: string -> nat, inp: TickInput, already: Cursor)
    requires inp.enabled && DistinctAgents(inp.agents) && DistinctWakes(inp.wakes)
    ensures Settles(TickOf(digest, inp, already), key => PlaceOf(inp, key), |inp.agents| + |inp.wakes|)
  {
    var outcome := AgentOutcomes(digest, inp.now, already, inp.limits);
    var place := key => PlaceOf(inp, key);
    AgentsSettle(outcome, inp.agents, already, place);
    WakesSettle(WakeOutcomes(AgentsById(inp.agents), inp.now, already, inp.limits),
                AgentTick(outcome, inp.agents, already), inp.wakes, place, |inp.agents|);
  }

  // ----- the log is what the daemon puts out -----

  /** The back-filled windows of one agent. */
  function CatchupFor(catchup: seq<CatchupEmission>, id: string): seq<int> {
    if catchup == [] then []
    else
      var n := |catchup| - 1;
      var before := CatchupFor(catchup[..n], id);
      if catchup[n].agentId == id then before + [catchup[n].window] else before
  }

  lemma {:induction false} CatchupJoins(a: seq<CatchupEmission>, id: string, tag: string, windows: seq<int>)
    ensures CatchupFor(a + Tagged(tag, windows), id) == CatchupFor(a, id) + if tag == id then windows else []
  {
    if windows == [] {
      assert a + Tagged(tag, windows) == a;
    } else {
      var n := |windows| - 1;
      var all := a + Tagged(tag, windows);
      assert all[..|all| - 1] == a + Tagged(tag, windows[..n]);
      CatchupJoins(a, id, tag, windows[..n]);
      assert windows == windows[..n] + [windows[n]];
    }
  }

  predicate EmitsOnce(emissions: seq<Emission>, key: CursorKey) {
    forall i, j :: 0 <= i < j < |emissions| ==> emissions[i].key != key || emissions[j].key != key
  }

  lemma BookEmitsOnce(tick: Tick, agentId: string, booked: CursorKey, priority: int, outcome: Outcome, key: CursorKey)
    requires EmitsOnce(tick.emissions, key) && (booked == key ==> !Emits(tick.emissions, key))
    ensures EmitsOnce(Book(tick, agentId, booked, priority, outcome).emissions, key)
  {
  }

  lemma {:induction false} AgentsEmitOnce(outcome: Agent -> Outcome, agents: seq<Agent>, already: Cursor, key: CursorKey)
    requires DistinctAgents(agents)
    ensures EmitsOnce(AgentTick(outcome, agents, already).emissions, key)
  {
    if agents != [] {
      var n := |agents| - 1;
      AgentsEmitOnce(outcome, agents[..n], already, key);
      AgentTickAt(outcome, agents[..n], already, key);
      BookEmitsOnce(AgentTick(outcome, agents[..n], already), agents[n].id, AgentKey(agents[n].id),
                    ResolvePriority(IntervalSource, Scheduled, "interval"), outcome(agents[n]), key);
    }
  }

  lemma {:induction false} WakesEmitNoAgent(
    outcome: CommitmentWake -> Outcome, start: Tick, wakes: seq<CommitmentWake>, key: CursorKey)
    requires key.AgentKey? && EmitsOnce(start.emissions, key)
    ensures EmitsOnce(WakeTick(outcome, start, wakes).emissions, key)
  {
    if wakes != [] {
      var n := |wakes| - 1;
      WakesEmitNoAgent(outcome, start, wakes[..n], key);
      BookEmitsOnce(WakeTick(outcome, start, wakes[..n]), wakes[n].agentId, KeyOfWake(wakes[n]),
                    ResolvePriority(CommitmentSource, Event, "commitment-due"), outcome(wakes[n]), key);
    }
  }

  lemma {:induction false} CatchupOfAgent(
    byId: map<string, Agent>, emissions: seq<Emission>, previous: Cursor, next: Cursor, maxCatchup: nat, id: string)
    requires EmitsOnce(emissions, AgentKey(id))
    ensures CatchupFor(CatchupOf(byId, emissions, previous, next, maxCatchup).0, id)
            == if Emits(emissions, AgentKey(id))
               then EmissionBackfill(byId, AgentKey(id), previous, next, maxCatchup).windows else []
  {
    if emissions != [] {
      var n := |emissions| - 1;
      var key := emissions[n].key;
      CatchupOfAgent(byId, emissions[..n], previous, next, maxCatchup, id);
      CatchupJoins(CatchupOf(byId, emissions[..n], previous, next, maxCatchup).0, id, key.agentId,
                   EmissionBackfill(byId, key, previous, next, maxCatchup).windows);
      EmitsLast(emissions, AgentKey(id));
    }
  }

  lemma EmitsLast(emissions: seq<Emission>, key: CursorKey)
    requires emissions != []
    ensures Emits(emissions, key) <==> Emits(emissions[..|emissions| - 1], key) || emissions[|emissions| - 1].key == key
  {
    assert forall i :: 0 <= i < |emissions| - 1 ==> emissions[i] == emissions[..|emissions| - 1][i];
  }

  /** The slots logged for an agent are the back-fill that the daemon's tick puts out for it, and its emission. */
  lemma DaemonTickIsLogged(digest: string -> nat, inp: TickInput, previous: Cursor, id: string, log: Log)
    requires inp.enabled && DistinctAgents(inp.agents)
    ensures var tick, key, byId := TickOf(digest, inp, previous), AgentKey(id), AgentsById(inp.agents);
      Logged(log, id, tick, byId, previous, inp.maxCatchup).slots
      == log.slots + CatchupFor(CatchupOf(byId, tick.emissions, previous, tick.next, inp.maxCatchup).0, id)
         + if Emits(tick.emissions, key) && key in tick.next then [tick.next[key]] else []
  {
    var key, byId := AgentKey(id), AgentsById(inp.agents);
    var outcome := AgentOutcomes(digest, inp.now, previous, inp.limits);
    var wakeOutcome := WakeOutcomes(byId, inp.now, previous, inp.limits);
    var start := AgentTick(outcome, inp.agents, previous);
    AgentsEmitOnce(outcome, inp.agents, previous, key);
    WakesEmitNoAgent(wakeOutcome, start, inp.wakes, key);
    TickIsLogged(WakeTick(wakeOutcome, start, inp.wakes), byId, previous, inp.maxCatchup, id, log);
  }

  lemma TickIsLogged(tick: Tick, byId: map<string, Agent>, previous: Cursor, maxCatchup: nat, id: string, log: Log)
    requires EmitsOnce(tick.emissions, AgentKey(id))
    ensures var key := AgentKey(id);
      Logged(log, id, tick, byId, previous, maxCatchup).slots
      == log.slots + CatchupFor(CatchupOf(byId, tick.emissions, previous, tick.next, maxCatchup).0, id)
         + if Emits(tick.emissions, key) && key in tick.next then [tick.next[key]] else []
  {
    CatchupOfAgent(byId, tick.emissions, previous, tick.next, maxCatchup, id);
  }

  /** What a tick adds to the truncated count of one agent. */
  function TruncatedOf(byId: map<string, Agent>, id: string, tick: Tick, previous: Cursor, maxCatchup: nat): nat {
    Logged(Log([], 0, 0), id, tick, byId, previous, maxCatchup).truncated
  }

  function TruncatedOfAll(byId: map<string, Agent>, agents: seq<Agent>, tick: Tick, previous: Cursor, maxCatchup: nat): nat {
    if agents == [] then 0
    else
      var n := |agents| - 1;
      TruncatedOfAll(byId, agents[..n], tick, previous, maxCatchup)
      + TruncatedOf(byId, agents[n].id, tick, previous, maxCatchup)
  }

  lemma BookSkips(
    byId: map<string, Agent>, tick: Tick, agentId: string, booked: CursorKey, priority: int, outcome: Outcome,
    previous: Cursor, next: Cursor, maxCatchup: nat)
    ensures CatchupOf(byId, Book(tick, agentId, booked, priority, outcome).emissions, previous, next, maxCatchup).1
            == CatchupOf(byId, tick.emissions, previous, next, maxCatchup).1
               + if outcome.Emitted? then EmissionBackfill(byId, booked, previous, next, maxCatchup).skipped else 0
  {
    if outcome.Emitted? {
      assert (tick.emissions + [Emission(booked, priority, outcome.window)])[..|tick.emissions|] == tick.emissions;
    }
  }

  lemma {:induction false} WakesSkipNothing(
    byId: map<string, Agent>, outcome: CommitmentWake -> Outcome, start: Tick, wakes: seq<CommitmentWake>, previous: Cursor,
    next: Cursor, maxCatchup: nat)
    ensures CatchupOf(byId, WakeTick(outcome, start, wakes).emissions, previous, next, maxCatchup).1
            == CatchupOf(byId, start.emissions, previous, next, maxCatchup).1
  {
    if wakes != [] {
      var n := |wakes| - 1;
      WakesSkipNothing(byId, outcome, start, wakes[..n], previous, next, maxCatchup);
      BookSkips(byId, WakeTick(outcome, start, wakes[..n]), wakes[n].agentId, KeyOfWake(wakes[n]),
                ResolvePriority(CommitmentSource, Event, "commitment-due"), outcome(wakes[n]), previous, next, maxCatchup);
    }
  }

  /** The agents of a prefix, against a tick that emits each agent of it just as its outcome says. */
  lemma {:induction false} AgentsSkip(
    byId: map<string, Agent>, outcome: Agent -> Outcome, agents: seq<Agent>, already: Cursor, tick: Tick,
    previous: Cursor, maxCatchup: nat)
    requires forall k :: 0 <= k < |agents| ==>
      (Emits(tick.emissions, AgentKey(agents[k].id)) <==> outcome(agents[k]).Emitted?)
    ensures CatchupOf(byId, AgentTick(outcome, agents, already).emissions, previous, tick.next, maxCatchup).1
            == TruncatedOfAll(byId, agents, tick, previous, maxCatchup)
  {
    if agents != [] {
      var n := |agents| - 1;
      assert forall k :: 0 <= k < n ==> agents[..n][k] == agents[k];
      AgentsSkip(byId, outcome, agents[..n], already, tick, previous, maxCatchup);
      BookSkips(byId, AgentTick(outcome, agents[..n], already), agents[n].id, AgentKey(agents[n].id),
                ResolvePriority(IntervalSource, Scheduled, "interval"), outcome(agents[n]), previous, tick.next, maxCatchup);
    }
  }

  /** The truncated windows that the daemon's tick reports are those logged for its agents, all together. */
  lemma DaemonTruncatedIsLogged(digest: string -> nat, inp: TickInput, previous: Cursor)
    requires inp.enabled && DistinctAgents(inp.agents)
    ensures var tick, byId := TickOf(digest, inp, previous), AgentsById(inp.agents);
      CatchupOf(byId, tick.emissions, previous, tick.next, inp.maxCatchup).1
      == TruncatedOfAll(byId, inp.agents, tick, previous, inp.maxCatchup)
  {
    var byId := AgentsById(inp.agents);
    var outcome := AgentOutcomes(digest, inp.now, previous, inp.limits);
    var wakeOutcome := WakeOutcomes(byId, inp.now, previous, inp.limits);
    var start := AgentTick(outcome, inp.agents, previous);
    var tick := WakeTick(wakeOutcome, start, inp.wakes);
    forall k | 0 <= k < |inp.agents|
      ensures Emits(tick.emissions, AgentKey(inp.agents[k].id)) <==> outcome(inp.agents[k]).Emitted?
    {
      AgentTickAt(outcome, inp.agents, previous, AgentKey(inp.agents[k].id));
      WakesLeaveAgents(wakeOutcome, start, inp.wakes, AgentKey(inp.agents[k].id));
    }
    WakesSkipNothing(byId, wakeOutcome, start, inp.wakes, previous, tick.next, inp.maxCatchup);
    AgentsSkip(byId, outcome, inp.agents, previous, tick, previous, inp.maxCatchup);
  }

  // ----- exactly when a slot is emitted twice -----

  /** The slot that a tick offers the agent once its gates are passed; the cursor plays no part in it. */
  function Offered(digest: string -> nat, inp: TickInput, id: string): Option<int> {
    if inp.enabled && id in AgentsById(inp.agents) then
      var agent := AgentsById(inp.agents)[id];
      var slot := ReachedSlot(digest, id, agent.intervalMs, inp.now);
      if agent.activeHours.Some? && !IsWithin(agent.activeHours, inp.now) then None
      else if ShouldDefer(Event, inp.now, slot, agent.lastRunStartedAt, agent.recentRunStarts, inp.limits).Defer? then None
      else Some(slot)
    else None
  }

  /** A tick emits the offered slot unless the cursor shows it, and leaves the cursor at the offered slot. */
  lemma TickOffers(digest: string -> nat, inp: TickInput, cursor: Cursor, id: string)
    requires DistinctAgents(inp.agents)
    ensures var tick, key, offer := TickOf(digest, inp, cursor), AgentKey(id), Offered(digest, inp, id);
      && (Emits(tick.emissions, key) <==> offer.Some? && offer != Lookup(cursor, key))
      && Lookup(tick.next, key) == if offer.Some? then offer else Lookup(cursor, key)
  {
    if inp.enabled {
      var key := AgentKey(id);
      var outcome := AgentOutcomes(digest, inp.now, cursor, inp.limits);
      AgentTickAt(outcome, inp.agents, cursor, key);
      WakesLeaveAgents(WakeOutcomes(AgentsById(inp.agents), inp.now, cursor, inp.limits),
                       AgentTick(outcome, inp.agents, cursor), inp.wakes, key);
      if k :| 0 <= k < |inp.agents| && inp.agents[k].id == id {
        AgentsByIdAt(inp.agents, k);
        var slot := ReachedSlot(digest, id, inp.agents[k].intervalMs, inp.now);
        GatedOffers(inp.agents[k], key, slot, inp.now, cursor, inp.limits);
      } else {
        AgentsByIdWithout(inp.agents, id);
      }
    }
  }

  lemma GatedOffers(agent: Agent, key: CursorKey, window: int, now: int, already: Cursor, limits: Limits)
    ensures var o := Gated(agent, key, window, now, already, limits);
      var passes := !(agent.activeHours.Some? && !IsWithin(agent.activeHours, now))
                    && ShouldDefer(Event, now, window, agent.lastRunStartedAt, agent.recentRunStarts, limits).Run?;
      && (o.Emitted? <==> passes && Lookup(already, key) != Some(window))
      && (o.Emitted? ==> o.window == window)
  {
  }

  lemma {:induction false} AgentsByIdWithout(agents: seq<Agent>, id: string)
    requires forall k :: 0 <= k < |agents| ==> agents[k].id != id
    ensures id !in AgentsById(agents)
  {
    if agents != [] {
      AgentsByIdWithout(agents[..|agents| - 1], id);
    }
  }

  /** The slots that a run's ticks offer the agent, in order. */
  function OfferedSlots(digest: string -> nat, id: string, inputs: seq<TickInput>): seq<int> {
    if inputs == [] then []
    else
      var n := |inputs| - 1;
      var before, offer := OfferedSlots(digest, id, inputs[..n]), Offered(digest, inputs[n], id);
      if offer.Some? then before + [offer.value] else before
  }

  /** The slots that a run emits for the agent, in order. */
  function EmittedSlots(digest: string -> nat, id: string, inputs: seq<TickInput>, cursor: Cursor): seq<int> {
    if inputs == [] then []
    else
      var n := |inputs| - 1;
      var before := EmittedSlots(digest, id, inputs[..n], cursor);
      var tick := TickOf(digest, inputs[n], RunCursor(digest, inputs[..n], cursor));
      if Emits(tick.emissions, AgentKey(id)) && AgentKey(id) in tick.next then before + [tick.next[AgentKey(id)]] else before
  }

  /** Without the values that equal the one before them. */
  function Changes(s: seq<int>): seq<int> {
    if s == [] then []
    else
      var n := |s| - 1;
      if n > 0 && s[n] == s[n - 1] then Changes(s[..n]) else Changes(s[..n]) + [s[n]]
  }

  /** What the cursor shows before the run. */
  function Shown(cursor: Cursor, id: string): seq<int> {
    var c := Lookup(cursor, AgentKey(id));
    if c.Some? then [c.value] else []
  }

  lemma ChangesNext(s: seq<int>, v: int)
    ensures Changes(s + [v]) == if s != [] && Last(s) == v then Changes(s) else Changes(s) + [v]
  {
    assert (s + [v])[..|s|] == s;
  }

  /** One more tick, seen only by what it offers. */
  lemma OfferExtends(shown: seq<int>, offered: seq<int>, emitted: seq<int>, c: Option<int>, offer: Option<int>)
    requires shown + emitted == Changes(shown + offered)
    requires c == if shown + offered == [] then None else Some(Last(shown + offered))
    ensures var more := if offer.Some? then offered + [offer.value] else offered;
      var emits := if offer.Some? && offer != c then emitted + [offer.value] else emitted;
      && shown + emits == Changes(shown + more)
      && (if offer.Some? then offer else c) == if shown + more == [] then None else Some(Last(shown + more))
  {
    if offer.Some? {
      assert shown + (offered + [offer.value]) == (shown + offered) + [offer.value];
      assert shown + (emitted + [offer.value]) == (shown + emitted) + [offer.value];
      ChangesNext(shown + offered, offer.value);
    }
  }

  /** The emitted slots are the offered ones without immediate repeats, the cursor counting as the first. */
  lemma {:induction false} EmissionsAreChanges(digest: string -> nat, id: string, inputs: seq<TickInput>, cursor: Cursor)
    requires forall i :: 0 <= i < |inputs| ==> DistinctAgents(inputs[i].agents)
    ensures var shown, all := Shown(cursor, id), Shown(cursor, id) + OfferedSlots(digest, id, inputs);
      && shown + EmittedSlots(digest, id, inputs, cursor) == Changes(all)
      && Lookup(RunCursor(digest, inputs, cursor), AgentKey(id)) == if all == [] then None else Some(Last(all))
  {
    var shown := Shown(cursor, id);
    if inputs == [] {
      assert shown + [] == shown;
      assert shown == [] || shown[..0] == [];
    } else {
      var n := |inputs| - 1;
      EmissionsAreChanges(digest, id, inputs[..n], cursor);
      var previous := RunCursor(digest, inputs[..n], cursor);
      TickOffers(digest, inputs[n], previous, id);
      OfferExtends(shown, OfferedSlots(digest, id, inputs[..n]), EmittedSlots(digest, id, inputs[..n], cursor),
                   Lookup(previous, AgentKey(id)), Offered(digest, inputs[n], id));
    }
  }

  ghost predicate Repeats(s: seq<int>) {
    exists i, j :: 0 <= i < j < |s| && s[i] == s[j]
  }

  /** A value is left for another one and taken up again. */
  ghost predicate Returns(s: seq<int>) {
    exists i, k, j :: 0 <= i < k < j < |s| && s[i] == s[j] && s[k] != s[i]
  }

  lemma {:induction false} ChangesKeepValues(s: seq<int>, v: int)
    ensures v in Changes(s) <==> v in s
  {
    if s != [] {
      var n := |s| - 1;
      assert s == s[..n] + [s[n]];
      ChangesNext(s[..n], s[n]);
      ChangesKeepValues(s[..n], v);
    }
  }

  lemma RepeatsNext(s: seq<int>, v: int)
    ensures Repeats(s + [v]) <==> Repeats(s) || v in s
  {
    var all := s + [v];
    assert forall i :: 0 <= i < |s| ==> all[i] == s[i];
    if v in s {
      var i :| 0 <= i < |s| && s[i] == v;
      assert all[i] == all[|s|];
    }
    if Repeats(s) {
      var i, j :| 0 <= i < j < |s| && s[i] == s[j];
      assert all[i] == all[j];
    }
  }

  lemma ReturnsNext(s: seq<int>, v: int)
    ensures Returns(s + [v]) <==> Returns(s) || (s != [] && Last(s) != v && v in s)
  {
    var all := s + [v];
    assert forall i :: 0 <= i < |s| ==> all[i] == s[i];
    if Returns(all) {
      var i, k, j :| 0 <= i < k < j < |all| && all[i] == all[j] && all[k] != all[i];
      if j == |s| && Last(s) == v {
        assert s[i] == s[|s| - 1] && s[k] != s[i];
      } else if j < |s| {
        assert s[i] == s[j] && s[k] != s[i];
      }
    }
    if Returns(s) {
      var i, k, j :| 0 <= i < k < j < |s| && s[i] == s[j] && s[k] != s[i];
      assert all[i] == all[j] && all[k] != all[i];
    }
    if s != [] && Last(s) != v && v in s {
      var i :| 0 <= i < |s| && s[i] == v;
      assert all[i] == all[|s|] && all[|s| - 1] != all[i];
    }
  }

  lemma {:induction false} ChangesRepeat(s: seq<int>)
    ensures Repeats(Changes(s)) <==> Returns(s)
  {
    if s != [] {
      var n := |s| - 1;
      assert s == s[..n] + [s[n]];
      ChangesRepeat(s[..n]);
      ChangesNext(s[..n], s[n]);
      RepeatsNext(Changes(s[..n]), s[n]);
      ReturnsNext(s[..n], s[n]);
      ChangesKeepValues(s[..n], s[n]);
    }
  }

  /**
   A slot is emitted again, or though the cursor showed it before the run, exactly when the offered slots
   leave a slot for another one and come back to it.
   */
  lemma SlotsRepeatExactly(digest: string -> nat, id: string, inputs: seq<TickInput>, cursor: Cursor)
    requires forall i :: 0 <= i < |inputs| ==> DistinctAgents(inputs[i].agents)
    ensures Repeats(Shown(cursor, id) + EmittedSlots(digest, id, inputs, cursor))
            <==> Returns(Shown(cursor, id) + OfferedSlots(digest, id, inputs))
    ensures AgentKey(id) !in cursor ==>
      (Repeats(EmittedSlots(digest, id, inputs, cursor)) <==> Returns(OfferedSlots(digest, id, inputs)))
  {
    EmissionsAreChanges(digest, id, inputs, cursor);
    ChangesRepeat(Shown(cursor, id) + OfferedSlots(digest, id, inputs));
    if AgentKey(id) !in cursor {
      assert [] + EmittedSlots(digest, id, inputs, cursor) == EmittedSlots(digest, id, inputs, cursor);
      assert [] + OfferedSlots(digest, id, inputs) == OfferedSlots(digest, id, inputs);
    }
  }

  // ----- a clock that goes back -----

  function Alone(agent: Agent, now: int): TickInput { TickInput(true, now, [agent], [], DEFAULT_LIMITS, 0) }

  predicate IsUngated(agent: Agent) {
    agent.lastRunStartedAt.None? && agent.recentRunStarts.None? && agent.activeHours.None?
  }

  lemma LoneTick(digest: string -> nat, agent: Agent, now: int, cursor: Cursor)
    requires IsUngated(agent)
    ensures var t, key, slot := TickOf(digest, Alone(agent, now), cursor), AgentKey(agent.id),
                                ReachedSlot(digest, agent.id, agent.intervalMs, now);
      Lookup(cursor, key) != Some(slot) ==> Emits(t.emissions, key) && Lookup(t.next, key) == Some(slot)
  {
    var inp, key := Alone(agent, now), AgentKey(agent.id);
    var outcome := AgentOutcomes(digest, now, cursor, DEFAULT_LIMITS);
    AgentTickAt(outcome, [agent], cursor, key);
    WakesLeaveAgents(WakeOutcomes(AgentsById([agent]), now, cursor, DEFAULT_LIMITS),
                     AgentTick(outcome, [agent], cursor), [], key);
    assert [agent][0] == agent;
  }

  /** Each lone tick whose slot is not the cursor's logs that slot. */
  lemma LoneTickLogs(digest: string -> nat, agent: Agent, inputs: seq<TickInput>, now: int)
    requires IsUngated(agent)
    ensures var slot, key := ReachedSlot(digest, agent.id, agent.intervalMs, now), AgentKey(agent.id);
      var all, before := inputs + [Alone(agent, now)], AgentLog(digest, agent.id, inputs, map[]).slots;
      Lookup(RunCursor(digest, inputs, map[]), key) != Some(slot) ==>
        && Lookup(RunCursor(digest, all, map[]), key) == Some(slot)
        && before <= AgentLog(digest, agent.id, all, map[]).slots
        && |AgentLog(digest, agent.id, all, map[]).slots| > |before|
            && Last(AgentLog(digest, agent.id, all, map[]).slots) == slot
  {
    var all := inputs + [Alone(agent, now)];
    assert all[..|inputs|] == inputs;
    LoneTick(digest, agent, now, RunCursor(digest, inputs, map[]));
  }

  lemma ReturningClockRepeats(
    digest: string -> nat, agent: Agent, now: int, earlier: int, first: seq<TickInput>, second: seq<TickInput>,
    third: seq<TickInput>)
    requires IsUngated(agent) && earlier <= now - ResolvePositiveInterval(agent.intervalMs)
    requires first == [] + [Alone(agent, now)] && second == first + [Alone(agent, earlier)]
    requires third == second + [Alone(agent, now)]
    ensures var slots := AgentLog(digest, agent.id, third, map[]).slots;
      exists i, j :: 0 <= i < j < |slots| && slots[i] == slots[j]
  {
    ReachedSlotIsOnPhase(digest, agent.id, agent.intervalMs, now);
    ReachedSlotIsOnPhase(digest, agent.id, agent.intervalMs, earlier);
    LoneTickLogs(digest, agent, [], now);
    LoneTickLogs(digest, agent, first, earlier);
    LoneTickLogs(digest, agent, second, now);
    var a, b := AgentLog(digest, agent.id, first, map[]).slots, AgentLog(digest, agent.id, second, map[]).slots;
    var slots := AgentLog(digest, agent.id, third, map[]).slots;
    var i, j := |a| - 1, |slots| - 1;
    assert slots[i] == b[i] == a[i] == slots[j];
  }

  /** When the clock goes back and comes again, the same slot is emitted twice: the cursor holds one slot only. */
  lemma BackwardClockRepeats(digest: string -> nat, agent: Agent, now: int, earlier: int)
    requires IsUngated(agent) && earlier <= now - ResolvePositiveInterval(agent.intervalMs)
    ensures var inputs := [Alone(agent, now), Alone(agent, earlier), Alone(agent, now)];
      var slots := AgentLog(digest, agent.id, inputs, map[]).slots;
      exists i, j :: 0 <= i < j < |slots| && slots[i] == slots[j]
  {
    var a, b := Alone(agent, now), Alone(agent, earlier);
    assert [] + [a] == [a] && [a] + [b] == [a, b] && [a, b] + [a] == [a, b, a];
    ReturningClockRepeats(digest, agent, now, earlier, [a], [a, b], [a, b, a]);
  }
}
