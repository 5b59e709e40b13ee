/**
 From store jobs and the persisted cursor to emitted run windows
 (src/automation/cronStoreSnapshot.ts, neonAutomation.ts, cronTimerRuntime.ts, cronDaemonRuntime.ts).
 Windows and clocks are milliseconds; the cursor maps a job id to its last emitted window.
 */
module CronDriver {
  import opened Wrappers
  import opened Calendar
  import opened Arithmetic
  import opened MinuteScan
  import opened CronSchedule
  import opened CronParsing
  import opened Catchup

  type Cursor = map<string, int>

  datatype StoreJob = StoreJob(id: string, schedule: Schedule, enabled: bool)

  datatype Job = Job(
    id: string,
    enabled: bool,
    schedule: Schedule,
    lastRunAt: Option<int>,
    nextRunAt: Option<int>,
    intervalMinutes: Option<int>)

  datatype Intent = SchedulerDisabled | ManualOnlyJob | NotDue | Ready(dueAt: Option<int>)

  function Lookup(cursor: Cursor, id: string): Option<int> {
    if id in cursor then Some(cursor[id]) else None
  }

  // ----- cronStoreSnapshot -----

  function RoundMinutes(ms: int): int { (ms + 30_000) / 60_000 }

  function BuildJob(cal: Calendar, job: StoreJob, generatedAt: int, cursor: Cursor): Job {
    var last := Lookup(cursor, job.id);
    var next :=
      if job.schedule.Interval? then
        ComputeNeonNextRunAtMs(cal, job.schedule, if last.Some? then last.value
            else generatedAt - job.schedule.intervalMs)
      else if last.Some? then ComputeNeonNextRunAtMs(cal, job.schedule, last.value)
      else None;
    var minutes := if job.schedule.Interval? then Some(Max(1, RoundMinutes(job.schedule.intervalMs))) else None;
    Job(job.id, job.enabled, job.schedule, last, next, minutes)
  }

  function BuildJobs(cal: Calendar, jobs: seq<StoreJob>, generatedAt: int, cursor: Cursor): seq<Job> {
    seq(|jobs|, i requires 0 <= i < |jobs| => BuildJob(cal, jobs[i], generatedAt, cursor))
  }

  // ----- neonAutomation -----

  predicate IsCronJobDue(cal: Calendar, job: Job, now: int) {
    if job.schedule.Manual? then false
    else if job.schedule.Cron? then IsNeonCronScheduleDue(cal, job.schedule, now, job.lastRunAt)
    else job.nextRunAt.Some? && job.nextRunAt.value <= now
  }

  function EvaluateRunIntent(cal: Calendar, job: Job, now: int, forced: bool): Intent {
    var due := forced || IsCronJobDue(cal, job, now);
    if !job.enabled then SchedulerDisabled
    else if !forced && job.schedule.Manual? then ManualOnlyJob
    else if !due then NotDue
    else Ready(job.nextRunAt)
  }

  // ----- cronTimerRuntime -----

  datatype Outcome = Idle | Deduped | Emitted(window: int)

  /** What a tick does with one job: the window is the due time, or now when there is none. */
  function OutcomeOf(cal: Calendar, job: Job, now: int, already: Cursor, forced: bool): Outcome {
    var intent := EvaluateRunIntent(cal, job, now, forced);
    if !intent.Ready? then Idle
    else
      var window := if intent.dueAt.Some? then intent.dueAt.value else now;
      if Lookup(already, job.id) == Some(window) then Deduped else Emitted(window)
  }

  function NextEmitted(cal: Calendar, jobs: seq<Job>, now: int, already: Cursor, forced: set<string>): Cursor {
    if jobs == [] then already
    else
      var n := |jobs| - 1;
      var before := NextEmitted(cal, jobs[..n], now, already, forced);
      var outcome := OutcomeOf(cal, jobs[n], now, already, jobs[n].id in forced);
      if outcome.Emitted? then before[jobs[n].id := outcome.window] else before
  }

  /** The ids of the jobs with an outcome of the wanted kind, in job order. */
  function IdsOf(
    cal: Calendar, jobs: seq<Job>, now: int, already: Cursor, forced: set<string>, emitted: bool): seq<string> {
    if jobs == [] then []
    else
      var n := |jobs| - 1;
      var before := IdsOf(cal, jobs[..n], now, already, forced, emitted);
      var outcome := OutcomeOf(cal, jobs[n], now, already, jobs[n].id in forced);
      if (emitted && outcome.Emitted?) || (!emitted && outcome.Deduped?) then before + [jobs[n].id] else before
  }

  method EvaluateNeonCronTick(
    cal: Calendar, enabled: bool, jobs: seq<Job>, now: int, already: Cursor, forced: set<string>)
    returns (intents: seq<Intent>, emitted: seq<string>, deduped: seq<string>, nextEmitted: Cursor)
    ensures !enabled ==> intents == [] && emitted == [] && deduped == [] && nextEmitted == already
    ensures enabled ==>
      && |intents| == |jobs|
      && forall i :: 0 <= i < |jobs| ==> intents[i] == EvaluateRunIntent(cal, jobs[i], now, jobs[i].id in forced)
    ensures enabled ==> emitted == IdsOf(cal, jobs, now, already, forced, true)
    ensures enabled ==> deduped == IdsOf(cal, jobs, now, already, forced, false)
    ensures enabled ==> nextEmitted == NextEmitted(cal, jobs, now, already, forced)
  {
    intents, emitted, deduped, nextEmitted := [], [], [], already;
    if !enabled {
      return;
    }
    var i := 0;
    while i < |jobs|
      invariant 0 <= i <= |jobs| && |intents| == i
      invariant forall k :: 0 <= k < i ==> intents[k] == EvaluateRunIntent(cal, jobs[k], now, jobs[k].id in forced)
      invariant emitted == IdsOf(cal, jobs[..i], now, already, forced, true)
      invariant deduped == IdsOf(cal, jobs[..i], now, already, forced, false)
      invariant nextEmitted == NextEmitted(cal, jobs[..i], now, already, forced)
    {
      var job := jobs[i];
      var intent := EvaluateRunIntent(cal, job, now, job.id in forced);
      intents := intents + [intent];
      if intent.Ready? {
        var windowKey := if intent.dueAt.Some? then intent.dueAt.value else now;
        if Lookup(already, job.id) == Some(windowKey) {
          deduped := deduped + [job.id];
        } else {
          emitted := emitted + [job.id];
          nextEmitted := nextEmitted[job.id := windowKey];
        }
      }
      assert jobs[..i + 1][..i] == jobs[..i];
      i := i + 1;
    }
    assert jobs[..i] == jobs;
  }

  // ----- cronDaemonRuntime -----

  datatype Emission = Emission(jobId: string, window: int)

  function JobsById(jobs: seq<Job>): map<string, Job> {
    if jobs == [] then map[] else JobsById(jobs[..|jobs| - 1])[jobs[|jobs| - 1].id := jobs[|jobs| - 1]]
  }

  /** Only interval jobs have a step to walk back by. */
  function JobBackfill(job: Job, window: int, last: Option<int>, maxCatchup: nat): Backfill {
    if job.intervalMinutes.None? || job.intervalMinutes.value <= 0 then Backfill([], 0)
    else BackfillOf(job.intervalMinutes.value * 60_000, window, last, maxCatchup)
  }

  function EmissionBackfill(
    byId: map<string, Job>, id: string, previous: Cursor, next: Cursor, maxCatchup: nat): Backfill
  {
    if id in byId && id in next then JobBackfill(byId[id], next[id], Lookup(previous, id), maxCatchup)
    else Backfill([], 0)
  }

  function Tagged(id: string, windows: seq<int>): seq<Emission> {
    seq(|windows|, i requires 0 <= i < |windows| => Emission(id, windows[i]))
  }

  function CatchupOf(byId: map<string, Job>, ids: seq<string>, previous: Cursor, next: Cursor, maxCatchup: nat)
    : (seq<Emission>, nat)
  {
    if ids == [] then ([], 0)
    else
      var n := |ids| - 1;
      var (before, skipped) := CatchupOf(byId, ids[..n], previous, next, maxCatchup);
      var b := EmissionBackfill(byId, ids[n], previous, next, maxCatchup);
      (before + Tagged(ids[n], b.windows), skipped + b.skipped)
  }

  /** The loop over emitted jobs. */
  method BackfillEmitted(byId: map<string, Job>, ids: seq<string>, previous: Cursor, next: Cursor, maxCatchup: nat)
    returns (catchup: seq<Emission>, catchupTruncated: nat)
    ensures (catchup, catchupTruncated) == CatchupOf(byId, ids, previous, next, maxCatchup)
  {
    catchup, catchupTruncated := [], 0;
    var i := 0;
    while i < |ids|
      invariant 0 <= i <= |ids|
      invariant (catchup, catchupTruncated) == CatchupOf(byId, ids[..i], previous, next, maxCatchup)
    {
      var id := ids[i];
      assert ids[..i + 1][..i] == ids[..i];
      assert catchup + Tagged(id, []) == catchup;
      if id in byId && id in next {
        var job := byId[id];
        if job.intervalMinutes.Some? && job.intervalMinutes.value > 0 {
          var step := job.intervalMinutes.value * 60_000;
          var windows, skipped := ComputeCatchupWindows(step, next[id], Lookup(previous, id), maxCatchup);
          catchup := catchup + Tagged(id, windows);
          catchupTruncated := catchupTruncated + skipped;
        }
      }
      i := i + 1;
    }
    assert ids[..i] == ids;
  }

  /** The cursor file of the daemon, rewritten by every armed tick. */
  class CronDaemon {
    const cal: Calendar
    var emitted: Cursor
    var lastTickAt: Option<int>
    var ticks: nat

    constructor (cal: Calendar)
      ensures this.cal == cal && emitted == map[] && lastTickAt == None && ticks == 0
    {
      this.cal := cal;
      emitted, lastTickAt, ticks := map[], None, 0;
    }

    method RunTick(enabled: bool, now: int, storeJobs: seq<StoreJob>, forced: set<string>, maxCatchupPerJob: int)
      returns (emittedIds: seq<string>, catchup: seq<Emission>, catchupTruncated: nat)
      modifies this
      ensures !enabled ==> emittedIds == [] && catchup == [] && catchupTruncated == 0
      ensures !enabled ==> emitted == old(emitted) && lastTickAt == old(lastTickAt) && ticks == old(ticks)
      ensures enabled ==>
        var jobs := BuildJobs(cal, storeJobs, now, old(emitted));
        && emittedIds == IdsOf(cal, jobs, now, old(emitted), forced, true)
        && emitted == NextEmitted(cal, jobs, now, old(emitted), forced)
        && (catchup, catchupTruncated)
           == CatchupOf(JobsById(jobs), emittedIds, old(emitted), emitted, Max(0, maxCatchupPerJob))
        && lastTickAt == Some(now) && ticks == old(ticks) + 1
    {
      var previous := emitted;
      var jobs := BuildJobs(cal, storeJobs, now, previous);
      var intents, deduped, next;
      intents, emittedIds, deduped, next := EvaluateNeonCronTick(cal, enabled, jobs, now, previous, forced);
      catchup, catchupTruncated := [], 0;
      if !enabled {
        return;
      }
      catchup, catchupTruncated := BackfillEmitted(JobsById(jobs), emittedIds, previous, next, Max(0, maxCatchupPerJob));
      emitted, lastTickAt, ticks := next, Some(now), ticks + 1;
    }
  }

  // ----- runs of unforced ticks over store jobs -----

  datatype TickInput = TickInput(enabled: bool, now: int, jobs: seq<StoreJob>)

  /** What RunTick leaves in the cursor when nothing is forced. */
  function After(cal: Calendar, inp: TickInput, cursor: Cursor): Cursor {
    if inp.enabled then NextEmitted(cal, BuildJobs(cal, inp.jobs, inp.now, cursor), inp.now, cursor, {}) else cursor
  }

  /** The ids that RunTick reports when nothing is forced. */
  function EmittedIds(cal: Calendar, inp: TickInput, cursor: Cursor): seq<string> {
    if inp.enabled then IdsOf(cal, BuildJobs(cal, inp.jobs, inp.now, cursor), inp.now, cursor, {}, true) else []
  }

  datatype Window = Window(window: int, tickAt: int)

  /** The windows one job is emitted with over a run of ticks, each with the clock of its tick. */
  function Windows(cal: Calendar, id: string, inputs: seq<TickInput>, cursor: Cursor): seq<Window> {
    if inputs == [] then []
    else
      var next := After(cal, inputs[0], cursor);
      var rest := Windows(cal, id, inputs[1..], next);
      if id in EmittedIds(cal, inputs[0], cursor) && id in next
      then [Window(next[id], inputs[0].now)] + rest
      else rest
  }

  predicate DistinctIds(jobs: seq<StoreJob>) {
    forall i, j :: 0 <= i < j < |jobs| ==> jobs[i].id != jobs[j].id
  }

  /** Schedules as the parser makes them. */
  predicate IsParsed(s: Schedule) {
    s.Interval? ==> s.intervalMs > 0 && s.intervalMs % 60_000 == 0
  }

  /** Whenever the store holds the job, it holds it with this schedule. */
  predicate Keeps(inp: TickInput, id: string, s: Schedule) {
    DistinctIds(inp.jobs) && forall i :: 0 <= i < |inp.jobs| && inp.jobs[i].id == id ==> inp.jobs[i].schedule == s
  }

  lemma NextRunIsLater(cal: Calendar, s: Schedule, afterMs: int)
    requires IsParsed(s)
    ensures var next := ComputeNeonNextRunAtMs(cal, s, afterMs); next.Some? ==> next.value > afterMs
  {
    if s.Cron? {
      ScanIsNotEarlier(Hit(cal, s.fields), Astray(cal, s.fields), FirstCandidate(afterMs), Deadline(afterMs));
    }
  }

  /** The window the job waits for: the next run after the cursor, or now for an interval job without one. */
  function Awaited(cal: Calendar, s: Schedule, now: int, last: Option<int>): Option<int> {
    if last.Some? then ComputeNeonNextRunAtMs(cal, s, last.value)
    else if s.Interval? then Some(now)
    else None
  }

  /** A store job is emitted exactly when its awaited window has come, and is never deduplicated. */
  lemma StoreJobOutcome(cal: Calendar, job: StoreJob, now: int, cursor: Cursor)
    requires IsParsed(job.schedule)
    ensures var w := Awaited(cal, job.schedule, now, Lookup(cursor, job.id));
      OutcomeOf(cal, BuildJob(cal, job, now, cursor), now, cursor, false)
      == if job.enabled && w.Some? && w.value <= now then Emitted(w.value) else Idle
  {
    if job.id in cursor {
      NextRunIsLater(cal, job.schedule, cursor[job.id]);
    }
  }

  /** The intent of a job: its switch first, then whether it is forced, manual or due. */
  lemma IntentExactly(cal: Calendar, job: Job, now: int, forced: bool)
    ensures var r := EvaluateRunIntent(cal, job, now, forced);
      && (r == SchedulerDisabled <==> !job.enabled)
      && (r == ManualOnlyJob <==> job.enabled && !forced && job.schedule == Manual)
      && (r.Ready? <==> job.enabled && (forced || IsCronJobDue(cal, job, now)))
      && (r.Ready? ==> r.dueAt == job.nextRunAt)
  {
  }

  /** A forced store job runs with its awaited window, come or not, or else with now; only now can be shown already. */
  lemma ForcedJobOutcome(cal: Calendar, job: StoreJob, now: int, cursor: Cursor)
    requires IsParsed(job.schedule)
    ensures var w, last := Awaited(cal, job.schedule, now, Lookup(cursor, job.id)), Lookup(cursor, job.id);
      OutcomeOf(cal, BuildJob(cal, job, now, cursor), now, cursor, true)
      == if !job.enabled then Idle
         else if w.Some? then Emitted(w.value)
         else if last == Some(now) then Deduped
         else Emitted(now)
  {
    if job.id in cursor {
      NextRunIsLater(cal, job.schedule, cursor[job.id]);
    }
  }

  predicate Names(jobs: seq<Job>, id: string) { exists p :: 0 <= p < |jobs| && jobs[p].id == id }

  /** Some job of the one id stands before some job of the other. */
  predicate ComesBefore(jobs: seq<Job>, a: string, b: string) {
    exists q :: 0 <= q < |jobs| && jobs[q].id == b && Names(jobs[..q], a)
  }

  /** The ids are those of jobs, in the order of the jobs. */
  predicate InJobOrder(jobs: seq<Job>, ids: seq<string>) {
    && (forall i :: 0 <= i < |ids| ==> Names(jobs, ids[i]))
    && forall i, j :: 0 <= i < j < |ids| ==> ComesBefore(jobs, ids[i], ids[j])
  }

  lemma OrderInLonger(jobs: seq<Job>, job: Job, a: string, b: string)
    ensures Names(jobs, a) ==> Names(jobs + [job], a) && ComesBefore(jobs + [job], a, job.id)
    ensures Names(jobs + [job], job.id)
    ensures ComesBefore(jobs, a, b) ==> ComesBefore(jobs + [job], a, b)
  {
    var all := jobs + [job];
    assert all[|jobs|] == job && all[..|jobs|] == jobs;
    assert forall p :: 0 <= p < |jobs| ==> all[p] == jobs[p] && all[..p] == jobs[..p];
  }

  lemma InOrderLonger(jobs: seq<Job>, job: Job, ids: seq<string>)
    requires InJobOrder(jobs, ids)
    ensures InJobOrder(jobs + [job], ids) && InJobOrder(jobs + [job], ids + [job.id])
  {
    OrderInLonger(jobs, job, job.id, job.id);
    forall i | 0 <= i < |ids| ensures Names(jobs + [job], ids[i]) && ComesBefore(jobs + [job], ids[i], job.id) {
      OrderInLonger(jobs, job, ids[i], job.id);
    }
    forall i, j | 0 <= i < j < |ids| ensures ComesBefore(jobs + [job], ids[i], ids[j]) {
      OrderInLonger(jobs, job, ids[i], ids[j]);
    }
  }

  /** A tick reports emitted and deduplicated jobs in the order of the jobs. */
  lemma {:induction false} ReportsInJobOrder(
    cal: Calendar, jobs: seq<Job>, now: int, already: Cursor, forced: set<string>, emitted: bool)
    ensures InJobOrder(jobs, IdsOf(cal, jobs, now, already, forced, emitted))
  {
    if jobs != [] {
      var n := |jobs| - 1;
      ReportsInJobOrder(cal, jobs[..n], now, already, forced, emitted);
      InOrderLonger(jobs[..n], jobs[n], IdsOf(cal, jobs[..n], now, already, forced, emitted));
      assert jobs == jobs[..n] + [jobs[n]];
    }
  }

  /** A tick without the job leaves its entry alone. */
  lemma {:induction false} NextEmittedWithout(
    cal: Calendar, jobs: seq<Job>, now: int, already: Cursor, forced: set<string>, id: string)
    requires forall i :: 0 <= i < |jobs| ==> jobs[i].id != id
    ensures Lookup(NextEmitted(cal, jobs, now, already, forced), id) == Lookup(already, id)
    ensures id !in IdsOf(cal, jobs, now, already, forced, true) && id !in IdsOf(cal, jobs, now, already, forced, false)
  {
    if jobs != [] {
      NextEmittedWithout(cal, jobs[..|jobs| - 1], now, already, forced, id);
    }
  }

  /** A tick's entry for one job depends on that job alone. */
  lemma {:induction false} NextEmittedAt(
    cal: Calendar, jobs: seq<Job>, now: int, already: Cursor, forced: set<string>, k: nat)
    requires k < |jobs| && forall i, j :: 0 <= i < j < |jobs| ==> jobs[i].id != jobs[j].id
    ensures var id := jobs[k].id;
      var o := OutcomeOf(cal, jobs[k], now, already, id in forced);
      && Lookup(NextEmitted(cal, jobs, now, already, forced), id)
         == (if o.Emitted? then Some(o.window) else Lookup(already, id))
      && (id in IdsOf(cal, jobs, now, already, forced, true) <==> o.Emitted?)
      && (id in IdsOf(cal, jobs, now, already, forced, false) <==> o.Deduped?)
  {
    var n := |jobs| - 1;
    if k == n {
      NextEmittedWithout(cal, jobs[..n], now, already, forced, jobs[n].id);
    } else {
      NextEmittedAt(cal, jobs[..n], now, already, forced, k);
    }
  }

  /** One tick, seen from one job of the store. */
  lemma TickOnJob(cal: Calendar, inp: TickInput, cursor: Cursor, id: string, s: Schedule)
    requires IsParsed(s) && Keeps(inp, id, s)
    ensures var next := After(cal, inp, cursor);
      var w := Awaited(cal, s, inp.now, Lookup(cursor, id));
      if id in EmittedIds(cal, inp, cursor)
      then w.Some? && w.value <= inp.now && Lookup(next, id) == w
      else Lookup(next, id) == Lookup(cursor, id)
    ensures forall k :: inp.enabled && 0 <= k < |inp.jobs| && inp.jobs[k].id == id && inp.jobs[k].enabled ==>
      var w := Awaited(cal, s, inp.now, Lookup(cursor, id));
      (id in EmittedIds(cal, inp, cursor) <==> w.Some? && w.value <= inp.now)
  {
    if inp.enabled {
      var jobs := BuildJobs(cal, inp.jobs, inp.now, cursor);
      if k :| 0 <= k < |inp.jobs| && inp.jobs[k].id == id {
        NextEmittedAt(cal, jobs, inp.now, cursor, {}, k);
        StoreJobOutcome(cal, inp.jobs[k], inp.now, cursor);
      } else {
        NextEmittedWithout(cal, jobs, inp.now, cursor, {}, id);
      }
    }
  }

  /**
   Over any run of ticks, whatever the clock does: every window is due at its tick, and each is
   the next run after the one before it, so no window is skipped.
   */
  lemma {:induction false} WindowsFollow(cal: Calendar, id: string, s: Schedule, inputs: seq<TickInput>, cursor: Cursor)
    requires IsParsed(s) && forall i :: 0 <= i < |inputs| ==> Keeps(inputs[i], id, s)
    ensures var ws := Windows(cal, id, inputs, cursor);
      && (forall k :: 0 <= k < |ws| ==> ws[k].window <= ws[k].tickAt)
      && (forall k :: 0 < k < |ws| ==> ComputeNeonNextRunAtMs(cal, s, ws[k - 1].window) == Some(ws[k].window))
      && (ws != [] ==> Awaited(cal, s, ws[0].tickAt, Lookup(cursor, id)) == Some(ws[0].window))
  {
    if inputs != [] {
      TickOnJob(cal, inputs[0], cursor, id, s);
      WindowsFollow(cal, id, s, inputs[1..], After(cal, inputs[0], cursor));
    }
  }

  /** No window is emitted twice: they strictly increase. */
  lemma WindowsIncrease(cal: Calendar, id: string, s: Schedule, inputs: seq<TickInput>, cursor: Cursor, i: nat, j: nat)
    requires IsParsed(s) && forall k :: 0 <= k < |inputs| ==> Keeps(inputs[k], id, s)
    requires i < j < |Windows(cal, id, inputs, cursor)|
    ensures Windows(cal, id, inputs, cursor)[i].window < Windows(cal, id, inputs, cursor)[j].window
  {
    var ws := Windows(cal, id, inputs, cursor);
    WindowsFollow(cal, id, s, inputs, cursor);
    NextRunIsLater(cal, s, ws[j - 1].window);
    if i < j - 1 {
      WindowsIncrease(cal, id, s, inputs, cursor, i, j - 1);
    }
  }

  lemma {:induction false} StepsAddUp(ws: seq<Window>, step: int, k: nat)
    requires k < |ws| && forall j :: 0 < j < |ws| ==> ws[j].window == ws[j - 1].window + step
    ensures ws[k].window == ws[0].window + k * step
  {
    if k > 0 {
      StepsAddUp(ws, step, k - 1);
      assert (k - 1) * step + step == k * step;
    }
  }

  /** An interval job's windows form an arithmetic progression. */
  lemma IntervalProgression(cal: Calendar, id: string, s: Schedule, inputs: seq<TickInput>, cursor: Cursor, k: nat)
    requires s.Interval? && IsParsed(s) && forall i :: 0 <= i < |inputs| ==> Keeps(inputs[i], id, s)
    requires k < |Windows(cal, id, inputs, cursor)|
    ensures var ws := Windows(cal, id, inputs, cursor); ws[k].window == ws[0].window + k * s.intervalMs
  {
    WindowsFollow(cal, id, s, inputs, cursor);
    StepsAddUp(Windows(cal, id, inputs, cursor), s.intervalMs, k);
  }

  /** A cron-expression job waits for a seed, and then each window is the least match after the last. */
  lemma CronWindowsAreLeastMatches(cal: Calendar, id: string, f: Fields, inputs: seq<TickInput>, cursor: Cursor)
    requires forall i :: 0 <= i < |inputs| ==> Keeps(inputs[i], id, Cron(f))
    ensures var ws := Windows(cal, id, inputs, cursor);
      && (id !in cursor ==> ws == [])
      && (id in cursor && ws != [] ==> IsNextMatch(cal, f, cursor[id], ws[0].window))
      && (forall k :: 0 < k < |ws| ==> IsNextMatch(cal, f, ws[k - 1].window, ws[k].window))
  {
    var ws := Windows(cal, id, inputs, cursor);
    WindowsFollow(cal, id, Cron(f), inputs, cursor);
    if id in cursor {
      SearchIsExact(cal, f, cursor[id]);
    }
    forall k | 0 < k < |ws| ensures IsNextMatch(cal, f, ws[k - 1].window, ws[k].window) {
      SearchIsExact(cal, f, ws[k - 1].window);
    }
  }

  // ----- what the back-fill of a tick is -----

  /** A store job in a snapshot keeps its settings and cursor entry, and steps by its interval. */
  lemma BuiltJob(cal: Calendar, job: StoreJob, now: int, cursor: Cursor)
    requires IsParsed(job.schedule)
    ensures var built := BuildJob(cal, job, now, cursor);
      && built.id == job.id && built.enabled == job.enabled && built.schedule == job.schedule
      && built.lastRunAt == Lookup(cursor, job.id)
      && (built.intervalMinutes.Some? <==> job.schedule.Interval?)
      && (job.schedule.Interval? ==> built.intervalMinutes.value * 60_000 == job.schedule.intervalMs)
  {
  }

  /**
   For an emitted job of m minutes that the cursor showed before, the window k steps back is missed while it lies after
   the last one, kept if it is among the newest, and skipped otherwise. No other job is back-filled.
   */
  lemma BackfillExactly(byId: map<string, Job>, id: string, previous: Cursor, next: Cursor, maxCatchup: nat, k: int)
    requires k >= 1
    ensures var b := EmissionBackfill(byId, id, previous, next, maxCatchup);
      if && id in byId && id in next && id in previous
         && byId[id].intervalMinutes.Some? && byId[id].intervalMinutes.value >= 1
      then
        var slot := next[id] - k * (byId[id].intervalMinutes.value * 60_000);
        && (previous[id] < slot <==> k <= |b.windows| + b.skipped)
        && (k <= |b.windows| <==> k <= maxCatchup && previous[id] < slot)
        && (k <= |b.windows| ==> b.windows[|b.windows| - k] == slot)
      else b == Backfill([], 0)
  {
    if id in byId && id in next && byId[id].intervalMinutes.Some? && byId[id].intervalMinutes.value >= 1 {
      var last := if id in previous then previous[id] else 0;
      BackfillIsNewest(byId[id].intervalMinutes.value * 60_000, next[id], last, maxCatchup, k);
    }
  }

  /** The windows of one job among those of a tick. */
  function CatchupFor(catchup: seq<Emission>, id: string): seq<int> {
    if catchup == [] then []
    else
      var n := |catchup| - 1;
      var before := CatchupFor(catchup[..n], id);
      if catchup[n].jobId == id then before + [catchup[n].window] else before
  }

  lemma {:induction false} CatchupJoins(a: seq<Emission>, id: string, tag: string, windows: seq<int>)
    ensures CatchupFor(a + Tagged(tag, windows), id) == CatchupFor(a, id) + if tag == id then windows else []
  {
    if windows == [] {
      assert a + Tagged(tag, windows) == a;
    } else {
      var n := |windows| - 1;
      var all := a + Tagged(tag, windows);
      assert all[..|all| - 1] == a + Tagged(tag, windows[..n]);
      CatchupJoins(a, id, tag, windows[..n]);
      assert windows == windows[..n] + [windows[n]];
    }
  }

  /** With distinct emitted ids, each is back-filled with its own windows and nothing else is. */
  lemma {:induction false} CatchupOfJob(
    byId: map<string, Job>, ids: seq<string>, previous: Cursor, next: Cursor, maxCatchup: nat, id: string)
    requires forall i, j :: 0 <= i < j < |ids| ==> ids[i] != ids[j]
    ensures CatchupFor(CatchupOf(byId, ids, previous, next, maxCatchup).0, id)
            == if id in ids then EmissionBackfill(byId, id, previous, next, maxCatchup).windows else []
  {
    if ids != [] {
      var n := |ids| - 1;
      assert ids == ids[..n] + [ids[n]];
      CatchupOfJob(byId, ids[..n], previous, next, maxCatchup, id);
      CatchupJoins(CatchupOf(byId, ids[..n], previous, next, maxCatchup).0, id, ids[n],
                   EmissionBackfill(byId, ids[n], previous, next, maxCatchup).windows);
    }
  }

  /** All missed windows of the emitted jobs are back-filled or counted as truncated. */
  lemma {:induction false} MissedAddUp(
    byId: map<string, Job>, ids: seq<string>, previous: Cursor, next: Cursor, maxCatchup: nat, missed: string -> nat)
    requires forall i :: 0 <= i < |ids| ==>
      var b := EmissionBackfill(byId, ids[i], previous, next, maxCatchup); missed(ids[i]) == |b.windows| + b.skipped
    ensures var (catchup, truncated) := CatchupOf(byId, ids, previous, next, maxCatchup);
      |catchup| + truncated == TotalOf(missed, ids)
  {
    if ids != [] {
      MissedAddUp(byId, ids[..|ids| - 1], previous, next, maxCatchup, missed);
    }
  }

  function TotalOf(count: string -> nat, ids: seq<string>): nat {
    if ids == [] then 0 else TotalOf(count, ids[..|ids| - 1]) + count(ids[|ids| - 1])
  }

  lemma {:induction false} JobsByIdAt(jobs: seq<Job>, k: nat)
    requires k < |jobs| && forall i, j :: 0 <= i < j < |jobs| ==> jobs[i].id != jobs[j].id
    ensures jobs[k].id in JobsById(jobs) && JobsById(jobs)[jobs[k].id] == jobs[k]
  {
    if k < |jobs| - 1 {
      JobsByIdAt(jobs[..|jobs| - 1], k);
    }
  }

  lemma OneWindowAtATime(cal: Calendar, job: StoreJob, now: int, cursor: Cursor, forced: bool, maxCatchup: nat)
    requires IsParsed(job.schedule)
    ensures var built := BuildJob(cal, job, now, cursor);
      var o := OutcomeOf(cal, built, now, cursor, forced);
      o.Emitted? ==> JobBackfill(built, o.window, Lookup(cursor, job.id), maxCatchup) == Backfill([], 0)
  {
    StoreJobOutcome(cal, job, now, cursor);
    ForcedJobOutcome(cal, job, now, cursor);
    if job.schedule.Interval? && job.id in cursor {
      var I := job.schedule.intervalMs;
      assert RoundMinutes(I) * 60_000 == I && RoundMinutes(I) >= 1;
      DivModUnique(I - 1, 0, I - 1, I);
    }
  }

  lemma {:induction false} EmptyBackfills(
    byId: map<string, Job>, ids: seq<string>, previous: Cursor, next: Cursor, maxCatchup: nat)
    requires forall i :: 0 <= i < |ids| ==> EmissionBackfill(byId, ids[i], previous, next, maxCatchup) == Backfill([], 0)
    ensures CatchupOf(byId, ids, previous, next, maxCatchup) == ([], 0)
  {
    if ids != [] {
      var n := |ids| - 1;
      EmptyBackfills(byId, ids[..n], previous, next, maxCatchup);
      assert EmissionBackfill(byId, ids[n], previous, next, maxCatchup) == Backfill([], 0);
      assert [] + Tagged(ids[n], []) == [];
    }
  }

  /** Since a store job advances one window per tick, a tick of the daemon back-fills nothing, whatever is forced. */
  lemma NothingToBackfill(
    cal: Calendar, storeJobs: seq<StoreJob>, now: int, cursor: Cursor, forced: set<string>, maxCatchup: nat)
    requires DistinctIds(storeJobs) && forall k :: 0 <= k < |storeJobs| ==> IsParsed(storeJobs[k].schedule)
    ensures var jobs := BuildJobs(cal, storeJobs, now, cursor);
      CatchupOf(JobsById(jobs), IdsOf(cal, jobs, now, cursor, forced, true), cursor,
                NextEmitted(cal, jobs, now, cursor, forced), maxCatchup) == ([], 0)
  {
    var jobs := BuildJobs(cal, storeJobs, now, cursor);
    var byId, ids := JobsById(jobs), IdsOf(cal, jobs, now, cursor, forced, true);
    var next := NextEmitted(cal, jobs, now, cursor, forced);
    forall i | 0 <= i < |ids| ensures EmissionBackfill(byId, ids[i], cursor, next, maxCatchup) == Backfill([], 0) {
      if !(exists k :: 0 <= k < |jobs| && jobs[k].id == ids[i]) {
        NextEmittedWithout(cal, jobs, now, cursor, forced, ids[i]);
      }
      var k :| 0 <= k < |jobs| && jobs[k].id == ids[i];
      NextEmittedAt(cal, jobs, now, cursor, forced, k);
      JobsByIdAt(jobs, k);
      OneWindowAtATime(cal, storeJobs[k], now, cursor, ids[i] in forced, maxCatchup);
    }
    EmptyBackfills(byId, ids, cursor, next, maxCatchup);
  }
}
