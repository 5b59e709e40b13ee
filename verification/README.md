# Neonika automation engine: a Dafny model

Neonika's automation engine decides when something runs, how often, and never twice. It is built from
deterministic functions of a clock and of small persisted records: a cursor of last emitted windows, an
append-only commitment log, a replay file, a lock file. This project models that code in Dafny, with integer
milliseconds for times, and proves what it promises over every input, every run of ticks and every interleaving
of steps.

`dafny verify dfyconfig.toml` checks the whole project.

| file | what it models |
|---|---|
| `Calendar`, `MinuteScan`, `CronSchedule`, `CronParsing` | the UTC calendar (section 21.4.1 of ECMA-262), the five-field cron grammar with the day rule of the POSIX.1-2017 `crontab` utility, and the search for the next run |
| `Catchup`, `CronDriver` | store jobs, the due decision, the cron tick and its daemon |
| `HeartbeatActiveHours`, `HeartbeatSchedule`, `HeartbeatCooldown`, `HeartbeatWake`, `HeartbeatDriver` | active hours, phase slots, the flood guard, wake coalescing, the heartbeat tick and its daemon |
| `AuthRateLimit`, `WhatsAppReplayStore` | the two bounded-memory guards, each against an unbounded history |
| `WhatsAppTapLock`, `WhatsAppCanaryTap`, `ScheduledAgentExecution` | a lock file between processes, a reconnect state machine, and a retry loop that persists its records |
| `CommitmentStore`, `CommitmentLifecycle`, `CommitmentStatus`, `CommitmentHintImport`, `CommitmentWakes` | the commitment log, its status machine, what status changes reach, hint import, and commitments waking through the heartbeat |

Code that changes state in place is a class or a method with its loop, proved against a function of the inputs or
of the old state; the results over runs are lemmas about those functions. Where a search or a fold would drag
heavy definitions into every proof, it takes them as function values (`Scan`, `Fold`, `WakeTick`), so that one
lemma covers every instance.

What the proofs brought out about the code:

- `Date.UTC` reads the years 0 to 99 as 1900 to 1999, so a cron jump in such a year leaves the search window and
  the next run can be missed (`CronParsing.TwoDigitYearsMissWrittenRuns`); everywhere else the jumps are exact.
- The comment on wake coalescing says that a delivery override is never lost. A key ends up without one exactly when
  each of its calls that brought one ranks below an earlier call of the key (`HeartbeatWake.OverrideIsExact`).
- Heartbeat deduplication compares with one slot only: a slot is emitted twice exactly when the ticks leave it for
  another slot and come back (`HeartbeatDriver.SlotsRepeatExactly`), as a clock that goes back makes them do. The
  store-built cron driver has no such condition.
- The bound on authentication attempts per window needs a lockout no shorter than the window, and fails for every
  other setting (`AuthRateLimit.ShortLockoutExceeds`).
- The tap lock fails exactly when a takeover removes a live owner's file (`WhatsAppTapLock.SafetyIsExact`,
  `LiveRemovalBreaksTheLock`). That happens when two processes take over the same dead record
  (`TwoTakersBreakTheLock`), and also with a single taker, when the owner releases between the read of its record
  and the look at the process table (`LateJudgeBreaksTheLock`).
- A crash between creating and writing the lock file blocks it for good (`WhatsAppTapLock.CrashBlocksForever`).
- A claim whose file is not written throws, is refused when tried again, and is forgotten by a restart
  (`WhatsAppReplayStore.FailedWriteIsForgotten`).
- Importing a hint again revives its commitment after it was sent, dismissed or expired
  (`CommitmentHintImport.ReimportRevives`).

## Model

| member | source | states |
|---|---|---|
| `Calendar.CivilRoundTrip` | src/automation/cronSchedule.ts:175-183 | Reading a day's UTC year, month and date and writing them back gives the day, for every day number |
| `Calendar.DayRoundTrip` | src/automation/cronSchedule.ts:175-183 | Writing any real civil date and reading it back gives the date |
| `Calendar.WrittenDateIsRead` | src/automation/cronSchedule.ts:175-197 | What `Date.UTC` makes of a real date and hour is read back as just that, except that the years 0 to 99 are read back 1900 years later |
| `Calendar.MonthSpan` | src/automation/cronSchedule.ts:178-181 | All days before the first of the next month lie in the same year and month |
| `Calendar.GregorianIsLawful` | src/automation/cronSchedule.ts:175-197 | `Date.UTC` and the `getUTC*` readers agree on hours, next days and next months outside the years 0 to 99, and inside them a write lands at least 1800 years late |
| `Calendar.WeekDaysFollow` | src/automation/cronSchedule.ts:209 | Day 0 is a Thursday and each day is one later in the week, Sunday following Saturday |
| `CronSchedule.SkipMovesOn` | src/automation/cronSchedule.ts:173-197 | Every jump ends on a whole minute at least one minute later |
| `CronSchedule.SkipPassesNoMatch` | src/automation/cronSchedule.ts:178-197 | A month, day or hour jump passes over no matching minute |
| `CronSchedule.ComputeNextCronMatchMs` | src/automation/cronSchedule.ts:165-205 | The jumping loop returns what a scan of every minute returns (cut off where a jump strays in a two-digit year), in fewer passes than its guard allows; what a match is, told from the words, is `CronParsing.MatchesIsNames` |
| `CronSchedule.ScanIsLeastMatch` | src/automation/cronSchedule.ts:165-222 | The minute scan returns the least matching minute strictly after afterMs within 366 days of the first candidate, and nothing exactly when there is none |
| `CronSchedule.SearchIsExact` | src/automation/cronSchedule.ts:165-205 | Whatever the search returns is the least match, and it misses one exactly when a minute of a two-digit year whose month, day or hour does not match comes before it |
| `CronSchedule.SearchMatchesScan` | src/automation/cronSchedule.ts:165-222 | For every search window that begins in the year 100 or later, or ends before the year 0, the search returns exactly the least match, or nothing exactly when there is none |
| `CronSchedule.TwoDigitYearsMissRuns` | src/automation/cronSchedule.ts:178-197 | From any start in the years 0 to 99 the search misses the next run of a schedule of every hour but one, all days |
| `CronParsing.ParseCronField` | src/automation/cronSchedule.ts:237-292 | A field parses exactly when each comma part is well formed and in range, and then holds exactly the values some part selects |
| `CronParsing.ParseDayOfWeekField` | src/automation/cronSchedule.ts:224-235 | Day 7 is read as day 0, all else as written |
| `CronParsing.ParseNeonCronSchedule` | src/automation/cronSchedule.ts:53-110 | Which texts are manual, interval, cron or invalid, with the interval length, the selected values and the two restriction flags |
| `CronParsing.MatchesIsNames` | src/automation/cronSchedule.ts:173-222 | A minute matches exactly when words 0, 1 and 3 select its minute, hour and month, and its day is selected by word 2 or word 4 where neither is a star, by the one that is no star, and is any day where both are |
| `CronParsing.SearchFindsLeastNamed` | src/automation/cronSchedule.ts:165-222 | Whatever the search returns for the fields of five words is such a minute, after afterMs and within the look-ahead, and no earlier minute after afterMs is one |
| `CronParsing.SearchMissesNoNamed` | src/automation/cronSchedule.ts:165-222 | For windows that avoid the years 0 to 99, nothing is returned only when the words name no minute of the look-ahead |
| `CronParsing.PartSelects` | src/automation/cronSchedule.ts:245-290 | What a star, a number and a range select, each with and without a step; a number with a step runs to the maximum |
| `CronParsing.DueExactly` | src/automation/cronSchedule.ts:134-149 | A schedule is due exactly when its next run after the last one has come; without a last run an interval is due and nothing else |
| `CronParsing.AllHoursButIsWritten` | src/automation/cronSchedule.ts:72-110 | For every hour there are five words, of a number, ranges and stars, that parse to every hour of every day but that one |
| `CronParsing.TwoDigitYearsMissWrittenRuns` | src/automation/cronSchedule.ts:165-205 | So from any start in the years 0 to 99 a schedule that a text gives has a next run that the search misses |
| `Catchup.ComputeCatchupWindows` | src/automation/heartbeatDaemonRuntime.ts:234-264 | The backward walk counts all missed windows, keeps the newest within the bound, oldest first, and reports the rest as skipped |
| `Catchup.BackfillLiesBetween` | src/automation/cronDaemonRuntime.ts:242-281 | Back-filled windows ascend, lie strictly between the last and the current one, and with the skipped ones number all that were missed |
| `Catchup.BackfillIsNewest` | src/automation/heartbeatDaemonRuntime.ts:234-264 | The window k steps back is missed exactly while it lies after the last one, kept exactly when it is among the maxCatchup newest of those, in its place with the oldest first, and skipped otherwise |
| `CronDriver.NextRunIsLater` | src/automation/cronSchedule.ts:117-126 | A next run always lies strictly after its anchor |
| `CronDriver.EvaluateNeonCronTick` | src/automation/cronTimerRuntime.ts:73-140 | The loop over jobs yields every job's intent, the emitted and deduplicated ids in job order, and the cursor with the emitted windows and no other change |
| `CronDriver.BackfillEmitted` | src/automation/cronDaemonRuntime.ts:164-184 | The back-fill of the emitted jobs, in their order, and the total that was dropped |
| `CronDriver.CronDaemon.RunTick` | src/automation/cronDaemonRuntime.ts:119-218 | An armed tick rewrites the cursor and counts itself; a disarmed one changes nothing and emits nothing |
| `CronDriver.StoreJobOutcome` | src/automation/cronStoreSnapshot.ts:74-112 | An unforced store job is emitted exactly when it is enabled and its awaited window has come, and is never deduplicated |
| `CronDriver.NextEmittedAt` | src/automation/cronTimerRuntime.ts:103-124 | With distinct ids, a tick's cursor entry, emission and deduplication of a job depend on that job alone |
| `CronDriver.IntentExactly` | src/automation/neonAutomation.ts:444-501 | A switched-off job is blocked; else an unforced manual job is left alone, and a job that is forced or due is ready with its next run as due time |
| `CronDriver.ForcedJobOutcome` | src/automation/cronTimerRuntime.ts:103-124 | A forced enabled store job is emitted with its awaited window, come or not, or with now when it has none; it is deduplicated exactly when the cursor shows that now |
| `CronDriver.ReportsInJobOrder` | src/automation/cronTimerRuntime.ts:103-124 | Emitted and deduplicated ids are reported in the order of the jobs |
| `CronDriver.TickOnJob` | src/automation/neonAutomation.ts:418-537 | A tick moves a job's cursor exactly to its awaited window when that has come, and otherwise leaves it |
| `CronDriver.WindowsFollow` | src/automation/cronDaemonRuntime.ts:119-193 | Over any run, whatever the clock does, each emitted window is due at its tick and is the next run after the one before it |
| `CronDriver.WindowsIncrease` | src/automation/cronTimerRuntime.ts:103-124 | Emitted windows strictly increase, so none repeats, over any run and any clock |
| `CronDriver.IntervalProgression` | src/automation/cronStoreSnapshot.ts:85-93 | An interval job's windows are w0, w0 + I, w0 + 2I, and so on |
| `CronDriver.CronWindowsAreLeastMatches` | src/automation/neonAutomation.ts:524-537 | An unseeded cron-expression job never fires; a seeded one fires at the least match after each last window |
| `CronDriver.BackfillExactly` | src/automation/cronDaemonRuntime.ts:164-184 | For an emitted interval job that the cursor showed before, the window k steps back is missed exactly while it lies after the last one, kept among the newest up to the bound, in its place, and skipped otherwise; no other job is back-filled |
| `CronDriver.CatchupOfJob` | src/automation/cronDaemonRuntime.ts:164-184 | With distinct emitted ids, a tick's catch-up holds for each just its own back-filled windows |
| `CronDriver.MissedAddUp` | src/automation/cronDaemonRuntime.ts:164-184 | Back-filled and truncated windows of a tick add up to what the emitted jobs missed |
| `CronDriver.NothingToBackfill` | src/automation/cronDaemonRuntime.ts:161-184 | The store-built driver advances one window per tick, so no tick back-fills anything, whatever is forced |
| `HeartbeatSchedule.NormalizeIsEuclidean` | src/automation/heartbeatSchedule.ts:124-127 | The doubled remainder of a sign-following `%` is the Euclidean modulo, for negatives too |
| `HeartbeatSchedule.NextDueIsLeast` | src/automation/heartbeatSchedule.ts:39-53 | The next due time is the least time strictly after now that is congruent to the phase |
| `HeartbeatSchedule.ResolvedDue` | src/automation/heartbeatSchedule.ts:60-85 | The resolved due time is the previous one exactly while that is ahead and of the same interval and phase, and else the least time after now on the phase |
| `HeartbeatSchedule.ResolveIsIdempotent` | src/automation/heartbeatSchedule.ts:55-85 | Resolving again with the resolved due time returns it until it has come |
| `HeartbeatSchedule.SeekNextActivePhaseDueMs` | src/automation/heartbeatSchedule.ts:95-122 | The seek returns the first active candidate, or the start exactly when no candidate is active, and keeps the start's phase |
| `HeartbeatSchedule.SeekFindsActive` | src/automation/heartbeatSchedule.ts:106-116 | For a proper window and an interval from one minute to the window's length, some candidate is active, midnight wrap included |
| `HeartbeatSchedule.SeekEndsActive` | src/automation/heartbeatSchedule.ts:95-122 | For such windows every seek result is active |
| `HeartbeatActiveHours.TimeRoundTrip` | src/automation/heartbeatActiveHours.ts:61-81 | Every minute of the day has an HH:MM text that parses back to it, and 24:00 is the end of the day where it is allowed |
| `HeartbeatActiveHours.OnlyTimesAreRead` | src/automation/heartbeatActiveHours.ts:61-81 | Nothing else parses, except 24:00 as the end of the day where it is allowed |
| `HeartbeatActiveHours.WithoutWindow` | src/automation/heartbeatActiveHours.ts:32-43 | No window and an unreadable one are always active, equal ends never |
| `HeartbeatActiveHours.WindowTurns` | src/automation/heartbeatActiveHours.ts:45-54 | Any other window turns active at its start and inactive at its end and at no other minute, midnight or not; 00:00 to 24:00 is the whole day |
| `HeartbeatActiveHours.ActiveIsOffset` | src/automation/heartbeatActiveHours.ts:28-55 | A proper window, wrapped or not, is active exactly on the stretch of its length from its start, around the clock |
| `HeartbeatCooldown.CheckFloodGuard` | src/automation/heartbeatCooldown.ts:97-119 | The backward count with its early break trips exactly when the newest starts in a row inside the window reach the threshold |
| `HeartbeatCooldown.FloodExactly` | src/automation/heartbeatCooldown.ts:97-119 | The guard trips exactly when there are at least as many starts as the threshold and that many of the newest all lie in the window |
| `HeartbeatCooldown.DeferExactly` | src/automation/heartbeatCooldown.ts:48-80 | Exactly which wakes are deferred for flood, for not being due and for spacing; manual wakes never are, and an event before the first run only for flood |
| `HeartbeatCooldown.TrimmedBufferDecides` | src/automation/heartbeatCooldown.ts:87-119 | Trimming to threshold + 1 and breaking early never changes a decision against the full history of starts |
| `HeartbeatCooldown.FloodBound` | src/automation/heartbeatCooldown.ts:48-119 | In any closed interval of the flood window's length no more non-manual runs start than the threshold, over any run of wakes with a clock that never goes back |
| `HeartbeatWake.KeysSeparateTargets` | src/automation/heartbeatWake.ts:106-112 | Target keys are equal exactly for equal normalised targets, when agent ids hold no colon |
| `HeartbeatWake.PriorityExactly` | src/automation/heartbeatWake.ts:89-104 | Exactly which wakes have the priorities 3, 1 and 0, all others having 2 |
| `HeartbeatWake.TrimCutsBlanks` | src/automation/heartbeatWake.ts:76-80 | Trimming cuts the longest run of white space off either end, and nothing else |
| `HeartbeatWake.CallCarriesRequest` | src/automation/heartbeatWake.ts:133-151 | A call takes over its request as it is, with the trimmed or fallback reason, the priority of that reason, and the key of the trimmed target |
| `HeartbeatWake.WakeQueue.QueuePendingWakeReason` | src/automation/heartbeatWake.ts:121-175 | One call changes its own key only: to the new wake, with a carried override, unless a higher-ranking one is pending |
| `HeartbeatWake.HoldsTheGreatest` | src/automation/heartbeatWake.ts:154-174 | After any calls each key holds a wake of lexicographically greatest priority and time, the latest call winning ties |
| `HeartbeatWake.OrderDoesNotMatter` | src/automation/heartbeatWake.ts:154-174 | That priority and time are the same for every reordering of the calls |
| `HeartbeatWake.OverrideStays` | src/automation/heartbeatWake.ts:159-172 | Once a key's stored wake carries an override, every later one for that key does |
| `HeartbeatWake.OverrideLostWhenOutranked` | src/automation/heartbeatWake.ts:114-120 | One call's override is lost exactly when it ranks below a pending wake without one, against the comment's promise |
| `HeartbeatWake.OverrideIsExact` | src/automation/heartbeatWake.ts:121-175 | After any calls a key's wake has no override exactly when each of its calls that brought one ranked below an earlier call of the key |
| `HeartbeatWake.OverrideIsLatest` | src/automation/heartbeatWake.ts:159-172 | And when it has one, that is the override of the key's latest call that brought one and was not outranked |
| `HeartbeatDriver.EvaluateNeonHeartbeatTick` | src/automation/heartbeatTimerRuntime.ts:120-288 | The two loops yield emissions, deferrals, inactive agents, deduplications and the next cursor of the tick; what these are is `TickReportsAreReal`, `TickReportsAll` and `TickSettles` |
| `HeartbeatDriver.TickAgents` | src/automation/heartbeatTimerRuntime.ts:146-217 | The loop over agents, each decided against the old cursor |
| `HeartbeatDriver.TickWakes` | src/automation/heartbeatTimerRuntime.ts:219-270 | The loop over due commitments of known agents |
| `HeartbeatDriver.TickReportsAreReal` | src/automation/heartbeatTimerRuntime.ts:146-270 | Every emission of a tick is of a listed agent, with interval priority and the last slot of its phase up to now, or of a listed wake, with default priority and its due time; its agent is active and not deferred and the cursor does not show the window; every deferral, inactive agent and deduplication is what it says in the same terms |
| `HeartbeatDriver.TickReportsAll` | src/automation/heartbeatTimerRuntime.ts:146-270 | A tick reports each agent and each wake of a known agent, once |
| `HeartbeatDriver.TickSettles` | src/automation/heartbeatTimerRuntime.ts:207-264 | With distinct agents and wakes the next cursor shows the window of every emission, and emissions keep the order of the input, agents first |
| `HeartbeatDriver.BackfillEmitted` | src/automation/heartbeatDaemonRuntime.ts:147-168 | The back-fill of the emitted agents, in their order, and the total that was dropped |
| `HeartbeatDriver.HeartbeatDaemon.RunTick` | src/automation/heartbeatDaemonRuntime.ts:106-202 | An armed tick emits, back-fills and rewrites the cursor; a disarmed one changes nothing |
| `HeartbeatDriver.AgentTickAt` | src/automation/heartbeatTimerRuntime.ts:153-217 | With distinct agents, a tick's emission and cursor entry for an agent depend on that agent alone |
| `HeartbeatDriver.TickOnAgent` | src/automation/heartbeatTimerRuntime.ts:153-217 | A tick emits an agent only with its reached slot, and only when the cursor shows another one |
| `HeartbeatDriver.SlotsAscend` | src/automation/heartbeatTimerRuntime.ts:159-168 | Later clocks reach the same or later slots of the same phase |
| `HeartbeatDriver.WindowsAreConserved` | src/automation/heartbeatDaemonRuntime.ts:147-175 | Over any run with a clock that never goes back, emitted, back-filled and truncated slots of an agent add up to (last - first) / interval + 1, all on one phase, and none comes out twice |
| `HeartbeatDriver.DaemonTickIsLogged` | src/automation/heartbeatDaemonRuntime.ts:151-168 | The slots that this account is about are those the daemon's tick puts out for the agent: its back-fill, then its emission |
| `HeartbeatDriver.DaemonTruncatedIsLogged` | src/automation/heartbeatDaemonRuntime.ts:151-168 | And the truncated count that the tick reports is the sum of what is logged as truncated for its agents |
| `HeartbeatDriver.TickOffers` | src/automation/heartbeatTimerRuntime.ts:153-217 | A tick whose gates the agent passes emits the reached slot unless the cursor shows it, and leaves the cursor at that slot; any other tick does neither |
| `HeartbeatDriver.EmissionsAreChanges` | src/automation/heartbeatTimerRuntime.ts:196-216 | Over any run and any clock, the emitted slots are the offered ones without immediate repeats, the cursor counting as the first |
| `HeartbeatDriver.SlotsRepeatExactly` | src/automation/heartbeatTimerRuntime.ts:196-216 | Over any run and any clock, a slot is emitted twice exactly when the slots offered by passing ticks leave it for another one and come back to it |
| `HeartbeatDriver.BackwardClockRepeats` | src/automation/heartbeatTimerRuntime.ts:196-199 | A clock that goes back by an interval and comes again does repeat a slot |
| `AuthRateLimit.AuthRateLimiter.Check` | src/gateway/authRateLimit.ts:80-89 | A check answers from the address's entry alone, and always allows exempt addresses |
| `AuthRateLimit.AuthRateLimiter.RecordFailure` | src/gateway/authRateLimit.ts:90-103 | A failure prunes, appends, and locks and empties the entry at the maximum; exempt addresses are not recorded |
| `AuthRateLimit.ExemptExactly` | src/gateway/httpMutationAuth.ts:94-104 | Exempt are exactly a missing or empty address, ::1, 127.0.0.1, and whatever begins with ::ffff:127. |
| `AuthRateLimit.ExemptIsNeverKept` | src/gateway/authRateLimit.ts:89-92 | Nothing is ever kept about an exempt address |
| `AuthRateLimit.RetryAfterIsExact` | src/gateway/authRateLimit.ts:79-88 | A refusal carries the time after which, and not before, the same entry is allowed |
| `AuthRateLimit.FailureLocks` | src/gateway/authRateLimit.ts:93-102 | A failure that fills the window locks the address for exactly the lockout; any other leaves every later decision as it was |
| `AuthRateLimit.AddressesAreIsolated` | src/gateway/authRateLimit.ts:79-109 | What is held for an address depends on the operations on that address alone |
| `AuthRateLimit.LimiterAnswersAsLedger` | src/gateway/authRateLimit.ts:79-109 | The lazily pruned limiter answers every check, remaining wait included, as an unpruned log of failures since the last lock or reset |
| `AuthRateLimit.AttemptsAreBounded` | src/gateway/authRateLimit.ts:79-103 | If failures follow allowing checks and there is no reset, no half-open interval as long as the shorter of window and lockout holds more than maxAttempts failures of an address; with a lockout no shorter than the window that is the window |
| `AuthRateLimit.ShortLockoutExceeds` | src/gateway/authRateLimit.ts:97-100 | With a lockout shorter than the window, maxAttempts + 1 allowed failures fit in a window, for every setting and address |
| `WhatsAppReplayStore.ReplayStore.Claim` | src/channels/whatsappReplayStore.ts:50-65 | A claim prunes, refuses a held key, and otherwise stores the key in memory and file; a write that fails before its end leaves it in memory only and throws; an invalid id changes nothing |
| `WhatsAppReplayStore.CreateNeonWhatsAppReplayStore` | src/channels/whatsappReplayStore.ts:32-48 | Settings out of bounds are rejected; otherwise the pruned file is loaded |
| `WhatsAppReplayStore.AcceptedExactly` | src/channels/whatsappReplayStore.ts:51-63 | The accepted claims of a run are those that were not refused, each with its own key and time |
| `WhatsAppReplayStore.RefusedExactlyWhenTaken` | src/channels/whatsappReplayStore.ts:46-66 | Over any run of claims and restarts, whichever writes fail, with a clock that never goes back: a claim is refused exactly when its key is among the last maxEntries that this process took or loaded, no longer ago than the retention |
| `WhatsAppReplayStore.RefusedExactlyWhenRecent` | src/channels/whatsappReplayStore.ts:46-66 | While the file is always written, that is when the key is among the last maxEntries accepted over all restarts, no longer ago than the retention |
| `WhatsAppReplayStore.FailedWriteIsForgotten` | src/channels/whatsappReplayStore.ts:57-65 | A claim that throws because its file is not written is refused when tried again, until a restart forgets it |
| `WhatsAppReplayStore.StoreStaysBounded` | src/channels/whatsappReplayStore.ts:117-127 | Memory and file keep distinct keys, sorted by time, at most maxEntries of them |
| `WhatsAppTapLock.AcquireNeonWhatsAppTapLock` | src/channels/whatsappTapLock.ts:19-63 | An undisturbed acquire succeeds exactly when there is no record or its process is dead, and then the file holds its record |
| `WhatsAppTapLock.TapLock.Release` | src/channels/whatsappTapLock.ts:50-63 | A release acts once, and removes the file exactly when it holds this lock's record |
| `WhatsAppTapLock.UninterruptedAcquire` | src/channels/whatsappTapLock.ts:35-48 | The protocol steps of one process that nobody interrupts do what the call does |
| `WhatsAppTapLock.FailedWriteFreesThePath` | src/channels/whatsappTapLock.ts:67-73 | A create whose write fails leaves no file and no claim, so that the next undisturbed acquire, of that process or another, has the lock |
| `WhatsAppTapLock.BeatenTakerGivesUp` | src/channels/whatsappTapLock.ts:45-46 | A taker whose file is gone when it removes it, or whose second create meets a new file, gives up and leaves everything as it is |
| `WhatsAppTapLock.LockIsExclusive` | src/channels/whatsappTapLock.ts:35-63 | For any number of processes and every interleaving of creates, writes, reads, removals, releases and crashes, there is never a second live holder, as long as no takeover removes the file of a live owner |
| `WhatsAppTapLock.SafetyIsExact` | src/channels/whatsappTapLock.ts:35-63 | The condition is exact: every prefix of a run keeps each owner's file in place just when no takeover of the run removes the file of a live owner |
| `WhatsAppTapLock.RemovalMakesTwoHolders` | src/channels/whatsappTapLock.ts:42-47 | After such a removal the taker and the owner it robbed both come to hold the lock |
| `WhatsAppTapLock.LiveRemovalBreaksTheLock` | src/channels/whatsappTapLock.ts:35-63 | So every run with such a removal has a prefix from which two processes come to hold the lock |
| `WhatsAppTapLock.OneTakerIsExclusive` | src/channels/whatsappTapLock.ts:35-48 | The lock is exclusive when at most one process at a time is about to remove a dead record, and a record judged dead is still in place when it is judged |
| `WhatsAppTapLock.RemovalBreaksExactly` | src/channels/whatsappTapLock.ts:42-47 | One takeover's removal breaks the invariant exactly when it takes the file of a live owner |
| `WhatsAppTapLock.TwoTakersBreakTheLock` | src/channels/whatsappTapLock.ts:42-47 | Two takers of one dead record can both end up holding the lock |
| `WhatsAppTapLock.LateJudgeBreaksTheLock` | src/channels/whatsappTapLock.ts:41-47 | Even with one taker ever: when the owner releases between the read of its record and the look at the process table, and a third process acquires, the taker ends up holding the lock beside it |
| `WhatsAppTapLock.ReleaseRemovesOwn` | src/channels/whatsappTapLock.ts:52-62 | In every safe state a release finds and removes its own record, and no other process's release does anything |
| `WhatsAppTapLock.CrashLeavesUnwritten` | src/channels/whatsappTapLock.ts:65-77 | A crash between create and write leaves such a file, when no process is judging or about to remove an earlier record |
| `WhatsAppTapLock.UnwrittenBlocksForever` | src/channels/whatsappTapLock.ts:65-96 | A file left unwritten by a process that ended, with no process that has read an earlier record, is never removed again and nobody holds the lock in any later run |
| `WhatsAppTapLock.CrashBlocksForever` | src/channels/whatsappTapLock.ts:65-96 | So after that crash no later run of steps has a holder |
| `WhatsAppCanaryTap.StartNeonWhatsAppCanaryTap` | src/channels/whatsappCanaryTap.ts:174-188 | A start within the reconnect limits whose first socket opens gives a tap; a socket that fails gives none and releases the lock |
| `WhatsAppCanaryTap.CanaryTap.Finalize` | src/channels/whatsappCanaryTap.ts:418-448 | The first call stops the tap, closes its socket and keeps its reason; later calls change nothing |
| `WhatsAppCanaryTap.CanaryTap.ScheduleReconnect` | src/channels/whatsappCanaryTap.ts:262-290 | A reconnect is counted and awaited, or the tap ends as exhausted with ready rejected |
| `WhatsAppCanaryTap.CanaryTap.DisconnectAndReconnect` | src/channels/whatsappCanaryTap.ts:251-260 | Only the current socket of a running tap is dropped and replaced |
| `WhatsAppCanaryTap.CanaryTap.OnDelayElapsed` | src/channels/whatsappCanaryTap.ts:280-290 | After its delay a reconnect opens a socket, or counts an error and schedules again; a stopped tap opens nothing |
| `WhatsAppCanaryTap.TapIsBounded` | src/channels/whatsappCanaryTap.ts:190-308 | After every interleaving of events: at most maxReconnects + 1 opens, never a socket together with a pending reconnect, no live socket besides the current one, ready, lock release and closed each settled at most once; which way ready settles is `ReadyByHistory` |
| `WhatsAppCanaryTap.ReadyByHistory` | src/channels/whatsappCanaryTap.ts:228-272 | Over any run, ready is resolved exactly when a running and still unsettled tap had its current socket open, and rejected exactly when an unsettled one lost its connection with the budget spent or drained its queues |
| `WhatsAppCanaryTap.OpenedNeverTimesOut` | src/channels/whatsappCanaryTap.ts:206-234 | The timeout of a socket whose connection has opened changes nothing, however much later it comes |
| `WhatsAppCanaryTap.LossReconnects` | src/channels/whatsappCanaryTap.ts:251-290 | A lost connection, or a reconnect that fails, within the budget leaves no socket and timer, one reconnect under way and one more counted |
| `WhatsAppCanaryTap.ReconnectWorks` | src/channels/whatsappCanaryTap.ts:280-285 | A reconnect that works leaves one live socket, new, with its timer on |
| `WhatsAppCanaryTap.ErrorStep` | src/channels/whatsappCanaryTap.ts:219-222 | One error is counted for each failed save, failed reconnect and failed lock release, and for nothing else |
| `WhatsAppCanaryTap.RunningTapTries` | src/channels/whatsappCanaryTap.ts:251-290 | A tap that has not stopped has either a socket or one reconnect under way |
| `WhatsAppCanaryTap.StopIsFinal` | src/channels/whatsappCanaryTap.ts:418-448 | After a stop nothing opens, and closed resolves with the reason of that stop only |
| `WhatsAppCanaryTap.StopReason` | src/channels/whatsappCanaryTap.ts:190-290 | Which event stops a running tap, exactly, for each of the three reasons |
| `WhatsAppCanaryTap.StoppedTapCloses` | src/channels/whatsappCanaryTap.ts:430-446 | When the queues drain and the lock release ends, ready is settled, the lock released once and closed resolved with the first reason |
| `WhatsAppCanaryTap.DelaysGrow` | src/channels/whatsappCanaryTap.ts:474-476 | Reconnect delays never shrink and stay between 250 and 5000 milliseconds |
| `WhatsAppCanaryTap.DelaysDouble` | src/channels/whatsappCanaryTap.ts:474-476 | The first delay is 250 milliseconds and each next one is twice as long, up to 5000 |
| `ScheduledAgentExecution.RunAttempts` | src/automation/scheduledAgentExecution.ts:136-192 | Every attempt but the last was a recorded transient failure, the last was none or the last allowed; the store gets each attempt's running and terminal record as far as their writes go; one delay per retry; a record that is not written ends the loop with an exception; what the terminal record is, by the attempt's end, is `RunByEnd` |
| `ScheduledAgentExecution.RunByEnd` | src/automation/scheduledAgentExecution.ts:159-174 | After its markers, the terminal record of an attempt that threw is its running record as failed, without text, completed at that time and with one failure message; that of a returned run is that run |
| `ScheduledAgentExecution.RetriedExactly` | src/automation/scheduledAgentExecution.ts:172-189 | An attempt counts as one to be retried exactly when its record was written and the harness threw a transient error or returned a failed run whose last failure message is transient |
| `ScheduledAgentExecution.RetryDelayDoubles` | src/automation/scheduledAgentExecution.ts:394-396 | The delay before a retry is a second after the first attempt and doubles up to five |
| `ScheduledAgentExecution.DecisionIsTransience` | src/automation/scheduledAgentExecution.ts:172-189 | The two retry decisions together see exactly the transient failures: neither markers nor the loop's own failure message mislead them |
| `ScheduledAgentExecution.WritesAlternate` | src/automation/scheduledAgentExecution.ts:146-185 | Attempt k persists exactly its running record and then its terminal one, in order |
| `ScheduledAgentExecution.TriesAreDetermined` | src/automation/scheduledAgentExecution.ts:141-192 | The harness outcomes determine the number of attempts |
| `ScheduledAgentExecution.ExecuteNeonScheduledAgentRun` | src/automation/scheduledAgentExecution.ts:87-244 | An armed execution with an agent makes 1 to min(3, max) attempts and throws exactly when a record of the last one or of its delivery is not written or the sender throws; else it is executed exactly when the harness returned a completed run, a throw leaves a failed run without text, nothing is sent except a completed run for Discord with a sender that delivers it, and the run begins with attempts - 1 markers and is the last record |
| `CommitmentStore.ProjectLatestCommitmentPerId` | src/commitments/commitmentStore.ts:284-295 | The projecting loop computes the projection the other results are about |
| `CommitmentStore.ProjectionIsLatest` | src/commitments/commitmentStore.ts:284-295 | The projected record of an id is the last one among those of greatest updatedAtMs, and there is one exactly when the id occurs |
| `CommitmentStore.AppendTakesEffect` | src/commitments/commitmentStore.ts:284-295 | An append becomes current exactly when it is not older than the current record, and touches no other id |
| `CommitmentLifecycle.MarkNeonCommitmentsHeartbeatObserved` | src/commitments/commitmentLifecycle.ts:48-127 | Each distinct non-blank id is updated, by one appended record, exactly when its projected record is active, and skipped otherwise; a closed gate appends nothing; the snooze is 15 minutes unless given and at least a millisecond; what the update does is `CommitmentStatus.PassSnoozes` |
| `CommitmentStatus.ListedExactly` | src/commitments/commitmentStore.ts:246-267 | A commitment is in the due list exactly when its current record is pending or snoozed, of the session asked for, with its window open and no snooze running |
| `CommitmentStatus.PassSnoozes` | src/commitments/commitmentLifecycle.ts:80-118 | A lifecycle pass updates exactly the open commitments among the non-blank ids: each is then snoozed until now plus the snooze, with one more attempt and nothing else changed; every other current record stays |
| `CommitmentStatus.PassDefersListing` | src/commitments/commitmentLifecycle.ts:94-104 | An updated commitment is not listed before its snooze is over, and is listed from then on exactly when its window has come |
| `CommitmentStatus.TransitionExactly` | src/commitments/commitmentStore.ts:150-181 | A transition is refused exactly for a closed commitment, for pending, and for a snooze without a time, each with its reason; any other sets status and times and nothing else |
| `CommitmentStatus.ChangeReaches` | src/commitments/commitmentStore.ts:150-181 | A change gives the current record the status asked for, with its time, exactly when the commitment is open and the status is sent, dismissed, expired, or snoozed with a time; any other change leaves it |
| `CommitmentStatus.CreationReaches` | src/commitments/commitmentStore.ts:123-143 | A creation makes the record pending and unattempted, created and updated now, with the confidence brought into 0 to 1 |
| `CommitmentStatus.ClosedIsNeverListed` | src/commitments/commitmentStore.ts:156-181 | A commitment sent, dismissed or expired while open keeps that status and the time of that change, and is in no due list, in every later state of the log until its id is created again |
| `CommitmentStatus.DueInLogOrder` | src/commitments/commitmentStore.ts:246-295 | The due list names each id once, in the order of first appearance in the log |
| `CommitmentLifecycle.LogIsRegister` | src/commitments/commitmentStore.ts:150-181 | With a clock that never goes back, the projected append-only log is one register per id that each event updates in place |
| `CommitmentLifecycle.ClosedUntilCreated` | src/commitments/commitmentStore.ts:156-161 | A sent, dismissed or expired record changes exactly when its id is created anew |
| `CommitmentLifecycle.ClosedIsAbsorbing` | src/commitments/commitmentStore.ts:150-181 | Sent, dismissed and expired are absorbing over whole runs, with a clock that never goes back and the id not created again |
| `CommitmentLifecycle.CommitmentKeepsItsRecord` | src/commitments/commitmentLifecycle.ts:74-118 | An id created once keeps creation time, due window and all else of its first record, and attempts counts its lifecycle snoozes |
| `CommitmentHintImport.FindActiveByDedupeKey` | src/commitments/commitmentStore.ts:231-239 | The search finds the first active record of the key, and one exactly when there is one |
| `CommitmentHintImport.ImportNeonCommitmentHints` | src/commitments/commitmentHintImport.ts:140-207 | Each hint is imported by one append unless its key is active among the known and just imported records, and is skipped then; a closed gate appends nothing |
| `CommitmentHintImport.HintBecomes` | src/commitments/commitmentHintImport.ts:107-133 | A hint's commitment field by field: its names, agent and session, a day's window from its capture or from now, its confidence or 0.5, and the first of title, excerpt and fallback that is not blank |
| `CommitmentHintImport.ImportAccounts` | src/commitments/commitmentHintImport.ts:177-194 | Each hint is imported as its commitment or skipped under its key; no key is imported twice, or while an active record has it |
| `CommitmentHintImport.ImportActivates` | src/commitments/commitmentHintImport.ts:174-194 | After an import into a log with coherent hint names and no newer record, a hint's commitment is active exactly when it was before or its hint was in the list |
| `CommitmentHintImport.ImportIsIdempotent` | src/commitments/commitmentHintImport.ts:134-194 | In a log with coherent hint names and no record newer than the import, importing again any hints of that import, repeated ids included, appends nothing |
| `CommitmentHintImport.RepeatedImportAppendsNothing` | src/commitments/commitmentHintImport.ts:134-194 | After any run of imports and transitions up to now, an import and then another of any of its hints, at whatever later time, appends nothing the second time |
| `CommitmentHintImport.ReimportRevives` | src/commitments/commitmentHintImport.ts:177-190 | In such a log a hint whose commitment was closed is imported afresh; only an active one is left alone |
| `CommitmentHintImport.OneCommitmentPerKey` | src/commitments/commitmentStore.ts:231-239 | A store grown by imports and transitions has at most one projected commitment per dedupe key, whatever the clock does |
| `CommitmentWakes.DueWakesShareWindow` | src/automation/heartbeatDaemonService.ts:337-351 | The wakes of a log name each commitment once, with its agent and opening time |
| `CommitmentWakes.CommitmentWakesOnce` | src/automation/heartbeatTimerRuntime.ts:219-270 | Over any run of heartbeat ticks and log events a commitment wakes at most once, whatever the clock does and however often it is snoozed, as long as its id is created for one agent and one opening time only; and then the cursor holds that time |
| `CommitmentWakes.BeatWakesExactly` | src/automation/heartbeatDaemonService.ts:337-351 | An armed tick wakes a commitment once exactly when its current record is due, its agent listed, within active hours and not deferred, and the cursor does not show its time; otherwise not at all |

## Left out

- File reading and writing, JSON, permissions and environment gates: cursors, logs and files are abstract state, and gates are Boolean parameters. Writes of the replay file and of the run records may fail, those of cursors and of the commitment log do not.
- ISO timestamps: they stand in one-to-one correspondence with integer milliseconds; the limits of `Date` at 8.64e15 milliseconds and non-finite numbers are not modelled.
- Cron texts before tokenising: a token is an integer or is not one, so what `Number` makes of empty, hexadecimal or exponent tokens is outside, and so are the run descriptions.
- The built-in job catalog and its overlay by store jobs in `createNeonCronStoreAutomationSnapshot`: the drivers take the store jobs, with distinct ids.
- Forced cron jobs in the results over runs: `CronDriver.CronDaemon.RunTick` and `ForcedJobOutcome` have them for one tick, the run lemmas are about unforced ticks.
- sha256: an arbitrary function; the replay results are about its fingerprints, and a heartbeat phase is any function of the agent id.
- Agent ids that are listed twice or collide with commitment cursor keys: keys of agents and commitments are kept apart by construction.
- Text lengths and positions count characters, not UTF-16 units.
- `redactText`, channel names derived from hint sources, diagnostics and the `render` reports.
- The pattern of transient error messages in `isTransientMessage`: any predicate that does not hold of the loop's own failure message.
- The harness, memory, senders, Baileys sockets and message handling of the canary tap: arbitrary outcomes and events.
- AuthRateLimit.LimiterAnswersAsLedger: times are not negative, because an entry that was never locked is stored with the lock time 0.
- WhatsAppCanaryTap.Handle: callbacks that close the tap from inside an `onEvent` handler are not modelled, nor a `reconnectDelay` that rejects.
- WhatsAppTapLock.Step: reading the lock file is one step (`lstat` and `readFile` together), and one process runs one acquire at a time.
- WhatsAppReplayStore.ReplayStore.Claim: claims of one store do not overlap.
- Concurrent writers of the commitment log: an append is one step, and the reads of a lifecycle pass or an import see the log as it was when the pass began.
- Smaller parts of the repository (context packs, activity merging, dreams, citations, access lists, doctor checks, roster): they would add only easy members.
