/** The sliding-window limiter of failed authentications (src/gateway/authRateLimit.ts). */
module AuthRateLimit {
  import opened Wrappers

  datatype Config = Config(maxAttempts: int, windowMs: int, lockoutMs: int)

  const DEFAULTS := Config(10, 60_000, 300_000)

  function Positive(value: int, fallback: int): int { if value > 0 then value else fallback }

  /** Settings that are not positive fall back to the defaults. */
  function Resolve(c: Config): (r: Config)
    ensures IsResolved(r)
    ensures r.maxAttempts == (if c.maxAttempts >= 1 then c.maxAttempts else 10)
    ensures r.windowMs == (if c.windowMs >= 1 then c.windowMs else 60_000)
    ensures r.lockoutMs == (if c.lockoutMs >= 1 then c.lockoutMs else 300_000)
  {
    Config(Positive(c.maxAttempts, DEFAULTS.maxAttempts), Positive(c.windowMs, DEFAULTS.windowMs),
           Positive(c.lockoutMs, DEFAULTS.lockoutMs))
  }

  predicate IsResolved(c: Config) { c.maxAttempts > 0 && c.windowMs > 0 && c.lockoutMs > 0 }

  datatype Entry = Entry(attempts: seq<int>, lockedUntil: int)

  type Entries = map<string, Entry>

  datatype Decision = Decision(allowed: bool, retryAfterMs: int)

  predicate IsLoopback(address: string) {
    address == "::1" || address == "127.0.0.1" || "::ffff:127." <= address
  }

  predicate IsExempt(address: Option<string>) {
    address.None? || address.value == "" || IsLoopback(address.value)
  }

  /** Exempt are a missing or empty address, the two loopback addresses, and all mapped addresses of 127.0.0.0/8. */
  lemma ExemptExactly(address: Option<string>)
    ensures IsExempt(address)
            <==> || address in {None, Some(""), Some("::1"), Some("127.0.0.1")}
                 || exists rest :: address == Some("::ffff:127." + rest)
  {
    if address.Some? && "::ffff:127." <= address.value {
      assert address.value == "::ffff:127." + address.value[|"::ffff:127."|..];
    }
  }

  /** The attempts that are still inside the window. */
  function Pruned(attempts: seq<int>, now: int, windowMs: int): seq<int> {
    if attempts == [] then []
    else
      var n := |attempts| - 1;
      var before := Pruned(attempts[..n], now, windowMs);
      if now - attempts[n] < windowMs then before + [attempts[n]] else before
  }

  // ----- one entry -----

  function Find(entries: Entries, address: string): Option<Entry> {
    if address in entries then Some(entries[address]) else None
  }

  function Decide(entry: Option<Entry>, now: int): Decision {
    if entry.Some? && entry.value.lockedUntil > now then Decision(false, entry.value.lockedUntil - now)
    else Decision(true, 0)
  }

  function Failed(c: Config, entry: Option<Entry>, now: int): Entry {
    var e := if entry.Some? then entry.value else Entry([], 0);
    var attempts := Pruned(e.attempts, now, c.windowMs) + [now];
    if |attempts| >= c.maxAttempts then Entry([], now + c.lockoutMs) else Entry(attempts, e.lockedUntil)
  }

  // ----- the limiter -----

  datatype Op = Failure(address: Option<string>, now: int) | Reset(address: Option<string>)

  function Stepped(c: Config, entries: Entries, op: Op): Entries {
    match op
    case Failure(address, now) =>
      if IsExempt(address) then entries
      else entries[address.value := Failed(c, Find(entries, address.value), now)]
    case Reset(address) =>
      if address.None? || address.value == "" then entries else entries - {address.value}
  }

  class AuthRateLimiter {
    const config: Config
    var entries: Entries

    constructor (config: Config)
      ensures this.config == Resolve(config) && entries == map[]
    {
      this.config := Resolve(config);
      entries := map[];
    }

    method Check(remoteAddress: Option<string>, now: int) returns (d: Decision)
      ensures IsExempt(remoteAddress) ==> d == Decision(true, 0)
      ensures !IsExempt(remoteAddress) ==> d == Decide(Find(entries, remoteAddress.value), now)
    {
      if IsExempt(remoteAddress) {
        return Decision(true, 0);
      }
      if remoteAddress.value in entries && entries[remoteAddress.value].lockedUntil > now {
        return Decision(false, entries[remoteAddress.value].lockedUntil - now);
      }
      return Decision(true, 0);
    }

    method RecordFailure(remoteAddress: Option<string>, now: int)
      modifies this
      ensures entries == Stepped(config, old(entries), Failure(remoteAddress, now))
    {
      if IsExempt(remoteAddress) {
        return;
      }
      var entry := if remoteAddress.value in entries then entries[remoteAddress.value] else Entry([], 0);
      entry := entry.(attempts := Pruned(entry.attempts, now, config.windowMs));
      entry := entry.(attempts := entry.attempts + [now]);
      if |entry.attempts| >= config.maxAttempts {
        entry := entry.(lockedUntil := now + config.lockoutMs);
        entry := entry.(attempts := []);
      }
      entries := entries[remoteAddress.value := entry];
    }

    method Reset(remoteAddress: Option<string>)
      modifies this
      ensures entries == Stepped(config, old(entries), Op.Reset(remoteAddress))
    {
      if remoteAddress.Some? && remoteAddress.value != "" {
        entries := entries - {remoteAddress.value};
      }
    }

    method Size() returns (n: nat)
      ensures n == |entries|
    {
      n := |entries|;
    }
  }

  // ----- one address at a time -----

  function Run(c: Config, ops: seq<Op>): Entries {
    if ops == [] then map[] else Stepped(c, Run(c, ops[..|ops| - 1]), ops[|ops| - 1])
  }

  /** The operations on one address. */
  function On(ops: seq<Op>, address: string): seq<Op> {
    if ops == [] then []
    else
      var n := |ops| - 1;
      if ops[n].address == Some(address) then On(ops[..n], address) + [ops[n]] else On(ops[..n], address)
  }

  /** What the limiter holds for an address depends on the operations on that address alone. */
  lemma {:induction false} AddressesAreIsolated(c: Config, ops: seq<Op>, address: string)
    ensures Find(Run(c, ops), address) == Find(Run(c, On(ops, address)), address)
  {
    if ops != [] {
      var n := |ops| - 1;
      var before := On(ops[..n], address);
      AddressesAreIsolated(c, ops[..n], address);
      if ops[n].address == Some(address) {
        assert (before + [ops[n]])[..|before|] == before;
      }
    }
  }

  /** Nothing is ever kept about an exempt address. */
  lemma {:induction false} ExemptIsNeverKept(c: Config, ops: seq<Op>, address: string)
    ensures address in Run(c, ops) ==> !IsExempt(Some(address))
  {
    if ops != [] {
      ExemptIsNeverKept(c, ops[..|ops| - 1], address);
    }
  }

  /** A reset forgets the address, so that the next check allows it. */
  lemma ResetForgets(c: Config, entries: Entries, address: string, now: int)
    requires address != ""
    ensures var after := Stepped(c, entries, Op.Reset(Some(address)));
      after == entries - {address} && Decide(Find(after, address), now) == Decision(true, 0)
  {
  }

  /** A refusal says exactly how long it will last. */
  lemma RetryAfterIsExact(entry: Option<Entry>, now: int, laterMs: int)
    ensures var d := Decide(entry, now);
      && (d.allowed ==> d.retryAfterMs == 0)
      && (!d.allowed ==> d.retryAfterMs > 0 && (Decide(entry, laterMs).allowed <==> now + d.retryAfterMs <= laterMs))
  {
  }

  // ----- the unpruned log -----

  /** Every failure since the last lock or reset, and the last lock since the last reset. */
  datatype Ledger = Ledger(failures: seq<int>, lock: Option<int>)

  /** How many of the times lie in the half-open interval of this length from x. */
  function Count(times: seq<int>, x: int, length: int): nat {
    if times == [] then 0
    else
      var n := |times| - 1;
      Count(times[..n], x, length) + if x <= times[n] < x + length then 1 else 0
  }

  function Logged(c: Config, ledger: Ledger, op: Op): Ledger {
    match op
    case Failure(_, now) =>
      var failures := ledger.failures + [now];
      if Count(failures, now - c.windowMs + 1, c.windowMs) >= c.maxAttempts then Ledger([], Some(now + c.lockoutMs))
      else Ledger(failures, ledger.lock)
    case Reset(_) => Ledger([], None)
  }

  function LedgerOf(c: Config, ops: seq<Op>, address: string): Ledger {
    if ops == [] then Ledger([], None)
    else
      var n := |ops| - 1;
      var before := LedgerOf(c, ops[..n], address);
      if ops[n].address == Some(address) then Logged(c, before, ops[n]) else before
  }

  function DecideByLedger(ledger: Ledger, now: int): Decision {
    if ledger.lock.Some? && ledger.lock.value > now then Decision(false, ledger.lock.value - now) else Decision(true, 0)
  }

  predicate ClockNeverGoesBack(ops: seq<Op>) {
    && (forall i :: 0 <= i < |ops| && ops[i].Failure? ==> 0 <= ops[i].now)
    && (forall i, j :: 0 <= i < j < |ops| && ops[i].Failure? && ops[j].Failure? ==> ops[i].now <= ops[j].now)
  }

  /** No operation is later than this time. */
  predicate UpTo(ops: seq<Op>, now: int) {
    forall i :: 0 <= i < |ops| && ops[i].Failure? ==> ops[i].now <= now
  }

  lemma PruneLast(s: seq<int>, x: int, now: int, w: int)
    ensures Pruned(s + [x], now, w) == if now - x < w then Pruned(s, now, w) + [x] else Pruned(s, now, w)
  {
    assert (s + [x])[..|s|] == s;
  }

  lemma {:induction false} PruneAgain(s: seq<int>, t: int, now: int, w: int)
    requires t <= now
    ensures Pruned(Pruned(s, t, w), now, w) == Pruned(s, now, w)
  {
    if s != [] {
      var n := |s| - 1;
      PruneAgain(s[..n], t, now, w);
      PruneLast(Pruned(s[..n], t, w), s[n], now, w);
    }
  }

  lemma {:induction false} PrunedIsCount(s: seq<int>, now: int, w: int)
    requires forall i :: 0 <= i < |s| ==> s[i] <= now
    ensures |Pruned(s, now, w)| == Count(s, now - w + 1, w)
  {
    if s != [] {
      PrunedIsCount(s[..|s| - 1], now, w);
    }
  }

  /**
   A failure that is the last one allowed in the window locks the address for exactly the lockout; any other leaves
   every later decision as it was.
   */
  lemma FailureLocks(c: Config, entry: Option<Entry>, now: int, laterMs: int)
    requires IsResolved(c) && 0 <= laterMs
    requires entry.Some? ==> forall i :: 0 <= i < |entry.value.attempts| ==> entry.value.attempts[i] <= now
    ensures var attempts := if entry.Some? then entry.value.attempts else [];
      var recent, after := Count(attempts, now - c.windowMs + 1, c.windowMs) + 1, Some(Failed(c, entry, now));
      if recent >= c.maxAttempts then Decide(after, laterMs).allowed <==> now + c.lockoutMs <= laterMs
      else Decide(after, laterMs) == Decide(entry, laterMs)
  {
    PrunedIsCount(if entry.Some? then entry.value.attempts else [], now, c.windowMs);
  }

  /** The entry holds what is left of the ledger at any time from now on. */
  ghost predicate Represents(c: Config, entry: Option<Entry>, ledger: Ledger, now: int) {
    && (entry.None? ==> ledger == Ledger([], None))
    && (entry.Some? ==>
         && entry.value.lockedUntil == (if ledger.lock.Some? then ledger.lock.value else 0)
         && forall t :: now <= t ==>
              Pruned(entry.value.attempts, t, c.windowMs) == Pruned(ledger.failures, t, c.windowMs))
    && forall i :: 0 <= i < |ledger.failures| ==> ledger.failures[i] <= now
  }

  lemma FailureIsRepresented(c: Config, entry: Option<Entry>, ledger: Ledger, before: int, op: Op)
    requires IsResolved(c) && op.Failure? && before <= op.now && Represents(c, entry, ledger, before)
    ensures Represents(c, Some(Failed(c, entry, op.now)), Logged(c, ledger, op), op.now)
  {
    var attempts := if entry.Some? then entry.value.attempts else [];
    var now, w := op.now, c.windowMs;
    var all := ledger.failures + [now];
    assert Pruned(attempts, now, w) == Pruned(ledger.failures, now, w);
    PrunedIsCount(all, now, w);
    assert Pruned(all, now, w) == Pruned(attempts, now, w) + [now];
    PruneLast(ledger.failures, now, now, w);
    forall t | now <= t ensures Pruned(Pruned(attempts, now, w) + [now], t, w) == Pruned(all, t, w) {
      PruneLast(Pruned(attempts, now, w), now, t, w);
      PruneLast(ledger.failures, now, t, w);
      PruneAgain(attempts, now, t, w);
      assert Pruned(attempts, t, w) == Pruned(ledger.failures, t, w);
    }
  }

  lemma {:induction false} EntryRepresentsLedger(c: Config, ops: seq<Op>, address: string, now: int)
    requires IsResolved(c) && !IsExempt(Some(address)) && ClockNeverGoesBack(ops) && UpTo(ops, now)
    ensures Represents(c, Find(Run(c, ops), address), LedgerOf(c, ops, address), now)
  {
    if ops != [] {
      var n := |ops| - 1;
      var op := ops[n];
      if op.address == Some(address) && op.Failure? {
        EntryRepresentsLedger(c, ops[..n], address, op.now);
        FailureIsRepresented(c, Find(Run(c, ops[..n]), address), LedgerOf(c, ops[..n], address), op.now, op);
      } else {
        EntryRepresentsLedger(c, ops[..n], address, now);
      }
    }
  }

  /** The pruned limiter answers every check as the unpruned log of failures does. */
  lemma LimiterAnswersAsLedger(c: Config, ops: seq<Op>, address: string, now: int)
    requires IsResolved(c) && !IsExempt(Some(address)) && ClockNeverGoesBack(ops) && UpTo(ops, now) && 0 <= now
    ensures Decide(Find(Run(c, ops), address), now) == DecideByLedger(LedgerOf(c, ops, address), now)
  {
    EntryRepresentsLedger(c, ops, address, now);
  }

  // ----- the bound on attempts -----

  /** Failure times of an address, all of them. */
  function Failures(ops: seq<Op>, address: string): seq<int> {
    if ops == [] then []
    else
      var n := |ops| - 1;
      if ops[n].address == Some(address) && ops[n].Failure? then Failures(ops[..n], address) + [ops[n].now]
      else Failures(ops[..n], address)
  }

  /** The address is never reset and each of its failures follows a check that allowed it. */
  predicate Guarded(c: Config, ops: seq<Op>, address: string) {
    forall i :: 0 <= i < |ops| && ops[i].address == Some(address) ==>
      ops[i].Failure? && Decide(Find(Run(c, ops[..i]), address), ops[i].now).allowed
  }

  lemma {:induction false} CountSplits(s: seq<int>, t: seq<int>, x: int, length: int)
    ensures Count(s + t, x, length) == Count(s, x, length) + Count(t, x, length)
  {
    if t == [] {
      assert s + t == s;
    } else {
      var n := |t| - 1;
      assert (s + t)[..|s| + n] == s + t[..n];
      CountSplits(s, t[..n], x, length);
    }
  }

  lemma {:induction false} NoneCounted(s: seq<int>, x: int, length: int)
    requires forall i :: 0 <= i < |s| ==> s[i] < x
    ensures Count(s, x, length) == 0
  {
    if s != [] {
      NoneCounted(s[..|s| - 1], x, length);
    }
  }

  lemma {:induction false} CountWidens(s: seq<int>, x: int, length: int, y: int, longer: int)
    requires y <= x && forall i :: 0 <= i < |s| ==> s[i] < y + longer
    ensures Count(s, x, length) <= Count(s, y, longer)
  {
    if s != [] {
      CountWidens(s[..|s| - 1], x, length, y, longer);
    }
  }

  /**
   All failures are old ones, a lockout before the lock ends, and then those of the ledger. Those of the
   ledger stay below the maximum in every interval, all of them together within it.
   */
  predicate Shape(c: Config, ledger: Ledger, settled: seq<int>) {
    && (ledger.lock.None? ==> settled == [])
    && (ledger.lock.Some? ==> forall i :: 0 <= i < |settled| ==> settled[i] <= ledger.lock.value - c.lockoutMs)
  }

  ghost predicate Bounded(c: Config, ledger: Ledger, settled: seq<int>, length: int) {
    forall x :: Count(ledger.failures, x, length) < c.maxAttempts
                && Count(settled + ledger.failures, x, length) <= c.maxAttempts
  }

  /** One interval, when a failure comes at now. */
  lemma IntervalHolds(c: Config, failures: seq<int>, settled: seq<int>, now: int, x: int, length: int)
    requires length <= c.windowMs
    requires forall i :: 0 <= i < |failures| ==> failures[i] <= now
    requires forall i :: 0 <= i < |settled| ==> settled[i] + length <= now
    requires Count(failures, x, length) < c.maxAttempts && Count(settled + failures, x, length) <= c.maxAttempts
    ensures Count(settled + (failures + [now]), x, length) <= c.maxAttempts
    ensures Count(failures + [now], now - c.windowMs + 1, c.windowMs) < c.maxAttempts ==>
              Count(failures + [now], x, length) < c.maxAttempts
  {
    CountSplits(failures, [now], x, length);
    CountSplits(settled, failures + [now], x, length);
    CountSplits(settled, failures, x, length);
    if x <= now < x + length {
      NoneCounted(settled, x, length);
      CountSplits(failures, [now], now - c.windowMs + 1, c.windowMs);
      CountWidens(failures, x, length, now - c.windowMs + 1, c.windowMs);
    }
  }

  /** Every interval, when a failure comes at now. */
  lemma IntervalsHold(c: Config, ledger: Ledger, settled: seq<int>, now: int, length: int)
    requires length <= c.windowMs && Bounded(c, ledger, settled, length)
    requires forall i :: 0 <= i < |ledger.failures| ==> ledger.failures[i] <= now
    requires forall i :: 0 <= i < |settled| ==> settled[i] + length <= now
    ensures var failures := ledger.failures + [now];
      && (forall x :: Count(settled + failures, x, length) <= c.maxAttempts)
      && (Count(failures, now - c.windowMs + 1, c.windowMs) < c.maxAttempts ==>
            forall x :: Count(failures, x, length) < c.maxAttempts)
  {
    var failures := ledger.failures + [now];
    forall x
      ensures Count(settled + failures, x, length) <= c.maxAttempts
      ensures Count(failures, now - c.windowMs + 1, c.windowMs) < c.maxAttempts
              ==> Count(failures, x, length) < c.maxAttempts
    {
      assert Count(ledger.failures, x, length) < c.maxAttempts;
      IntervalHolds(c, ledger.failures, settled, now, x, length);
    }
  }

  lemma FailureKeepsBound(c: Config, ledger: Ledger, settled: seq<int>, op: Op, length: int) returns (older: seq<int>)
    requires IsResolved(c) && op.Failure? && length <= c.windowMs && length <= c.lockoutMs
    requires Shape(c, ledger, settled) && Bounded(c, ledger, settled, length)
    requires forall i :: 0 <= i < |ledger.failures| ==> ledger.failures[i] <= op.now
    requires ledger.lock.Some? ==> ledger.lock.value <= op.now
    ensures var next := Logged(c, ledger, op);
      && Shape(c, next, older) && Bounded(c, next, older, length)
      && older + next.failures == settled + ledger.failures + [op.now]
  {
    var failures := ledger.failures + [op.now];
    assert settled + failures == settled + ledger.failures + [op.now];
    IntervalsHold(c, ledger, settled, op.now, length);
    if Logged(c, ledger, op).failures == [] {
      older := settled + failures;
      assert older + [] == older;
    } else {
      older := settled;
    }
  }

  lemma {:induction false} GuardedRunIsBounded(
    c: Config, ops: seq<Op>, address: string, length: int) returns (settled: seq<int>)
    requires IsResolved(c) && !IsExempt(Some(address)) && ClockNeverGoesBack(ops) && Guarded(c, ops, address)
    requires length <= c.windowMs && length <= c.lockoutMs
    ensures var ledger := LedgerOf(c, ops, address);
      && Shape(c, ledger, settled) && Bounded(c, ledger, settled, length)
      && settled + ledger.failures == Failures(ops, address)
  {
    settled := [];
    if ops != [] {
      var n := |ops| - 1;
      var op := ops[n];
      forall i | 0 <= i < n ensures ops[..n][..i] == ops[..i] {
      }
      settled := GuardedRunIsBounded(c, ops[..n], address, length);
      if op.address == Some(address) {
        EntryRepresentsLedger(c, ops[..n], address, op.now);
        LimiterAnswersAsLedger(c, ops[..n], address, op.now);
        settled := FailureKeepsBound(c, LedgerOf(c, ops[..n], address), settled, op, length);
      }
    }
  }

  /**
   No half-open interval of the window's length holds more than maxAttempts failures of an address, as long
   as the lockout is not shorter; otherwise no interval of the lockout's length does.
   */
  lemma AttemptsAreBounded(c: Config, ops: seq<Op>, address: string, x: int, length: int)
    requires IsResolved(c) && !IsExempt(Some(address)) && ClockNeverGoesBack(ops) && Guarded(c, ops, address)
    requires length <= c.windowMs && length <= c.lockoutMs
    ensures Count(Failures(ops, address), x, length) <= c.maxAttempts
  {
    var settled := GuardedRunIsBounded(c, ops, address, length);
  }

  // ----- a lockout shorter than the window -----

  function Burst(address: string, n: nat): seq<Op> {
    if n == 0 then [] else Burst(address, n - 1) + [Failure(Some(address), 0)]
  }

  function Zeros(n: nat): (r: seq<int>)
    ensures |r| == n
  {
    if n == 0 then [] else Zeros(n - 1) + [0]
  }

  lemma {:induction false} ZerosCount(n: nat, x: int, length: int)
    requires x <= 0 < x + length
    ensures Count(Zeros(n), x, length) == n
  {
    if n > 0 {
      ZerosCount(n - 1, x, length);
      assert Zeros(n)[..n - 1] == Zeros(n - 1);
    }
  }

  /** One more failure, allowed by the ledger. */
  lemma FailureFollows(c: Config, before: seq<Op>, address: string, now: int)
    requires IsResolved(c) && !IsExempt(Some(address)) && 0 <= now
    requires ClockNeverGoesBack(before) && UpTo(before, now) && Guarded(c, before, address)
    requires DecideByLedger(LedgerOf(c, before, address), now).allowed
    ensures var op := Failure(Some(address), now);
      var ops := before + [op];
      && ClockNeverGoesBack(ops) && Guarded(c, ops, address)
      && LedgerOf(c, ops, address) == Logged(c, LedgerOf(c, before, address), op)
      && Failures(ops, address) == Failures(before, address) + [now]
  {
    var op := Failure(Some(address), now);
    LimiterAnswersAsLedger(c, before, address, now);
    GuardedFollows(c, before, address, op);
    assert (before + [op])[..|before|] == before;
  }

  lemma GuardedFollows(c: Config, before: seq<Op>, address: string, op: Op)
    requires Guarded(c, before, address) && op.Failure? && Decide(Find(Run(c, before), address), op.now).allowed
    ensures Guarded(c, before + [op], address)
  {
    var ops := before + [op];
    forall i | 0 <= i < |ops| && ops[i].address == Some(address)
      ensures ops[i].Failure? && Decide(Find(Run(c, ops[..i]), address), ops[i].now).allowed
    {
      assert ops[..i] == before[..i];
      if i == |before| {
        assert before[..i] == before;
      } else {
        assert ops[i] == before[i];
      }
    }
  }

  lemma BurstIsUniform(address: string, n: nat)
    ensures var ops := Burst(address, n);
      && |ops| == n && ClockNeverGoesBack(ops) && UpTo(ops, 0)
      && forall i :: 0 <= i < n ==> ops[i] == Failure(Some(address), 0)
  {
  }

  /** What the ledger becomes when the last of n failures at time 0 comes. */
  lemma ZerosLogged(c: Config, n: nat, op: Op)
    requires IsResolved(c) && 0 < n <= c.maxAttempts && op.Failure? && op.now == 0
    ensures Logged(c, Ledger(Zeros(n - 1), None), op)
            == if n < c.maxAttempts then Ledger(Zeros(n), None) else Ledger([], Some(c.lockoutMs))
  {
    ZerosCount(n, 1 - c.windowMs, c.windowMs);
  }

  /** The state after a burst of failures at time 0. */
  lemma {:induction false} BurstLocks(c: Config, address: string, n: nat)
    requires IsResolved(c) && !IsExempt(Some(address)) && n <= c.maxAttempts
    ensures var ops := Burst(address, n);
      && Guarded(c, ops, address) && Failures(ops, address) == Zeros(n)
      && LedgerOf(c, ops, address) == if n < c.maxAttempts then Ledger(Zeros(n), None) else Ledger([], Some(c.lockoutMs))
  {
    if n > 0 {
      BurstLocks(c, address, n - 1);
      BurstIsUniform(address, n - 1);
      FailureFollows(c, Burst(address, n - 1), address, 0);
      ZerosLogged(c, n, Failure(Some(address), 0));
    }
  }

  /** With a lockout shorter than the window the bound fails, whatever the other settings are. */
  lemma ShortLockoutExceeds(c: Config, address: string) returns (ops: seq<Op>)
    requires IsResolved(c) && !IsExempt(Some(address)) && c.lockoutMs < c.windowMs
    ensures ClockNeverGoesBack(ops) && Guarded(c, ops, address)
    ensures Count(Failures(ops, address), 0, c.windowMs) == c.maxAttempts + 1
  {
    var burst := Burst(address, c.maxAttempts);
    ops := burst + [Failure(Some(address), c.lockoutMs)];
    BurstLocks(c, address, c.maxAttempts);
    BurstIsUniform(address, c.maxAttempts);
    FailureFollows(c, burst, address, c.lockoutMs);
    ZerosCount(c.maxAttempts, 0, c.windowMs);
    CountSplits(Zeros(c.maxAttempts), [c.lockoutMs], 0, c.windowMs);
    assert Count([c.lockoutMs], 0, c.windowMs) == 1;
  }
}
