/** Wake priorities and the coalescing of pending wakes (src/automation/heartbeatWake.ts). */
module HeartbeatWake {
  import opened Wrappers

  datatype Intent = Scheduled | Event | Immediate | Manual

  datatype Source =
    | IntervalSource | ManualSource | ExecEvent | NotificationsEvent | CommitmentSource | CronSource | Hook
    | BackgroundTask | AcpSpawn | CliWatchdog | RestartSentinel | Retry | Other

  const ACTION := 3
  const DEFAULT := 2
  const INTERVAL := 1
  const RETRY := 0

  function ResolvePriority(source: Source, intent: Intent, reason: string): (r: int)
    ensures 0 <= r <= 3
  {
    if intent.Manual? || intent.Immediate? then ACTION
    else if source.Retry? || reason == "retry" then RETRY
    else if intent.Scheduled? || source.IntervalSource? || reason == "interval" then INTERVAL
    else DEFAULT
  }

  /** Operator action outranks all, a retry is outranked by all, and what is due by schedule comes between. */
  lemma PriorityExactly(source: Source, intent: Intent, reason: string)
    ensures var r := ResolvePriority(source, intent, reason);
      && (r == 3 <==> intent in {Manual, Immediate})
      && (r == 0 <==> intent in {Scheduled, Event} && (source == Retry || reason == "retry"))
      && (r == 1 <==>
            && (intent == Scheduled || (intent == Event && (source == IntervalSource || reason == "interval")))
            && source != Retry && reason != "retry")
  {
  }

  // ----- reasons and target keys -----

  /** The white space and line ends of ECMAScript. */
  predicate IsBlank(c: char) {
    || '\U{0009}' <= c <= '\U{000D}' || c == ' ' || c == '\U{00A0}' || c == '\U{1680}'
    || '\U{2000}' <= c <= '\U{200A}' || c == '\U{2028}' || c == '\U{2029}' || c == '\U{202F}' || c == '\U{205F}'
    || c == '\U{3000}' || c == '\U{FEFF}'
  }

  /** One by one. */
  lemma BlanksListed(c: char)
    ensures IsBlank(c) <==>
      c in "\t\n\U{000B}\U{000C}\r \U{00A0}\U{1680}\U{2028}\U{2029}\U{202F}\U{205F}\U{3000}\U{FEFF}"
           + "\U{2000}\U{2001}\U{2002}\U{2003}\U{2004}\U{2005}\U{2006}\U{2007}\U{2008}\U{2009}\U{200A}"
  {
  }

  predicate AllBlank(s: string) { forall i :: 0 <= i < |s| ==> IsBlank(s[i]) }

  function TrimStart(s: string): string {
    if s != "" && IsBlank(s[0]) then TrimStart(s[1..]) else s
  }

  function TrimEnd(s: string): string {
    if s != "" && IsBlank(s[|s| - 1]) then TrimEnd(s[..|s| - 1]) else s
  }

  function Trim(s: string): string { TrimEnd(TrimStart(s)) }

  lemma {:induction false} TrimStartCuts(s: string) returns (l: nat)
    ensures l <= |s| && TrimStart(s) == s[l..] && AllBlank(s[..l]) && (l < |s| ==> !IsBlank(s[l]))
  {
    l := 0;
    if s != "" && IsBlank(s[0]) {
      var k := TrimStartCuts(s[1..]);
      l := k + 1;
      assert s[1..][k..] == s[l..];
      assert s[..l] == [s[0]] + s[1..][..k];
    }
  }

  lemma {:induction false} TrimEndCuts(s: string) returns (r: nat)
    ensures r <= |s| && TrimEnd(s) == s[..r] && AllBlank(s[r..]) && (r > 0 ==> !IsBlank(s[r - 1]))
  {
    r := |s|;
    if s != "" && IsBlank(s[|s| - 1]) {
      var n := |s| - 1;
      r := TrimEndCuts(s[..n]);
      assert s[..n][..r] == s[..r];
      assert s[r..] == s[..n][r..] + [s[n]];
    }
  }

  /** Trimming cuts off the blanks at both ends, and nothing else. */
  lemma TrimCutsBlanks(s: string) returns (l: nat, r: nat)
    ensures l <= r <= |s| && Trim(s) == s[l..r] && AllBlank(s[..l]) && AllBlank(s[r..])
    ensures l < r ==> !IsBlank(s[l]) && !IsBlank(s[r - 1])
  {
    l := TrimStartCuts(s);
    var k := TrimEndCuts(s[l..]);
    r := l + k;
    assert s[l..][..k] == s[l..r] && s[l..][k..] == s[r..];
  }

  /** Texts of blanks alone are trimmed to nothing. */
  lemma BlankIsTrimmedAway(s: string)
    ensures Trim(s) == "" <==> AllBlank(s)
  {
    var l, r := TrimCutsBlanks(s);
    if l == r {
      assert s == s[..l] + s[r..];
    }
  }

  /** A missing or blank text collapses to the fallback. */
  function TrimmedOr(text: Option<string>, fallback: string): string {
    if text.Some? && Trim(text.value) != "" then Trim(text.value) else fallback
  }

  function NormalizeReason(reason: Option<string>): string { TrimmedOr(reason, "requested") }

  function TargetKey(agentId: Option<string>, sessionKey: Option<string>): string {
    TrimmedOr(agentId, "") + "::" + TrimmedOr(sessionKey, "")
  }

  lemma {:induction false} ColonSplits(a: string, b: string, s: string, t: string)
    requires ':' !in a && ':' !in b && a + "::" + s == b + "::" + t
    ensures a == b && s == t
  {
    var l, r := a + "::" + s, b + "::" + t;
    assert forall i :: 0 <= i < |a| ==> l[i] == a[i] && l[i] != ':';
    assert forall i :: 0 <= i < |b| ==> r[i] == b[i] && r[i] != ':';
    assert l[|a|] == ':' && r[|b|] == ':';
    assert |a| == |b|;
    assert a == l[..|a|] && b == r[..|b|];
    assert s == l[|a| + 2..] && t == r[|b| + 2..];
  }

  /** Colon-free agent ids keep targets apart. */
  lemma KeysSeparateTargets(a: Option<string>, s: Option<string>, b: Option<string>, t: Option<string>)
    requires ':' !in TrimmedOr(a, "") && ':' !in TrimmedOr(b, "")
    ensures TargetKey(a, s) == TargetKey(b, t)
            <==> TrimmedOr(a, "") == TrimmedOr(b, "") && TrimmedOr(s, "") == TrimmedOr(t, "")
  {
    if TargetKey(a, s) == TargetKey(b, t) {
      ColonSplits(TrimmedOr(a, ""), TrimmedOr(b, ""), TrimmedOr(s, ""), TrimmedOr(t, ""));
    }
  }

  // ----- the pending-wake map -----

  datatype Override = Override(target: Option<string>, to: Option<string>, accountId: Option<string>)

  datatype Request = Request(
    source: Source,
    intent: Intent,
    reason: Option<string>,
    requestedAt: int,
    agentId: Option<string>,
    sessionKey: Option<string>,
    heartbeat: Option<Override>)

  datatype PendingWake = PendingWake(
    source: Source,
    intent: Intent,
    reason: string,
    priority: int,
    requestedAt: int,
    agentId: Option<string>,
    sessionKey: Option<string>,
    heartbeat: Option<Override>)

  type Pending = map<string, PendingWake>

  /** A queue call by its target key and the wake it asks for. */
  datatype Call = Call(key: string, wake: PendingWake)

  function CallOf(r: Request): Call {
    var reason := NormalizeReason(r.reason);
    Call(TargetKey(r.agentId, r.sessionKey),
         PendingWake(r.source, r.intent, reason, ResolvePriority(r.source, r.intent, reason), r.requestedAt,
                     r.agentId, r.sessionKey, r.heartbeat))
  }

  /** A call carries its request over as it is, with a reason and the priority of that reason. */
  lemma CallCarriesRequest(r: Request)
    ensures var c := CallOf(r);
      && c.wake == PendingWake(r.source, r.intent, c.wake.reason, c.wake.priority, r.requestedAt, r.agentId, r.sessionKey,
                               r.heartbeat)
      && c.wake.reason == (if r.reason.None? || AllBlank(r.reason.value) then "requested" else Trim(r.reason.value))
      && c.wake.priority == ResolvePriority(r.source, r.intent, c.wake.reason)
      && c.key == (if r.agentId.Some? then Trim(r.agentId.value) else "") + "::"
                  + if r.sessionKey.Some? then Trim(r.sessionKey.value) else ""
  {
    if r.reason.Some? {
      BlankIsTrimmedAway(r.reason.value);
    }
  }

  /** Lexicographic order on (priority, requestedAt). */
  predicate AtLeast(a: PendingWake, b: PendingWake) {
    a.priority > b.priority || (a.priority == b.priority && a.requestedAt >= b.requestedAt)
  }

  /** The newer wake with the override of either, its own first. */
  function Merged(next: PendingWake, previous: PendingWake): PendingWake {
    if next.heartbeat.Some? then next else next.(heartbeat := previous.heartbeat)
  }

  function Queued(pending: Pending, c: Call): Pending {
    if c.key !in pending then pending[c.key := c.wake]
    else if AtLeast(c.wake, pending[c.key]) then pending[c.key := Merged(c.wake, pending[c.key])]
    else pending
  }

  /** The caller's map, updated in place. */
  class WakeQueue {
    var pending: Pending

    constructor ()
      ensures pending == map[]
    {
      pending := map[];
    }

    method QueuePendingWakeReason(r: Request)
      modifies this
      ensures pending == Queued(old(pending), CallOf(r))
    {
      var reason := NormalizeReason(r.reason);
      var next := PendingWake(r.source, r.intent, reason, ResolvePriority(r.source, r.intent, reason),
                              r.requestedAt, r.agentId, r.sessionKey, r.heartbeat);
      var key := TargetKey(r.agentId, r.sessionKey);
      if key !in pending {
        pending := pending[key := next];
        return;
      }
      var previous := pending[key];
      var carriedOverride := if next.heartbeat.Some? then next.heartbeat else previous.heartbeat;
      var merged := if carriedOverride.Some? then next.(heartbeat := carriedOverride) else next;
      if next.priority > previous.priority {
        pending := pending[key := merged];
      } else if next.priority == previous.priority && next.requestedAt >= previous.requestedAt {
        pending := pending[key := merged];
      }
    }
  }

  // ----- any sequence of calls -----

  function QueueAll(cs: seq<Call>): Pending {
    if cs == [] then map[] else Queued(QueueAll(cs[..|cs| - 1]), cs[|cs| - 1])
  }

  /** Call i has the greatest (priority, requestedAt) of its key, the latest call winning ties. */
  predicate Wins(cs: seq<Call>, key: string, i: int) {
    && 0 <= i < |cs| && cs[i].key == key
    && forall j :: 0 <= j < |cs| && cs[j].key == key ==>
         && cs[j].wake.priority <= cs[i].wake.priority
         && (cs[j].wake.priority == cs[i].wake.priority ==>
               if i < j then cs[j].wake.requestedAt < cs[i].wake.requestedAt
               else cs[j].wake.requestedAt <= cs[i].wake.requestedAt)
  }

  predicate SameButOverride(a: PendingWake, b: PendingWake) {
    a == b.(heartbeat := a.heartbeat)
  }

  /** Each key that was called holds the wake of its winning call i, up to the carried override. */
  lemma {:induction false} HoldsTheGreatest(cs: seq<Call>, key: string) returns (i: int)
    ensures key in QueueAll(cs) <==> exists j :: 0 <= j < |cs| && cs[j].key == key
    ensures key in QueueAll(cs) ==> Wins(cs, key, i) && SameButOverride(QueueAll(cs)[key], cs[i].wake)
  {
    i := 0;
    if cs != [] {
      var n := |cs| - 1;
      var before, last := cs[..n], cs[n];
      i := HoldsTheGreatest(before, key);
      if last.key == key && (key !in QueueAll(before) || AtLeast(last.wake, QueueAll(before)[key])) {
        i := n;
      }
    }
  }

  /** The order of the calls does not change which (priority, requestedAt) a key ends with. */
  lemma OrderDoesNotMatter(cs: seq<Call>, ds: seq<Call>, key: string)
    requires multiset(cs) == multiset(ds)
    ensures key in QueueAll(cs) <==> key in QueueAll(ds)
    ensures key in QueueAll(cs) ==>
              && QueueAll(cs)[key].priority == QueueAll(ds)[key].priority
              && QueueAll(cs)[key].requestedAt == QueueAll(ds)[key].requestedAt
  {
    var i := HoldsTheGreatest(cs, key);
    var j := HoldsTheGreatest(ds, key);
    forall c ensures c in cs <==> c in ds {
      assert c in cs <==> c in multiset(cs);
      assert c in ds <==> c in multiset(ds);
    }
    if key in QueueAll(cs) {
      assert cs[i] in ds;
    }
    if key in QueueAll(ds) {
      assert ds[j] in cs;
    }
  }

  /** Once a key's stored wake has an override, every later stored wake for that key has one. */
  lemma {:induction false} OverrideStays(cs: seq<Call>, n: nat, key: string)
    requires n <= |cs| && key in QueueAll(cs[..n]) && QueueAll(cs[..n])[key].heartbeat.Some?
    ensures key in QueueAll(cs) && QueueAll(cs)[key].heartbeat.Some?
  {
    if n == |cs| {
      assert cs[..n] == cs;
    } else {
      var m := |cs| - 1;
      assert cs[..m][..n] == cs[..n];
      OverrideStays(cs[..m], n, key);
    }
  }

  /**
   The comment in the source says that an override is never lost. It is lost exactly when the
   call that brings it ranks below a pending wake that has none.
   */
  lemma OverrideLostWhenOutranked(pending: Pending, c: Call)
    requires c.wake.heartbeat.Some?
    ensures c.key in Queued(pending, c)
    ensures Queued(pending, c)[c.key].heartbeat.None?
            <==> c.key in pending && pending[c.key].heartbeat.None? && !AtLeast(c.wake, pending[c.key])
  {
  }

  /** Call i ranks below an earlier call of its key. */
  ghost predicate Outranked(cs: seq<Call>, i: int)
    requires 0 <= i < |cs|
  {
    exists j :: 0 <= j < i && cs[j].key == cs[i].key && !AtLeast(cs[i].wake, cs[j].wake)
  }

  /** Every call of the key that brings an override is outranked by an earlier one. */
  ghost predicate OverridesOutranked(cs: seq<Call>, key: string) {
    forall i :: 0 <= i < |cs| && cs[i].key == key && cs[i].wake.heartbeat.Some? ==> Outranked(cs, i)
  }

  lemma OutrankedInPrefix(cs: seq<Call>, n: nat, i: nat)
    requires i < n <= |cs|
    ensures Outranked(cs[..n], i) <==> Outranked(cs, i)
  {
    assert forall j :: 0 <= j <= i ==> cs[..n][j] == cs[j];
  }

  lemma OverridesOutrankedNext(cs: seq<Call>, key: string)
    requires cs != []
    ensures var n := |cs| - 1;
      OverridesOutranked(cs, key)
      <==> OverridesOutranked(cs[..n], key) && (cs[n].key == key && cs[n].wake.heartbeat.Some? ==> Outranked(cs, n))
  {
    var n := |cs| - 1;
    forall i | 0 <= i < n ensures cs[..n][i] == cs[i] && (Outranked(cs[..n], i) <==> Outranked(cs, i)) {
      OutrankedInPrefix(cs, n, i);
    }
  }

  /** The last call is outranked just when it ranks below the pending wake of its key. */
  lemma OutrankedByPending(cs: seq<Call>)
    requires cs != []
    ensures var n := |cs| - 1;
      var pending := QueueAll(cs[..n]);
      Outranked(cs, n) <==> cs[n].key in pending && !AtLeast(cs[n].wake, pending[cs[n].key])
  {
    var n := |cs| - 1;
    var i := HoldsTheGreatest(cs[..n], cs[n].key);
    if cs[n].key in QueueAll(cs[..n]) {
      assert cs[..n][i] == cs[i];
    }
    if Outranked(cs, n) {
      var j :| 0 <= j < n && cs[j].key == cs[n].key && !AtLeast(cs[n].wake, cs[j].wake);
      assert cs[..n][j] == cs[j];
    }
  }

  /** After any calls, a key's wake is without an override exactly when each call that brought one was outranked. */
  lemma {:induction false} OverrideIsExact(cs: seq<Call>, key: string)
    requires key in QueueAll(cs)
    ensures QueueAll(cs)[key].heartbeat.None? <==> OverridesOutranked(cs, key)
  {
    var n := |cs| - 1;
    OverridesOutrankedNext(cs, key);
    OutrankedByPending(cs);
    if key in QueueAll(cs[..n]) {
      OverrideIsExact(cs[..n], key);
    } else {
      var i := HoldsTheGreatest(cs[..n], key);
      assert OverridesOutranked(cs[..n], key);
    }
  }

  /** Call i brings the key's latest override that is not outranked. */
  ghost predicate BringsLast(cs: seq<Call>, key: string, i: int) {
    && 0 <= i < |cs| && cs[i].key == key && cs[i].wake.heartbeat.Some? && !Outranked(cs, i)
    && forall j :: i < j < |cs| && cs[j].key == key && cs[j].wake.heartbeat.Some? ==> Outranked(cs, j)
  }

  lemma BringsLastNext(cs: seq<Call>, key: string, i: nat)
    requires cs != [] && BringsLast(cs[..|cs| - 1], key, i)
    requires var n := |cs| - 1; cs[n].key == key && cs[n].wake.heartbeat.Some? ==> Outranked(cs, n)
    ensures BringsLast(cs, key, i)
  {
    var n := |cs| - 1;
    forall j | 0 <= j < n ensures cs[..n][j] == cs[j] && (Outranked(cs[..n], j) <==> Outranked(cs, j)) {
      OutrankedInPrefix(cs, n, j);
    }
  }

  /** After any calls, the override of a key's wake is the latest that was brought and not outranked. */
  lemma {:induction false} OverrideIsLatest(cs: seq<Call>, key: string) returns (i: int)
    requires key in QueueAll(cs) && QueueAll(cs)[key].heartbeat.Some?
    ensures BringsLast(cs, key, i) && QueueAll(cs)[key].heartbeat == cs[i].wake.heartbeat
  {
    var n := |cs| - 1;
    OutrankedByPending(cs);
    if cs[n].key == key && cs[n].wake.heartbeat.Some? && !Outranked(cs, n) {
      i := n;
    } else {
      i := OverrideIsLatest(cs[..n], key);
      BringsLastNext(cs, key, i);
    }
  }
}
