/** Persistent, bounded replay protection (src/channels/whatsappReplayStore.ts). */
module WhatsAppReplayStore {
  import opened Wrappers
  import opened HeartbeatWake

  datatype Entry = Entry(key: string, seenAtMs: int)

  const DEFAULT_MAX_ENTRIES := 2_000
  const DEFAULT_RETENTION_MS := 30 * 24 * 60 * 60 * 1_000

  datatype Limits = Limits(maxEntries: int, retentionMs: int)

  predicate IsValid(limits: Limits) { 1 <= limits.maxEntries <= 20_000 && limits.retentionMs >= 60_000 }

  /** `slice(-n)` for a positive n. */
  function LastOf(entries: seq<Entry>, n: int): seq<Entry>
    requires n > 0
  {
    if |entries| > n then entries[|entries| - n..] else entries
  }

  function NotExpired(entries: seq<Entry>, cutoff: int): seq<Entry> {
    if entries == [] then []
    else
      var n := |entries| - 1;
      var before := NotExpired(entries[..n], cutoff);
      if entries[n].seenAtMs >= cutoff then before + [entries[n]] else before
  }

  function PruneEntries(entries: seq<Entry>, nowMs: int, limits: Limits): seq<Entry>
    requires IsValid(limits)
  {
    LastOf(NotExpired(entries, nowMs - limits.retentionMs), limits.maxEntries)
  }

  predicate Holds(entries: seq<Entry>, key: string) {
    exists i :: 0 <= i < |entries| && entries[i].key == key
  }

  // ----- one claim -----

  /** Refused is the answer false; InvalidId and WriteFailed are exceptions. */
  datatype Claimed = Accepted | Refused | InvalidId | WriteFailed

  predicate IsMessageId(id: string) {
    1 <= |id| <= 512 && '\r' !in id && '\n' !in id && '\0' !in id
  }

  /** The entries in memory after a claim of a key. */
  function AfterClaim(entries: seq<Entry>, key: string, nowMs: int, limits: Limits): seq<Entry>
    requires IsValid(limits)
  {
    var pruned := PruneEntries(entries, nowMs, limits);
    if Holds(pruned, key) then pruned else LastOf(pruned + [Entry(key, nowMs)], limits.maxEntries)
  }

  // ----- the store and its file -----

  class ReplayFile {
    var entries: seq<Entry>

    constructor ()
      ensures entries == []
    {
      entries := [];
    }
  }

  class ReplayStore {
    const limits: Limits
    const digest: string -> string
    const file: ReplayFile
    var entries: seq<Entry>

    /** Loads the file; a restart makes a new store on the same file. */
    constructor (file: ReplayFile, digest: string -> string, limits: Limits, nowMs: int)
      requires IsValid(limits)
      ensures this.limits == limits && this.digest == digest && this.file == file
      ensures entries == PruneEntries(file.entries, nowMs, limits)
    {
      this.limits, this.digest, this.file := limits, digest, file;
      entries := PruneEntries(file.entries, nowMs, limits);
    }

    /** A failed write leaves the key in memory. */
    method Claim(messageId: string, nowMs: int, write: Write) returns (r: Claimed)
      requires IsValid(limits)
      modifies this, file
      ensures var id, key := Trim(messageId), digest(Trim(messageId));
        if |id| < 1 || |id| > 512 || '\r' in id || '\n' in id || '\0' in id
        then r == InvalidId && entries == old(entries) && file.entries == old(file.entries)
        else
          && entries == AfterClaim(old(entries), key, nowMs, limits)
          && r == (if Holds(PruneEntries(old(entries), nowMs, limits), key) then Claimed.Refused
                   else if write.Succeeds? then Accepted else WriteFailed)
          && file.entries == if r.Refused? || write.FailsBefore? then old(file.entries) else entries
    {
      if !IsMessageId(Trim(messageId)) {
        return InvalidId;
      }
      var key := digest(Trim(messageId));
      entries := PruneEntries(entries, nowMs, limits);
      if Holds(entries, key) {
        return Refused;
      }
      entries := LastOf(entries + [Entry(key, nowMs)], limits.maxEntries);
      if !write.FailsBefore? {
        file.entries := entries;
      }
      return if write.Succeeds? then Accepted else WriteFailed;
    }
  }

  /** Settings outside the limits are rejected. */
  method CreateNeonWhatsAppReplayStore(
    file: ReplayFile, digest: string -> string, maxEntries: Option<int>, retentionMs: Option<int>, nowMs: int)
    returns (store: ReplayStore?)
    ensures var limits := Limits(if maxEntries.Some? then maxEntries.value else 2_000,
                                 if retentionMs.Some? then retentionMs.value else 2_592_000_000);
      if 1 <= limits.maxEntries <= 20_000 && limits.retentionMs >= 60_000
      then store != null && fresh(store) && store.limits == limits && store.file == file
           && store.entries == PruneEntries(file.entries, nowMs, limits)
      else store == null
  {
    var limits := Limits(if maxEntries.Some? then maxEntries.value else DEFAULT_MAX_ENTRIES,
                         if retentionMs.Some? then retentionMs.value else DEFAULT_RETENTION_MS);
    if !IsValid(limits) {
      return null;
    }
    store := new ReplayStore(file, digest, limits, nowMs);
  }

  // ----- runs of claims and restarts -----

  datatype Op = Claim(key: string, nowMs: int, write: Write) | Restart(nowMs: int)

  datatype State = State(memory: seq<Entry>, file: seq<Entry>)

  function Stepped(s: State, op: Op, limits: Limits): State
    requires IsValid(limits)
  {
    match op
    case Claim(key, nowMs, write) =>
      var memory := AfterClaim(s.memory, key, nowMs, limits);
      State(memory, if Refuses(s, key, nowMs, limits) || write.FailsBefore? then s.file else memory)
    case Restart(nowMs) => State(PruneEntries(s.file, nowMs, limits), s.file)
  }

  predicate Refuses(s: State, key: string, nowMs: int, limits: Limits)
    requires IsValid(limits)
  {
    Holds(PruneEntries(s.memory, nowMs, limits), key)
  }

  function Run(ops: seq<Op>, limits: Limits): State
    requires IsValid(limits)
  {
    if ops == [] then State([], []) else Stepped(Run(ops[..|ops| - 1], limits), ops[|ops| - 1], limits)
  }

  /**
   The claims that the process has taken, oldest first and never forgotten, and those among them that the
   file has: a claim whose write fails before the end is in the first only, and a restart goes back to the second.
   */
  datatype Histories = Histories(memory: seq<Entry>, file: seq<Entry>)

  function Noted(h: Histories, op: Op, refused: bool): Histories {
    match op
    case Claim(key, nowMs, write) =>
      if refused then h
      else
        var memory := h.memory + [Entry(key, nowMs)];
        Histories(memory, if write.FailsBefore? then h.file else memory)
    case Restart(_) => Histories(h.file, h.file)
  }

  function HistoriesOf(ops: seq<Op>, limits: Limits): Histories
    requires IsValid(limits)
  {
    if ops == [] then Histories([], [])
    else
      var n := |ops| - 1;
      var refused := ops[n].Claim? && Refuses(Run(ops[..n], limits), ops[n].key, ops[n].nowMs, limits);
      Noted(HistoriesOf(ops[..n], limits), ops[n], refused)
  }

  /** Every claim that was accepted, over all restarts. */
  function AcceptedClaims(ops: seq<Op>, limits: Limits): seq<Entry>
    requires IsValid(limits)
  {
    if ops == [] then []
    else
      var n := |ops| - 1;
      var before := AcceptedClaims(ops[..n], limits);
      if ops[n].Claim? && !Refuses(Run(ops[..n], limits), ops[n].key, ops[n].nowMs, limits)
      then before + [Entry(ops[n].key, ops[n].nowMs)] else before
  }

  /** Operation i is a claim that the store of its moment did not refuse. */
  predicate TakesAt(ops: seq<Op>, limits: Limits, i: nat)
    requires IsValid(limits) && i < |ops|
  {
    ops[i].Claim? && !Refuses(Run(ops[..i], limits), ops[i].key, ops[i].nowMs, limits)
  }

  /** The accepted claims are those that were not refused, each with its own key and time. */
  lemma {:induction false} AcceptedExactly(ops: seq<Op>, limits: Limits, e: Entry)
    requires IsValid(limits)
    ensures e in AcceptedClaims(ops, limits)
            <==> exists i :: 0 <= i < |ops| && TakesAt(ops, limits, i) && e == Entry(ops[i].key, ops[i].nowMs)
  {
    if ops != [] {
      var n := |ops| - 1;
      AcceptedExactly(ops[..n], limits, e);
      forall i | 0 <= i < n ensures ops[..n][i] == ops[i] && TakesAt(ops[..n], limits, i) == TakesAt(ops, limits, i) {
        assert ops[..n][..i] == ops[..i];
      }
      assert TakesAt(ops, limits, n) || !TakesAt(ops, limits, n);
    }
  }

  predicate ClockNeverGoesBack(ops: seq<Op>) {
    forall i, j :: 0 <= i < j < |ops| ==> ops[i].nowMs <= ops[j].nowMs
  }

  predicate SortedByTime(s: seq<Entry>) {
    forall i, j :: 0 <= i < j < |s| ==> s[i].seenAtMs <= s[j].seenAtMs
  }

  predicate DistinctKeys(s: seq<Entry>) {
    forall i, j :: 0 <= i < j < |s| ==> s[i].key != s[j].key
  }

  // ----- pruning a sorted history cuts its front off -----

  /** How many entries are older than the cutoff. */
  function Expired(s: seq<Entry>, cutoff: int): (r: nat)
    ensures r <= |s|
  {
    if s == [] then 0 else Expired(s[..|s| - 1], cutoff) + if s[|s| - 1].seenAtMs < cutoff then 1 else 0
  }

  /** Where the entries begin that a prune at this time keeps. */
  function Start(s: seq<Entry>, nowMs: int, limits: Limits): (r: nat)
    ensures r <= |s|
    requires IsValid(limits)
  {
    var e := Expired(s, nowMs - limits.retentionMs);
    if |s| - e > limits.maxEntries then |s| - limits.maxEntries else e
  }

  lemma {:induction false} ExpiredAreFirst(s: seq<Entry>, cutoff: int)
    requires SortedByTime(s)
    ensures forall i :: 0 <= i < |s| ==> (s[i].seenAtMs < cutoff <==> i < Expired(s, cutoff))
  {
    if s != [] {
      ExpiredAreFirst(s[..|s| - 1], cutoff);
    }
  }

  lemma {:induction false} NotExpiredAreLast(s: seq<Entry>, cutoff: int)
    requires SortedByTime(s)
    ensures NotExpired(s, cutoff) == s[Expired(s, cutoff)..]
  {
    if s != [] {
      var n := |s| - 1;
      NotExpiredAreLast(s[..n], cutoff);
      var e := Expired(s[..n], cutoff);
      if s[n].seenAtMs >= cutoff {
        assert s[..n][e..] + [s[n]] == s[e..];
      } else {
        AllExpired(s[..n], cutoff);
      }
    }
  }

  lemma {:induction false} AllExpired(s: seq<Entry>, cutoff: int)
    requires forall i :: 0 <= i < |s| ==> s[i].seenAtMs < cutoff
    ensures Expired(s, cutoff) == |s|
  {
    if s != [] {
      AllExpired(s[..|s| - 1], cutoff);
    }
  }

  lemma PruneCutsFront(s: seq<Entry>, nowMs: int, limits: Limits)
    requires IsValid(limits) && SortedByTime(s)
    ensures PruneEntries(s, nowMs, limits) == s[Start(s, nowMs, limits)..]
  {
    NotExpiredAreLast(s, nowMs - limits.retentionMs);
  }

  lemma ExpiredOfSuffix(s: seq<Entry>, k: nat, cutoff: int)
    requires SortedByTime(s) && k <= |s|
    ensures Expired(s[k..], cutoff) == if Expired(s, cutoff) >= k then Expired(s, cutoff) - k else 0
  {
    var rest := s[k..];
    ExpiredAreFirst(s, cutoff);
    ExpiredAreFirst(rest, cutoff);
    var e, f := Expired(s, cutoff), Expired(rest, cutoff);
    if f < |rest| {
      assert rest[f] == s[k + f];
    }
    if f > 0 {
      assert rest[f - 1] == s[k + f - 1];
    }
  }

  /** Pruning what is left of a history prunes the history, if not too much was cut before. */
  lemma PruneOfSuffix(s: seq<Entry>, k: nat, nowMs: int, limits: Limits)
    requires IsValid(limits) && SortedByTime(s) && k <= Start(s, nowMs, limits)
    ensures PruneEntries(s[k..], nowMs, limits) == s[Start(s, nowMs, limits)..]
  {
    var rest, cutoff := s[k..], nowMs - limits.retentionMs;
    ExpiredOfSuffix(s, k, cutoff);
    PruneCutsFront(rest, nowMs, limits);
    var start := Start(rest, nowMs, limits);
    assert start + k == Start(s, nowMs, limits);
    assert rest[start..] == s[start + k..];
  }

  // ----- memory and file against the whole history -----

  /** Some entries of the history from a place that any prune from now on would cut anyway. */
  predicate IsTail(s: seq<Entry>, history: seq<Entry>, nowMs: int, limits: Limits)
    requires IsValid(limits)
  {
    && |s| <= |history| && s == history[|history| - |s|..]
    && |history| - |s| <= Start(history, nowMs, limits)
  }

  predicate Keeps(s: seq<Entry>, history: seq<Entry>, nowMs: int, limits: Limits)
    requires IsValid(limits)
  {
    && SortedByTime(history) && (forall i :: 0 <= i < |history| ==> history[i].seenAtMs <= nowMs)
    && IsTail(s, history, nowMs, limits) && DistinctKeys(s) && |s| <= limits.maxEntries
  }

  predicate Represents(s: State, h: Histories, nowMs: int, limits: Limits)
    requires IsValid(limits)
  {
    Keeps(s.memory, h.memory, nowMs, limits) && Keeps(s.file, h.file, nowMs, limits)
  }

  lemma StartAscends(history: seq<Entry>, nowMs: int, laterMs: int, limits: Limits)
    requires IsValid(limits) && nowMs <= laterMs && SortedByTime(history)
    ensures Start(history, nowMs, limits) <= Start(history, laterMs, limits)
  {
    ExpiredAreFirst(history, nowMs - limits.retentionMs);
    ExpiredAreFirst(history, laterMs - limits.retentionMs);
    var e := Expired(history, nowMs - limits.retentionMs);
    assert e > 0 ==> history[e - 1].seenAtMs < laterMs - limits.retentionMs;
  }

  /** What a prune leaves of a tail is a tail, and all that a prune of the history would leave. */
  lemma TailLater(s: seq<Entry>, history: seq<Entry>, nowMs: int, laterMs: int, limits: Limits)
    requires IsValid(limits) && nowMs <= laterMs && SortedByTime(history) && IsTail(s, history, nowMs, limits)
    ensures var pruned := PruneEntries(s, laterMs, limits);
      && IsTail(s, history, laterMs, limits)
      && pruned == history[Start(history, laterMs, limits)..]
      && IsTail(pruned, history, laterMs, limits)
      && |pruned| <= |s| && pruned == s[|s| - |pruned|..]
  {
    StartAscends(history, nowMs, laterMs, limits);
    PruneOfSuffix(history, |history| - |s|, laterMs, limits);
  }

  lemma TailOfGrown(history: seq<Entry>, e: Entry, limits: Limits)
    requires IsValid(limits) && SortedByTime(history + [e])
    ensures var grown := history + [e];
      var start := Start(history, e.seenAtMs, limits);
      var kept := LastOf(history[start..] + [e], limits.maxEntries);
      IsTail(kept, grown, e.seenAtMs, limits) && start <= Start(grown, e.seenAtMs, limits)
  {
    var grown := history + [e];
    assert grown[..|history|] == history;
    var start := Start(history, e.seenAtMs, limits);
    assert history[start..] + [e] == grown[start..];
  }

  /** The reference: the key is among the last maxEntries accepted, and no longer ago than the retention. */
  predicate RecentlyAccepted(history: seq<Entry>, key: string, nowMs: int, limits: Limits) {
    exists i :: 0 <= i < |history| && |history| - limits.maxEntries <= i && history[i].key == key
                && nowMs - history[i].seenAtMs <= limits.retentionMs
  }

  lemma KeptAreRecent(history: seq<Entry>, key: string, nowMs: int, limits: Limits)
    requires IsValid(limits) && SortedByTime(history)
    ensures Holds(history[Start(history, nowMs, limits)..], key) <==> RecentlyAccepted(history, key, nowMs, limits)
  {
    ExpiredAreFirst(history, nowMs - limits.retentionMs);
    var start := Start(history, nowMs, limits);
    var kept := history[start..];
    assert forall i :: 0 <= i < |kept| ==> kept[i] == history[start + i];
    assert forall i :: start <= i < |history| ==> history[i] == kept[i - start];
  }

  lemma SuffixIsDistinct(s: seq<Entry>, k: nat)
    requires DistinctKeys(s) && k <= |s|
    ensures DistinctKeys(s[k..])
  {
  }

  lemma PrunedKeeps(s: seq<Entry>, history: seq<Entry>, nowMs: int, limits: Limits)
    requires IsValid(limits) && SortedByTime(history) && IsTail(s, history, nowMs, limits) && DistinctKeys(s)
    ensures var pruned := PruneEntries(s, nowMs, limits);
      && pruned == history[Start(history, nowMs, limits)..]
      && IsTail(pruned, history, nowMs, limits) && DistinctKeys(pruned) && |pruned| <= limits.maxEntries
  {
    TailLater(s, history, nowMs, nowMs, limits);
    SuffixIsDistinct(s, |s| - |PruneEntries(s, nowMs, limits)|);
  }

  lemma NewKeyKeeps(pruned: seq<Entry>, history: seq<Entry>, key: string, nowMs: int, limits: Limits)
    requires IsValid(limits) && SortedByTime(history) && forall i :: 0 <= i < |history| ==> history[i].seenAtMs <= nowMs
    requires pruned == history[Start(history, nowMs, limits)..] && DistinctKeys(pruned) && !Holds(pruned, key)
    ensures Keeps(LastOf(pruned + [Entry(key, nowMs)], limits.maxEntries), history + [Entry(key, nowMs)], nowMs, limits)
  {
    var e := Entry(key, nowMs);
    var all, grown := pruned + [e], history + [e];
    assert SortedByTime(grown);
    TailOfGrown(history, e, limits);
    assert DistinctKeys(all);
    if |all| > limits.maxEntries {
      SuffixIsDistinct(all, |all| - limits.maxEntries);
    }
  }

  lemma OpKeeps(s: State, h: Histories, op: Op, limits: Limits)
    requires IsValid(limits) && Represents(s, h, op.nowMs, limits)
    ensures var refused := op.Claim? && Refuses(s, op.key, op.nowMs, limits);
      Represents(Stepped(s, op, limits), Noted(h, op, refused), op.nowMs, limits)
  {
    if op.Claim? {
      PrunedKeeps(s.memory, h.memory, op.nowMs, limits);
      if !Refuses(s, op.key, op.nowMs, limits) {
        NewKeyKeeps(PruneEntries(s.memory, op.nowMs, limits), h.memory, op.key, op.nowMs, limits);
      }
    } else {
      PrunedKeeps(s.file, h.file, op.nowMs, limits);
    }
  }

  lemma LaterKeeps(s: seq<Entry>, history: seq<Entry>, nowMs: int, laterMs: int, limits: Limits)
    requires IsValid(limits) && nowMs <= laterMs && Keeps(s, history, nowMs, limits)
    ensures Keeps(s, history, laterMs, limits)
  {
    TailLater(s, history, nowMs, laterMs, limits);
  }

  lemma {:induction false} StateRepresentsHistories(ops: seq<Op>, limits: Limits, nowMs: int)
    requires IsValid(limits) && ClockNeverGoesBack(ops)
    requires forall i :: 0 <= i < |ops| ==> ops[i].nowMs <= nowMs
    ensures Represents(Run(ops, limits), HistoriesOf(ops, limits), nowMs, limits)
  {
    if ops != [] {
      var n := |ops| - 1;
      StateRepresentsHistories(ops[..n], limits, ops[n].nowMs);
      OpKeeps(Run(ops[..n], limits), HistoriesOf(ops[..n], limits), ops[n], limits);
      var s, h := Run(ops, limits), HistoriesOf(ops, limits);
      LaterKeeps(s.memory, h.memory, ops[n].nowMs, nowMs, limits);
      LaterKeeps(s.file, h.file, ops[n].nowMs, nowMs, limits);
    }
  }

  /**
   Over any run of claims and restarts, whichever writes fail, a claim is refused exactly when its key is
   among the last maxEntries taken and was taken no longer ago than the retention.
   */
  lemma RefusedExactlyWhenTaken(ops: seq<Op>, limits: Limits, key: string, nowMs: int)
    requires IsValid(limits) && ClockNeverGoesBack(ops)
    requires forall i :: 0 <= i < |ops| ==> ops[i].nowMs <= nowMs
    ensures Refuses(Run(ops, limits), key, nowMs, limits)
            <==> RecentlyAccepted(HistoriesOf(ops, limits).memory, key, nowMs, limits)
  {
    var s, h := Run(ops, limits), HistoriesOf(ops, limits);
    StateRepresentsHistories(ops, limits, nowMs);
    TailLater(s.memory, h.memory, nowMs, nowMs, limits);
    KeptAreRecent(h.memory, key, nowMs, limits);
  }

  lemma {:induction false} SuccessfulWritesKeepAll(ops: seq<Op>, limits: Limits)
    requires IsValid(limits) && forall i :: 0 <= i < |ops| && ops[i].Claim? ==> !ops[i].write.FailsBefore?
    ensures HistoriesOf(ops, limits) == Histories(AcceptedClaims(ops, limits), AcceptedClaims(ops, limits))
  {
    if ops != [] {
      SuccessfulWritesKeepAll(ops[..|ops| - 1], limits);
    }
  }

  /** While the file is always written, that is when the key was recently accepted, over all restarts. */
  lemma RefusedExactlyWhenRecent(ops: seq<Op>, limits: Limits, key: string, nowMs: int)
    requires IsValid(limits) && ClockNeverGoesBack(ops)
    requires forall i :: 0 <= i < |ops| ==> ops[i].nowMs <= nowMs
    requires forall i :: 0 <= i < |ops| && ops[i].Claim? ==> !ops[i].write.FailsBefore?
    ensures Refuses(Run(ops, limits), key, nowMs, limits)
            <==> RecentlyAccepted(AcceptedClaims(ops, limits), key, nowMs, limits)
  {
    RefusedExactlyWhenTaken(ops, limits, key, nowMs);
    SuccessfulWritesKeepAll(ops, limits);
  }

  lemma HistoriesGrow(ops: seq<Op>, op: Op, limits: Limits)
    requires IsValid(limits)
    ensures var refused := op.Claim? && Refuses(Run(ops, limits), op.key, op.nowMs, limits);
      HistoriesOf(ops + [op], limits) == Noted(HistoriesOf(ops, limits), op, refused)
  {
    assert (ops + [op])[..|ops|] == ops;
  }

  lemma LatestIsRecent(history: seq<Entry>, key: string, nowMs: int, limits: Limits)
    requires IsValid(limits)
    ensures RecentlyAccepted(history + [Entry(key, nowMs)], key, nowMs, limits)
  {
    assert (history + [Entry(key, nowMs)])[|history|] == Entry(key, nowMs);
  }

  /** A claim that throws because its file is not written is refused when tried again, until a restart forgets it. */
  lemma FailedWriteIsForgotten(ops: seq<Op>, limits: Limits, key: string, nowMs: int)
    requires IsValid(limits) && ClockNeverGoesBack(ops)
    requires forall i :: 0 <= i < |ops| ==> ops[i].nowMs <= nowMs
    requires !Refuses(Run(ops, limits), key, nowMs, limits)
    ensures var failed := ops + [Op.Claim(key, nowMs, FailsBefore)];
      && Refuses(Run(failed, limits), key, nowMs, limits)
      && (Refuses(Run(failed + [Restart(nowMs)], limits), key, nowMs, limits)
          <==> RecentlyAccepted(HistoriesOf(ops, limits).file, key, nowMs, limits))
  {
    var claim, restart := Op.Claim(key, nowMs, FailsBefore), Restart(nowMs);
    var failed := ops + [claim];
    HistoriesGrow(ops, claim, limits);
    HistoriesGrow(failed, restart, limits);
    LatestIsRecent(HistoriesOf(ops, limits).memory, key, nowMs, limits);
    RefusedExactlyWhenTaken(failed, limits, key, nowMs);
    RefusedExactlyWhenTaken(failed + [restart], limits, key, nowMs);
  }

  /** Memory and file keep distinct keys in order of time, and no more than maxEntries of them. */
  lemma StoreStaysBounded(ops: seq<Op>, limits: Limits)
    requires IsValid(limits) && ClockNeverGoesBack(ops)
    ensures var s := Run(ops, limits);
      && DistinctKeys(s.memory) && SortedByTime(s.memory) && |s.memory| <= limits.maxEntries
      && DistinctKeys(s.file) && SortedByTime(s.file) && |s.file| <= limits.maxEntries
  {
    if ops != [] {
      var nowMs := ops[|ops| - 1].nowMs;
      StateRepresentsHistories(ops, limits, nowMs);
      KeptIsBounded(Run(ops, limits).memory, HistoriesOf(ops, limits).memory, nowMs, limits);
      KeptIsBounded(Run(ops, limits).file, HistoriesOf(ops, limits).file, nowMs, limits);
    }
  }

  lemma KeptIsBounded(s: seq<Entry>, history: seq<Entry>, nowMs: int, limits: Limits)
    requires IsValid(limits) && Keeps(s, history, nowMs, limits)
    ensures DistinctKeys(s) && SortedByTime(s) && |s| <= limits.maxEntries
  {
  }
}
