/** The import of hints as pending commitments (src/commitments/commitmentHintImport.ts). */
module CommitmentHintImport {
  import opened Wrappers
  import opened CommitmentStore
  import opened CommitmentLifecycle
  import opened HeartbeatWake

  const DUE_WINDOW_MS := 24 * 60 * 60 * 1000

  /** A parsed hint; its channel is already derived from its source. */
  datatype Hint = Hint(
    id: string,
    title: string,
    excerpt: Option<string>,
    channel: string,
    confidence: Option<real>,
    capturedAtMs: Option<int>)

  function HintId(id: string): string { "hint-" + id }

  function HintKey(id: string): string { "v3-hint:" + id }

  function InputOf(h: Hint, nowMs: int): Input {
    var earliest := if h.capturedAtMs.Some? then h.capturedAtMs.value else nowMs;
    Input(HintId(h.id), "neo", "v3-import", h.channel, OpenLoop, InferredUserContext,
          TrimmedOr(Some(h.title), TrimmedOr(h.excerpt, "Follow-up " + h.id)), HintKey(h.id),
          if h.confidence.Some? then h.confidence.value else 0.5, DueWindow(earliest, earliest + DUE_WINDOW_MS, "UTC"))
  }

  function FromHint(h: Hint, nowMs: int): (r: Record)
    ensures r.id == HintId(h.id) && r.dedupeKey == HintKey(h.id) && r.status == Pending && r.updatedAtMs == nowMs
  {
    BuildRecord(InputOf(h, nowMs), nowMs)
  }

  function Building(nowMs: int): Hint -> Record {
    h => FromHint(h, nowMs)
  }

  predicate HasActive(known: seq<Record>, dedupeKey: string) {
    exists i :: 0 <= i < |known| && known[i].dedupeKey == dedupeKey && IsActive(known[i].status)
  }

  /** What an import appends: each hint's record that no known or just imported active record covers. */
  function Imported(existing: seq<Record>, hints: seq<Hint>, build: Hint -> Record): seq<Record> {
    if hints == [] then []
    else
      var n := |hints| - 1;
      var before, r := Imported(existing, hints[..n], build), build(hints[n]);
      if HasActive(existing + before, r.dedupeKey) then before else before + [r]
  }

  /** The keys of the hints that an import skips. */
  function Skipped(existing: seq<Record>, hints: seq<Hint>, build: Hint -> Record): seq<string> {
    if hints == [] then []
    else
      var n := |hints| - 1;
      var before, key := Skipped(existing, hints[..n], build), build(hints[n]).dedupeKey;
      if HasActive(existing + Imported(existing, hints[..n], build), key) then before + ["duplicate:" + key] else before
  }

  /** The commitment at i is the first active one of the key. */
  predicate IsFirstActive(commitments: seq<Record>, dedupeKey: string, i: int) {
    && 0 <= i < |commitments| && commitments[i].dedupeKey == dedupeKey && IsActive(commitments[i].status)
    && !HasActive(commitments[..i], dedupeKey)
  }

  method FindActiveByDedupeKey(commitments: seq<Record>, dedupeKey: string) returns (r: Option<Record>)
    ensures r.Some? <==> HasActive(commitments, dedupeKey)
    ensures r.Some? ==> exists i :: IsFirstActive(commitments, dedupeKey, i) && r.value == commitments[i]
  {
    var i := 0;
    while i < |commitments|
      invariant 0 <= i <= |commitments|
      invariant forall j :: 0 <= j < i ==> !(commitments[j].dedupeKey == dedupeKey && IsActive(commitments[j].status))
    {
      if commitments[i].dedupeKey == dedupeKey && IsActive(commitments[i].status) {
        assert IsFirstActive(commitments, dedupeKey, i);
        return Some(commitments[i]);
      }
      i := i + 1;
    }
    return None;
  }

  /** The loop over hints; known grows with what is imported. */
  method ImportEach(store: Store, existing: seq<Record>, hints: seq<Hint>, build: Hint -> Record)
    returns (imported: seq<Record>, skipped: seq<string>)
    modifies store
    ensures store.log == old(store.log) + imported
    ensures imported == Imported(existing, hints, build) && skipped == Skipped(existing, hints, build)
  {
    imported, skipped := [], [];
    ghost var start := store.log;
    var known := existing;
    var n := 0;
    while n < |hints|
      invariant 0 <= n <= |hints|
      invariant imported == Imported(existing, hints[..n], build)
      invariant known == existing + imported && store.log == start + imported
      invariant skipped == Skipped(existing, hints[..n], build)
    {
      var commitment := build(hints[n]);
      assert hints[..n + 1][..n] == hints[..n];
      n := n + 1;
      var active := FindActiveByDedupeKey(known, commitment.dedupeKey);
      assert active.Some? <==> HasActive(existing + imported, commitment.dedupeKey);
      if active.Some? {
        skipped := skipped + ["duplicate:" + commitment.dedupeKey];
        continue;
      }
      var appended := store.Append(true, commitment);
      assert start + imported + [commitment] == start + (imported + [commitment]);
      assert existing + imported + [commitment] == existing + (imported + [commitment]);
      imported := imported + [commitment];
      known := known + [commitment];
    }
    assert hints[..n] == hints;
  }

  method ImportNeonCommitmentHints(store: Store, enabled: bool, hints: seq<Hint>, nowMs: int)
    returns (imported: seq<Record>, skipped: seq<string>)
    modifies store
    ensures store.log == old(store.log) + imported
    ensures imported == if enabled then Imported(Project(old(store.log)), hints, Building(nowMs)) else []
    ensures skipped == if enabled then Skipped(Project(old(store.log)), hints, Building(nowMs)) else []
  {
    if !enabled {
      return [], [];
    }
    var existing := store.Read();
    imported, skipped := ImportEach(store, existing, hints, Building(nowMs));
  }

  // ----- what an import appends -----

  /** The text of a hint's commitment. */
  predicate IsTextOf(h: Hint, text: string) {
    if !AllBlank(h.title) then text == Trim(h.title)
    else if h.excerpt.Some? && !AllBlank(h.excerpt.value) then text == Trim(h.excerpt.value)
    else text == "Follow-up " + h.id
  }

  /** A hint's commitment: pending from now on, due for a day from its capture, or from now when that is unknown. */
  lemma HintBecomes(h: Hint, nowMs: int)
    ensures var r, from := FromHint(h, nowMs), if h.capturedAtMs.Some? then h.capturedAtMs.value else nowMs;
      && r == Record("hint-" + h.id, "neo", "v3-import", h.channel, OpenLoop, InferredUserContext, Pending, r.suggestedText,
                     "v3-hint:" + h.id, r.confidence, DueWindow(from, from + 86_400_000, "UTC"), nowMs, nowMs, 0,
                     None, None, None, None)
      && IsTextOf(h, r.suggestedText)
      && r.confidence == if h.confidence.None? then 0.5
                         else if h.confidence.value < 0.0 then 0.0
                         else if h.confidence.value > 1.0 then 1.0 else h.confidence.value
  {
    BlankIsTrimmedAway(h.title);
    if h.excerpt.Some? {
      BlankIsTrimmedAway(h.excerpt.value);
    }
  }

  predicate DistinctKeys(s: seq<Record>) {
    forall i, j :: 0 <= i < j < |s| ==> s[i].dedupeKey != s[j].dedupeKey
  }

  /** Every hint is imported as its commitment, or skipped by its key; no key is imported twice or while it is active. */
  lemma {:induction false} ImportAccounts(existing: seq<Record>, hints: seq<Hint>, build: Hint -> Record, nowMs: int)
    requires BuildsAt(build, nowMs)
    ensures var imported, skipped := Imported(existing, hints, build), Skipped(existing, hints, build);
      && |imported| + |skipped| == |hints| && DistinctKeys(imported)
      && (forall i :: 0 <= i < |imported| ==> !HasActive(existing, imported[i].dedupeKey) && IsActive(imported[i].status))
      && (forall i :: 0 <= i < |imported| ==> exists k :: 0 <= k < |hints| && imported[i] == build(hints[k]))
      && (forall i :: 0 <= i < |skipped| ==>
            exists k :: 0 <= k < |hints| && skipped[i] == "duplicate:" + build(hints[k]).dedupeKey)
  {
    if hints != [] {
      var n := |hints| - 1;
      var before, skipped, r := Imported(existing, hints[..n], build), Skipped(existing, hints[..n], build), build(hints[n]);
      ImportAccounts(existing, hints[..n], build, nowMs);
      assert forall k :: 0 <= k < n ==> hints[..n][k] == hints[k];
      assert hints[n] == hints[|hints| - 1];
      HasActiveOfBoth(existing, before, r.dedupeKey);
    }
  }

  lemma HasActiveOfBoth(a: seq<Record>, b: seq<Record>, key: string)
    ensures HasActive(a + b, key) <==> HasActive(a, key) || HasActive(b, key)
  {
    assert forall i :: 0 <= i < |a| ==> (a + b)[i] == a[i];
    assert forall i :: 0 <= i < |b| ==> (a + b)[|a| + i] == b[i];
    if HasActive(a + b, key) {
      var k :| 0 <= k < |a + b| && (a + b)[k].dedupeKey == key && IsActive((a + b)[k].status);
      assert k >= |a| ==> (a + b)[k] == b[k - |a|];
    }
  }

  // ----- ids and dedupe keys -----

  /** A record's id and its dedupe key are those of the same hint, or of none. */
  ghost predicate CoherentRecord(r: Record) {
    forall x :: r.id == HintId(x) <==> r.dedupeKey == HintKey(x)
  }

  ghost predicate Coherent(log: seq<Record>) {
    forall i :: 0 <= i < |log| ==> CoherentRecord(log[i])
  }

  lemma HintNamesAreInjective(x: string, y: string)
    ensures HintId(x) == HintId(y) <==> x == y
    ensures HintKey(x) == HintKey(y) <==> x == y
  {
    assert x == HintId(x)[|"hint-"|..] && y == HintId(y)[|"hint-"|..];
    assert x == HintKey(x)[|"v3-hint:"|..] && y == HintKey(y)[|"v3-hint:"|..];
  }

  /** What build makes of hints: pending records with coherent names, made now. */
  ghost predicate BuildsAt(build: Hint -> Record, nowMs: int) {
    forall h :: build(h).id == HintId(h.id) && build(h).dedupeKey == HintKey(h.id) && build(h).status == Pending
                && build(h).updatedAtMs == nowMs
  }

  lemma BuildingBuilds(nowMs: int)
    ensures BuildsAt(Building(nowMs), nowMs)
  {
  }

  predicate IsActiveNow(log: seq<Record>, id: string) {
    var c := Current(log, id);
    c.Some? && IsActive(c.value.status)
  }

  /** In a coherent log, a hint's key has an active projected record just when its id has. */
  lemma KeyIsActiveWithId(log: seq<Record>, x: string)
    requires Coherent(log)
    ensures HasActive(Project(log), HintKey(x)) <==> IsActiveNow(log, HintId(x))
  {
    var byId := Project(log);
    ProjectionHasDistinctIds(log);
    if k :| 0 <= k < |byId| && byId[k].dedupeKey == HintKey(x) && IsActive(byId[k].status) {
      IndexIsUnique(byId, k);
      CurrentIsInLog(log, byId[k].id);
      assert CoherentRecord(byId[k]);
    }
    if IsActiveNow(log, HintId(x)) {
      CurrentIsInLog(log, HintId(x));
      var k := IndexOf(byId, HintId(x));
      assert CoherentRecord(byId[k]);
    }
  }

  lemma HasActiveGrows(known: seq<Record>, r: Record, key: string)
    ensures HasActive(known + [r], key) <==> HasActive(known, key) || (r.dedupeKey == key && IsActive(r.status))
  {
    var all := known + [r];
    assert all[|known|] == r;
    assert forall i :: 0 <= i < |known| ==> all[i] == known[i];
  }

  predicate Among(hints: seq<Hint>, x: string) {
    exists i :: 0 <= i < |hints| && hints[i].id == x
  }

  lemma AmongGrows(hints: seq<Hint>, x: string)
    requires hints != []
    ensures Among(hints, x) <==> Among(hints[..|hints| - 1], x) || hints[|hints| - 1].id == x
  {
    assert forall i :: 0 <= i < |hints| - 1 ==> hints[i] == hints[..|hints| - 1][i];
  }

  /** After an import every hint of the list is active, and known stays in step with the log. */
  lemma {:induction false} ImportActivates(
    log: seq<Record>, hints: seq<Hint>, build: Hint -> Record, nowMs: int, x: string)
    requires Coherent(log) && NotAfter(log, nowMs) && BuildsAt(build, nowMs)
    ensures var imported := Imported(Project(log), hints, build);
      var after := log + imported;
      && Coherent(after) && NotAfter(after, nowMs)
      && (HasActive(Project(log) + imported, HintKey(x)) <==> IsActiveNow(after, HintId(x)))
      && (IsActiveNow(after, HintId(x)) <==> IsActiveNow(log, HintId(x)) || Among(hints, x))
  {
    if hints == [] {
      assert log + [] == log && Project(log) + [] == Project(log);
      KeyIsActiveWithId(log, x);
    } else {
      var n := |hints| - 1;
      var h := hints[n];
      ImportActivates(log, hints[..n], build, nowMs, x);
      ImportActivates(log, hints[..n], build, nowMs, h.id);
      ImportStep(log, Imported(Project(log), hints[..n], build), build(h), h.id, nowMs, x);
      AmongGrows(hints, x);
    }
  }

  /** One hint y, whose record is appended unless its key is already active. */
  lemma ImportStep(log: seq<Record>, before: seq<Record>, r: Record, y: string, nowMs: int, x: string)
    requires r.id == HintId(y) && r.dedupeKey == HintKey(y) && r.status == Pending && r.updatedAtMs == nowMs
    requires Coherent(log + before) && NotAfter(log + before, nowMs)
    requires HasActive(Project(log) + before, HintKey(x)) <==> IsActiveNow(log + before, HintId(x))
    requires HasActive(Project(log) + before, HintKey(y)) <==> IsActiveNow(log + before, HintId(y))
    ensures var imported := if HasActive(Project(log) + before, r.dedupeKey) then before else before + [r];
      var after := log + imported;
      && Coherent(after) && NotAfter(after, nowMs)
      && (HasActive(Project(log) + imported, HintKey(x)) <==> IsActiveNow(after, HintId(x)))
      && (IsActiveNow(after, HintId(x)) <==> IsActiveNow(log + before, HintId(x)) || x == y)
  {
    HintNamesAreInjective(x, y);
    if !HasActive(Project(log) + before, r.dedupeKey) {
      assert log + (before + [r]) == (log + before) + [r];
      assert Project(log) + (before + [r]) == (Project(log) + before) + [r];
      HasActiveGrows(Project(log) + before, r, HintKey(x));
      AppendTakesEffect(log + before, r, HintId(x));
      CurrentIsInLog(log + before, HintId(x));
      assert CoherentRecord(r) by {
        forall z ensures r.id == HintId(z) <==> r.dedupeKey == HintKey(z) {
          HintNamesAreInjective(z, y);
        }
      }
    }
  }

  lemma {:induction false} NothingLeftToImport(existing: seq<Record>, hints: seq<Hint>, build: Hint -> Record, nowMs: int)
    requires BuildsAt(build, nowMs)
    requires forall i :: 0 <= i < |hints| ==> HasActive(existing, HintKey(hints[i].id))
    ensures Imported(existing, hints, build) == []
  {
    if hints != [] {
      NothingLeftToImport(existing, hints[..|hints| - 1], build, nowMs);
      assert existing + [] == existing;
    }
  }

  /** Importing hints that were all in the previous import appends nothing, whatever repeats among them. */
  lemma ImportIsIdempotent(log: seq<Record>, hints: seq<Hint>, again: seq<Hint>, nowMs: int, laterMs: int)
    requires Coherent(log) && NotAfter(log, nowMs)
    requires forall i :: 0 <= i < |again| ==> again[i] in hints
    ensures var after := log + Imported(Project(log), hints, Building(nowMs));
      Imported(Project(after), again, Building(laterMs)) == []
  {
    var after := log + Imported(Project(log), hints, Building(nowMs));
    BuildingBuilds(nowMs);
    BuildingBuilds(laterMs);
    forall i | 0 <= i < |again| ensures HasActive(Project(after), HintKey(again[i].id)) {
      ImportActivates(log, hints, Building(nowMs), nowMs, again[i].id);
      KeyIsActiveWithId(after, again[i].id);
    }
    NothingLeftToImport(Project(after), again, Building(laterMs), laterMs);
  }

  /** A hint whose commitment was closed is imported afresh; only an active commitment is left alone. */
  lemma ReimportRevives(log: seq<Record>, h: Hint, nowMs: int)
    requires Coherent(log) && NotAfter(log, nowMs)
    ensures Current(log + Imported(Project(log), [h], Building(nowMs)), HintId(h.id))
            == if IsActiveNow(log, HintId(h.id)) then Current(log, HintId(h.id)) else Some(FromHint(h, nowMs))
  {
    KeyIsActiveWithId(log, h.id);
    CurrentIsInLog(log, HintId(h.id));
    var r := FromHint(h, nowMs);
    assert [h][..0] == [] && Project(log) + [] == Project(log) && [] + [r] == [r];
    if IsActiveNow(log, HintId(h.id)) {
      assert Imported(Project(log), [h], Building(nowMs)) == [] && log + [] == log;
    } else {
      assert Imported(Project(log), [h], Building(nowMs)) == [r];
      AppendTakesEffect(log, r, HintId(h.id));
    }
  }

  // ----- stores grown by imports and transitions -----

  datatype Action = Import(nowMs: int, hints: seq<Hint>) | Proceed(e: Event)

  function LogAfter(actions: seq<Action>): seq<Record> {
    if actions == [] then []
    else
      var log := LogAfter(actions[..|actions| - 1]);
      match actions[|actions| - 1]
      case Import(nowMs, hints) => log + Imported(Project(log), hints, Building(nowMs))
      case Proceed(e) => log + Appended(log, e)
  }

  ghost predicate NamedByHint(r: Record) {
    exists x :: r.id == HintId(x) && r.dedupeKey == HintKey(x)
  }

  ghost predicate AllNamedByHints(log: seq<Record>) {
    forall i :: 0 <= i < |log| ==> NamedByHint(log[i])
  }

  lemma {:induction false} ImportedAreNamed(existing: seq<Record>, hints: seq<Hint>, build: Hint -> Record, nowMs: int)
    requires BuildsAt(build, nowMs)
    ensures AllNamedByHints(Imported(existing, hints, build))
  {
    if hints != [] {
      ImportedAreNamed(existing, hints[..|hints| - 1], build, nowMs);
    }
  }

  lemma {:induction false} RunIsNamed(actions: seq<Action>)
    requires forall i :: 0 <= i < |actions| ==> actions[i].Proceed? ==> !actions[i].e.step.Create?
    ensures AllNamedByHints(LogAfter(actions))
  {
    if actions != [] {
      var n := |actions| - 1;
      var log := LogAfter(actions[..n]);
      RunIsNamed(actions[..n]);
      match actions[n] {
        case Import(nowMs, hints) =>
          BuildingBuilds(nowMs);
          ImportedAreNamed(Project(log), hints, Building(nowMs), nowMs);
        case Proceed(e) =>
          forall i | 0 <= i < |Appended(log, e)| ensures NamedByHint(Appended(log, e)[i]) {
            var c := SuccessorOf(log, e, i);
            assert NamedByHint(c);
          }
      }
    }
  }

  /** Whatever the clock does, no two projected commitments of such a store share a dedupe key. */
  lemma OneCommitmentPerKey(actions: seq<Action>, i: nat, j: nat)
    requires forall k :: 0 <= k < |actions| ==> actions[k].Proceed? ==> !actions[k].e.step.Create?
    requires i < j < |Project(LogAfter(actions))|
    ensures Project(LogAfter(actions))[i].dedupeKey != Project(LogAfter(actions))[j].dedupeKey
  {
    var log := LogAfter(actions);
    RunIsNamed(actions);
    ProjectionHasDistinctIds(log);
    ProjectedIsInLog(log, i);
    ProjectedIsInLog(log, j);
    var a, b := Project(log)[i], Project(log)[j];
    assert NamedByHint(a) && NamedByHint(b);
    var x :| a.id == HintId(x) && a.dedupeKey == HintKey(x);
    var y :| b.id == HintId(y) && b.dedupeKey == HintKey(y);
    HintNamesAreInjective(x, y);
  }

  // ----- imports repeated over runs -----

  lemma NamedIsCoherent(r: Record)
    requires NamedByHint(r)
    ensures CoherentRecord(r)
  {
    var y :| r.id == HintId(y) && r.dedupeKey == HintKey(y);
    forall x ensures r.id == HintId(x) <==> r.dedupeKey == HintKey(x) {
      HintNamesAreInjective(x, y);
    }
  }

  function TimeOf(a: Action): int { if a.Import? then a.nowMs else a.e.nowMs }

  lemma AppendedNotAfter(log: seq<Record>, e: Event)
    ensures NotAfter(Appended(log, e), e.nowMs)
  {
    if !e.step.Create? {
      ActStamps(e);
      forall i | 0 <= i < |Appended(log, e)| ensures Appended(log, e)[i].updatedAtMs <= e.nowMs {
        var k := ObservedSucceed(ActOf(e), Project(log), IdsOf(e), i);
      }
    }
  }

  lemma {:induction false} ImportedNotAfter(existing: seq<Record>, hints: seq<Hint>, build: Hint -> Record, nowMs: int)
    requires BuildsAt(build, nowMs)
    ensures NotAfter(Imported(existing, hints, build), nowMs)
  {
    if hints != [] {
      ImportedNotAfter(existing, hints[..|hints| - 1], build, nowMs);
    }
  }

  lemma {:induction false} RunIsNotAfter(actions: seq<Action>, nowMs: int)
    requires forall i :: 0 <= i < |actions| ==> TimeOf(actions[i]) <= nowMs
    ensures NotAfter(LogAfter(actions), nowMs)
  {
    if actions != [] {
      var n := |actions| - 1;
      var log := LogAfter(actions[..n]);
      RunIsNotAfter(actions[..n], nowMs);
      match actions[n] {
        case Import(at, hints) =>
          BuildingBuilds(at);
          ImportedNotAfter(Project(log), hints, Building(at), at);
        case Proceed(e) => AppendedNotAfter(log, e);
      }
    }
  }

  /**
   After any imports and transitions up to now, importing hints and then any of them again, at whatever
   later time, appends nothing the second time.
   */
  lemma RepeatedImportAppendsNothing(actions: seq<Action>, hints: seq<Hint>, again: seq<Hint>, nowMs: int, laterMs: int)
    requires forall i :: 0 <= i < |actions| && actions[i].Proceed? ==> !actions[i].e.step.Create?
    requires forall i :: 0 <= i < |actions| ==> TimeOf(actions[i]) <= nowMs
    requires forall i :: 0 <= i < |again| ==> again[i] in hints
    ensures LogAfter(actions + [Import(nowMs, hints)] + [Import(laterMs, again)])
            == LogAfter(actions + [Import(nowMs, hints)])
  {
    var log, first := LogAfter(actions), actions + [Import(nowMs, hints)];
    var second := first + [Import(laterMs, again)];
    assert first[..|actions|] == actions && second[..|first|] == first;
    RunIsNamed(actions);
    RunIsNotAfter(actions, nowMs);
    forall i | 0 <= i < |log| ensures CoherentRecord(log[i]) {
      NamedIsCoherent(log[i]);
    }
    ImportIsIdempotent(log, hints, again, nowMs, laterMs);
    assert LogAfter(first) + [] == LogAfter(first);
  }
}
