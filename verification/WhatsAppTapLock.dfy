/**
 The tap lock file as a protocol between processes (src/channels/whatsappTapLock.ts). Every file-system call,
 the look at a process table and every crash is one step, and steps of all processes interleave freely.
 A process id may be used again, but never by two live processes at once.
 */
module WhatsAppTapLock {
  import opened Wrappers

  datatype LockRecord = LockRecord(pid: int, createdAt: int)

  /** A file with the process that created it; without content it is created but not yet written. */
  datatype File = File(inode: nat, owner: nat, content: Option<LockRecord>)

  /** Where a process stands in acquiring and releasing. */
  datatype Stage =
    | Idle
    | Blocked(createdAt: int)
    | Judging(createdAt: int, seen: File)
    | Stale(createdAt: int, seen: File)
    | Retrying(createdAt: int)
    | Writing(createdAt: int, inode: nat)
    | Holding(createdAt: int, inode: nat)
    | Releasing(createdAt: int, inode: nat)

  /** Live processes with their stages; processes that ended never come back. */
  datatype World = World(file: Option<File>, procs: map<nat, Stage>, ended: set<nat>, inodes: nat)

  datatype Action =
    | Start(i: nat)
    | Crash(i: nat)
    | Open(i: nat, now: int)
    | Write(i: nat, succeeds: bool)
    | Read(i: nat)
    | Judge(i: nat)
    | Remove(i: nat)
    | ReadOwn(i: nat)
    | RemoveOwn(i: nat)

  predicate IsAlive(w: World, pidOf: nat -> int, pid: int) {
    exists j :: j in w.procs && pidOf(j) == pid
  }

  function To(w: World, i: nat, stage: Stage): World { w.(procs := w.procs[i := stage]) }

  /** An exclusive create: it makes the file, or fails because there is one. */
  function Opened(w: World, i: nat, createdAt: int, otherwise: Stage): World {
    if w.file.None? then
      To(w, i, Writing(createdAt, w.inodes)).(file := Some(File(w.inodes, i, None)), inodes := w.inodes + 1)
    else To(w, i, otherwise)
  }

  /** Writing goes to the file that was opened; a failed write removes whatever is at the path. */
  function Written(w: World, pidOf: nat -> int, i: nat, stage: Stage, succeeds: bool): World
    requires stage.Writing?
  {
    if !succeeds then To(w, i, Idle).(file := None)
    else if w.file.Some? && w.file.value.inode == stage.inode then
      To(w, i, Holding(stage.createdAt, stage.inode))
      .(file := Some(w.file.value.(content := Some(LockRecord(pidOf(i), stage.createdAt)))))
    else To(w, i, Holding(stage.createdAt, stage.inode))
  }

  /** One step; a process at another stage, or not alive, does not take it. */
  function Step(w: World, pidOf: nat -> int, a: Action): World {
    if a.Start? then
      if a.i in w.procs || a.i in w.ended || IsAlive(w, pidOf, pidOf(a.i)) then w else To(w, a.i, Idle)
    else if a.i !in w.procs then w
    else
      var stage := w.procs[a.i];
      match a
      case Crash(i) => w.(procs := w.procs - {i}, ended := w.ended + {i})
      case Open(i, now) =>
        if stage.Idle? then Opened(w, i, now, Blocked(now))
        else if stage.Retrying? then Opened(w, i, stage.createdAt, Idle)
        else w
      case Write(i, succeeds) => if stage.Writing? then Written(w, pidOf, i, stage, succeeds) else w
      case Read(i) =>
        if !stage.Blocked? then w
        else if w.file.None? || w.file.value.content.None? then To(w, i, Idle)
        else To(w, i, Judging(stage.createdAt, w.file.value))
      case Judge(i) =>
        if !stage.Judging? || stage.seen.content.None? then w
        else if IsAlive(w, pidOf, stage.seen.content.value.pid) then To(w, i, Idle)
        else To(w, i, Stale(stage.createdAt, stage.seen))
      case Remove(i) =>
        if !stage.Stale? then w
        else if w.file.None? then To(w, i, Idle)
        else To(w, i, Retrying(stage.createdAt)).(file := None)
      case ReadOwn(i) =>
        if !stage.Holding? then w
        else if w.file.Some? && w.file.value.content == Some(LockRecord(pidOf(i), stage.createdAt))
        then To(w, i, Releasing(stage.createdAt, stage.inode))
        else To(w, i, Idle)
      case RemoveOwn(i) => if stage.Releasing? then To(w, i, Idle).(file := None) else w
  }

  function Stepping(pidOf: nat -> int): (World, Action) -> World {
    (w, a) => Step(w, pidOf, a)
  }

  function Fold(step: (World, Action) -> World, w: World, actions: seq<Action>): World {
    if actions == [] then w else step(Fold(step, w, actions[..|actions| - 1]), actions[|actions| - 1])
  }

  function Run(w: World, pidOf: nat -> int, actions: seq<Action>): World { Fold(Stepping(pidOf), w, actions) }

  lemma {:induction false} FoldHead(step: (World, Action) -> World, w: World, actions: seq<Action>)
    requires actions != []
    ensures Fold(step, w, actions) == Fold(step, step(w, actions[0]), actions[1..])
  {
    var n := |actions| - 1;
    if n > 0 {
      FoldHead(step, w, actions[..n]);
      assert actions[..n][1..] == actions[1..][..n - 1];
    }
  }

  lemma {:induction false} FoldJoins(step: (World, Action) -> World, w: World, a: seq<Action>, b: seq<Action>)
    ensures Fold(step, w, a + b) == Fold(step, Fold(step, w, a), b)
  {
    if b == [] {
      assert a + b == a;
    } else {
      var n := |b| - 1;
      assert (a + b)[..|a| + n] == a + b[..n];
      FoldJoins(step, w, a, b[..n]);
    }
  }

  /** What every allowed step keeps holds after a run of allowed steps. */
  lemma {:induction false} FoldKeeps(
    step: (World, Action) -> World, keeps: World -> bool, allows: (World, Action) -> bool, w: World, actions: seq<Action>)
    requires keeps(w) && forall v, a :: keeps(v) && allows(v, a) ==> keeps(step(v, a))
    requires forall k :: 0 <= k < |actions| ==> allows(Fold(step, w, actions[..k]), actions[k])
    ensures keeps(Fold(step, w, actions))
  {
    if actions != [] {
      var n := |actions| - 1;
      forall k | 0 <= k < n ensures actions[..n][..k] == actions[..k] {
      }
      FoldKeeps(step, keeps, allows, w, actions[..n]);
    }
  }

  /** The first step that is not allowed. */
  lemma {:induction false} FirstForbidden(
    step: (World, Action) -> World, allows: (World, Action) -> bool, w: World, actions: seq<Action>) returns (k: nat)
    requires !forall k :: 0 <= k < |actions| ==> allows(Fold(step, w, actions[..k]), actions[k])
    ensures k < |actions| && !allows(Fold(step, w, actions[..k]), actions[k])
    ensures forall m :: 0 <= m < k ==> allows(Fold(step, w, actions[..m]), actions[m])
  {
    var n := |actions| - 1;
    forall k | 0 <= k < n ensures actions[..n][..k] == actions[..k] {
    }
    if forall m :: 0 <= m < n ==> allows(Fold(step, w, actions[..n][..m]), actions[..n][m]) {
      k := n;
    } else {
      k := FirstForbidden(step, allows, w, actions[..n]);
    }
  }

  lemma RunHead(w: World, pidOf: nat -> int, actions: seq<Action>)
    requires actions != []
    ensures Run(w, pidOf, actions) == Run(Step(w, pidOf, actions[0]), pidOf, actions[1..])
  {
    FoldHead(Stepping(pidOf), w, actions);
  }

  lemma RunJoins(w: World, pidOf: nat -> int, a: seq<Action>, b: seq<Action>)
    ensures Run(w, pidOf, a + b) == Run(Run(w, pidOf, a), pidOf, b)
  {
    FoldJoins(Stepping(pidOf), w, a, b);
  }

  // ----- mutual exclusion -----

  predicate OwnsFile(stage: Stage) { stage.Writing? || stage.Holding? || stage.Releasing? }

  predicate Holds(w: World, i: nat) {
    i in w.procs && (w.procs[i].Holding? || w.procs[i].Releasing?)
  }

  ghost predicate MutualExclusion(w: World) {
    forall i, j :: Holds(w, i) && Holds(w, j) ==> i == j
  }

  /** The file that a process at this stage must find at the path. */
  function FileOf(pidOf: nat -> int, i: nat, stage: Stage): File
    requires OwnsFile(stage)
  {
    File(stage.inode, i, if stage.Writing? then None else Some(LockRecord(pidOf(i), stage.createdAt)))
  }

  predicate NamesOwner(pidOf: nat -> int, f: File) {
    f.content.Some? ==> f.content.value.pid == pidOf(f.owner)
  }

  predicate StageFits(w: World, pidOf: nat -> int, i: nat, stage: Stage) {
    && (OwnsFile(stage) ==> w.file == Some(FileOf(pidOf, i, stage)))
    && (stage.Judging? ==> NamesOwner(pidOf, stage.seen) && (stage.seen.owner in w.procs || stage.seen.owner in w.ended))
    && (stage.Stale? ==> stage.seen.owner in w.ended)
  }

  ghost predicate Safe(w: World, pidOf: nat -> int) {
    && w.procs.Keys !! w.ended
    && (w.file.Some? ==> NamesOwner(pidOf, w.file.value))
    && (w.file.Some? ==> w.file.value.owner in w.procs || w.file.value.owner in w.ended)
    && forall i :: i in w.procs ==> StageFits(w, pidOf, i, w.procs[i])
  }

  lemma SafeExcludes(w: World, pidOf: nat -> int)
    requires Safe(w, pidOf)
    ensures MutualExclusion(w)
  {
    forall i, j | Holds(w, i) && Holds(w, j) ensures i == j {
      assert StageFits(w, pidOf, i, w.procs[i]) && StageFits(w, pidOf, j, w.procs[j]);
    }
  }

  /** A taker is about to remove the file of a live process that writes, holds or releases the lock. */
  ghost predicate TakesLiveFile(w: World, a: Action) {
    && a.Remove? && a.i in w.procs && w.procs[a.i].Stale?
    && exists j :: j in w.procs && OwnsFile(w.procs[j])
  }

  lemma StepKeepsSafe(w: World, pidOf: nat -> int, a: Action)
    requires Safe(w, pidOf) && !TakesLiveFile(w, a)
    ensures Safe(Step(w, pidOf, a), pidOf)
  {
    var next := Step(w, pidOf, a);
    if a.i in w.procs {
      assert StageFits(w, pidOf, a.i, w.procs[a.i]);
    }
    forall j | j in next.procs ensures StageFits(next, pidOf, j, next.procs[j]) {
      if j != a.i {
        assert StageFits(w, pidOf, j, w.procs[j]);
      }
    }
  }

  /** One removal breaks safety just when it takes the file of a live owner. */
  lemma RemovalBreaksExactly(w: World, pidOf: nat -> int, i: nat)
    requires Safe(w, pidOf) && i in w.procs && w.procs[i].Stale?
    ensures Safe(Step(w, pidOf, Remove(i)), pidOf) <==> !TakesLiveFile(w, Remove(i))
  {
    var next := Step(w, pidOf, Remove(i));
    if j :| j in w.procs && OwnsFile(w.procs[j]) {
      assert StageFits(w, pidOf, j, w.procs[j]);
      assert !StageFits(next, pidOf, j, next.procs[j]);
    } else {
      StepKeepsSafe(w, pidOf, Remove(i));
    }
  }

  /** No step of the run takes the file of a live process. */
  ghost predicate TakesNoLiveFile(w: World, pidOf: nat -> int, actions: seq<Action>) {
    forall k :: 0 <= k < |actions| ==> !TakesLiveFile(Run(w, pidOf, actions[..k]), actions[k])
  }

  /**
   However creates, writes, reads, removals, releases and crashes interleave, there is never more than one
   holder, as long as no takeover removes the file of a live owner.
   */
  lemma LockIsExclusive(w: World, pidOf: nat -> int, actions: seq<Action>)
    requires Safe(w, pidOf) && TakesNoLiveFile(w, pidOf, actions)
    ensures Safe(Run(w, pidOf, actions), pidOf) && MutualExclusion(Run(w, pidOf, actions))
  {
    forall v: World, a: Action | Safe(v, pidOf) && !TakesLiveFile(v, a) ensures Safe(Stepping(pidOf)(v, a), pidOf) {
      StepKeepsSafe(v, pidOf, a);
    }
    FoldKeeps(Stepping(pidOf), v => Safe(v, pidOf), (v, a) => !TakesLiveFile(v, a), w, actions);
    SafeExcludes(Run(w, pidOf, actions), pidOf);
  }

  /** The condition is exact over whole runs: every prefix is safe just when no step takes a live process's file. */
  lemma SafetyIsExact(w: World, pidOf: nat -> int, actions: seq<Action>)
    requires Safe(w, pidOf)
    ensures (forall k :: 0 <= k <= |actions| ==> Safe(Run(w, pidOf, actions[..k]), pidOf))
            <==> TakesNoLiveFile(w, pidOf, actions)
  {
    if TakesNoLiveFile(w, pidOf, actions) {
      forall k | 0 <= k <= |actions| ensures Safe(Run(w, pidOf, actions[..k]), pidOf) {
        forall m | 0 <= m < k ensures actions[..k][..m] == actions[..m] {
        }
        LockIsExclusive(w, pidOf, actions[..k]);
      }
    } else {
      var k :| 0 <= k < |actions| && TakesLiveFile(Run(w, pidOf, actions[..k]), actions[k]);
      assert actions[..k + 1][..k] == actions[..k];
      if Safe(Run(w, pidOf, actions[..k]), pidOf) {
        RemovalBreaksExactly(Run(w, pidOf, actions[..k]), pidOf, actions[k].i);
      }
    }
  }

  /** After such a removal the taker creates its own file, and the owner it robbed does not notice. */
  lemma RemovalMakesTwoHolders(w: World, pidOf: nat -> int, i: nat, j: nat, now: int) returns (more: seq<Action>)
    requires w.file.Some? && i in w.procs && w.procs[i].Stale? && j in w.procs && OwnsFile(w.procs[j])
    ensures var after := Run(w, pidOf, [Remove(i)] + more); i != j && Holds(after, i) && Holds(after, j)
    ensures forall k :: 0 <= k < |more| ==> !more[k].Judge?
  {
    more := [Open(i, now), Write(i, true), Write(j, true)];
    var actions := [Remove(i)] + more;
    RunHead(w, pidOf, actions);
    var w1 := Step(w, pidOf, Remove(i));
    RunHead(w1, pidOf, actions[1..]);
    var w2 := Step(w1, pidOf, Open(i, now));
    RunHead(w2, pidOf, actions[2..]);
    var w3 := Step(w2, pidOf, Write(i, true));
    RunHead(w3, pidOf, actions[3..]);
  }

  /** A run that takes a live process's file has a prefix from which two processes come to hold the lock. */
  lemma LiveRemovalBreaksTheLock(w: World, pidOf: nat -> int, actions: seq<Action>, now: int)
    returns (k: nat, more: seq<Action>)
    requires Safe(w, pidOf) && !TakesNoLiveFile(w, pidOf, actions)
    ensures k <= |actions| && !MutualExclusion(Run(w, pidOf, actions[..k] + more))
  {
    k := FirstForbidden(Stepping(pidOf), (v, a) => !TakesLiveFile(v, a), w, actions);
    forall m | 0 <= m < k ensures actions[..k][..m] == actions[..m] {
    }
    LockIsExclusive(w, pidOf, actions[..k]);
    var before := Run(w, pidOf, actions[..k]);
    var j :| j in before.procs && OwnsFile(before.procs[j]);
    assert StageFits(before, pidOf, j, before.procs[j]);
    var rest := RemovalMakesTwoHolders(before, pidOf, actions[k].i, j, now);
    more := [actions[k]] + rest;
    RunJoins(w, pidOf, actions[..k], more);
  }

  // ----- at most one taker -----

  ghost predicate OneTaker(w: World) {
    forall i, j :: i in w.procs && j in w.procs && w.procs[i].Stale? && w.procs[j].Stale? ==> i == j
  }

  /** A record that is judged dead is still in place then. */
  predicate JudgesInPlace(w: World, pidOf: nat -> int, a: Action) {
    && a.Judge? && a.i in w.procs && w.procs[a.i].Judging? && w.procs[a.i].seen.content.Some?
    && !IsAlive(w, pidOf, w.procs[a.i].seen.content.value.pid)
    ==> w.file == Some(w.procs[a.i].seen)
  }

  /** A taker still has before it what it judged. */
  ghost predicate TakersSee(w: World) {
    forall i :: i in w.procs && w.procs[i].Stale? ==> w.file == Some(w.procs[i].seen)
  }

  lemma OneTakerStep(w: World, pidOf: nat -> int, a: Action)
    requires Safe(w, pidOf) && OneTaker(w) && TakersSee(w) && JudgesInPlace(w, pidOf, a)
    ensures !TakesLiveFile(w, a) && TakersSee(Step(w, pidOf, a))
  {
    var next := Step(w, pidOf, a);
    if a.i in w.procs {
      assert StageFits(w, pidOf, a.i, w.procs[a.i]);
    }
    forall j | j in w.procs
      ensures a.Remove? && a.i in w.procs && w.procs[a.i].Stale? ==> !OwnsFile(w.procs[j])
    {
      assert StageFits(w, pidOf, j, w.procs[j]);
    }
    forall i | i in next.procs && next.procs[i].Stale? ensures next.file == Some(next.procs[i].seen) {
      assert i in w.procs;
      assert StageFits(w, pidOf, i, w.procs[i]);
    }
  }

  /** With one taker at a time, and each dead record judged in its place, the lock is exclusive. */
  lemma OneTakerIsExclusive(w: World, pidOf: nat -> int, actions: seq<Action>)
    requires Safe(w, pidOf) && TakersSee(w)
    requires forall k :: 0 <= k < |actions| ==>
      OneTaker(Run(w, pidOf, actions[..k])) && JudgesInPlace(Run(w, pidOf, actions[..k]), pidOf, actions[k])
    ensures Safe(Run(w, pidOf, actions), pidOf) && TakersSee(Run(w, pidOf, actions))
    ensures MutualExclusion(Run(w, pidOf, actions))
  {
    forall v: World, a: Action | Safe(v, pidOf) && TakersSee(v) && OneTaker(v) && JudgesInPlace(v, pidOf, a)
      ensures Safe(Stepping(pidOf)(v, a), pidOf) && TakersSee(Stepping(pidOf)(v, a))
    {
      OneTakerStep(v, pidOf, a);
      StepKeepsSafe(v, pidOf, a);
    }
    FoldKeeps(Stepping(pidOf), v => Safe(v, pidOf) && TakersSee(v), (v, a) => OneTaker(v) && JudgesInPlace(v, pidOf, a),
              w, actions);
    SafeExcludes(Run(w, pidOf, actions), pidOf);
  }

  // ----- release -----

  /** A release finds its own record, and removes no other one. */
  lemma ReleaseRemovesOwn(w: World, pidOf: nat -> int, i: nat)
    requires Safe(w, pidOf) && i in w.procs
    ensures w.procs[i].Holding? ==> Step(w, pidOf, ReadOwn(i)).procs[i].Releasing?
    ensures w.procs[i].Releasing? ==> w.file == Some(FileOf(pidOf, i, w.procs[i]))
    ensures w.procs[i].Releasing? ==> Step(w, pidOf, RemoveOwn(i)).file.None?
    ensures !w.procs[i].Releasing? ==> Step(w, pidOf, RemoveOwn(i)) == w
  {
    assert StageFits(w, pidOf, i, w.procs[i]);
  }

  // ----- what goes wrong -----

  /** A file left unwritten by a process that ended, with nobody already about to remove it. */
  ghost predicate LeftUnwritten(w: World) {
    && w.file.Some? && w.file.value.content.None? && w.file.value.owner in w.ended
    && forall i :: i in w.procs ==> !OwnsFile(w.procs[i]) && !w.procs[i].Judging? && !w.procs[i].Stale?
  }

  /** That is what a crash between create and write leaves, when nobody has read an earlier record. */
  lemma CrashLeavesUnwritten(w: World, pidOf: nat -> int, i: nat)
    requires Safe(w, pidOf) && i in w.procs && w.procs[i].Writing?
    requires forall j :: j in w.procs ==> !w.procs[j].Judging? && !w.procs[j].Stale?
    ensures LeftUnwritten(Step(w, pidOf, Crash(i)))
  {
    assert StageFits(w, pidOf, i, w.procs[i]);
    forall j | j in w.procs && j != i ensures !OwnsFile(w.procs[j]) {
      assert StageFits(w, pidOf, j, w.procs[j]);
    }
  }

  lemma UnwrittenStays(w: World, pidOf: nat -> int, a: Action)
    requires LeftUnwritten(w)
    ensures LeftUnwritten(Step(w, pidOf, a)) && Step(w, pidOf, a).file == w.file
  {
  }

  /** Such a file blocks the lock for ever: no later run removes it or has a holder. */
  lemma UnwrittenBlocksForever(w: World, pidOf: nat -> int, actions: seq<Action>)
    requires LeftUnwritten(w)
    ensures var after := Run(w, pidOf, actions);
      LeftUnwritten(after) && after.file == w.file && forall i :: !Holds(after, i)
  {
    forall v: World, a: Action | LeftUnwritten(v) && v.file == w.file
      ensures LeftUnwritten(Stepping(pidOf)(v, a)) && Stepping(pidOf)(v, a).file == w.file
    {
      UnwrittenStays(v, pidOf, a);
    }
    FoldKeeps(Stepping(pidOf), v => LeftUnwritten(v) && v.file == w.file, (v, a) => true, w, actions);
  }

  /** So a crash of the writing process, and whatever follows it, leaves nobody able to hold the lock. */
  lemma CrashBlocksForever(w: World, pidOf: nat -> int, i: nat, actions: seq<Action>)
    requires Safe(w, pidOf) && i in w.procs && w.procs[i].Writing?
    requires forall j :: j in w.procs ==> !w.procs[j].Judging? && !w.procs[j].Stale?
    ensures var after := Run(w, pidOf, [Crash(i)] + actions); after.file == w.file && forall j :: !Holds(after, j)
  {
    CrashLeavesUnwritten(w, pidOf, i);
    RunHead(w, pidOf, [Crash(i)] + actions);
    assert ([Crash(i)] + actions)[1..] == actions;
    UnwrittenBlocksForever(Step(w, pidOf, Crash(i)), pidOf, actions);
  }

  /** Two processes that find the lock of a dead one. */
  function Found(dead: LockRecord): World {
    World(Some(File(0, 0, Some(dead))), map[1 := Idle, 2 := Idle], {0}, 1)
  }

  /** A process that looks at the record of a dead one. */
  lemma Judges(w: World, pidOf: nat -> int, i: nat, now: int)
    requires i in w.procs && w.procs[i].Idle? && w.file.Some? && w.file.value.content.Some?
    requires !IsAlive(w, pidOf, w.file.value.content.value.pid)
    ensures Run(w, pidOf, [Open(i, now), Read(i), Judge(i)]) == w.(procs := w.procs[i := Stale(now, w.file.value)])
  {
    LooksUninterrupted(w, pidOf, i, now);
    OnlyMoves(w, pidOf, i, now);
  }

  lemma OnlyMoves(w: World, pidOf: nat -> int, i: nat, now: int)
    requires i in w.procs && w.procs[i].Idle? && w.file.Some?
    ensures var m := Run(w, pidOf, [Open(i, now), Read(i), Judge(i)]);
      i in m.procs && m == w.(procs := w.procs[i := m.procs[i]])
  {
    var actions := [Open(i, now), Read(i), Judge(i)];
    RunHead(w, pidOf, actions);
    var w1 := Step(w, pidOf, Open(i, now));
    RunHead(w1, pidOf, actions[1..]);
    var w2 := Step(w1, pidOf, Read(i));
    RunHead(w2, pidOf, actions[2..]);
  }

  lemma BothJudge(pidOf: nat -> int, dead: LockRecord, now: int) returns (actions: seq<Action>)
    requires dead.pid == pidOf(0) && pidOf(1) != pidOf(0) && pidOf(2) != pidOf(0)
    ensures var f := File(0, 0, Some(dead));
      Run(Found(dead), pidOf, actions) == Found(dead).(procs := map[1 := Stale(now, f), 2 := Stale(now, f)])
  {
    var w := Found(dead);
    var first, second := [Open(1, now), Read(1), Judge(1)], [Open(2, now), Read(2), Judge(2)];
    Judges(w, pidOf, 1, now);
    var w1 := Run(w, pidOf, first);
    assert w1.procs == map[1 := Stale(now, w.file.value), 2 := Idle];
    Judges(w1, pidOf, 2, now);
    RunJoins(w, pidOf, first, second);
    actions := first + second;
  }

  lemma BothTake(w: World, pidOf: nat -> int, now: int) returns (actions: seq<Action>)
    requires w.file.Some? && 1 in w.procs && 2 in w.procs
    requires w.procs[1].Stale? && w.procs[2].Stale?
    ensures Holds(Run(w, pidOf, actions), 1) && Holds(Run(w, pidOf, actions), 2)
  {
    actions := [Remove(1), Open(1, now), Write(1, true), Remove(2), Open(2, now), Write(2, true)];
    RunHead(w, pidOf, actions);
    var w1 := Step(w, pidOf, Remove(1));
    RunHead(w1, pidOf, actions[1..]);
    var w2 := Step(w1, pidOf, Open(1, now));
    RunHead(w2, pidOf, actions[2..]);
    var w3 := Step(w2, pidOf, Write(1, true));
    RunHead(w3, pidOf, actions[3..]);
    var w4 := Step(w3, pidOf, Remove(2));
    RunHead(w4, pidOf, actions[4..]);
    var w5 := Step(w4, pidOf, Open(2, now));
    RunHead(w5, pidOf, actions[5..]);
  }

  /** With two takers of one dead record both can end up holding the lock. */
  lemma TwoTakersBreakTheLock(pidOf: nat -> int, dead: LockRecord, now: int) returns (actions: seq<Action>)
    requires dead.pid == pidOf(0) && pidOf(1) != pidOf(0) && pidOf(2) != pidOf(0)
    ensures Safe(Found(dead), pidOf)
    ensures Holds(Run(Found(dead), pidOf, actions), 1) && Holds(Run(Found(dead), pidOf, actions), 2)
  {
    var first := BothJudge(pidOf, dead, now);
    var second := BothTake(Run(Found(dead), pidOf, first), pidOf, now);
    RunJoins(Found(dead), pidOf, first, second);
    actions := first + second;
  }

  /** A process that holds the lock, and two that do not. */
  function HeldByFirst(pidOf: nat -> int, createdAt: int): World {
    var file := File(0, 0, Some(LockRecord(pidOf(0), createdAt)));
    World(Some(file), map[0 := Holding(createdAt, 0), 1 := Idle, 2 := Idle], {}, 1)
  }

  /** Process 1 reads the record; its owner releases and ends. */
  lemma OwnerLeaves(pidOf: nat -> int, createdAt: int, now: int)
    ensures var w := HeldByFirst(pidOf, createdAt);
      Run(w, pidOf, [Open(1, now), Read(1), ReadOwn(0), RemoveOwn(0), Crash(0)])
      == World(None, map[1 := Judging(now, w.file.value), 2 := Idle], {0}, 1)
  {
    var w, actions := HeldByFirst(pidOf, createdAt), [Open(1, now), Read(1), ReadOwn(0), RemoveOwn(0), Crash(0)];
    RunHead(w, pidOf, actions);
    var w1 := Step(w, pidOf, Open(1, now));
    RunHead(w1, pidOf, actions[1..]);
    var w2 := Step(w1, pidOf, Read(1));
    RunHead(w2, pidOf, actions[2..]);
    var w3 := Step(w2, pidOf, ReadOwn(0));
    RunHead(w3, pidOf, actions[3..]);
    var w4 := Step(w3, pidOf, RemoveOwn(0));
    RunHead(w4, pidOf, actions[4..]);
    assert w4.procs - {0} == map[1 := Judging(now, w.file.value), 2 := Idle];
  }

  /** Process 2 acquires the lock; only then does process 1 judge the record that it read. */
  lemma LateJudge(pidOf: nat -> int, createdAt: int, now: int)
    requires pidOf(1) != pidOf(0) && pidOf(2) != pidOf(0)
    ensures var f := File(0, 0, Some(LockRecord(pidOf(0), createdAt)));
      Run(World(None, map[1 := Judging(now, f), 2 := Idle], {0}, 1), pidOf, [Open(2, now), Write(2, true), Judge(1)])
      == World(Some(File(1, 2, Some(LockRecord(pidOf(2), now)))), map[1 := Stale(now, f), 2 := Holding(now, 1)], {0}, 2)
  {
    var f, actions := File(0, 0, Some(LockRecord(pidOf(0), createdAt))), [Open(2, now), Write(2, true), Judge(1)];
    var w := World(None, map[1 := Judging(now, f), 2 := Idle], {0}, 1);
    RunHead(w, pidOf, actions);
    var w1 := Step(w, pidOf, Open(2, now));
    RunHead(w1, pidOf, actions[1..]);
    var w2 := Step(w1, pidOf, Write(2, true));
    RunHead(w2, pidOf, actions[2..]);
  }

  ghost predicate TakerIs(w: World, i: nat) {
    forall j :: j in w.procs && w.procs[j].Stale? ==> j == i
  }

  /** Only a process that judges becomes a taker. */
  lemma OnlyJudgesTake(w: World, pidOf: nat -> int, actions: seq<Action>, i: nat)
    requires TakerIs(w, i) && forall k :: 0 <= k < |actions| && actions[k].Judge? ==> actions[k].i == i
    ensures TakerIs(Run(w, pidOf, actions), i)
  {
    forall v: World, a: Action | TakerIs(v, i) && (a.Judge? ==> a.i == i) ensures TakerIs(Stepping(pidOf)(v, a), i) {
      TakerStays(v, pidOf, a, i);
    }
    FoldKeeps(Stepping(pidOf), v => TakerIs(v, i), (v: World, a: Action) => a.Judge? ==> a.i == i, w, actions);
  }

  lemma TakerStays(w: World, pidOf: nat -> int, a: Action, i: nat)
    requires TakerIs(w, i) && (a.Judge? ==> a.i == i)
    ensures TakerIs(Step(w, pidOf, a), i)
  {
  }

  /**
   One taker at a time is not enough: when the owner releases between the read of its record and the look
   at the process table, a single taker ends up holding the lock beside another process.
   */
  lemma LateJudgeBreaksTheLock(pidOf: nat -> int, createdAt: int, now: int) returns (actions: seq<Action>)
    requires pidOf(1) != pidOf(0) && pidOf(2) != pidOf(0)
    ensures Safe(HeldByFirst(pidOf, createdAt), pidOf)
    ensures forall k :: 0 <= k <= |actions| ==> OneTaker(Run(HeldByFirst(pidOf, createdAt), pidOf, actions[..k]))
    ensures var after := Run(HeldByFirst(pidOf, createdAt), pidOf, actions); Holds(after, 1) && Holds(after, 2)
  {
    var w := HeldByFirst(pidOf, createdAt);
    var first := [Open(1, now), Read(1), ReadOwn(0), RemoveOwn(0), Crash(0)];
    var second := [Open(2, now), Write(2, true), Judge(1)];
    OwnerLeaves(pidOf, createdAt, now);
    LateJudge(pidOf, createdAt, now);
    RunJoins(w, pidOf, first, second);
    var more := RemovalMakesTwoHolders(Run(w, pidOf, first + second), pidOf, 1, 2, now);
    RunJoins(w, pidOf, first + second, [Remove(1)] + more);
    actions := first + second + ([Remove(1)] + more);
    forall k | 0 <= k <= |actions| ensures OneTaker(Run(w, pidOf, actions[..k])) {
      OnlyJudgesTake(w, pidOf, actions[..k], 1);
    }
  }

  // ----- one call at a time -----

  /** The path of the lock: no file, a file that is no valid record, or a record. */
  class LockPath {
    var content: Option<Option<LockRecord>>

    constructor ()
      ensures content == None
    {
      content := None;
    }
  }

  datatype Acquired = InvalidPid | Malformed | AlreadyRunning | Acquired(lock: TapLock)

  datatype Released = AlreadyReleased | Released | Missing | NoRecord | OwnershipChanged

  predicate Acquirable(content: Option<Option<LockRecord>>, isProcessAlive: int -> bool) {
    content.None? || (content.value.Some? && !isProcessAlive(content.value.value.pid))
  }

  class TapLock {
    const path: LockPath
    const record: LockRecord
    var released: bool

    constructor (path: LockPath, record: LockRecord)
      ensures this.path == path && this.record == record && !released
    {
      this.path, this.record, released := path, record, false;
    }

    /** Acts once only, and then only on its own record. */
    method Release() returns (r: Released)
      modifies this, path
      ensures released
      ensures r.AlreadyReleased? <==> old(released)
      ensures r.Released? <==> !old(released) && old(path.content) == Some(Some(record))
      ensures path.content == if r.Released? then None else old(path.content)
      ensures !old(released) ==> (r.Missing? <==> old(path.content).None?)
      ensures !old(released) ==> (r.NoRecord? <==> old(path.content) == Some(None))
    {
      if released {
        return AlreadyReleased;
      }
      released := true;
      match path.content {
        case None => return Missing;
        case Some(None) => return NoRecord;
        case Some(Some(current)) =>
          if current.pid != record.pid || current.createdAt != record.createdAt {
            return OwnershipChanged;
          }
      }
      path.content := None;
      return Released;
    }
  }

  method AcquireNeonWhatsAppTapLock(
    path: LockPath, pid: int, createdAt: int, isProcessAlive: int -> bool) returns (r: Acquired)
    modifies path
    ensures r.InvalidPid? <==> pid < 1
    ensures r.Malformed? <==> pid >= 1 && old(path.content) == Some(None)
    ensures r.Acquired? <==> pid >= 1 && Acquirable(old(path.content), isProcessAlive)
    ensures path.content == if r.Acquired? then Some(Some(LockRecord(pid, createdAt))) else old(path.content)
    ensures r.Acquired? ==> fresh(r.lock) && !r.lock.released
    ensures r.Acquired? ==> r.lock.path == path && r.lock.record == LockRecord(pid, createdAt)
  {
    if pid < 1 {
      return InvalidPid;
    }
    var record := LockRecord(pid, createdAt);
    if path.content.Some? {
      if path.content.value.None? {
        return Malformed;
      }
      var existing := path.content.value.value;
      if isProcessAlive(existing.pid) {
        return AlreadyRunning;
      }
      path.content := None;
    }
    path.content := Some(Some(record));
    var lock := new TapLock(path, record);
    return Acquired(lock);
  }

  function ContentOf(file: Option<File>): Option<Option<LockRecord>> {
    if file.None? then None else Some(file.value.content)
  }

  lemma LooksUninterrupted(w: World, pidOf: nat -> int, i: nat, now: int)
    requires i in w.procs && w.procs[i].Idle?
    ensures var m := Run(w, pidOf, [Open(i, now), Read(i), Judge(i)]);
      && i in m.procs
      && if w.file.None? then m.file == Some(File(w.inodes, i, None)) && m.procs[i] == Writing(now, w.inodes)
         else m.file == w.file
              && var acquires := Acquirable(ContentOf(w.file), pid => IsAlive(w, pidOf, pid));
                 m.procs[i] == if acquires then Stale(now, w.file.value) else Idle
  {
    var actions := [Open(i, now), Read(i), Judge(i)];
    RunHead(w, pidOf, actions);
    var w1 := Step(w, pidOf, Open(i, now));
    RunHead(w1, pidOf, actions[1..]);
    var w2 := Step(w1, pidOf, Read(i));
    RunHead(w2, pidOf, actions[2..]);
    assert forall pid :: IsAlive(w, pidOf, pid) <==> IsAlive(w2, pidOf, pid);
  }

  lemma TakesUninterrupted(m: World, pidOf: nat -> int, i: nat, now: int)
    requires i in m.procs && m.file.Some?
    requires m.procs[i].Idle? || m.procs[i] == Stale(now, m.file.value) || m.procs[i] == Writing(now, m.file.value.inode)
    ensures var after := Run(m, pidOf, [Remove(i), Open(i, now), Write(i, true)]);
      && (Holds(after, i) <==> !m.procs[i].Idle?)
      && ContentOf(after.file) == if m.procs[i].Idle? then ContentOf(m.file) else Some(Some(LockRecord(pidOf(i), now)))
  {
    var actions := [Remove(i), Open(i, now), Write(i, true)];
    RunHead(m, pidOf, actions);
    var w1 := Step(m, pidOf, Remove(i));
    RunHead(w1, pidOf, actions[1..]);
    var w2 := Step(w1, pidOf, Open(i, now));
    RunHead(w2, pidOf, actions[2..]);
  }

  /** The steps of one process that nobody interrupts do what a call does. */
  lemma UninterruptedAcquire(w: World, pidOf: nat -> int, i: nat, now: int)
    requires i in w.procs && w.procs[i].Idle?
    ensures var after := Run(w, pidOf, [Open(i, now), Read(i), Judge(i)] + [Remove(i), Open(i, now), Write(i, true)]);
      var acquires := Acquirable(ContentOf(w.file), pid => IsAlive(w, pidOf, pid));
      && (Holds(after, i) <==> acquires)
      && ContentOf(after.file) == if acquires then Some(Some(LockRecord(pidOf(i), now))) else ContentOf(w.file)
  {
    var first, second := [Open(i, now), Read(i), Judge(i)], [Remove(i), Open(i, now), Write(i, true)];
    LooksUninterrupted(w, pidOf, i, now);
    TakesUninterrupted(Run(w, pidOf, first), pidOf, i, now);
    RunJoins(w, pidOf, first, second);
  }

  /** A create whose write fails leaves no file and no claim, so that any process of the moment can have the lock. */
  lemma FailedWriteFreesThePath(w: World, pidOf: nat -> int, i: nat, j: nat, now: int)
    requires i in w.procs && w.procs[i].Writing?
    requires j == i || (j in w.procs && w.procs[j].Idle?)
    ensures var failed := Run(w, pidOf, [Write(i, false)]);
      && failed == w.(file := None, procs := w.procs[i := Idle])
      && Holds(Run(failed, pidOf, [Open(j, now), Read(j), Judge(j)] + [Remove(j), Open(j, now), Write(j, true)]), j)
  {
    RunHead(w, pidOf, [Write(i, false)]);
    var failed := Run(w, pidOf, [Write(i, false)]);
    assert [Write(i, false)][1..] == [];
    UninterruptedAcquire(failed, pidOf, j, now);
  }

  /** A taker whose file is gone, or whose second create meets a new file, gives up and leaves everything as it is. */
  lemma BeatenTakerGivesUp(w: World, pidOf: nat -> int, i: nat, now: int)
    requires i in w.procs
    ensures w.procs[i].Stale? && w.file.None? ==> Step(w, pidOf, Remove(i)) == w.(procs := w.procs[i := Idle])
    ensures w.procs[i].Retrying? && w.file.Some? ==> Step(w, pidOf, Open(i, now)) == w.(procs := w.procs[i := Idle])
  {
  }
}
