/**
 The canary tap as a reconnect state machine (src/channels/whatsappCanaryTap.ts). One event is one stretch of
 the program between two awaits: a socket or timer callback, the end of a reconnect delay, a failed save of
 credentials, an operator's close, the end of the queues and of the lock release.
 */
module WhatsAppCanaryTap {
  import opened Wrappers

  const DEFAULT_MAX_RECONNECTS := 3
  const MAXIMUM_RECONNECTS := 10

  datatype Reason = Operator | ReconnectExhausted | TransportError

  datatype Ready = Unsettled | Resolved | Rejected

  datatype Ending = Running | Draining(reason: Reason) | Releasing(reason: Reason) | Closed(reason: Reason)

  /**
   Sockets are numbered by the calls that open them; live are those created and not closed. pending counts
   reconnect delays under way. settles, releases and closes are the calls on ready, on the lock and on closed.
   */
  datatype Tap = Tap(
    stopped: bool,
    ready: Ready,
    socket: Option<nat>,
    timer: Option<nat>,
    pending: nat,
    ending: Ending,
    reconnects: nat,
    errors: nat,
    opens: nat,
    live: set<nat>,
    settles: nat,
    releases: nat,
    closes: seq<Reason>)

  datatype Event =
    | ConnectionOpen(socket: nat)
    | ConnectionClose(socket: nat)
    | TimedOut(socket: nat)
    | DelayElapsed(opens: bool)
    | CredentialsFailed
    | Close
    | Drained
    | LockReleased(succeeds: bool)

  const NEW := Tap(false, Unsettled, None, None, 0, Running, 0, 0, 0, {}, 0, 0, [])

  // ----- the pieces -----

  function Settle(t: Tap, ready: Ready): Tap {
    if t.ready.Unsettled? then t.(ready := ready, settles := t.settles + 1) else t
  }

  function Opened(t: Tap, succeeds: bool): Tap {
    if succeeds then t.(socket := Some(t.opens), timer := Some(t.opens), live := t.live + {t.opens}, opens := t.opens + 1)
    else t.(opens := t.opens + 1)
  }

  /** Without a current socket and its timer. */
  function Dropped(t: Tap): Tap {
    t.(timer := None, socket := None, live := if t.socket.Some? then t.live - {t.socket.value} else t.live)
  }

  function Finalized(t: Tap, reason: Reason): Tap {
    if !t.ending.Running? then t else Dropped(t).(stopped := true, ending := Draining(reason))
  }

  function Rescheduled(t: Tap, max: int): Tap {
    if t.stopped then t
    else if t.reconnects >= max then Finalized(Settle(t, Rejected), ReconnectExhausted)
    else t.(reconnects := t.reconnects + 1, pending := t.pending + 1)
  }

  function Disconnected(t: Tap, socket: nat, max: int): Tap {
    if t.stopped || t.socket != Some(socket) then t else Rescheduled(Dropped(t), max)
  }

  // ----- one event -----

  function Handle(t: Tap, e: Event, max: int): Tap {
    match e
    case ConnectionOpen(s) => if t.stopped || t.socket != Some(s) then t else Settle(t.(timer := None), Resolved)
    case ConnectionClose(s) => Disconnected(t, s, max)
    case TimedOut(s) => if t.timer == Some(s) then Disconnected(t, s, max) else t
    case DelayElapsed(opens) =>
      if t.pending == 0 then t
      else
        var u := t.(pending := t.pending - 1);
        if t.stopped then u
        else if opens then Opened(u, true)
        else Rescheduled(Opened(u, false).(errors := u.errors + 1), max)
    case CredentialsFailed => Finalized(t.(errors := t.errors + 1), TransportError)
    case Close => Finalized(t, Operator)
    case Drained =>
      if t.ending.Draining?
      then Settle(t, Rejected).(releases := t.releases + 1, ending := Releasing(t.ending.reason)) else t
    case LockReleased(succeeds) =>
      if t.ending.Releasing? then
        t.(errors := t.errors + (if succeeds then 0 else 1), ending := Closed(t.ending.reason),
           closes := if t.closes == [] then [t.ending.reason] else t.closes)
      else t
  }

  function Run(events: seq<Event>, max: int): Tap {
    if events == [] then Opened(NEW, true) else Handle(Run(events[..|events| - 1], max), events[|events| - 1], max)
  }

  // ----- the tap itself -----

  class CanaryTap {
    const maxReconnects: int
    var stopped: bool
    var ready: Ready
    var currentSocket: Option<nat>
    var currentConnectionTimer: Option<nat>
    var pending: nat
    var ending: Ending
    var reconnects: nat
    var errors: nat
    var opens: nat
    var live: set<nat>
    var settles: nat
    var releases: nat
    var closes: seq<Reason>

    ghost function State(): Tap
      reads this
    {
      Tap(stopped, ready, currentSocket, currentConnectionTimer, pending, ending, reconnects, errors, opens, live,
          settles, releases, closes)
    }

    /** A tap whose first socket opens; without one, starting fails and there is no tap. */
    constructor (maxReconnects: int)
      requires 0 <= maxReconnects <= MAXIMUM_RECONNECTS
      ensures this.maxReconnects == maxReconnects && State() == Opened(NEW, true)
    {
      this.maxReconnects := maxReconnects;
      stopped, ready, pending, ending := false, Unsettled, 0, Running;
      reconnects, errors, settles, releases, closes := 0, 0, 0, 0, [];
      currentSocket, currentConnectionTimer, live, opens := Some(0), Some(0), {0}, 1;
    }

    method OpenSocket(succeeds: bool) returns (works: bool)
      modifies this
      ensures works == succeeds && State() == Opened(old(State()), succeeds)
    {
      var socket := opens;
      opens := opens + 1;
      if !succeeds {
        return false;
      }
      live := live + {socket};
      currentSocket := Some(socket);
      currentConnectionTimer := Some(socket);
      return true;
    }

    method SettleReady(value: Ready)
      modifies this
      ensures State() == Settle(old(State()), value)
    {
      if ready.Unsettled? {
        ready := value;
        settles := settles + 1;
      }
    }

    method Finalize(reason: Reason)
      modifies this
      ensures State() == Finalized(old(State()), reason)
    {
      if !ending.Running? {
        return;
      }
      stopped := true;
      currentConnectionTimer := None;
      if currentSocket.Some? {
        live := live - {currentSocket.value};
        currentSocket := None;
      }
      ending := Draining(reason);
    }

    method ScheduleReconnect()
      modifies this
      ensures State() == Rescheduled(old(State()), maxReconnects)
    {
      if stopped {
        return;
      }
      if reconnects >= maxReconnects {
        SettleReady(Rejected);
        Finalize(ReconnectExhausted);
        return;
      }
      reconnects := reconnects + 1;
      pending := pending + 1;
    }

    method DisconnectAndReconnect(socket: nat)
      modifies this
      ensures State() == Disconnected(old(State()), socket, maxReconnects)
    {
      if stopped || Some(socket) != currentSocket {
        return;
      }
      currentConnectionTimer := None;
      currentSocket := None;
      live := live - {socket};
      ScheduleReconnect();
    }

    method OnConnectionUpdate(socket: nat, open: bool)
      modifies this
      ensures var e := if open then ConnectionOpen(socket) else ConnectionClose(socket);
        State() == Handle(old(State()), e, maxReconnects)
    {
      if Some(socket) != currentSocket || stopped {
        return;
      }
      if open {
        currentConnectionTimer := None;
        SettleReady(Resolved);
      } else {
        DisconnectAndReconnect(socket);
      }
    }

    method OnConnectionTimeout(socket: nat)
      modifies this
      ensures State() == Handle(old(State()), TimedOut(socket), maxReconnects)
    {
      if currentConnectionTimer == Some(socket) {
        DisconnectAndReconnect(socket);
      }
    }

    /** The rest of scheduleReconnect, after its delay. */
    method OnDelayElapsed(socketOpens: bool)
      modifies this
      ensures State() == Handle(old(State()), DelayElapsed(socketOpens), maxReconnects)
    {
      if pending == 0 {
        return;
      }
      pending := pending - 1;
      if stopped {
        return;
      }
      var works := OpenSocket(socketOpens);
      if !works {
        errors := errors + 1;
        ScheduleReconnect();
      }
    }

    method OnCredentialsFailed()
      modifies this
      ensures State() == Handle(old(State()), CredentialsFailed, maxReconnects)
    {
      errors := errors + 1;
      Finalize(TransportError);
    }

    method CloseTap()
      modifies this
      ensures State() == Handle(old(State()), Close, maxReconnects)
    {
      Finalize(Operator);
    }

    /** The rest of finalize, once the queues are empty. */
    method OnDrained()
      modifies this
      ensures State() == Handle(old(State()), Drained, maxReconnects)
    {
      if !ending.Draining? {
        return;
      }
      SettleReady(Rejected);
      releases := releases + 1;
      ending := Releasing(ending.reason);
    }

    method OnLockReleased(succeeds: bool)
      modifies this
      ensures State() == Handle(old(State()), LockReleased(succeeds), maxReconnects)
    {
      if !ending.Releasing? {
        return;
      }
      if !succeeds {
        errors := errors + 1;
      }
      if closes == [] {
        closes := [ending.reason];
      }
      ending := Closed(ending.reason);
    }
  }

  /** Starting fails for a budget out of bounds, or when the first socket does not open; the lock is released then. */
  method StartNeonWhatsAppCanaryTap(maxReconnects: Option<int>, opens: bool) returns (tap: CanaryTap?, lockReleased: bool)
    ensures var max := if maxReconnects.Some? then maxReconnects.value else DEFAULT_MAX_RECONNECTS;
      && (tap != null <==> 0 <= max <= MAXIMUM_RECONNECTS && opens)
      && (tap != null ==> fresh(tap) && tap.maxReconnects == max && tap.State() == Run([], max))
      && (lockReleased <==> 0 <= max <= MAXIMUM_RECONNECTS && !opens)
  {
    var max := if maxReconnects.Some? then maxReconnects.value else DEFAULT_MAX_RECONNECTS;
    if max < 0 || max > MAXIMUM_RECONNECTS {
      return null, false;
    }
    if !opens {
      return null, true;
    }
    tap := new CanaryTap(max);
    lockReleased := false;
  }

  // ----- what holds after every run of events -----

  predicate Invariant(t: Tap, max: int) {
    && (t.stopped <==> !t.ending.Running?)
    && t.reconnects <= max && t.opens + t.pending <= t.reconnects + 1
    && t.pending <= 1
    && (!t.stopped ==> (t.socket.Some? <==> t.pending == 0))
    && (t.stopped ==> t.socket.None?)
    && (t.timer.Some? ==> t.timer == t.socket)
    && t.live == (if t.socket.Some? then {t.socket.value} else {})
    && (t.socket.Some? ==> t.socket.value < t.opens)
    && t.settles == (if t.ready.Unsettled? then 0 else 1)
    && (t.ending.Releasing? || t.ending.Closed? ==> !t.ready.Unsettled?)
    && t.releases == (if t.ending.Releasing? || t.ending.Closed? then 1 else 0)
    && t.closes == if t.ending.Closed? then [t.ending.reason] else []
  }

  lemma HandleKeepsInvariant(t: Tap, e: Event, max: int)
    requires 0 <= max && Invariant(t, max)
    ensures Invariant(Handle(t, e, max), max)
  {
  }

  lemma {:induction false} RunKeepsInvariant(events: seq<Event>, max: int)
    requires 0 <= max
    ensures Invariant(Run(events, max), max)
  {
    if events != [] {
      RunKeepsInvariant(events[..|events| - 1], max);
      HandleKeepsInvariant(Run(events[..|events| - 1], max), events[|events| - 1], max);
    }
  }

  /** After any interleaving of events. */
  lemma TapIsBounded(events: seq<Event>, max: int)
    requires 0 <= max
    ensures var t := Run(events, max);
      && t.opens <= max + 1 && t.reconnects <= max
      && !(t.socket.Some? && t.pending > 0) && t.pending <= 1
      && (t.stopped ==> t.socket.None? && t.timer.None?)
      && |t.live| <= 1 && (t.stopped ==> t.live == {})
      && t.settles <= 1 && t.releases <= 1 && |t.closes| <= 1
  {
    RunKeepsInvariant(events, max);
  }

  /** A tap that runs on has either a socket or one reconnect under way. */
  lemma RunningTapTries(events: seq<Event>, max: int)
    requires 0 <= max && !Run(events, max).stopped
    ensures var t := Run(events, max); t.socket.Some? <==> t.pending == 0
  {
    RunKeepsInvariant(events, max);
  }

  /** Still stopped, for the same reason, and without a new socket or reconnect. */
  predicate StaysStopped(before: Tap, now: Tap) {
    && now.stopped && now.opens == before.opens && now.reconnects == before.reconnects
    && !before.ending.Running? && !now.ending.Running? && now.ending.reason == before.ending.reason
  }

  lemma StoppedStep(before: Tap, t: Tap, e: Event, max: int)
    requires StaysStopped(before, t)
    ensures StaysStopped(before, Handle(t, e, max))
  {
  }

  lemma {:induction false} StoppedRun(events: seq<Event>, n: nat, max: int, before: Tap)
    requires n <= |events| && before == Run(events[..n], max) && StaysStopped(before, before)
    ensures StaysStopped(before, Run(events, max))
  {
    if n == |events| {
      assert events[..n] == events;
    } else {
      var m := |events| - 1;
      assert events[..m][..n] == events[..n];
      StoppedRun(events[..m], n, max, before);
      StoppedStep(before, Run(events[..m], max), events[m], max);
    }
  }

  /** Once stopped, a tap opens nothing more, and the reason it stopped for is the one it closes with. */
  lemma StopIsFinal(events: seq<Event>, n: nat, max: int)
    requires 0 <= max && n <= |events| && Run(events[..n], max).stopped
    ensures var before, now := Run(events[..n], max), Run(events, max);
      && StaysStopped(before, now)
      && now.closes == if now.ending.Closed? then [before.ending.reason] else []
  {
    RunKeepsInvariant(events[..n], max);
    RunKeepsInvariant(events, max);
    StoppedRun(events, n, max, Run(events[..n], max));
  }

  /** The socket that fails with this event, or the reconnect that does. */
  predicate LosesConnection(t: Tap, e: Event) {
    || (e.ConnectionClose? && t.socket == Some(e.socket))
    || (e.TimedOut? && t.timer == Some(e.socket))
    || (e.DelayElapsed? && !e.opens && t.pending > 0)
  }

  /** What stops a running tap, and for which reason. */
  lemma StopReason(t: Tap, e: Event, max: int, reason: Reason)
    requires Invariant(t, max) && !t.stopped
    ensures var u := Handle(t, e, max);
      u.stopped && u.ending == Draining(reason)
      <==> match reason
           case Operator => e.Close?
           case TransportError => e.CredentialsFailed?
           case ReconnectExhausted => LosesConnection(t, e) && t.reconnects == max
  {
  }

  /** When the queues have drained and the lock is released, ready is settled and closed has the reason. */
  lemma StoppedTapCloses(events: seq<Event>, max: int, succeeds: bool)
    requires 0 <= max && Run(events, max).ending.Draining?
    ensures var t := Run(events + [Drained, LockReleased(succeeds)], max);
      t.closes == [Run(events, max).ending.reason] && t.releases == 1 && t.settles == 1 && t.live == {}
  {
    var all := events + [Drained, LockReleased(succeeds)];
    assert all[..|events| + 1] == events + [Drained];
    assert (events + [Drained])[..|events|] == events;
    RunKeepsInvariant(events, max);
    RunKeepsInvariant(all, max);
  }

  // ----- how ready settles, over whole runs -----

  /** The state before event i. */
  function Before(events: seq<Event>, i: nat, max: int): Tap
    requires i <= |events|
  {
    Run(events[..i], max)
  }

  /** The current socket of a running tap reports an open connection. */
  predicate Accepts(t: Tap, e: Event) { !t.stopped && e.ConnectionOpen? && t.socket == Some(e.socket) }

  /** A running tap loses its connection with its budget spent, or the queues of a stopped one are empty. */
  predicate GivesUp(t: Tap, e: Event, max: int) {
    || (!t.stopped && LosesConnection(t, e) && t.reconnects >= max)
    || (t.ending.Draining? && e.Drained?)
  }

  /** Event i meets a tap that is still unsettled, and resolves it. */
  predicate ResolvesAt(events: seq<Event>, i: nat, max: int)
    requires i < |events|
  {
    Before(events, i, max).ready.Unsettled? && Accepts(Before(events, i, max), events[i])
  }

  /** Event i meets a tap that is still unsettled, and rejects it. */
  predicate RejectsAt(events: seq<Event>, i: nat, max: int)
    requires i < |events|
  {
    Before(events, i, max).ready.Unsettled? && GivesUp(Before(events, i, max), events[i], max)
  }

  predicate Resolves(events: seq<Event>, max: int) { exists i :: 0 <= i < |events| && ResolvesAt(events, i, max) }

  predicate Rejects(events: seq<Event>, max: int) { exists i :: 0 <= i < |events| && RejectsAt(events, i, max) }

  lemma ReadyStep(t: Tap, e: Event, max: int)
    requires Invariant(t, max)
    ensures Handle(t, e, max).ready
            == if !t.ready.Unsettled? then t.ready
               else if Accepts(t, e) then Resolved
               else if GivesUp(t, e, max) then Rejected
               else Unsettled
  {
  }

  lemma OneMoreEvent(events: seq<Event>, max: int)
    requires events != []
    ensures var n := |events| - 1;
      && (Resolves(events, max) <==> Resolves(events[..n], max) || ResolvesAt(events, n, max))
      && (Rejects(events, max) <==> Rejects(events[..n], max) || RejectsAt(events, n, max))
  {
    var n := |events| - 1;
    assert forall i :: 0 <= i < n ==> events[..n][..i] == events[..i];
    assert forall i :: 0 <= i < n ==> ResolvesAt(events[..n], i, max) == ResolvesAt(events, i, max);
    assert forall i :: 0 <= i < n ==> RejectsAt(events[..n], i, max) == RejectsAt(events, i, max);
  }

  /**
   Ready is resolved exactly by a connection that opens on the current socket of a running tap, and rejected exactly
   by a budget that runs out, or queues that drain, before that.
   */
  lemma {:induction false} ReadyByHistory(events: seq<Event>, max: int)
    requires 0 <= max
    ensures Run(events, max).ready == Resolved <==> Resolves(events, max)
    ensures Run(events, max).ready == Rejected <==> Rejects(events, max)
  {
    if events != [] {
      var n := |events| - 1;
      ReadyByHistory(events[..n], max);
      OneMoreEvent(events, max);
      RunKeepsInvariant(events[..n], max);
      ReadyStep(Before(events, n, max), events[n], max);
    }
  }

  /** The socket has been opened, and its timer is off. */
  predicate IsUntimed(t: Tap, s: nat) { s < t.opens && t.timer != Some(s) }

  lemma StepUntimed(t: Tap, e: Event, max: int, s: nat)
    requires IsUntimed(t, s)
    ensures IsUntimed(Handle(t, e, max), s)
  {
  }

  lemma {:induction false} StaysUntimed(events: seq<Event>, n: nat, max: int, s: nat)
    requires 0 <= max && n <= |events| && IsUntimed(Before(events, n, max), s)
    ensures IsUntimed(Run(events, max), s)
  {
    if n == |events| {
      assert events[..n] == events;
    } else {
      var m := |events| - 1;
      assert events[..m][..n] == events[..n];
      StaysUntimed(events[..m], n, max, s);
      StepUntimed(Run(events[..m], max), events[m], max, s);
    }
  }

  /** A socket whose connection has opened never times out, whatever comes later. */
  lemma OpenedNeverTimesOut(events: seq<Event>, n: nat, max: int)
    requires 0 <= max && n < |events| && Accepts(Before(events, n, max), events[n])
    ensures Run(events + [TimedOut(events[n].socket)], max) == Run(events, max)
  {
    var s := events[n].socket;
    RunKeepsInvariant(events[..n], max);
    assert events[..n + 1][..n] == events[..n];
    StaysUntimed(events, n + 1, max, s);
    assert (events + [TimedOut(s)])[..|events|] == events;
  }

  /** A loss within the budget leaves no socket and one more reconnect under way. */
  lemma LossReconnects(t: Tap, e: Event, max: int)
    requires Invariant(t, max) && !t.stopped && LosesConnection(t, e) && t.reconnects < max
    ensures Handle(t, e, max)
            == t.(socket := None, timer := None, live := {}, pending := 1, reconnects := t.reconnects + 1,
                  opens := if e.DelayElapsed? then t.opens + 1 else t.opens,
                  errors := if e.DelayElapsed? then t.errors + 1 else t.errors)
  {
  }

  /** A reconnect that works leaves one live socket, which is new and has its timer on. */
  lemma ReconnectWorks(t: Tap, max: int)
    requires Invariant(t, max) && !t.stopped && t.pending > 0
    ensures Handle(t, DelayElapsed(true), max)
            == t.(socket := Some(t.opens), timer := Some(t.opens), live := {t.opens}, pending := 0, opens := t.opens + 1)
  {
  }

  /** Of a socket that is not the current one, or of a stopped tap, no callback has any effect. */
  lemma StaleCallbacksAreIgnored(t: Tap, s: nat, max: int)
    requires Invariant(t, max) && (t.stopped || t.socket != Some(s))
    ensures Handle(t, ConnectionOpen(s), max) == Handle(t, ConnectionClose(s), max) == Handle(t, TimedOut(s), max) == t
  {
  }

  /** The errors recorded by one event. */
  function ErrorOf(t: Tap, e: Event): nat {
    if || e.CredentialsFailed?
       || (e.DelayElapsed? && !e.opens && !t.stopped && t.pending > 0)
       || (e.LockReleased? && !e.succeeds && t.ending.Releasing?)
    then 1 else 0
  }

  /** One error for each failed save, failed reconnect and failed lock release. */
  lemma ErrorStep(t: Tap, e: Event, max: int)
    ensures Handle(t, e, max).errors == t.errors + ErrorOf(t, e)
  {
  }

  // ----- reconnect delays -----

  function ReconnectDelayMs(attempt: nat): int {
    var delay := 250 * Pow2(if attempt == 0 then 0 else attempt - 1);
    if delay <= 5_000 then delay else 5_000
  }

  function Pow2(n: nat): (r: nat)
    ensures r >= 1
  {
    if n == 0 then 1 else 2 * Pow2(n - 1)
  }

  /** The first delay is a quarter of a second; each next one is twice as long, up to five seconds. */
  lemma DelaysDouble(attempt: nat)
    ensures ReconnectDelayMs(0) == ReconnectDelayMs(1) == 250
    ensures attempt > 0 ==>
      var doubled := 2 * ReconnectDelayMs(attempt);
      ReconnectDelayMs(attempt + 1) == if doubled <= 5_000 then doubled else 5_000
  {
  }

  lemma {:induction false} DelaysGrow(a: nat, b: nat)
    requires a <= b
    ensures 250 <= ReconnectDelayMs(a) <= ReconnectDelayMs(b) <= 5_000
  {
    PowersGrow(if a == 0 then 0 else a - 1, if b == 0 then 0 else b - 1);
  }

  lemma {:induction false} PowersGrow(a: nat, b: nat)
    requires a <= b
    ensures Pow2(a) <= Pow2(b)
  {
    if a < b {
      PowersGrow(a, b - 1);
    }
  }
}
