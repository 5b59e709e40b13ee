/** A scan over minutes for the first hit, and what skipping part of it leaves unchanged. */
module MinuteScan {
  import opened Wrappers

  /** The first hit from t on, none past the deadline or once a stop is met. */
  function Scan(hit: int -> bool, stop: int -> bool, t: int, deadline: int): Option<int>
    decreases deadline - t
  {
    if t > deadline then None
    else if hit(t) then Some(t)
    else if stop(t) then None
    else Scan(hit, stop, t + 60_000, deadline)
  }

  ghost predicate OnGrid(t: int, x: int) { t <= x && (x - t) % 60_000 == 0 }

  /** x is a hit, and every earlier grid point is not. */
  ghost predicate IsFirstHit(hit: int -> bool, t: int, deadline: int, x: int) {
    OnGrid(t, x) && x <= deadline && hit(x) && forall w :: OnGrid(t, w) && w < x ==> !hit(w)
  }

  /** Some grid point stops the scan before any hit. */
  ghost predicate Stopped(hit: int -> bool, stop: int -> bool, t: int, deadline: int) {
    exists x :: OnGrid(t, x) && x <= deadline && stop(x) && !hit(x) && forall w :: OnGrid(t, w) && w < x ==> !hit(w)
  }

  /** From one grid point to the next. */
  lemma GridStep(t: int, x: int)
    ensures OnGrid(t + 60_000, x) <==> OnGrid(t, x) && x != t
  {
    assert (x - (t + 60_000)) % 60_000 == (x - t) % 60_000;
  }

  lemma {:induction false} ScanOver(hit: int -> bool, stop: int -> bool, t: int, t': int, deadline: int)
    requires OnGrid(t, t')
    requires forall x :: OnGrid(t, x) && x < t' ==> !hit(x) && !stop(x)
    ensures Scan(hit, stop, t, deadline) == Scan(hit, stop, t', deadline)
    decreases t' - t
  {
    if t < t' && t <= deadline {
      assert OnGrid(t, t);
      GridStep(t, t');
      forall x | OnGrid(t + 60_000, x) && x < t' ensures !hit(x) && !stop(x) {
        GridStep(t, x);
      }
      ScanOver(hit, stop, t + 60_000, t', deadline);
    }
  }

  /** Without stops the scan finds exactly the first hit. */
  lemma {:induction false} ScanFindsFirst(hit: int -> bool, stop: int -> bool, t: int, deadline: int)
    requires forall x :: OnGrid(t, x) && x <= deadline && stop(x) ==> hit(x)
    ensures var r := Scan(hit, stop, t, deadline);
      match r
      case Some(x) => IsFirstHit(hit, t, deadline, x)
      case None => forall x :: OnGrid(t, x) && x <= deadline ==> !hit(x)
    decreases deadline - t
  {
    if t <= deadline && !hit(t) {
      assert OnGrid(t, t);
      forall x ensures OnGrid(t + 60_000, x) <==> OnGrid(t, x) && x != t {
        GridStep(t, x);
      }
      ScanFindsFirst(hit, stop, t + 60_000, deadline);
    }
  }

  /** Stops cost the scan its answer, and only its answer. */
  lemma {:induction false} ScanStopped(hit: int -> bool, stop: int -> bool, t: int, deadline: int)
    ensures Stopped(hit, stop, t, deadline) ==> Scan(hit, stop, t, deadline) == None
    ensures !Stopped(hit, stop, t, deadline) ==>
              Scan(hit, stop, t, deadline) == Scan(hit, _ => false, t, deadline)
    decreases deadline - t
  {
    if t <= deadline && !hit(t) {
      assert OnGrid(t, t);
      forall x ensures OnGrid(t + 60_000, x) <==> OnGrid(t, x) && x != t {
        GridStep(t, x);
      }
      if stop(t) {
        assert Stopped(hit, stop, t, deadline);
      } else {
        ScanStopped(hit, stop, t + 60_000, deadline);
      }
    }
  }

  lemma {:induction false} ScanIsNotEarlier(hit: int -> bool, stop: int -> bool, t: int, deadline: int)
    ensures var r := Scan(hit, stop, t, deadline); r.Some? ==> t <= r.value <= deadline
    decreases deadline - t
  {
    if t <= deadline && !hit(t) && !stop(t) {
      ScanIsNotEarlier(hit, stop, t + 60_000, deadline);
    }
  }
}
