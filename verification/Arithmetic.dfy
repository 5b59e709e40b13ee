/** Division facts shared by the schedule modules. */
module Arithmetic {

  lemma DivModUnique(a: int, q: int, r: int, d: int)
    requires d > 0 && 0 <= r < d && a == q * d + r
    ensures a / d == q && a % d == r
  {
    var q', r' := a / d, a % d;
    assert a == q' * d + r';
    Spread(q, q', d);
    Spread(q', q, d);
  }

  lemma {:induction false} Spread(p: int, q: int, d: int)
    requires d > 0
    ensures p < q ==> p * d + d <= q * d
    decreases q - p
  {
    if p + 1 < q {
      Spread(p, q - 1, d);
      assert (q - 1) * d + d == q * d;
    } else if p + 1 == q {
      assert (p + 1) * d == p * d + d;
    }
  }

  lemma ModShift(a: int, k: int, d: int)
    requires d > 0
    ensures (a + k * d) % d == a % d
  {
    assert a + k * d == (a / d + k) * d + a % d;
    DivModUnique(a + k * d, a / d + k, a % d, d);
  }

  /** Past a multiple of d, the next multiple is d away. */
  lemma NextMultiple(a: int, b: int, d: int)
    requires d > 0 && a % d == 0 && a < b
    ensures (a + d) % d == 0
    ensures b % d == 0 ==> a + d <= b
  {
    ModShift(a, 1, d);
    if b < a + d {
      DivModUnique(b, a / d, b - a, d);
    }
  }
}
