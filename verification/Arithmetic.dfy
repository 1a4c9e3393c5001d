/** Division facts the other modules lean on. */
module Arithmetic {

  lemma {:induction false} Scale(x: nat, y: nat, d: nat)
    ensures x < y ==> x * d + d <= y * d
  {
    if x < y {
      assert y * d == (y - 1) * d + d;
      Scale(x, y - 1, d);
    }
  }

  lemma QuotientIs(a: nat, d: nat, q: nat, r: nat)
    requires r < d && a == q * d + r
    ensures a / d == q && a % d == r
  {
    Scale(q, a / d, d);
    Scale(a / d, q, d);
    assert a == (a / d) * d + a % d;
  }
}
