/** Quotients of products, for the places in a ring and the expiries of a timer. */

module Multiples {

  lemma QuotientIs(n: nat, d: nat, q: nat)
    requires q * d <= n < (q + 1) * d
    ensures d > 0 && q == n / d
  {
    assert (q + 1) * d == q * d + d;
    var q' := n / d;
    assert q' * d <= n < q' * d + d;
    if q' < q { OneMultipleMore(q', q, d); }
    if q < q' { OneMultipleMore(q, q', d); }
  }

  lemma OneMultipleMore(a: int, b: int, d: nat)
    requires a < b
    ensures b * d >= a * d + d
  {
    var k := b - a - 1;
    assert b * d == a * d + d + k * d;
    assert k * d >= 0;
  }
}
