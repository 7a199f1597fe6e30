// Powers of two, and order facts about natural-number quotients.
module Arithmetic {

  const WORD := 0x1_0000_0000

  function Pow2(n: nat): nat
  {
    if n == 0 then 1 else 2 * Pow2(n - 1)
  }

  lemma ProductOrder(x: nat, y: nat, d: nat)
    requires x * d < y * d
    ensures x < y
  {
  }

  lemma ProductAtLeast(q: nat, d: nat)
    requires 0 < d
    ensures q <= q * d
  {
    assert q * d == q * (d - 1) + q;
  }

  lemma QuotientAtLeast(a: nat, d: nat, q: nat)
    requires 0 < d && q * d <= a
    ensures q <= a / d
  {
    assert a == a / d * d + a % d;
    assert (a / d + 1) * d == a / d * d + d;
    ProductOrder(q, a / d + 1, d);
  }

  lemma QuotientAtMost(a: nat, d: nat)
    requires 0 < d
    ensures a / d <= a && a / d * d <= a
  {
    var q, r := a / d, a % d;
    assert a == q * d + r;
    ProductAtLeast(q, d);
  }

  lemma QuotientNoMore(a: nat, d: nat)
    requires 0 < d
    ensures a < (a / d + 1) * d
  {
    var q, r := a / d, a % d;
    assert a == q * d + r;
    assert (q + 1) * d == q * d + d;
  }
}
