/** Products and floors, as the theorems on amounts, ratios and rates need them. */
module Arithmetic {

  lemma MulLe(a: int, b: int, c: nat)
    requires a <= b
    ensures a * c <= b * c
  {
  }

  lemma DivBounds(n: nat, d: nat)
    requires d > 0
    ensures 0 <= n / d && (n / d) * d <= n < (n / d) * d + d
  {
  }

  lemma DivAtLeast(n: nat, d: nat, q: nat)
    requires d > 0
    ensures q <= n / d <==> q * d <= n
  {
    DivBounds(n, d);
    var k := n / d;
    assert (k + 1) * d == k * d + d;
    if k < q { MulLe(k + 1, q, d); } else { MulLe(q, k, d); }
  }

  lemma DivAtMost(n: nat, d: nat, q: nat)
    requires d > 0 && n < q * d + d
    ensures n / d <= q
  {
    DivBounds(n, d);
    var k := n / d;
    assert (q + 1) * d == q * d + d;
    if q < k { MulLe(q + 1, k, d); }
  }

  lemma DivMonotone(n: nat, m: nat, d: nat)
    requires d > 0 && n <= m
    ensures n / d <= m / d
  {
    DivBounds(n, d);
    DivAtLeast(m, d, n / d);
  }

  /** Flooring a sum loses at most one against flooring its terms. */
  lemma DivSum(a: nat, b: nat, d: nat)
    requires d > 0
    ensures a / d + b / d <= (a + b) / d <= a / d + b / d + 1
  {
    DivBounds(a, d);
    DivBounds(b, d);
    var p, q := a / d, b / d;
    assert (p + q) * d == p * d + q * d && (p + q + 1) * d == p * d + q * d + d;
    DivAtLeast(a + b, d, p + q);
    DivAtMost(a + b, d, p + q + 1);
  }
}
