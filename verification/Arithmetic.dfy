/** Products and quotients: what the solver does not know about multiplication by a variable. */
module Arithmetic {

  lemma Grows(a: int, b: int, k: int)
    requires a <= b && 0 <= k
    ensures a * k <= b * k
  {
    assert b * k - a * k == (b - a) * k;
  }

  lemma GrowsRight(k: int, a: int, b: int)
    requires a <= b && 0 <= k
    ensures k * a <= k * b
  {
    assert k * b - k * a == k * (b - a);
  }

  lemma QuotientBelow(a: nat, m: nat, d: nat)
    requires d > 0 && a < d * m
    ensures a / d < m
  {
    var q := a / d;
    assert a == q * d + a % d;
    if q >= m {
      Grows(m, q, d);
      assert false;
    }
  }

  lemma QuotientGrows(a: int, b: int, d: int)
    requires d > 0 && a <= b
    ensures a / d <= b / d
  {
    assert a == d * (a / d) + a % d && b == d * (b / d) + b % d;
    if a / d > b / d {
      GrowsRight(d, b / d + 1, a / d);
    }
  }

  /** Adding a multiple of the divisor adds to the quotient. */
  lemma QuotientPlus(a: int, d: int, x: int)
    requires d > 0
    ensures (a + d * x) / d == a / d + x
  {
    assert a == d * (a / d) + a % d;
    QuotientIs(a + d * x, d, a / d + x);
  }

  lemma QuotientIs(a: int, d: int, q: int)
    requires d > 0 && d * q <= a < d * (q + 1)
    ensures a / d == q
  {
    var p := a / d;
    assert a == d * p + a % d;
    if p < q {
      GrowsRight(d, p + 1, q);
    } else if p > q {
      GrowsRight(d, q + 1, p);
    }
  }
}
