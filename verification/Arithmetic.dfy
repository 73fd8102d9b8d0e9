/** Facts about products and quotients that the solver does not find reliably by itself. */
module Arithmetic {

  /** The ranges of the machine integers. */
  const U32: nat := 0x1_0000_0000
  const U64: nat := 0x1_0000_0000_0000_0000

  function Min(a: int, b: int): int {
    if a <= b then a else b
  }

  function Max(a: int, b: int): int {
    if a <= b then b else a
  }

  /** Subtraction that stops at zero. */
  function Monus(a: nat, b: nat): nat {
    if a <= b then 0 else a - b
  }

  lemma MulNonNegative(a: nat, b: nat)
    ensures a * b >= 0
  {
  }

  lemma MulMonotone(a: int, b: int, c: nat)
    requires a <= b
    ensures a * c <= b * c
  {
    MulNonNegative(b - a, c);
    assert (b - a) * c == b * c - a * c;
  }

  /** Quotient and remainder are the only pair with this shape. */
  lemma DivisionUnique(x: nat, t: nat, q: nat, r: nat)
    requires t > 0 && r < t && x == q * t + r
    ensures x / t == q && x % t == r
  {
    QuotientUnique(x / t, x % t, t, q, r);
  }

  lemma QuotientUnique(q1: int, r1: nat, t: nat, q2: int, r2: nat)
    requires r1 < t && r2 < t && q1 * t + r1 == q2 * t + r2
    ensures q1 == q2 && r1 == r2
  {
    if q1 < q2 {
      MulMonotone(q1 + 1, q2, t);
    } else if q2 < q1 {
      MulMonotone(q2 + 1, q1, t);
    }
  }

  lemma QuotientAtLeast(x: nat, t: nat, q: nat)
    requires t > 0 && x >= q * t
    ensures x / t >= q
  {
    if x / t < q {
      MulMonotone(x / t + 1, q, t);
    }
  }

  lemma QuotientAtMost(x: nat, t: nat, q: nat)
    requires t > 0 && x <= q * t
    ensures x / t <= q
  {
    if x / t > q {
      MulMonotone(q + 1, x / t, t);
    }
  }

  lemma QuotientBelow(x: nat, t: nat, q: nat)
    requires t > 0 && x < q * t
    ensures x / t < q
  {
    if x / t >= q {
      MulMonotone(q, x / t, t);
    }
  }

  /** The product as a repeated sum, for bounds that grow one term at a time. */
  function Times(k: nat, m: nat): nat {
    if k == 0 then 0 else Times(k - 1, m) + m
  }

  lemma {:induction false} TimesIsProduct(k: nat, m: nat)
    ensures Times(k, m) == k * m
  {
    if k > 0 {
      TimesIsProduct(k - 1, m);
      assert k * m == (k - 1) * m + m;
    }
  }

  lemma AtMostTimes(a: nat, b: nat, m: nat, sum: nat)
    requires a <= b && sum <= Times(a, m)
    ensures sum <= b * m
  {
    TimesIsProduct(a, m);
    MulMonotone(a, b, m);
  }

  lemma Regroup(c: nat, m: nat, d: nat, q: nat, s: nat)
    ensures c * (m * d) + (q * d + s) == (c * m + q) * d + s
  {
    assert c * (m * d) == (c * m) * d;
    assert (c * m + q) * d == (c * m) * d + q * d;
  }

  /** The quotient modulo m is the quotient of what is left modulo m * d. */
  lemma QuotientModulo(x: nat, d: nat, m: nat, p: nat)
    requires d > 0 && m > 0 && p == m * d
    ensures p > 0 && (x / d) % m == (x % p) / d
  {
    MulMonotone(1, m, d);
    var c, r := x / p, x % p;
    var q, s := r / d, r % d;
    QuotientBelow(r, d, m);
    Regroup(c, m, d, q, s);
    DivisionUnique(x, d, c * m + q, s);
    DivisionUnique(x / d, m, c, q);
  }

  /** One more term in a weighted sum keeps it between two multiples of the weights. */
  lemma WeightedBetween(lo: nat, hi: nat, m: nat, w: nat, weights: nat, sum: nat)
    requires lo <= m <= hi && lo * weights <= sum <= hi * weights
    ensures lo * (w + weights) <= m * w + sum <= hi * (w + weights)
  {
    MulMonotone(lo, m, w);
    MulMonotone(m, hi, w);
    assert lo * (w + weights) == lo * w + lo * weights;
    assert hi * (w + weights) == hi * w + hi * weights;
  }
}
