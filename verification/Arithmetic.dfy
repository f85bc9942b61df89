/** Facts about products and quotients by a variable, each proved once and used by name. */
module Arithmetic {

  lemma DivModUnique(d: nat, q: nat, r: nat)
    requires 0 < d && r < d
    ensures (q * d + r) / d == q
    ensures (q * d + r) % d == r
  {
    var n := q * d + r;
    var q', r' := n / d, n % d;
    assert q' * d + r' == n;
    if q < q' {
      MulGap(q, q', d);
    } else if q' < q {
      MulGap(q', q, d);
    }
  }

  lemma MulGap(a: nat, b: nat, d: nat)
    requires a < b
    ensures a * d + d <= b * d
  {
    MulMono(a + 1, b, d);
    assert (a + 1) * d == a * d + d;
  }

  lemma MulMono(a: nat, b: nat, d: nat)
    requires a <= b
    ensures a * d <= b * d
  {
  }

  lemma DivMod(n: nat, d: nat)
    requires 0 < d
    ensures n == n / d * d + n % d
    ensures n % d < d
  {
  }

  /** n / d < q exactly when n < q * d. */
  lemma DivBelow(n: nat, d: nat, q: nat)
    requires 0 < d
    ensures n / d < q <==> n < q * d
  {
    DivMod(n, d);
    if n / d < q {
      MulGap(n / d, q, d);
    } else {
      MulMono(q, n / d, d);
    }
  }

  /** Quotients and remainders order numbers as the numbers are ordered. */
  lemma DivModOrder(a: nat, b: nat, d: nat)
    requires 0 < d && a < b
    ensures a / d < b / d || (a / d == b / d && a % d < b % d)
  {
    DivMod(a, d);
    DivMod(b, d);
    if a / d > b / d { MulGap(b / d, a / d, d); }
  }

  /** Scaling numerator and denominator alike keeps the quotient and scales the remainder. */
  lemma ScaledDivMod(i: nat, k: nat, w: nat)
    requires 0 < k && 0 < w
    ensures k * w > 0
    ensures i * w / (k * w) == i / k
    ensures i * w % (k * w) == i % k * w
  {
    DivMod(i, k);
    MulGap(i % k, k, w);
    calc {
      i * w;
      (i / k * k + i % k) * w;
      i / k * k * w + i % k * w;
      i / k * (k * w) + i % k * w;
    }
    assert k * w > 0;
    DivModUnique(k * w, i / k, i % k * w);
  }
}
