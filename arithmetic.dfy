/** Small facts of integer and real arithmetic that the other modules' proofs rest on. */
module Arithmetic {

  lemma ProductBetween(d: int, n: int)
    requires n > 0 && -n < d * n < n
    ensures d == 0
  {
  }

  /** The remainder is the unique `r` with `a == q * n + r` and `0 <= r < n`. */
  lemma ModUnique(a: int, n: int, q: int, r: int)
    requires n > 0 && a == q * n + r && 0 <= r < n
    ensures a % n == r
  {
    var q', r' := a / n, a % n;
    assert a == q' * n + r';
    assert (q - q') * n == q * n - q' * n;
    ProductBetween(q - q', n);
  }

  lemma ModSuccessor(a: nat, n: nat)
    requires n > 0
    ensures (a % n + 1) % n == (a + 1) % n
  {
    var q, m := a / n, a % n;
    assert a == q * n + m;
    if m + 1 < n {
      ModUnique(a + 1, n, q, m + 1);
      ModUnique(m + 1, n, 0, m + 1);
    } else {
      ModUnique(m + 1, n, 1, 0);
      assert (q + 1) * n == q * n + n;
      ModUnique(a + 1, n, q + 1, 0);
    }
  }

  /** Reducing the left summand first does not change the remainder. */
  lemma ModAddLeft(a: int, g: int, n: int)
    requires n > 0
    ensures (a % n + g) % n == (a + g) % n
  {
    var q, r := a / n, a % n;
    assert a == q * n + r;
    var q2, r2 := (r + g) / n, (r + g) % n;
    assert r + g == q2 * n + r2;
    assert a + g == (q + q2) * n + r2;
    ModUnique(a + g, n, q + q2, r2);
  }

  /** Adding an even number keeps the parity. */
  lemma ModTwoShift(a: int, g: int)
    ensures (a + 2 * g) % 2 == a % 2
  {
    var q, r := a / 2, a % 2;
    assert a == q * 2 + r;
    assert a + 2 * g == (q + g) * 2 + r;
    ModUnique(a + 2 * g, 2, q + g, r);
  }

  /** Wrapping a successor index at `n`. */
  lemma WrapAround(i: nat, n: nat)
    requires i < n
    ensures (i + 1) % n == if i + 1 < n then i + 1 else 0
  {
    if i + 1 < n {
      ModUnique(i + 1, n, 0, i + 1);
    } else {
      ModUnique(i + 1, n, 1, 0);
    }
  }

  /** Subtracting from a quotient. */
  lemma QuotientShift(p: real, d: real, u: real)
    requires d != 0.0
    ensures p / d - u == (p - d * u) / d
  {
    assert (p - d * u) / d == p / d - (d * u) / d;
    assert (d * u) / d == u;
  }

  lemma SameSign(p: real, d: real)
    requires d > 0.0
    ensures p / d >= 0.0 <==> p >= 0.0
  {
  }

  lemma ShrinkingQuotient(d: real, t1: real, t2: real)
    requires d > 0.0 && 0.0 < t1 <= t2
    ensures d / t2 <= d / t1
  {
    assert d / t1 - d / t2 == d * (t2 - t1) / (t1 * t2);
    SameSign(d * (t2 - t1), t1 * t2);
  }
}
