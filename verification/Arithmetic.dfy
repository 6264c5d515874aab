/** Facts about products and quotients that the solver does not find alone. */
module Arithmetic {
  lemma {:induction false} MulOrder(a: nat, b: nat, n: nat)
    requires a < b
    ensures a * n + n <= b * n
    decreases b
  {
    assert b * n == (b - 1) * n + n;
    if a < b - 1 {
      MulOrder(a, b - 1, n);
    }
  }

  lemma DivAtMost(x: nat, n: nat, q: nat)
    requires n > 0 && x <= q * n
    ensures x / n <= q
  {
    if q < x / n {
      MulOrder(q, x / n, n);
    }
  }

  lemma DivAtLeast(x: nat, n: nat, q: nat)
    requires n > 0 && q * n <= x
    ensures q <= x / n
  {
    if x / n < q {
      MulOrder(x / n, q, n);
    }
  }

  lemma RemainderUnique(x: nat, n: nat, q: nat, r: nat)
    requires n > 0 && r < n && x == q * n + r
    ensures x % n == r
  {
    if q < x / n {
      MulOrder(q, x / n, n);
    } else if x / n < q {
      MulOrder(x / n, q, n);
    }
  }
}
