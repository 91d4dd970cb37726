/** Products and quotients. */
module Arithmetic {
  lemma {:induction false} Times(a: int, b: int, c: nat)
    requires a <= b
    ensures a * c <= b * c
    ensures a < b && c > 0 ==> a * c < b * c
  {
    if c > 0 {
      Times(a, b, c - 1);
      assert a * c == a * (c - 1) + a && b * c == b * (c - 1) + b;
    }
  }

  function Over(a: nat, n: nat): nat
    requires n > 0
  {
    a / n
  }

  lemma Quotient(a: nat, n: nat)
    requires n > 0
    ensures a / n * n <= a < (a / n + 1) * n
  {
    assert a == a / n * n + a % n;
  }

  lemma BelowQuotient(a: nat, n: nat, k: nat)
    requires n > 0 && a < k * n
    ensures a / n < k
  {
    Quotient(a, n);
    if a / n >= k { Times(k, a / n, n); }
  }

  /** A quotient and remainder are the only ones. */
  lemma Divided(a: nat, q: nat, r: nat, n: nat)
    requires n > 0 && a == q * n + r && r < n
    ensures a / n == q && a % n == r
  {
    var q', r' := a / n, a % n;
    assert a == q' * n + r';
    assert (q + 1) * n == q * n + n && (q' + 1) * n == q' * n + n;
    if q' > q { Times(q + 1, q', n); }
    if q' < q { Times(q' + 1, q, n); }
  }
}
