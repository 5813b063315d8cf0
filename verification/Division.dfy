/** Quotients and remainders of products. */
module Division {

  lemma MulBounds(k: int, n: int)
    requires n > 0
    ensures k >= 1 ==> n * k >= n
    ensures k <= -1 ==> n * k <= -n
    ensures k >= 0 ==> n * k >= 0
  {
    if k >= 1 {
      assert n * (k - 1) >= 0;
    } else if k <= -1 {
      assert n * (-1 - k) >= 0;
    }
  }

  lemma Quotient(q: int, n: int, r: int)
    requires 0 <= r < n
    ensures (q * n + r) / n == q && (q * n + r) % n == r
  {
    var a := q * n + r;
    assert a == n * (a / n) + a % n;
    assert n * (q - a / n) == a % n - r;
    MulBounds(q - a / n, n);
  }
}
