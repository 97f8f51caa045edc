/** Facts about dividing by a positive integer. */
module Division {
  lemma MulMonotone(a: int, b: int, n: int)
    requires a <= b && n >= 0
    ensures a * n <= b * n
  {
  }

  lemma MulCancel(a: int, b: int, n: int)
    requires n > 0 && a * n < b * n + n
    ensures a <= b
  {
    if b < a {
      MulMonotone(b + 1, a, n);
    }
  }

  lemma DivBounds(t: int, n: int)
    requires n > 0
    ensures t / n * n <= t < t / n * n + n
  {
  }

  lemma DivUnique(t: int, n: int, q: int)
    requires n > 0 && q * n <= t < q * n + n
    ensures t / n == q
  {
    DivBounds(t, n);
    MulCancel(t / n, q, n);
    MulCancel(q, t / n, n);
  }

  lemma FloorNests(t: int, n: int, k: int)
    requires n > 0 && k > 0 && k * n > 0
    ensures t / n * n / (k * n) == t / (k * n)
  {
    var q, p := t / (k * n), t / n;
    DivBounds(t, k * n);
    DivBounds(t, n);
    assert q * (k * n) == (q * k) * n;
    MulCancel(q * k, p, n);
    MulMonotone(q * k, p, n);
    DivUnique(p * n, k * n, q);
  }
}
