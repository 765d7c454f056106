/** Facts about Euclidean division that the solver does not find unaided. */
module Arithmetic {

  /** The quotient and remainder of n by k are the only such pair. */
  lemma DivModUnique(n: int, k: int, q: int, r: int)
    requires k > 0 && 0 <= r < k && n == q * k + r
    ensures q == n / k && r == n % k
  {
    var q0, r0 := n / k, n % k;
    assert n == q0 * k + r0;
    if q > q0 {
      assert (q - q0) * k == q * k - q0 * k;
      MulAtLeast(q - q0, k);
    } else if q < q0 {
      assert (q0 - q) * k == q0 * k - q * k;
      MulAtLeast(q0 - q, k);
    }
  }

  lemma MulAtLeast(a: int, k: int)
    requires a >= 1 && k > 0
    ensures a * k >= k
  {
    assert a * k == (a - 1) * k + k;
  }

  /** Below twice the modulus, reduction subtracts the modulus at most once. */
  lemma ModBelowTwice(s: int, n: int)
    requires n > 0 && 0 <= s < 2 * n
    ensures s % n == if s < n then s else s - n
  {
    if s < n {
      DivModUnique(s, n, 0, s);
    } else {
      DivModUnique(s, n, 1, s - n);
    }
  }

  /** Going from m to m + 1 either bumps the remainder or wraps it to 0 and bumps the quotient. */
  lemma DivModStep(m: int, k: int)
    requires m >= 0 && k > 0
    ensures m % k + 1 < k ==> (m + 1) / k == m / k && (m + 1) % k == m % k + 1
    ensures m % k + 1 == k ==> (m + 1) / k == m / k + 1 && (m + 1) % k == 0
  {
    var q, r := m / k, m % k;
    assert m == q * k + r;
    if r + 1 < k {
      DivModUnique(m + 1, k, q, r + 1);
    } else {
      assert m + 1 == (q + 1) * k + 0;
      DivModUnique(m + 1, k, q + 1, 0);
    }
  }
}
