/** Rows and columns: what division says about k * n + r. */
module Arith {

  lemma DivMod(k: nat, n: nat, r: nat)
    requires r < n
    ensures (k * n + r) / n == k && (k * n + r) % n == r
  {
    var q, m := (k * n + r) / n, (k * n + r) % n;
    assert q * n + m == k * n + r;
    if q < k {
      assert (k - q) * n >= n by { Grows(k - q, n); }
    } else if q > k {
      assert (q - k) * n >= n by { Grows(q - k, n); }
    }
  }

  lemma DivRange(a: nat, n: nat, k: nat)
    requires n > 0
    ensures k * n <= a < k * n + n <==> a / n == k
  {
    if k * n <= a < k * n + n {
      DivMod(k, n, a - k * n);
    }
  }

  lemma Grows(a: nat, n: nat)
    requires a >= 1
    ensures a * n >= n
  {
  }

  lemma MulMore(n: nat, k: nat, e: nat)
    requires n <= k
    ensures n * e <= k * e
  {
    assert k * e == n * e + (k - n) * e;
    assert (k - n) * e >= 0;
  }

  function Mul(a: nat, b: nat): nat { a * b }

  /** Row i of n rows of e ends within them. */
  lemma MulRow(i: nat, n: nat, e: nat)
    requires i < n
    ensures Mul(i, e) + e <= Mul(n, e)
  {
    assert n * e == (n - 1 - i) * e + i * e + e;
    assert (n - 1 - i) * e >= 0;
  }
}
