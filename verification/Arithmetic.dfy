/** Facts about products and quotients that address computations need. */
module Arithmetic {

  lemma TimesAtLeast(k: int, n: int)
    requires 0 <= n
    ensures 1 <= k ==> n <= k * n
    ensures 0 <= k ==> 0 <= k * n
    ensures k <= -1 ==> k * n <= -n
  {
  }

  lemma DivideProduct(k: int, n: nat)
    requires 0 < n
    ensures k * n / n == k
  {
    var q := k * n / n;
    assert (q - k) * n == q * n - k * n;
    TimesAtLeast(q - k, n);
  }

  lemma DivideMonotone(a: int, b: int, n: nat)
    requires 0 < n && a <= b
    ensures a / n <= b / n
  {
    var x, y := a / n, b / n;
    assert a == n * x + a % n && b == n * y + b % n;
    assert (x - y) * n == n * x - n * y;
    TimesAtLeast(x - y, n);
  }

  lemma ProductRemainder(k: int, n: nat)
    requires 0 < n
    ensures k * n % n == 0
  {
    DivideProduct(k, n);
  }

  /** Rounding down to a multiple of `n` stays above every multiple below. */
  lemma RoundDown(a: int, b: int, n: nat)
    requires 0 < n && a % n == 0 && a <= b
    ensures a <= b - b % n <= b && (b - b % n) % n == 0
  {
    var x, y := a / n, b / n;
    DivideMonotone(a, b, n);
    assert a == x * n && b - b % n == y * n;
    TimesAtLeast(y - x, n);
    assert (y - x) * n == y * n - x * n;
    ProductRemainder(y, n);
  }
}
