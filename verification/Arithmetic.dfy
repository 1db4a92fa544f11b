/** Facts about multiples and remainders. */
module Arithmetic {

  lemma Multiple(d: int, n: int)
    requires n > 0
    ensures d >= 1 ==> d * n >= n
    ensures d <= -1 ==> d * n <= -n
    ensures d == 0 ==> d * n == 0
  {
  }

  lemma Grows(a: nat, b: nat, n: nat)
    requires a <= b
    ensures a * n <= b * n
  {
  }

  /** A number splits into a multiple of `n` and a remainder in one way only. */
  lemma OneSplit(n: nat, b: nat, i: nat, c: nat, j: nat)
    requires n > 0 && i < n && j < n
    ensures b * n + i == c * n + j <==> b == c && i == j
  {
    var d: int := b - c;
    assert b * n - c * n == d * n;
    Multiple(d, n);
  }

  lemma Quotient(x: nat, n: nat, q: nat, r: nat)
    requires n > 0 && r < n && x == q * n + r
    ensures x / n == q && x % n == r
  {
    assert x == (x / n) * n + x % n;
    OneSplit(n, q, r, x / n, x % n);
  }
}
