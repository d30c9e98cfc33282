/** Remainders by a divisor that is not a constant. */
module Multiples {

  lemma {:induction false} MultipleOf(k: nat, n: nat)
    requires n > 0
    ensures (k * n) % n == 0
  {
    var q, r := (k * n) / n, (k * n) % n;
    assert k * n == q * n + r;
    assert (k - q) * n == r;
    ProductAtLeast(k - q, n);
  }

  lemma {:induction false} ProductAtLeast(d: int, n: nat)
    ensures d >= 1 ==> d * n >= n
    ensures d <= -1 ==> d * n <= 0 - n
  {
    if d >= 1 {
      assert (d - 1) * n >= 0;
    } else if d <= -1 {
      assert (-1 - d) * n >= 0;
    }
  }

  /** A quotient and a remainder in range are the only ones. */
  lemma {:induction false} OnlyRemainder(a: int, q: int, r: int, n: nat)
    requires 0 <= r < n && a == q * n + r
    ensures a / n == q && a % n == r
  {
    var p, s := a / n, a % n;
    assert a == p * n + s;
    assert (p - q) * n == r - s;
    ProductAtLeast(p - q, n);
  }

  /** One step further, inside the same multiple or onto the next one. */
  lemma {:induction false} RemainderSteps(a: int, k: int, n: nat)
    requires n > 0 && 0 <= k && a % n + k <= n
    ensures (a + k) % n == if a % n + k == n then 0 else a % n + k
  {
    var q := a / n;
    if a % n + k == n {
      assert (q + 1) * n == q * n + n;
      OnlyRemainder(a + k, q + 1, 0, n);
    } else {
      OnlyRemainder(a + k, q, a % n + k, n);
    }
  }

  /** The length of `n` pages, added up. */
  function Span(n: nat, pw: nat): nat {
    if n == 0 then 0 else pw + Span(n - 1, pw)
  }

  lemma {:induction false} SpanIsProduct(n: nat, pw: nat)
    ensures Span(n, pw) == n * pw
  {
    if n > 0 {
      SpanIsProduct(n - 1, pw);
      assert (n - 1) * pw + pw == n * pw;
    }
  }
}
