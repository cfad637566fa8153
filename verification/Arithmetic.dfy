/** Products, quotients and remainders. */
module Arithmetic {

  lemma MulSign(a: int, d: int)
    requires a > 0
    ensures d >= 1 ==> a * d >= a
    ensures d <= -1 ==> a * d <= -a
    ensures d >= 0 ==> a * d >= 0
  {
  }

  lemma MulMonotone(x: int, y: int, d: nat)
    requires x <= y
    ensures x * d <= y * d
  {
  }

  lemma QuotientUnique(d: nat, q: int, r: nat, q': int, r': nat)
    requires q * d + r == q' * d + r' && r < d && r' < d
    ensures q <= q'
  {
    assert (q' + 1) * d == q' * d + d;
    if q' < q {
      MulMonotone(q' + 1, q, d);
    }
  }

  /** Quotient and remainder are the only ones. */
  lemma DivModUnique(n: int, d: nat, q: int, r: nat)
    requires d > 0 && n == q * d + r && r < d
    ensures n / d == q && n % d == r
  {
    var q', r' := n / d, n % d;
    assert n == q' * d + r';
    QuotientUnique(d, q, r, q', r');
    QuotientUnique(d, q', r', q, r);
  }
}
