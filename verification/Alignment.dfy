/** Rounding to multiples: downwards by remainder, upwards by masking. */
module Alignment {
  import opened Arithmetic
  import opened BitFields

  /** The remainder is Euclidean, as in `rem_euclid`. */
  function AlignDown(value: int, alignment: int): int
    requires alignment != 0
  {
    var a := if alignment < 0 then -alignment else alignment;
    var remainder := value % a;
    if remainder == 0 then value else value - remainder
  }

  lemma MulOrder(a: int, p: int, q: int)
    requires a > 0
    ensures q <= p ==> a * q <= a * p
    ensures p + 1 <= q ==> a * (p + 1) <= a * q
  {
    MulSign(a, p - q);
    MulSign(a, q - p - 1);
  }

  lemma MultiplesApart(a: int, m: int, n: int)
    requires a > 0 && m % a == 0 && n % a == 0 && m < n
    ensures m + a <= n
  {
    var p, q := m / a, n / a;
    assert m == a * p && n == a * q;
    MulOrder(a, p, q);
    assert a * (p + 1) == m + a;
  }

  /** Rounding down, for negative values too: the greatest multiple that is not above. */
  lemma AlignDownIsGreatest(value: int, a: int)
    requires a > 0
    ensures AlignDown(value, a) % a == 0 && AlignDown(value, a) <= value < AlignDown(value, a) + a
    ensures forall m: int :: m % a == 0 && m <= value ==> m <= AlignDown(value, a)
  {
    var r := AlignDown(value, a);
    MultipleModulo(a, value / a);
    assert r == a * (value / a);
    forall m: int | m % a == 0 && m <= value ensures m <= r {
      if r < m {
        MultiplesApart(a, r, m);
      }
    }
  }

  lemma MultipleModulo(a: int, q: int)
    requires a > 0
    ensures a * q % a == 0
  {
    var m := a * q;
    assert m == a * (m / a) + m % a;
    assert a * (q - m / a) == m % a;
    MulSign(a, q - m / a);
  }

  // ---- Rounding up by masking -------------------------------------------------

  /** Bitwise and of `width`-bit words. */
  function BitAnd(a: nat, b: nat, width: nat): nat {
    if width == 0 then 0
    else 2 * BitAnd(a / 2, b / 2, width - 1) + if a % 2 == 1 && b % 2 == 1 then 1 else 0
  }

  function BitNot(a: nat, width: nat): nat
    requires a < Pow2(width)
  {
    Pow2(width) - 1 - a
  }

  /** `(value + alignment - 1) & !(alignment - 1)` on 64-bit words. */
  function AlignUp(value: nat, alignment: nat): nat
    requires 0 < alignment <= Pow2(64)
  {
    BitAnd(value + alignment - 1, BitNot(alignment - 1, 64), 64)
  }

  lemma AndHalves(x: nat, m: nat, width: nat)
    ensures BitAnd(x, 2 * m, width + 1) == 2 * BitAnd(x / 2, m, width)
    ensures BitAnd(x, 2 * m + 1, width + 1) == 2 * BitAnd(x / 2, m, width) + x % 2
  {
  }

  lemma {:induction false} MaskKeepsAll(x: nat, width: nat)
    requires x < Pow2(width)
    ensures BitAnd(x, Pow2(width) - 1, width) == x
  {
    if width > 0 {
      hide BitAnd;
      MaskKeepsAll(x / 2, width - 1);
      AndHalves(x, Pow2(width - 1) - 1, width - 1);
      assert 2 * (Pow2(width - 1) - 1) + 1 == Pow2(width) - 1;
    }
  }

  /** And-ing with the complement of a low mask clears exactly the low bits. */
  lemma {:induction false} MaskClearsLowBits(x: nat, k: nat, width: nat)
    requires k <= width && x < Pow2(width)
    ensures Pow2(k) <= Pow2(width)
    ensures BitAnd(x, Pow2(width) - Pow2(k), width) == x - x % Pow2(k)
  {
    hide BitAnd;
    if k == 0 {
      MaskKeepsAll(x, width);
    } else {
      var p, q := Pow2(k - 1), Pow2(width - 1);
      assert Pow2(k) == 2 * p && Pow2(width) == 2 * q;
      hide Pow2;
      MaskClearsLowBits(x / 2, k - 1, width - 1);
      AndHalves(x, q - p, width - 1);
      assert 2 * (q - p) == 2 * q - 2 * p;
      HalveRemainder(x, p);
    }
  }

  lemma HalveRemainder(x: nat, p: nat)
    requires p > 0
    ensures x % (2 * p) == 2 * (x / 2 % p) + x % 2
  {
    var q, r := x / 2 / p, x / 2 % p;
    assert x / 2 == q * p + r;
    assert x == 2 * (q * p + r) + x % 2;
    assert 2 * (q * p) == q * (2 * p);
    DivModUnique(x, 2 * p, q, 2 * r + x % 2);
  }

  /** For powers of two the masked form is arithmetic rounding: the least multiple that is not below. */
  lemma AlignUpIsLeast(value: nat, k: nat)
    requires k <= 64 && value + Pow2(k) - 1 < Pow2(64)
    ensures Pow2(k) <= Pow2(64)
    ensures AlignUp(value, Pow2(k)) % Pow2(k) == 0 && value <= AlignUp(value, Pow2(k)) < value + Pow2(k)
    ensures forall m: nat :: m % Pow2(k) == 0 && value <= m ==> AlignUp(value, Pow2(k)) <= m
  {
    hide BitAnd, Pow2;
    var a := Pow2(k);
    var x := value + a - 1;
    MaskClearsLowBits(x, k, 64);
    var r := x - x % a;
    assert AlignUp(value, a) == r;
    AlignDownIsGreatest(x, a);
    assert r == AlignDown(x, a);
    forall m: nat | m % a == 0 && value <= m ensures r <= m {
      if m < r {
        MultiplesApart(a, m, r);
      }
    }
  }

  lemma DifferenceModulo(a: int, m: int, n: int)
    requires a > 0 && m % a == 0 && n % a == 0
    ensures (m - n) % a == 0
  {
    var p, q := m / a, n / a;
    assert m == a * p && n == a * q;
    assert a * (p - q) == a * p - a * q;
    MultipleModulo(a, p - q);
  }

  /** Masking and dividing round up to the same multiple. */
  lemma AlignUpIsDivision(value: nat, k: nat)
    requires k <= 64 && value + Pow2(k) - 1 < Pow2(64)
    ensures Pow2(k) <= Pow2(64)
    ensures AlignUp(value, Pow2(k)) == (value + Pow2(k) - 1) / Pow2(k) * Pow2(k)
  {
    hide BitAnd, Pow2;
    var x, a := value + Pow2(k) - 1, Pow2(k);
    MaskClearsLowBits(x, k, 64);
    assert x - x % a == x / a * a;
  }
}
