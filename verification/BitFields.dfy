/**
 * Words as sequences of bit fields.  Shifting right is division and masking is a remainder, and because the
 * fields of an instruction do not overlap, or-ing them together is adding them.
 */
module BitFields {
  import opened Arithmetic

  function Pow2(n: nat): (r: nat)
    ensures r > 0
  {
    if n == 0 then 1 else 2 * Pow2(n - 1)
  }

  /** `(v >> lo) & (2^width - 1)`. */
  function Bits(v: nat, lo: nat, width: nat): (r: nat)
    ensures r < Pow2(width)
  {
    v / Pow2(lo) % Pow2(width)
  }

  datatype Field = Field(value: nat, width: nat) {
    predicate Fits() {
      value < Pow2(width)
    }
  }

  /** The word whose fields, from the least significant bit up, are `fields[i..]`. */
  function Pack(fields: seq<Field>, i: nat): nat
    requires i <= |fields|
    decreases |fields| - i
  {
    if i == |fields| then 0 else fields[i].value + Pow2(fields[i].width) * Pack(fields, i + 1)
  }

  /** The total width of `fields[i..j]`. */
  function Width(fields: seq<Field>, i: nat, j: nat): nat
    requires i <= j <= |fields|
    decreases j - i
  {
    if i == j then 0 else fields[i].width + Width(fields, i + 1, j)
  }

  lemma {:induction false} Pow2Adds(a: nat, b: nat)
    ensures Pow2(a + b) == Pow2(a) * Pow2(b)
    decreases a
  {
    if a > 0 {
      Pow2Adds(a - 1, b);
    }
  }

  /** A two-digit number in mixed base stays below the product of the bases. */
  lemma TwoDigits(t: nat, b: nat, r: nat, a: nat)
    requires t < b && r < a
    ensures t * a + r < a * b
  {
    MulMonotone(t + 1, b, a);
    assert (t + 1) * a == t * a + a;
    assert b * a == a * b;
  }

  lemma Regroup(s: nat, b: nat, t: nat, a: nat)
    ensures (s * b + t) * a == s * (a * b) + t * a
  {
    assert s * b * a == s * (a * b);
  }

  /** Dividing twice is dividing once, and the remainder of the second division is the middle digit. */
  lemma DivDiv(n: nat, a: nat, b: nat)
    requires a > 0 && b > 0
    ensures a * b > 0 && n / a / b == n / (a * b)
    ensures n % (a * b) == n / a % b * a + n % a
  {
    var q, r := n / a, n % a;
    var s, t := q / b, q % b;
    assert n == q * a + r && q == s * b + t;
    DigitsOf(n, a, b, a * b, q, r, s, t);
  }

  lemma DigitsOf(n: nat, a: nat, b: nat, ab: nat, q: nat, r: nat, s: nat, t: nat)
    requires ab == a * b && n == q * a + r && r < a && q == s * b + t && t < b
    ensures ab > 0 && n / ab == s && n % ab == t * a + r
  {
    Regroup(s, b, t, a);
    TwoDigits(t, b, r, a);
    DivModUnique(n, ab, s, t * a + r);
  }

  /** Each field of a packed word is read back by its shift and mask. */
  lemma {:induction false} FieldOfPack(fields: seq<Field>, i: nat, j: nat)
    requires i <= j < |fields| && forall k :: 0 <= k < |fields| ==> fields[k].Fits()
    ensures Bits(Pack(fields, i), Width(fields, i, j), fields[j].width) == fields[j].value
    decreases j - i
  {
    var p, upper := Pow2(fields[i].width), Pack(fields, i + 1);
    DivModUnique(Pack(fields, i), p, upper, fields[i].value);
    if i < j {
      FieldOfPack(fields, i + 1, j);
      var shift := Width(fields, i + 1, j);
      Pow2Adds(fields[i].width, shift);
      DivDiv(Pack(fields, i), p, Pow2(shift));
    }
  }

  lemma PackStep(f: seq<Field>, i: nat, upper: nat)
    requires i < |f| && Pack(f, i + 1) == upper
    ensures Pack(f, i) == f[i].value + Pow2(f[i].width) * upper
  {
  }

  lemma LastField(f: seq<Field>)
    requires |f| == 8
    ensures Pack(f, 7) == f[7].value
  {
    assert Pack(f, 8) == 0;
  }

  /** A word of up to eight fields (unused ones are empty), written as nested fields, read back field by field. */
  lemma EightFields(f: seq<Field>, w: nat)
    requires |f| == 8 && forall k :: 0 <= k < 8 ==> f[k].Fits()
    requires w == f[0].value + Pow2(f[0].width) * (f[1].value + Pow2(f[1].width) * (f[2].value + Pow2(f[2].width) * (
                  f[3].value + Pow2(f[3].width) * (f[4].value + Pow2(f[4].width) * (f[5].value + Pow2(f[5].width) * (
                  f[6].value + Pow2(f[6].width) * f[7].value))))))
    ensures forall j :: 0 <= j < 8 ==> Bits(w, Width(f, 0, j), f[j].width) == f[j].value
  {
    hide Pack, Pow2, Width, Bits;
    var w7 := f[7].value;
    var w6 := f[6].value + Pow2(f[6].width) * w7;
    var w5 := f[5].value + Pow2(f[5].width) * w6;
    var w4 := f[4].value + Pow2(f[4].width) * w5;
    var w3 := f[3].value + Pow2(f[3].width) * w4;
    var w2 := f[2].value + Pow2(f[2].width) * w3;
    var w1 := f[1].value + Pow2(f[1].width) * w2;
    LastField(f);
    PackStep(f, 6, w7);
    PackStep(f, 5, w6);
    PackStep(f, 4, w5);
    PackStep(f, 3, w4);
    PackStep(f, 2, w3);
    PackStep(f, 1, w2);
    PackStep(f, 0, w1);
    assert w == Pack(f, 0);
    forall j | 0 <= j < 8 ensures Bits(w, Width(f, 0, j), f[j].width) == f[j].value {
      FieldOfPack(f, 0, j);
    }
  }

  lemma {:induction false} WidthGrows(f: seq<Field>, i: nat, j: nat)
    requires i <= j < |f|
    ensures Width(f, i, j + 1) == Width(f, i, j) + f[j].width
    decreases j - i
  {
    if i < j {
      WidthGrows(f, i + 1, j);
    }
  }

  lemma BitsZero(v: nat, width: nat)
    ensures Bits(v, 0, width) == v % Pow2(width)
  {
  }

  /** The bits of a number below `width` split into those below `lo` and the rest. */
  lemma BitsSplit(v: nat, lo: nat, width: nat)
    ensures v % Pow2(lo + width) == v % Pow2(lo) + Pow2(lo) * Bits(v, lo, width)
  {
    Pow2Adds(lo, width);
    var a, b := Pow2(lo), Pow2(width);
    assert Bits(v, lo, width) == v / a % b;
    hide Pow2, Bits;
    DivDiv(v, a, b);
  }

  /** The powers that occur in instruction formats. */
  lemma Powers()
    ensures Pow2(0) == 1 && Pow2(1) == 2 && Pow2(3) == 8 && Pow2(4) == 16 && Pow2(5) == 32 && Pow2(6) == 64
        && Pow2(7) == 128
    ensures Pow2(8) == 256 && Pow2(10) == 1024 && Pow2(11) == 2048 && Pow2(12) == 4096 && Pow2(15) == 0x8000
    ensures Pow2(20) == 0x10_0000 && Pow2(21) == 0x20_0000 && Pow2(25) == 0x200_0000 && Pow2(31) == 0x8000_0000
        && Pow2(32) == 0x1_0000_0000
  {
    assert Pow2(2) == 4 && Pow2(9) == 512;
    assert Pow2(5) == 32;
    assert Pow2(7) == 128;
    Pow2Adds(5, 5);
    Pow2Adds(10, 1);
    Pow2Adds(11, 1);
    Pow2Adds(5, 10);
    Pow2Adds(10, 10);
    Pow2Adds(20, 1);
    Pow2Adds(20, 5);
    Pow2Adds(20, 11);
    Pow2Adds(20, 12);
  }

  lemma Words()
    ensures Pow2(64) == 0x1_0000_0000_0000_0000
  {
    Powers();
    hide Pow2;
    Pow2Adds(32, 32);
  }
}
