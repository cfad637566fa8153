/** Bytes, and little-endian words among them. */
module Bytes {
  import opened Arithmetic

  const TWO_64: nat := 0x1_0000_0000_0000_0000

  type Byte = b: int | 0 <= b < 256

  type Memory = seq<Byte>

  /** Four little-endian bytes as an unsigned number. */
  function Word32(m: Memory, a: nat): nat
    requires a + 4 <= |m|
  {
    (m[a] as int) + 0x100 * (m[a + 1] as int) + 0x1_0000 * (m[a + 2] as int) + 0x100_0000 * (m[a + 3] as int)
  }

  /** SW: stores the low 32 bits of `v`, least significant byte first. */
  function StoreWord(m: Memory, a: nat, v: nat): (r: Memory)
    requires a + 4 <= |m|
    ensures |r| == |m|
    ensures forall i :: 0 <= i < |m| && !(a <= i < a + 4) ==> r[i] == m[i]
  {
    var v1 := v / 0x100;
    var v2 := v1 / 0x100;
    var v3 := v2 / 0x100;
    m[a := v % 0x100][a + 1 := v1 % 0x100][a + 2 := v2 % 0x100][a + 3 := v3 % 0x100]
  }

  lemma StoreThenLoad(m: Memory, a: nat, v: nat)
    requires a + 4 <= |m|
    ensures Word32(StoreWord(m, a, v), a) == v % 0x1_0000_0000
  {
    var v1 := v / 0x100;
    var v2 := v1 / 0x100;
    var v3 := v2 / 0x100;
    assert v == 0x100 * v1 + v % 0x100;
    assert v1 == 0x100 * v2 + v1 % 0x100;
    assert v2 == 0x100 * v3 + v2 % 0x100;
    assert v3 == 0x100 * (v3 / 0x100) + v3 % 0x100;
    DivModUnique(v, 0x1_0000_0000, v3 / 0x100, Word32(StoreWord(m, a, v), a));
  }

  /** LD: a 64-bit load. */
  function LoadDouble(m: Memory, a: nat): nat
    requires a + 8 <= |m|
  {
    Word32(m, a) + 0x1_0000_0000 * Word32(m, a + 4)
  }

  /** Eight little-endian bytes of `v`. */
  function StoreDouble(m: Memory, a: nat, v: nat): (r: Memory)
    requires a + 8 <= |m|
    ensures |r| == |m|
    ensures forall i :: 0 <= i < |m| && !(a <= i < a + 8) ==> r[i] == m[i]
  {
    StoreWord(StoreWord(m, a, v), a + 4, v / 0x1_0000_0000)
  }

  lemma WordUnchanged(m: Memory, n: Memory, a: nat)
    requires a + 4 <= |m| && a + 4 <= |n|
    requires forall i :: a <= i < a + 4 ==> n[i] == m[i]
    ensures Word32(n, a) == Word32(m, a)
  {
  }

  lemma DoubleUnchanged(m: Memory, n: Memory, a: nat)
    requires a + 8 <= |m| && a + 8 <= |n|
    requires forall i :: a <= i < a + 8 ==> n[i] == m[i]
    ensures LoadDouble(n, a) == LoadDouble(m, a)
  {
    WordUnchanged(m, n, a);
    WordUnchanged(m, n, a + 4);
  }

  lemma StoreThenLoadDouble(m: Memory, a: nat, v: nat)
    requires a + 8 <= |m|
    ensures LoadDouble(StoreDouble(m, a, v), a) == v % TWO_64
  {
    hide StoreWord, Word32;
    var low, upper := StoreWord(m, a, v), v / 0x1_0000_0000;
    StoreThenLoad(m, a, v);
    StoreThenLoad(low, a + 4, upper);
    WordUnchanged(low, StoreDouble(m, a, v), a);
    assert v == 0x1_0000_0000 * upper + v % 0x1_0000_0000
        && upper == 0x1_0000_0000 * (upper / 0x1_0000_0000) + upper % 0x1_0000_0000;
    DivModUnique(v, TWO_64, upper / 0x1_0000_0000, LoadDouble(StoreDouble(m, a, v), a));
  }
}
