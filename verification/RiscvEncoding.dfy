/**
 * The instruction encoders of the RISC-V back end, and decoding as the RISC-V Instruction Set Manual, Volume I
 * (Unprivileged ISA), section 2.3, defines it.
 */
module RiscvEncoding {
  import opened Arithmetic
  import opened BitFields

  const TWO_32: nat := 0x1_0000_0000

  /** The cast of a signed offset to u32. */
  function ToU32(x: int): nat {
    x % TWO_32
  }

  // ---- Encoders: masked fields, shifted into place --------------------------

  function IType(v: nat, rs1: nat, f3: nat, rd: nat, op: nat): nat {
    Bits(v, 0, 12) * 0x10_0000 + Bits(rs1, 0, 5) * 0x8000 + Bits(f3, 0, 3) * 0x1000 + Bits(rd, 0, 5) * 0x80 + Bits(op,
        0, 7)
  }

  function SType(v: nat, rs2: nat, rs1: nat, f3: nat, op: nat): nat {
    Bits(v, 5, 7) * 0x200_0000 + Bits(rs2, 0, 5) * 0x10_0000 + Bits(rs1, 0, 5) * 0x8000 + Bits(f3, 0, 3) * 0x1000
    + Bits(v, 0, 5) * 0x80 + Bits(op, 0, 7)
  }

  function BType(v: nat, rs2: nat, rs1: nat, f3: nat, op: nat): nat {
    Bits(v, 12, 1) * 0x8000_0000 + Bits(v, 5, 6) * 0x200_0000 + Bits(rs2, 0, 5) * 0x10_0000 + Bits(rs1, 0, 5) * 0x8000
    + Bits(f3, 0, 3) * 0x1000 + Bits(v, 1, 4) * 0x100 + Bits(v, 11, 1) * 0x80 + Bits(op, 0, 7)
  }

  function UType(v: nat, rd: nat, op: nat): nat {
    Bits(v, 12, 20) * 0x1000 + Bits(rd, 0, 5) * 0x80 + Bits(op, 0, 7)
  }

  function JType(v: nat, rd: nat, op: nat): nat {
    Bits(v, 20, 1) * 0x8000_0000 + Bits(v, 1, 10) * 0x20_0000 + Bits(v, 11, 1) * 0x10_0000 + Bits(v, 12, 8) * 0x1000
    + Bits(rd, 0, 5) * 0x80 + Bits(op, 0, 7)
  }

  // ---- Decoders ------------------------------------------------------------

  function Opcode(w: nat): nat { Bits(w, 0, 7) }
  function Rd(w: nat): nat { Bits(w, 7, 5) }
  function Funct3(w: nat): nat { Bits(w, 12, 3) }
  function Rs1(w: nat): nat { Bits(w, 15, 5) }
  function Rs2(w: nat): nat { Bits(w, 20, 5) }

  /** A `2 * half`-valued field read in two's complement. */
  function SignExtend(v: nat, half: nat): int {
    if v < half then v else v - 2 * half
  }

  function IImm(w: nat): int { SignExtend(Bits(w, 20, 12), 0x800) }
  function SImm(w: nat): int { SignExtend(Bits(w, 25, 7) * 0x20 + Bits(w, 7, 5), 0x800) }
  function BImm(w: nat): int {
    SignExtend(Bits(w, 31, 1) * 0x1000 + Bits(w, 7, 1) * 0x800 + Bits(w, 25, 6) * 0x20 + Bits(w, 8, 4) * 2, 0x1000)
  }
  function UImm(w: nat): int { SignExtend(Bits(w, 12, 20) * 0x1000, 0x8000_0000) }
  function JImm(w: nat): int {
    SignExtend(Bits(w, 31, 1) * 0x10_0000 + Bits(w, 12, 8) * 0x1000 + Bits(w, 20, 1) * 0x800 + Bits(w, 21, 10) * 2,
        0x10_0000)
  }

  const LOAD: nat := 0x03
  const STORE: nat := 0x23
  const AUIPC: nat := 0x17
  const BRANCH: nat := 0x63
  const JAL: nat := 0x6F

  // ---- Fields come back ----------------------------------------------------

  const UNUSED: Field := Field(0, 0)

  /** The positions of consecutive fields. */
  lemma Positions(f: seq<Field>)
    requires |f| == 8
    ensures Width(f, 0, 0) == 0 && Width(f, 0, 1) == f[0].width && Width(f, 0, 2) == f[0].width + f[1].width
    ensures Width(f, 0, 3) == f[0].width + f[1].width + f[2].width
    ensures Width(f, 0, 4) == f[0].width + f[1].width + f[2].width + f[3].width
    ensures Width(f, 0, 5) == f[0].width + f[1].width + f[2].width + f[3].width + f[4].width
    ensures Width(f, 0, 6) == f[0].width + f[1].width + f[2].width + f[3].width + f[4].width + f[5].width
    ensures Width(f, 0, 7) == f[0].width + f[1].width + f[2].width + f[3].width + f[4].width + f[5].width + f[6].width
  {
    WidthGrows(f, 0, 0);
    WidthGrows(f, 0, 1);
    WidthGrows(f, 0, 2);
    WidthGrows(f, 0, 3);
    WidthGrows(f, 0, 4);
    WidthGrows(f, 0, 5);
    WidthGrows(f, 0, 6);
  }

  lemma ITypeFields(v: nat, rs1: nat, f3: nat, rd: nat, op: nat)
    ensures var w := IType(v, rs1, f3, rd, op);
            && w < TWO_32
            && Opcode(w) == Bits(op, 0, 7) && Rd(w) == Bits(rd, 0, 5) && Funct3(w) == Bits(f3, 0, 3)
            && Rs1(w) == Bits(rs1, 0, 5)
            && Bits(w, 20, 12) == Bits(v, 0, 12)
  {
    Powers();
    var f := [Field(Bits(op, 0, 7), 7), Field(Bits(rd, 0, 5), 5), Field(Bits(f3, 0, 3), 3), Field(Bits(rs1, 0, 5), 5),
              Field(Bits(v, 0, 12), 12), UNUSED, UNUSED, UNUSED];
    hide Bits, Pow2;
    Positions(f);
    EightFields(f, IType(v, rs1, f3, rd, op));
    assert Bits(IType(v, rs1, f3, rd, op), Width(f, 0, 4), f[4].width) == f[4].value;
  }

  lemma STypeFields(v: nat, rs2: nat, rs1: nat, f3: nat, op: nat)
    ensures var w := SType(v, rs2, rs1, f3, op);
            && w < TWO_32
            && Opcode(w) == Bits(op, 0, 7) && Funct3(w) == Bits(f3, 0, 3) && Rs1(w) == Bits(rs1, 0, 5)
            && Rs2(w) == Bits(rs2, 0, 5)
            && Bits(w, 7, 5) == Bits(v, 0, 5) && Bits(w, 25, 7) == Bits(v, 5, 7)
  {
    Powers();
    var f := [Field(Bits(op, 0, 7), 7), Field(Bits(v, 0, 5), 5), Field(Bits(f3, 0, 3), 3), Field(Bits(rs1, 0, 5), 5),
              Field(Bits(rs2, 0, 5), 5), Field(Bits(v, 5, 7), 7), UNUSED, UNUSED];
    hide Bits, Pow2;
    Positions(f);
    EightFields(f, SType(v, rs2, rs1, f3, op));
    assert Bits(SType(v, rs2, rs1, f3, op), Width(f, 0, 5), f[5].width) == f[5].value;
  }

  lemma BTypeFields(v: nat, rs2: nat, rs1: nat, f3: nat, op: nat)
    ensures var w := BType(v, rs2, rs1, f3, op);
            && w < TWO_32
            && Opcode(w) == Bits(op, 0, 7) && Funct3(w) == Bits(f3, 0, 3) && Rs1(w) == Bits(rs1, 0, 5)
            && Rs2(w) == Bits(rs2, 0, 5)
            && Bits(w, 7, 1) == Bits(v, 11, 1) && Bits(w, 8, 4) == Bits(v, 1, 4)
            && Bits(w, 25, 6) == Bits(v, 5, 6) && Bits(w, 31, 1) == Bits(v, 12, 1)
  {
    Powers();
    var f := [Field(Bits(op, 0, 7), 7), Field(Bits(v, 11, 1), 1), Field(Bits(v, 1, 4), 4), Field(Bits(f3, 0, 3), 3),
              Field(Bits(rs1, 0, 5), 5), Field(Bits(rs2, 0, 5), 5), Field(Bits(v, 5, 6), 6), Field(Bits(v, 12, 1), 1)];
    hide Bits, Pow2;
    Positions(f);
    EightFields(f, BType(v, rs2, rs1, f3, op));
    assert Bits(BType(v, rs2, rs1, f3, op), Width(f, 0, 7), f[7].width) == f[7].value;
  }

  lemma UTypeFields(v: nat, rd: nat, op: nat)
    ensures var w := UType(v, rd, op);
            && w < TWO_32
            && Opcode(w) == Bits(op, 0, 7) && Rd(w) == Bits(rd, 0, 5) && Bits(w, 12, 20) == Bits(v, 12, 20)
  {
    Powers();
    var f := [Field(Bits(op, 0, 7), 7), Field(Bits(rd, 0, 5), 5), Field(Bits(v, 12, 20), 20), UNUSED, UNUSED, UNUSED,
        UNUSED, UNUSED];
    hide Bits, Pow2;
    Positions(f);
    EightFields(f, UType(v, rd, op));
    assert Bits(UType(v, rd, op), Width(f, 0, 2), f[2].width) == f[2].value;
  }

  lemma JTypeFields(v: nat, rd: nat, op: nat)
    ensures var w := JType(v, rd, op);
            && w < TWO_32
            && Opcode(w) == Bits(op, 0, 7) && Rd(w) == Bits(rd, 0, 5)
            && Bits(w, 12, 8) == Bits(v, 12, 8) && Bits(w, 20, 1) == Bits(v, 11, 1)
            && Bits(w, 21, 10) == Bits(v, 1, 10) && Bits(w, 31, 1) == Bits(v, 20, 1)
  {
    Powers();
    var f := [Field(Bits(op, 0, 7), 7), Field(Bits(rd, 0, 5), 5), Field(Bits(v, 12, 8), 8), Field(Bits(v, 11, 1), 1),
              Field(Bits(v, 1, 10), 10), Field(Bits(v, 20, 1), 1), UNUSED, UNUSED];
    hide Bits, Pow2;
    Positions(f);
    EightFields(f, JType(v, rd, op));
    assert Bits(JType(v, rd, op), Width(f, 0, 5), f[5].width) == f[5].value;
  }

  // ---- Immediates come back ------------------------------------------------

  lemma Refactor(c: int, p: int, q: int, d: int)
    ensures (c * q + d) * p == c * (p * q) + d * p
  {
    assert c * (p * q) == c * q * p;
  }

  /** Reducing modulo a power of two after the cast to u32 is reducing the offset itself. */
  lemma CastThenMask(x: int, k: nat)
    requires 0 < k <= 32
    ensures ToU32(x) % Pow2(k) == x % Pow2(k)
  {
    Powers();
    Pow2Adds(k, 32 - k);
    hide Pow2;
    MaskOfRemainder(x, Pow2(k), Pow2(32 - k));
  }

  lemma MaskOfRemainder(x: int, p: nat, q: nat)
    requires p > 0 && q > 0
    ensures p * q > 0 && x % (p * q) % p == x % p
  {
    var v := x % (p * q);
    var c, d := x / (p * q), v / p;
    assert x == c * (p * q) + v;
    assert v == d * p + v % p;
    Refactor(c, p, q, d);
    DivModUnique(x, p, c * q + d, v % p);
  }

  /** A 12-bit load immediate decodes to the offset exactly when the offset fits. */
  lemma ITypeImmediate(x: int, rs1: nat, f3: nat, rd: nat, op: nat)
    ensures IImm(IType(ToU32(x), rs1, f3, rd, op)) == SignExtend(x % 0x1000, 0x800)
    ensures IImm(IType(ToU32(x), rs1, f3, rd, op)) == x <==> -0x800 <= x < 0x800
  {
    Powers();
    ITypeFields(ToU32(x), rs1, f3, rd, op);
    BitsZero(ToU32(x), 12);
    CastThenMask(x, 12);
    hide Bits, Pow2;
  }

  lemma STypeImmediate(x: int, rs2: nat, rs1: nat, f3: nat, op: nat)
    ensures SImm(SType(ToU32(x), rs2, rs1, f3, op)) == SignExtend(x % 0x1000, 0x800)
    ensures SImm(SType(ToU32(x), rs2, rs1, f3, op)) == x <==> -0x800 <= x < 0x800
  {
    hide Bits, Pow2, SType;
    Powers();
    STypeFields(ToU32(x), rs2, rs1, f3, op);
    TwelveBits(ToU32(x));
    CastThenMask(x, 12);
    SignExtendExact(x);
  }

  lemma TwelveBits(v: nat)
    ensures v % 0x1000 == Bits(v, 5, 7) * 0x20 + Bits(v, 0, 5)
  {
    Powers();
    BitsZero(v, 5);
    BitsSplit(v, 5, 7);
  }

  lemma SignExtendExact(x: int)
    ensures SignExtend(x % 0x1000, 0x800) == x <==> -0x800 <= x < 0x800
  {
  }

  /** A branch decodes to its offset exactly when the offset is even and fits 13 bits. */
  lemma BTypeImmediate(x: int, rs2: nat, rs1: nat, f3: nat, op: nat)
    ensures BImm(BType(ToU32(x), rs2, rs1, f3, op)) == x <==> x % 2 == 0 && -0x1000 <= x < 0x1000
  {
    var v := ToU32(x);
    Powers();
    BTypeFields(v, rs2, rs1, f3, op);
    BitsSplit(v, 1, 4);
    BitsSplit(v, 5, 6);
    BitsSplit(v, 11, 1);
    BitsSplit(v, 12, 1);
    CastThenMask(x, 13);
    CastThenMask(x, 1);
    hide Bits, Pow2;
    assert BImm(BType(v, rs2, rs1, f3, op)) == SignExtend(x % 0x2000 - x % 2, 0x1000);
    MaskedRange(x, 0x1000);
  }

  /** A jump decodes to its offset exactly when the offset is even and fits 21 bits. */
  lemma JTypeImmediate(x: int, rd: nat, op: nat)
    ensures JImm(JType(ToU32(x), rd, op)) == x <==> x % 2 == 0 && -0x10_0000 <= x < 0x10_0000
  {
    var v := ToU32(x);
    Powers();
    JTypeFields(v, rd, op);
    BitsSplit(v, 1, 10);
    BitsSplit(v, 11, 1);
    BitsSplit(v, 12, 8);
    BitsSplit(v, 20, 1);
    CastThenMask(x, 21);
    CastThenMask(x, 1);
    hide Bits, Pow2;
    assert JImm(JType(v, rd, op)) == SignExtend(x % 0x20_0000 - x % 2, 0x10_0000);
    MaskedRange(x, 0x10_0000);
  }

  lemma MaskedRange(x: int, half: int)
    requires half > 0 && half % 2 == 0
    ensures x % (2 * half) >= x % 2
    ensures SignExtend(x % (2 * half) - x % 2, half) == x <==> x % 2 == 0 && -half <= x < half
  {
    var p := 2 * half;
    assert x == x / p * p + x % p;
    assert x / p * p == 2 * (x / p * half);
    assert (x % p) % 2 == x % 2;
    if -half <= x < half {
      DivModUnique(x, p, if x >= 0 then 0 else -1, if x >= 0 then x else x + p);
    }
  }

  // ---- Patching words ------------------------------------------------------

  lemma BitsOfSmall(v: nat, width: nat)
    requires v < Pow2(width)
    ensures Bits(v, 0, width) == v
  {
    BitsZero(v, width);
    DivModUnique(v, Pow2(width), 0, v);
    hide Bits, Pow2;
  }

  /** A bit field below bit `k` depends only on the bits below `k`. */
  lemma BitsBelow(x: nat, y: nat, k: nat, lo: nat, width: nat)
    requires lo + width <= k && x % Pow2(k) == y % Pow2(k)
    ensures Bits(x, lo, width) == Bits(y, lo, width)
  {
    SameBelow(x, y, k, lo + width);
    SameBelow(x, y, k, lo);
    BitsSplit(x, lo, width);
    BitsSplit(y, lo, width);
    hide Bits, Pow2;
    CancelFactor(Pow2(lo), Bits(x, lo, width), Bits(y, lo, width));
  }

  lemma CancelFactor(p: nat, a: nat, b: nat)
    requires p > 0 && p * a == p * b
    ensures a == b
  {
  }

  lemma SameBelow(x: nat, y: nat, k: nat, j: nat)
    requires j <= k && x % Pow2(k) == y % Pow2(k)
    ensures x % Pow2(j) == y % Pow2(j)
  {
    Pow2Adds(j, k - j);
    MaskOfRemainder(x, Pow2(j), Pow2(k - j));
    MaskOfRemainder(y, Pow2(j), Pow2(k - j));
  }

  /** A branch word re-encoded with a new offset: registers, condition and opcode are taken from the old word. */
  function RetargetBranch(orig: nat, offset: int): nat {
    BType(ToU32(offset), Rs2(orig), Rs1(orig), Funct3(orig), Opcode(orig))
  }

  lemma RetargetBranchExact(orig: nat, offset: int)
    ensures var w := RetargetBranch(orig, offset);
            && w < TWO_32
            && Rs2(w) == Rs2(orig) && Rs1(w) == Rs1(orig) && Funct3(w) == Funct3(orig) && Opcode(w) == Opcode(orig)
            && (BImm(w) == offset <==> offset % 2 == 0 && -0x1000 <= offset < 0x1000)
  {
    BTypeFields(ToU32(offset), Rs2(orig), Rs1(orig), Funct3(orig), Opcode(orig));
    BTypeImmediate(offset, Rs2(orig), Rs1(orig), Funct3(orig), Opcode(orig));
    BitsOfSmall(Rs2(orig), 5);
    BitsOfSmall(Rs1(orig), 5);
    BitsOfSmall(Funct3(orig), 3);
    BitsOfSmall(Opcode(orig), 7);
    hide Bits, Pow2;
  }

  // ---- PC-relative pairs ---------------------------------------------------

  /** Two's complement wrap-around of 32-bit arithmetic. */
  function Wrap32(x: int): int {
    SignExtend(x % TWO_32, 0x8000_0000)
  }

  /** The sign-extended low 12 bits of an offset. */
  function LowPart(total: int): int {
    SignExtend(total % 0x1000, 0x800)
  }

  /** What remains for AUIPC, in units of 4096; the shift rounds down. */
  function HighPart(total: int): int {
    Wrap32(total - LowPart(total)) / 0x1000
  }

  /** AUIPC with a new upper immediate: only the destination register is kept. */
  function PatchedAuipc(word: nat, total: int): nat {
    Bits(ToU32(HighPart(total)), 0, 20) * 0x1000 + Rd(word) * 0x80 + AUIPC
  }

  /** The load or store of the pair with its 12-bit immediate replaced. */
  function PatchedAccess(word: nat, total: int): nat {
    var v := ToU32(LowPart(total));
    if Opcode(word) == LOAD then Bits(word, 0, 20) + Bits(v, 0, 12) * 0x10_0000
    else SType(v, Rs2(word), Rs1(word), Funct3(word), Opcode(word))
  }

  function AccessImm(word: nat): int {
    if Opcode(word) == LOAD then IImm(word) else SImm(word)
  }

  lemma PatchedAuipcFields(word: nat, total: int)
    ensures var w := PatchedAuipc(word, total);
            && w < TWO_32 && Opcode(w) == AUIPC && Rd(w) == Rd(word)
            && Bits(w, 12, 20) == Bits(ToU32(HighPart(total)), 0, 20)
  {
    Powers();
    var f := [Field(AUIPC, 7), Field(Rd(word), 5), Field(Bits(ToU32(HighPart(total)), 0, 20), 20), UNUSED, UNUSED,
        UNUSED, UNUSED, UNUSED];
    assert Rd(word) < Pow2(5);
    hide Bits, Pow2, HighPart;
    Positions(f);
    EightFields(f, PatchedAuipc(word, total));
    assert Bits(PatchedAuipc(word, total), Width(f, 0, 2), f[2].width) == f[2].value;
  }

  lemma PatchedAccessFields(word: nat, total: int)
    requires Opcode(word) == LOAD || Opcode(word) == STORE
    ensures var w := PatchedAccess(word, total);
            && w < TWO_32
            && Opcode(w) == Opcode(word) && Funct3(w) == Funct3(word) && Rs1(w) == Rs1(word)
            && (Opcode(word) == LOAD ==> Rd(w) == Rd(word)) && (Opcode(word) == STORE ==> Rs2(w) == Rs2(word))
            && AccessImm(w) == LowPart(total)
  {
    var low := LowPart(total);
    var v := ToU32(low);
    var w := PatchedAccess(word, total);
    Powers();
    if Opcode(word) == LOAD {
      var kept := Bits(word, 0, 20);
      BitsZero(word, 20);
      assert w % Pow2(20) == word % Pow2(20);
      BitsBelow(w, word, 20, 0, 7);
      BitsBelow(w, word, 20, 7, 5);
      BitsBelow(w, word, 20, 12, 3);
      BitsBelow(w, word, 20, 15, 5);
      DivModUnique(w, Pow2(20), Bits(v, 0, 12), kept);
      BitsZero(v, 12);
      CastThenMask(low, 12);
      BitsOfSmall(Bits(v, 0, 12), 12);
      assert Bits(w, 20, 12) == Bits(v, 0, 12);
      hide Bits, Pow2;
    } else {
      STypeFields(v, Rs2(word), Rs1(word), Funct3(word), Opcode(word));
      STypeImmediate(low, Rs2(word), Rs1(word), Funct3(word), Opcode(word));
      BitsOfSmall(Rs2(word), 5);
      BitsOfSmall(Rs1(word), 5);
      BitsOfSmall(Funct3(word), 3);
      BitsOfSmall(Opcode(word), 7);
      hide Bits, Pow2;
    }
  }

  /**
   * A patched pair reaches the given distance from the AUIPC exactly when the distance does not lie in the top
   * 2048 bytes of the 32-bit range, where rounding the upper part up overflows.
   */
  lemma PairReachesIff(auipc: nat, access: nat, total: int)
    requires Opcode(access) == LOAD || Opcode(access) == STORE
    requires -0x8000_0000 <= total < 0x8000_0000
    ensures UImm(PatchedAuipc(auipc, total)) + AccessImm(PatchedAccess(access, total)) == total <==>
            total < 0x8000_0000 - 0x800
  {
    PatchedAuipcFields(auipc, total);
    PatchedAccessFields(access, total);
    var low, high := LowPart(total), HighPart(total);
    BitsZero(ToU32(high), 20);
    Powers();
    CastThenMask(high, 20);
    hide Bits, Pow2, PatchedAuipc, PatchedAccess, AccessImm;
    assert UImm(PatchedAuipc(auipc, total)) == SignExtend(high % 0x10_0000 * 0x1000, 0x8000_0000);
    HighPartExact(total);
  }

  lemma HighPartExact(total: int)
    requires -0x8000_0000 <= total < 0x8000_0000
    ensures -0x800 <= LowPart(total) < 0x800
    ensures SignExtend(HighPart(total) % 0x10_0000 * 0x1000, 0x8000_0000) ==
            if total < 0x8000_0000 - 0x800 then total - LowPart(total) else total - LowPart(total) - TWO_32
  {
    var diff := total - LowPart(total);
    assert diff == diff / 0x1000 * 0x1000;
  }

  // ---- Whole jump words ----------------------------------------------------

  /** JAL rd: decodes to the offset exactly when it is even and fits 21 bits. */
  lemma JalExact(offset: int, rd: nat)
    requires rd < 32
    ensures var w := JType(ToU32(offset), rd, JAL);
            && w < TWO_32 && Opcode(w) == JAL && Rd(w) == rd
            && (JImm(w) == offset <==> offset % 2 == 0 && -0x10_0000 <= offset < 0x10_0000)
  {
    Powers();
    BitsOfSmall(JAL, 7);
    BitsOfSmall(rd, 5);
    hide Bits, Pow2, JImm;
    JTypeFields(ToU32(offset), rd, JAL);
    JTypeImmediate(offset, rd, JAL);
  }

  /** A conditional branch with the operands of `orig`. */
  lemma BranchExact(orig: nat, offset: int)
    ensures var w := BType(ToU32(offset), Rs2(orig), Rs1(orig), Funct3(orig), BRANCH);
            && w < TWO_32 && Opcode(w) == BRANCH
            && Rs1(w) == Rs1(orig) && Rs2(w) == Rs2(orig) && Funct3(w) == Funct3(orig)
            && (BImm(w) == offset <==> offset % 2 == 0 && -0x1000 <= offset < 0x1000)
  {
    Powers();
    BitsOfSmall(BRANCH, 7);
    BitsOfSmall(Rs2(orig), 5);
    BitsOfSmall(Rs1(orig), 5);
    BitsOfSmall(Funct3(orig), 3);
    hide Bits, Pow2, BImm;
    BTypeFields(ToU32(offset), Rs2(orig), Rs1(orig), Funct3(orig), BRANCH);
    BTypeImmediate(offset, Rs2(orig), Rs1(orig), Funct3(orig), BRANCH);
  }
}
