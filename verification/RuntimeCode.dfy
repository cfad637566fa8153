/** The code buffer of the RISC-V runtime: emitting instructions and patching them in place. */
module RuntimeCode {
  import opened Bytes
  import opened BitFields
  import opened RiscvEncoding

  const T6: nat := 31

  datatype GlobalPatch = GlobalPatch(auipcPos: nat, memPos: nat, globalOffset: nat)

  /** The four little-endian bytes of a word. */
  function WordBytes(w: nat): (r: Memory)
    ensures |r| == 4
  {
    StoreWord([0, 0, 0, 0], 0, w)
  }

  lemma AppendedWord(m: Memory, w: nat)
    requires w < TWO_32
    ensures Word32(m + WordBytes(w), |m|) == w
  {
    StoreThenLoad([0, 0, 0, 0], 0, w);
    var n := m + WordBytes(w);
    assert n[|m|] == WordBytes(w)[0] && n[|m| + 1] == WordBytes(w)[1] && n[|m| + 2] == WordBytes(w)[2]
        && n[|m| + 3] == WordBytes(w)[3];
  }

  // ---- Branches ------------------------------------------------------------

  /** patch_btype: the word at `pos` now branches to `target`. */
  function WithBranch(code: Memory, pos: nat, target: nat): Memory
    requires pos + 4 <= |code|
  {
    StoreWord(code, pos, RetargetBranch(Word32(code, pos), target - pos))
  }

  /** A patched branch keeps everything but its target, which is reached exactly when it is near enough and even. */
  lemma WithBranchExact(code: Memory, pos: nat, target: nat)
    requires pos + 4 <= |code|
    ensures var n := WithBranch(code, pos, target);
            var old_, w := Word32(code, pos), Word32(n, pos);
            && |n| == |code|
            && (forall i :: 0 <= i < |code| && !(pos <= i < pos + 4) ==> n[i] == code[i])
            && Rs1(w) == Rs1(old_) && Rs2(w) == Rs2(old_) && Funct3(w) == Funct3(old_) && Opcode(w) == Opcode(old_)
            && (pos + BImm(w) == target <==> (target - pos) % 2 == 0 && -0x1000 <= target - pos < 0x1000)
  {
    hide Word32, BType, BImm, Rs1, Rs2, Funct3, Opcode;
    RetargetBranchExact(Word32(code, pos), target - pos);
    StoreThenLoad(code, pos, RetargetBranch(Word32(code, pos), target - pos));
  }

  // ---- Global accesses -----------------------------------------------------

  /** A load through its own destination register, or a store through T6: AUIPC and access use the same base. */
  ghost predicate IsPair(code: Memory, p: GlobalPatch) {
    && p.memPos == p.auipcPos + 4 && p.auipcPos % 4 == 0 && p.memPos + 4 <= |code|
    && var auipc, access := Word32(code, p.auipcPos), Word32(code, p.memPos);
    && Opcode(auipc) == AUIPC && Rs1(access) == Rd(auipc) && Funct3(access) == 3
    && ((Opcode(access) == LOAD && Rd(access) == Rd(auipc)) || (Opcode(access) == STORE && Rd(auipc) == T6))
  }

  ghost predicate InOrder(patches: seq<GlobalPatch>) {
    forall i, j :: 0 <= i < j < |patches| ==> patches[i].memPos + 4 <= patches[j].auipcPos
  }

  ghost predicate AllPairs(code: Memory, patches: seq<GlobalPatch>) {
    forall i :: 0 <= i < |patches| ==> IsPair(code, patches[i])
  }

  /** What the pair at `p` addresses: the AUIPC adds its immediate to its own address, the access adds its own. */
  function Addressed(code: Memory, p: GlobalPatch): int
    requires p.auipcPos + 4 <= |code| && p.memPos + 4 <= |code|
  {
    p.auipcPos + UImm(Word32(code, p.auipcPos)) + AccessImm(Word32(code, p.memPos))
  }

  /** Everything in the pair that is not an immediate is as before. */
  ghost predicate SameOperands(old_: Memory, new_: Memory, p: GlobalPatch)
    requires p.auipcPos + 4 <= |old_| == |new_| && p.memPos + 4 <= |old_|
  {
    var a0, a1, m0, m1 := Word32(old_, p.auipcPos), Word32(new_, p.auipcPos), Word32(old_, p.memPos),
        Word32(new_, p.memPos);
    && Rd(a1) == Rd(a0) && Opcode(a1) == Opcode(a0)
    && Opcode(m1) == Opcode(m0) && Funct3(m1) == Funct3(m0) && Rs1(m1) == Rs1(m0)
    && (Opcode(m0) == LOAD ==> Rd(m1) == Rd(m0)) && (Opcode(m0) == STORE ==> Rs2(m1) == Rs2(m0))
  }

  predicate InSite(p: GlobalPatch, i: int) {
    p.auipcPos <= i < p.auipcPos + 4 || p.memPos <= i < p.memPos + 4
  }

  /** One step of patch_globals. */
  function PatchOne(code: Memory, p: GlobalPatch, start: nat): (r: Memory)
    requires p.auipcPos + 4 <= |code| && p.memPos + 4 <= |code|
    ensures |r| == |code|
  {
    var total := start + p.globalOffset - p.auipcPos;
    var code1 := StoreWord(code, p.auipcPos, PatchedAuipc(Word32(code, p.auipcPos), total));
    StoreWord(code1, p.memPos, PatchedAccess(Word32(code1, p.memPos), total))
  }

  lemma PatchOneExact(code: Memory, p: GlobalPatch, start: nat)
    requires IsPair(code, p)
    requires |code| < 0x8000_0000 - 0x800 && start + p.globalOffset < 0x8000_0000 - 0x800
    ensures var n := PatchOne(code, p, start);
            && Addressed(n, p) == start + p.globalOffset
            && SameOperands(code, n, p) && IsPair(n, p)
            && forall i :: 0 <= i < |code| && !InSite(p, i) ==> n[i] == code[i]
  {
    hide Word32, Bits, Pow2, UImm, AccessImm, PatchedAuipc, PatchedAccess, StoreWord;
    var total := start + p.globalOffset - p.auipcPos;
    var auipc, access := Word32(code, p.auipcPos), Word32(code, p.memPos);
    var code1 := StoreWord(code, p.auipcPos, PatchedAuipc(auipc, total));
    WordUnchanged(code, code1, p.memPos);
    var n := PatchOne(code, p, start);
    PatchedAuipcFields(auipc, total);
    PatchedAccessFields(access, total);
    StoreThenLoad(code, p.auipcPos, PatchedAuipc(auipc, total));
    StoreThenLoad(code1, p.memPos, PatchedAccess(access, total));
    WordUnchanged(code1, n, p.auipcPos);
    PairReachesIff(auipc, access, total);
  }

  /** Halfway through the pass: the first `k` pairs address their globals, all else is untouched. */
  ghost predicate PatchedUpTo(old_: Memory, now: Memory, patches: seq<GlobalPatch>, start: nat, k: nat)
    requires AllPairs(old_, patches) && k <= |patches|
  {
    && |now| == |old_|
    && (forall i :: 0 <= i < k ==>
          && IsPair(now, patches[i])
          && Addressed(now, patches[i]) == start + patches[i].globalOffset
          && SameOperands(old_, now, patches[i]))
    && (forall b :: 0 <= b < |old_| && (forall i :: 0 <= i < k ==> !InSite(patches[i], b)) ==> now[b] == old_[b])
  }

  lemma PairUnchanged(m: Memory, n: Memory, p: GlobalPatch)
    requires IsPair(m, p) && |m| == |n|
    requires forall b :: InSite(p, b) ==> n[b] == m[b]
    ensures IsPair(n, p) && Addressed(n, p) == Addressed(m, p)
    ensures Word32(n, p.auipcPos) == Word32(m, p.auipcPos) && Word32(n, p.memPos) == Word32(m, p.memPos)
  {
    hide Word32;
    WordUnchanged(m, n, p.auipcPos);
    WordUnchanged(m, n, p.memPos);
  }

  lemma PatchedOneMore(old_: Memory, now: Memory, patches: seq<GlobalPatch>, start: nat, k: nat)
    requires AllPairs(old_, patches) && InOrder(patches) && k < |patches|
    requires PatchedUpTo(old_, now, patches, start, k)
    requires |old_| < 0x8000_0000 - 0x800 && start + patches[k].globalOffset < 0x8000_0000 - 0x800
    ensures IsPair(now, patches[k])
    ensures PatchedUpTo(old_, PatchOne(now, patches[k], start), patches, start, k + 1)
  {
    hide Word32, UImm, AccessImm, Opcode, Rd, Rs1, Rs2, Funct3, PatchOne, Addressed;
    var p := patches[k];
    PairUnchanged(old_, now, p);
    var n := PatchOne(now, p, start);
    PatchOneExact(now, p, start);
    assert SameOperands(old_, n, p);
    forall i | 0 <= i < k
      ensures IsPair(n, patches[i]) && Addressed(n, patches[i]) == start + patches[i].globalOffset
          && SameOperands(old_, n, patches[i])
    {
      PairUnchanged(now, n, patches[i]);
    }
  }

  class CodeBuffer {
    var code: Memory
    var globalPatches: seq<GlobalPatch>
    var globalsDataOffset: nat

    /** Instructions are 4-byte aligned, and every recorded access is an AUIPC pair of its own. */
    ghost predicate Valid()
      reads this
    {
      && |code| % 4 == 0
      && AllPairs(code, globalPatches) && InOrder(globalPatches)
    }

    constructor ()
      ensures Valid() && code == [] && globalPatches == [] && globalsDataOffset == 0
    {
      code, globalPatches, globalsDataOffset := [], [], 0;
    }

    /** Appends one instruction word. */
    method Emit(w: nat)
      requires Valid()
      modifies this`code
      ensures Valid() && code == old(code) + WordBytes(w)
    {
      hide Word32, Opcode, Rd, Rs1, Funct3;
      ghost var before := code;
      code := code + WordBytes(w);
      forall i | 0 <= i < |globalPatches| ensures IsPair(code, globalPatches[i]) {
        StillPair(before, WordBytes(w), globalPatches[i]);
      }
    }

    lemma StillPair(m: Memory, more: Memory, p: GlobalPatch)
      requires IsPair(m, p)
      ensures IsPair(m + more, p)
    {
      WordUnchanged(m, m + more, p.auipcPos);
      WordUnchanged(m, m + more, p.memPos);
    }

    method RecordPair(ghost before: Memory, ghost auipc: nat, ghost access: nat, auipcPos: nat, globalOffset: nat)
      requires Valid() && auipcPos == |before| && code == before + WordBytes(auipc) + WordBytes(access)
      requires auipc < TWO_32 && access < TWO_32
      requires |before| % 4 == 0 && forall i :: 0 <= i < |globalPatches| ==> globalPatches[i].memPos + 4 <= |before|
      requires Opcode(auipc) == AUIPC && Rs1(access) == Rd(auipc) && Funct3(access) == 3
      requires (Opcode(access) == LOAD && Rd(access) == Rd(auipc)) || (Opcode(access) == STORE && Rd(auipc) == T6)
      modifies this`globalPatches
      ensures Valid() && globalPatches == old(globalPatches) + [GlobalPatch(auipcPos, auipcPos + 4, globalOffset)]
    {
      hide Word32, Opcode, Rd, Rs1, Funct3;
      AppendedWord(before, auipc);
      AppendedWord(before + WordBytes(auipc), access);
      WordUnchanged(before + WordBytes(auipc), code, |before|);
      globalPatches := globalPatches + [GlobalPatch(auipcPos, auipcPos + 4, globalOffset)];
    }

    /** AUIPC rd; LD rd, 0(rd): immediates to be patched. */
    method LoadGlobal(rd: nat, globalOffset: nat)
      requires Valid() && rd < 32
      modifies this`code, this`globalPatches
      ensures Valid()
      ensures code == old(code) + WordBytes(UType(0, rd, AUIPC)) + WordBytes(IType(0, rd, 3, rd, LOAD))
      ensures globalPatches == old(globalPatches) + [GlobalPatch(|old(code)|, |old(code)| + 4, globalOffset)]
    {
      hide Bits, Pow2;
      ghost var before := code;
      var auipcPos := |code|;
      PairFields(rd, 0);
      Emit(UType(0, rd, AUIPC));
      Emit(IType(0, rd, 3, rd, LOAD));
      RecordPair(before, UType(0, rd, AUIPC), IType(0, rd, 3, rd, LOAD), auipcPos, globalOffset);
    }

    /** AUIPC T6; SD rs, 0(T6): immediates to be patched. */
    method StoreGlobal(rs: nat, globalOffset: nat)
      requires Valid() && rs < 32
      modifies this`code, this`globalPatches
      ensures Valid()
      ensures code == old(code) + WordBytes(UType(0, T6, AUIPC)) + WordBytes(SType(0, rs, T6, 3, STORE))
      ensures globalPatches == old(globalPatches) + [GlobalPatch(|old(code)|, |old(code)| + 4, globalOffset)]
    {
      hide Bits, Pow2;
      ghost var before := code;
      var auipcPos := |code|;
      PairFields(T6, rs);
      Emit(UType(0, T6, AUIPC));
      Emit(SType(0, rs, T6, 3, STORE));
      RecordPair(before, UType(0, T6, AUIPC), SType(0, rs, T6, 3, STORE), auipcPos, globalOffset);
    }

    lemma PairFields(rd: nat, rs: nat)
      requires rd < 32 && rs < 32
      ensures var a := UType(0, rd, AUIPC); a < TWO_32 && Opcode(a) == AUIPC && Rd(a) == rd
      ensures var l := IType(0, rd, 3, rd, LOAD);
              l < TWO_32 && Opcode(l) == LOAD && Funct3(l) == 3 && Rs1(l) == rd && Rd(l) == rd
      ensures var s := SType(0, rs, rd, 3, STORE);
              s < TWO_32 && Opcode(s) == STORE && Funct3(s) == 3 && Rs1(s) == rd && Rs2(s) == rs
    {
      Powers();
      UTypeFields(0, rd, AUIPC);
      ITypeFields(0, rd, 3, rd, LOAD);
      STypeFields(0, rs, rd, 3, STORE);
      BitsOfSmall(rd, 5);
      BitsOfSmall(rs, 5);
      BitsOfSmall(3, 3);
      BitsOfSmall(AUIPC, 7);
      BitsOfSmall(LOAD, 7);
      BitsOfSmall(STORE, 7);
      hide Bits, Pow2;
    }

    /** Retargets the branch at `pos` in place. */
    method PatchBType(pos: nat, target: nat)
      requires pos + 4 <= |code|
      modifies this`code
      ensures code == WithBranch(old(code), pos, target)
    {
      var offset := target - pos;
      var orig := Word32(code, pos);
      var funct3, rs1, rs2, opcode := Funct3(orig), Rs1(orig), Rs2(orig), Opcode(orig);
      code := StoreWord(code, pos, BType(ToU32(offset), rs2, rs1, funct3, opcode));
    }

    /** patch_globals: afterwards every pair addresses its global, and nothing but the immediates has changed. */
    method PatchGlobals()
      requires Valid() && |code| < 0x8000_0000 - 0x800
      requires forall i :: 0 <= i < |globalPatches| ==> globalsDataOffset + globalPatches[i].globalOffset < |code|
      modifies this`code
      ensures Valid() && |code| == |old(code)|
      ensures forall i :: 0 <= i < |globalPatches| ==>
                && Addressed(code, globalPatches[i]) == globalsDataOffset + globalPatches[i].globalOffset
                && SameOperands(old(code), code, globalPatches[i])
      ensures forall b :: 0 <= b < |code| && (forall i :: 0 <= i < |globalPatches| ==> !InSite(globalPatches[i], b)) ==>
                code[b] == old(code)[b]
    {
      hide Word32, StoreWord, PatchedAuipc, PatchedAccess, Addressed, SameOperands, IsPair, InSite;
      ghost var before := code;
      var globalsStart := globalsDataOffset;
      for k := 0 to |globalPatches|
        invariant PatchedUpTo(before, code, globalPatches, globalsStart, k)
      {
        var patch := globalPatches[k];
        PatchedOneMore(before, code, globalPatches, globalsStart, k);
        PairBounds(code, patch);
        ghost var now := code;
        var total := globalsStart + patch.globalOffset - patch.auipcPos;
        code := StoreWord(code, patch.auipcPos, PatchedAuipc(Word32(code, patch.auipcPos), total));
        code := StoreWord(code, patch.memPos, PatchedAccess(Word32(code, patch.memPos), total));
        assert code == PatchOne(now, patch, globalsStart);
      }
    }

    lemma PairBounds(m: Memory, p: GlobalPatch)
      requires IsPair(m, p)
      ensures p.auipcPos + 4 <= |m| && p.memPos + 4 <= |m|
    {
    }
  }
}
