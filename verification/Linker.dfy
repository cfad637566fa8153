/** The link step of the RISC-V compiler: layout, labels, patches, the call of main, and the final code image. */
module Linker {
  import opened Wrappers
  import opened Arithmetic
  import opened Bytes
  import opened BitFields
  import opened RiscvEncoding
  import opened CodeLayout
  import opened LabelAddresses
  import opened JumpPatching

  /**
   * The runtime: its code, where its own globals and functions are in it, the labels it offers, and its call of main.
   */
  datatype Runtime = Runtime(code: Memory, names: map<string, nat>, labels: LabelTable, callMain: nat) {
    predicate Valid() {
      callMain + 4 <= |code|
    }

    /** Where the functions' code will be loaded. */
    function CodeAddress(): nat {
      CODE_BASE + |code|
    }
  }

  /** The start-up code's call of main. */
  function WithCallMain(runtime: Memory, callMain: nat, mainAddress: nat): (r: Result<Memory>)
    requires callMain + 4 <= |runtime|
    ensures r.Ok? ==> |r.value| == |runtime|
  {
    var offset := mainAddress - (CODE_BASE + callMain);
    if !InRange(offset, Unconditional) then Err
    else Ok(StoreWord(runtime, callMain, JType(ToU32(offset), 1, JAL)))
  }

  lemma CallMainExact(runtime: Memory, callMain: nat, mainAddress: nat)
    requires callMain + 4 <= |runtime| && WithCallMain(runtime, callMain, mainAddress).Ok?
    ensures var n := WithCallMain(runtime, callMain, mainAddress).value;
            var w := Word32(n, callMain);
            && Opcode(w) == JAL && Rd(w) == 1
            && (CODE_BASE + callMain + JImm(w) == mainAddress <==> (mainAddress - callMain) % 2 == 0)
            && forall b :: 0 <= b < |runtime| && !(callMain <= b < callMain + 4) ==> n[b] == runtime[b]
  {
    hide Bits, JType, Word32, StoreWord, ToU32, JImm, Opcode, Rd;
    var offset := mainAddress - (CODE_BASE + callMain);
    JalExact(offset, 1);
    StoreThenLoad(runtime, callMain, JType(ToU32(offset), 1, JAL));
  }

  predicate PatchesInside(functions: seq<CompiledFunction>) {
    JumpsInside(functions) && AddressesInside(functions)
  }

  /** No two patch sites overlap. */
  predicate PatchesDisjoint(functions: seq<CompiledFunction>) {
    && Disjoint(SitesOf(functions)) && AddressesDisjoint(AddressSitesOf(functions))
    && forall i, j :: 0 <= i < |AddressSitesOf(functions)| && 0 <= j < |SitesOf(functions)| ==>
         var a, s := AddressSitesOf(functions)[i], SitesOf(functions)[j];
         a.position + 8 <= s.position || s.position + 4 <= a.position
  }

  /** What the link step needs from the runtime and the function compiler for its patches to be exact. */
  predicate Linkable(runtime: Runtime, functions: seq<CompiledFunction>, main: nat) {
    WholeInstructions(functions) && PatchesInside(functions) && PatchesDisjoint(functions) && runtime.Valid()
        && main < |functions|
  }

  /** The label table of the whole program. */
  function LabelsIn(runtime: Runtime, functions: seq<CompiledFunction>): LabelTable {
    LabelsOf(runtime.labels, functions, runtime.CodeAddress())
  }

  /** The functions' code once the label addresses are in. */
  function WithAddresses(runtime: Runtime, functions: seq<CompiledFunction>): (r: Memory)
    requires AddressesInside(functions)
    ensures |r| == |CodeOf(functions)|
  {
    AddressSitesInside(functions);
    PatchAddresses(CodeOf(functions), AddressSitesOf(functions), runtime.names, LabelsIn(runtime, functions))
  }

  /**
   * The image is the runtime with its call of main, followed by the functions with their addresses and jumps patched.
   */
  ghost function Linked(runtime: Runtime, functions: seq<CompiledFunction>, main: nat): Result<Memory>
    requires PatchesInside(functions) && runtime.Valid() && main < |functions|
  {
    SitesInside(functions);
    var patched := PatchJumps(WithAddresses(runtime, functions), SitesOf(functions), LabelsIn(runtime, functions),
        runtime.CodeAddress());
    var start := WithCallMain(runtime.code, runtime.callMain, runtime.CodeAddress() + OffsetOf(functions, main));
    if patched.Err? || start.Err? then Err else Ok(start.value + patched.value)
  }

  /** The whole link step: the code image of the executable, or a distance that no instruction can express. */
  method Link(runtime: Runtime, functions: seq<CompiledFunction>, main: nat) returns (r: Result<Memory>)
    requires WholeInstructions(functions) && PatchesInside(functions) && runtime.Valid() && main < |functions|
    ensures r == Linked(runtime, functions, main)
  {
    hide PatchJumps, PatchAddresses, WithCallMain, CodeOf, LabelsOf, OffsetOf, SitesOf, AddressSitesOf;
    var karteCode, offsets := LayoutFunctions(functions);
    var labels := BuildLabels(runtime.labels, functions, offsets, |runtime.code|);
    AddressSitesInside(functions);
    SitesInside(functions);
    var addressed := PatchAllAddresses(karteCode, functions, offsets, runtime.names, labels);
    var patched := PatchAll(addressed, functions, offsets, labels, runtime.CodeAddress());
    if patched.Err? {
      return Err;
    }
    var mainAddress := runtime.CodeAddress() + offsets[main];
    var start := WithCallMain(runtime.code, runtime.callMain, mainAddress);
    if start.Err? {
      return Err;
    }
    r := Ok(start.value + patched.value);
  }

  // ---- What the linked image does -----------------------------------------------

  /** The address patches leave the words of all jumps alone. */
  lemma JumpWordsSurvive(runtime: Runtime, functions: seq<CompiledFunction>, k: nat)
    requires PatchesInside(functions) && PatchesDisjoint(functions) && k < |SitesOf(functions)|
    ensures SitesOf(functions)[k].position + 4 <= |CodeOf(functions)|
    ensures forall b :: InWord(SitesOf(functions)[k], b) ==>
        WithAddresses(runtime, functions)[b] == CodeOf(functions)[b]
  {
    hide AddressOf, LoadDouble, CodeOf, LabelsOf, SitesOf, AddressSitesOf, PatchAddresses;
    SitesInside(functions);
    AddressSitesInside(functions);
    PatchAddressesExact(CodeOf(functions), AddressSitesOf(functions), runtime.names, LabelsIn(runtime, functions));
  }

  /** In a linked image every resolved jump, seen at the address it will be loaded at, leads to its label. */
  lemma LinkedJumps(runtime: Runtime, functions: seq<CompiledFunction>, main: nat, image: Memory, k: nat)
    requires Linkable(runtime, functions, main) && Linked(runtime, functions, main) == Ok(image)
    requires k < |SitesOf(functions)| && Resolved(SitesOf(functions)[k], LabelsIn(runtime, functions))
    ensures var s := SitesOf(functions)[k];
            && |image| == |runtime.code| + |CodeOf(functions)|
            && s.position + 4 <= |CodeOf(functions)|
            && JumpsToLabel(CodeOf(functions), image[|runtime.code|..], s, LabelsIn(runtime, functions),
                runtime.CodeAddress())
            && Word32(image, |runtime.code| + s.position) == Word32(image[|runtime.code|..], s.position)
  {
    hide JumpsToLabel, Resolved, LabelsIn, Word32, PatchJumps, WithCallMain, CodeOf, OffsetOf, Disjoint,
        AddressesDisjoint, WithAddresses;
    SitesInside(functions);
    var labels := LabelsIn(runtime, functions);
    var addressed := WithAddresses(runtime, functions);
    var patched := PatchJumps(addressed, SitesOf(functions), labels, runtime.CodeAddress()).value;
    PatchJumpsExact(addressed, SitesOf(functions), labels, runtime.CodeAddress());
    assert image[|runtime.code|..] == patched;
    JumpWordsSurvive(runtime, functions, k);
    SameOrigin(CodeOf(functions), addressed, patched, SitesOf(functions)[k], labels, runtime.CodeAddress());
    WordInTail(image, |runtime.code|, SitesOf(functions)[k].position);
  }

  /** In a linked image every pending address that is known stands at its place. */
  lemma LinkedAddresses(runtime: Runtime, functions: seq<CompiledFunction>, main: nat, image: Memory, i: nat, j: nat)
    requires Linkable(runtime, functions, main) && Linked(runtime, functions, main) == Ok(image)
    requires i < |functions| && j < |functions[i].addresses|
    requires AddressOf(functions[i].addresses[j].target, runtime.names, LabelsIn(runtime, functions)).Some?
    ensures var p := functions[i].addresses[j];
            var at := |runtime.code| + OffsetOf(functions, i) + p.position;
            at + 8 <= |image| &&
            LoadDouble(image, at) == AddressOf(p.target, runtime.names, LabelsIn(runtime, functions)).value % TWO_64
  {
    hide AddressOf, LabelsIn, LoadDouble, PatchJumps, PatchAddresses, WithCallMain, CodeOf, OffsetOf, SitesOf,
        AddressSitesOf, JumpsToLabel, Resolved;
    SitesInside(functions);
    AddressSitesInside(functions);
    var labels := LabelsIn(runtime, functions);
    var addressed := WithAddresses(runtime, functions);
    var patched := PatchJumps(addressed, SitesOf(functions), labels, runtime.CodeAddress()).value;
    var k := SiteOfAddress(functions, i, j);
    var s := AddressSitesOf(functions)[k];
    PatchAddressesExact(CodeOf(functions), AddressSitesOf(functions), runtime.names, labels);
    PatchJumpsExact(addressed, SitesOf(functions), labels, runtime.CodeAddress());
    forall b | InDouble(s, b) ensures patched[b] == addressed[b] {
    }
    DoubleUnchanged(addressed, patched, s.position);
    assert image[|runtime.code|..] == patched;
    DoubleInTail(image, |runtime.code|, s.position);
  }

  lemma DoubleInTail(m: Memory, n: nat, a: nat)
    requires n + a + 8 <= |m|
    ensures LoadDouble(m, n + a) == LoadDouble(m[n..], a)
  {
    WordInTail(m, n, a);
    WordInTail(m, n, a + 4);
  }

  lemma WordInTail(m: Memory, n: nat, a: nat)
    requires n + a + 4 <= |m|
    ensures Word32(m, n + a) == Word32(m[n..], a)
  {
  }

  /** Jump `j` of function `i` is one of the sites. */
  lemma {:induction false} SiteOfJump(functions: seq<CompiledFunction>, i: nat, j: nat) returns (k: nat)
    requires i < |functions| && j < |functions[i].jumps|
    ensures k < |SitesOf(functions)|
    ensures var p := functions[i].jumps[j];
            SitesOf(functions)[k] == Site(OffsetOf(functions, i) + p.position, p.target, p.kind)
    decreases |functions|
  {
    var n := |functions| - 1;
    if i < n {
      k := SiteOfJump(functions[..n], i, j);
      SameOffset(functions, |functions| - 1, i);
    } else {
      k := |SitesOf(functions[..n])| + j;
    }
  }

  /** Where in the linked image a jump is. */
  function JumpAt(runtime: Runtime, functions: seq<CompiledFunction>, i: nat, j: nat): nat
    requires i < |functions| && j < |functions[i].jumps|
  {
    |runtime.code| + OffsetOf(functions, i) + functions[i].jumps[j].position
  }

  /** A site is some jump of some function. */
  lemma {:induction false} JumpOfSite(functions: seq<CompiledFunction>, k: nat) returns (i: nat, j: nat)
    requires k < |SitesOf(functions)|
    ensures i < |functions| && j < |functions[i].jumps|
    ensures var p := functions[i].jumps[j];
            SitesOf(functions)[k] == Site(OffsetOf(functions, i) + p.position, p.target, p.kind)
  {
    var n := |functions| - 1;
    if k < |SitesOf(functions[..n])| {
      i, j := JumpOfSite(functions[..n], k);
      SameOffset(functions, n, i);
    } else {
      i, j := n, k - |SitesOf(functions[..n])|;
    }
  }

  /** Jump `j` of function `i` has no label in the program, is a call, or can express the distance to its label. */
  ghost predicate JumpFits(runtime: Runtime, functions: seq<CompiledFunction>, i: nat, j: nat)
    requires i < |functions| && j < |functions[i].jumps|
  {
    var p, labels := functions[i].jumps[j], LabelsIn(runtime, functions);
    p.target in labels ==> Reaches(p.kind, labels[p.target] - (CODE_BASE + JumpAt(runtime, functions, i, j)))
  }

  /** Linking succeeds exactly when every jump can express its distance, and so can the start-up code's call of main. */
  lemma LinksIff(runtime: Runtime, functions: seq<CompiledFunction>, main: nat)
    requires PatchesInside(functions) && runtime.Valid() && main < |functions|
    ensures Linked(runtime, functions, main).Ok? <==>
            && (forall i: nat, j: nat :: i < |functions| && j < |functions[i].jumps| ==>
                  JumpFits(runtime, functions, i, j))
            && -1048576 <= |runtime.code| + OffsetOf(functions, main) - runtime.callMain < 1048576
  {
    hide PatchJumps, LabelsIn, OffsetOf, SitesOf, CodeOf, StoreWord, JType, ToU32, Reaches, WithAddresses;
    SitesInside(functions);
    var labels, sites := LabelsIn(runtime, functions), SitesOf(functions);
    PatchJumpsSucceedIff(WithAddresses(runtime, functions), sites, labels, runtime.CodeAddress());
    if forall k :: 0 <= k < |sites| && Resolved(sites[k], labels) ==>
         Reaches(sites[k].kind, labels[sites[k].target] - (runtime.CodeAddress() + sites[k].position)) {
      forall i: nat, j: nat | i < |functions| && j < |functions[i].jumps| ensures JumpFits(runtime, functions, i, j) {
        var k := SiteOfJump(functions, i, j);
        CallsReach(functions[i].jumps[j].kind);
        assert Resolved(sites[k], labels) || functions[i].jumps[j].kind.Call? || sites[k].target !in labels;
      }
    }
    if forall i: nat, j: nat :: i < |functions| && j < |functions[i].jumps| ==> JumpFits(runtime, functions, i, j) {
      forall k | 0 <= k < |sites| && Resolved(sites[k], labels)
        ensures Reaches(sites[k].kind, labels[sites[k].target] - (runtime.CodeAddress() + sites[k].position))
      {
        var i, j := JumpOfSite(functions, k);
        assert JumpFits(runtime, functions, i, j);
      }
    }
  }

  lemma CallsReach(kind: JumpKind)
    ensures kind.Call? ==> forall d :: Reaches(kind, d)
  {
  }

  /** What an instruction word does to the program counter; branches keep what they compare. */
  datatype Control =
    | JumpBy(rd: nat, offset: int)
    | BranchBy(funct3: nat, rs1: nat, rs2: nat, offset: int)
    | OtherInstruction

  function ControlOf(w: nat): Control {
    if Opcode(w) == JAL then JumpBy(Rd(w), JImm(w))
    else if Opcode(w) == BRANCH then BranchBy(Funct3(w), Rs1(w), Rs2(w), BImm(w))
    else OtherInstruction
  }

  /** The control a patched jump is to have: a plain jump, or the branch the compiler emitted, over `distance`. */
  function Wanted(orig: nat, kind: JumpKind, distance: int): Control {
    if kind.Unconditional? then JumpBy(0, distance) else BranchBy(Funct3(orig), Rs1(orig), Rs2(orig), distance)
  }

  /** The word the function compiler left for jump `j` of function `i`. */
  function CompiledWord(functions: seq<CompiledFunction>, i: nat, j: nat): nat
    requires JumpsInside(functions) && i < |functions| && j < |functions[i].jumps|
  {
    Word32(functions[i].code, functions[i].jumps[j].position)
  }

  /**
   * A jump whose label is known: in the linked image its word is a jump or a branch as it was compiled, over some
   * distance, and over the distance to its label exactly when that is even.
   */
  lemma JumpReachesIff(runtime: Runtime, functions: seq<CompiledFunction>, main: nat, image: Memory, i: nat, j: nat)
    requires Linkable(runtime, functions, main) && Linked(runtime, functions, main) == Ok(image)
    requires i < |functions| && j < |functions[i].jumps| && !functions[i].jumps[j].kind.Call?
    requires functions[i].jumps[j].target in LabelsIn(runtime, functions)
    ensures var p, at := functions[i].jumps[j], JumpAt(runtime, functions, i, j);
            var orig := CompiledWord(functions, i, j);
            var distance := LabelsIn(runtime, functions)[p.target] - (CODE_BASE + at);
            && at + 4 <= |image|
            && (exists d :: ControlOf(Word32(image, at)) == Wanted(orig, p.kind, d))
            && (ControlOf(Word32(image, at)) == Wanted(orig, p.kind, distance) <==> distance % 2 == 0)
  {
    hide Word32, WithCallMain, Linked, ControlOf, Wanted, JumpsToLabel, CodeOf, SitesOf, LabelsIn, OffsetOf;
    hide PatchesDisjoint, WholeInstructions;
    var k := SiteOfJump(functions, i, j);
    LinkedJumps(runtime, functions, main, image, k);
    var p, s := functions[i].jumps[j], SitesOf(functions)[k];
    WordInFunction(functions, i, p.position);
    assert JumpAt(runtime, functions, i, j) == |runtime.code| + s.position;
    assert Word32(CodeOf(functions), s.position) == CompiledWord(functions, i, j);
    LeadsToLabel(CodeOf(functions), image[|runtime.code|..], s, LabelsIn(runtime, functions), runtime.CodeAddress());
  }

  /** A word of the whole code is the word of the function it belongs to. */
  lemma WordInFunction(functions: seq<CompiledFunction>, i: nat, position: nat)
    requires i < |functions| && position + 4 <= |functions[i].code|
    ensures OffsetOf(functions, i) + position + 4 <= |CodeOf(functions)|
    ensures Word32(CodeOf(functions), OffsetOf(functions, i) + position) == Word32(functions[i].code, position)
  {
    hide CodeOf;
    FunctionAtOffset(functions, i);
    WordInSlice(CodeOf(functions), OffsetOf(functions, i), OffsetOf(functions, i + 1), position);
  }

  lemma WordInSlice(m: Memory, start: nat, end: nat, a: nat)
    requires start + a + 4 <= end <= |m|
    ensures Word32(m, start + a) == Word32(m[start..end], a)
  {
  }

  lemma LeadsToLabel(code: Memory, patched: Memory, s: Site, labels: LabelTable, base: nat)
    requires s.position + 4 <= |code| == |patched| && Resolved(s, labels)
    requires JumpsToLabel(code, patched, s, labels, base)
    ensures var orig, w := Word32(code, s.position), Word32(patched, s.position);
            var distance := labels[s.target] - (base + s.position);
            && (exists d :: ControlOf(w) == Wanted(orig, s.kind, d))
            && (ControlOf(w) == Wanted(orig, s.kind, distance) <==> distance % 2 == 0)
  {
    hide Word32, JImm, BImm, Rs1, Rs2, Funct3, Opcode, Rd;
    var orig, w := Word32(code, s.position), Word32(patched, s.position);
    assert ControlOf(w) == Wanted(orig, s.kind, if s.kind.Unconditional? then JImm(w) else BImm(w));
  }

  /** Where the loaded code of function `m` has a label: its own, or its name, which stands for its first byte. */
  function PlaceOf(runtime: Runtime, functions: seq<CompiledFunction>, m: nat, label_: string): nat
    requires m < |functions|
  {
    runtime.CodeAddress() + OffsetOf(functions, m) +
    if label_ in functions[m].labels then functions[m].labels[label_] else 0
  }

  predicate IsEven(n: nat) {
    n % 2 == 0
  }

  /** Jump `j` of function `i` goes to a label or the name of function `m` that no later function defines again. */
  predicate Targets(functions: seq<CompiledFunction>, i: nat, j: nat, m: nat) {
    && i < |functions| && j < |functions[i].jumps| && m < |functions|
    && var p := functions[i].jumps[j];
       && !p.kind.Call? && IsEven(p.position) && Defines(functions[m], p.target)
       && (p.target in functions[m].labels ==> IsEven(functions[m].labels[p.target]))
       && forall l :: m < l < |functions| ==> !Defines(functions[l], p.target)
  }

  /** Such a jump is in the image as it was compiled, and lands where the function has the label. */
  lemma JumpLands(runtime: Runtime, functions: seq<CompiledFunction>, main: nat, image: Memory, i: nat, j: nat, m: nat)
    requires Linkable(runtime, functions, main) && Linked(runtime, functions, main) == Ok(image)
    requires Targets(functions, i, j, m)
    ensures var p, at := functions[i].jumps[j], JumpAt(runtime, functions, i, j);
            && at + 4 <= |image|
            && ControlOf(Word32(image, at)) ==
               Wanted(CompiledWord(functions, i, j), p.kind,
                   PlaceOf(runtime, functions, m, p.target) - (CODE_BASE + at))
  {
    hide Word32, Linked, ControlOf, Wanted, CodeOf, LabelsOf, OffsetOf, PatchesDisjoint, WholeInstructions, Defines;
    var p := functions[i].jumps[j];
    LabelResolves(runtime.labels, functions, runtime.CodeAddress(), m, p.target);
    OffsetsAligned(functions, i);
    OffsetsAligned(functions, m);
    var inside := if p.target in functions[m].labels then functions[m].labels[p.target] else 0;
    EvenDistance(OffsetOf(functions, m), inside, OffsetOf(functions, i), p.position);
    JumpReachesIff(runtime, functions, main, image, i, j);
  }

  lemma EvenDistance(a: nat, x: nat, b: nat, y: nat)
    requires a % 4 == 0 && b % 4 == 0 && x % 2 == 0 && y % 2 == 0
    ensures (a + x - (b + y)) % 2 == 0
  {
    var a4, x2, b4, y2 := a / 4, x / 2, b / 4, y / 2;
    assert a == 4 * a4 && x == 2 * x2 && b == 4 * b4 && y == 2 * y2;
    DivModUnique(a + x - (b + y), 2, 2 * a4 + x2 - 2 * b4 - y2, 0);
  }

  /** A jump to a label of the runtime that no function defines lands there in the same way. */
  lemma RuntimeJumpLands(runtime: Runtime, functions: seq<CompiledFunction>, main: nat, image: Memory, i: nat, j: nat)
    requires Linkable(runtime, functions, main) && Linked(runtime, functions, main) == Ok(image)
    requires i < |functions| && j < |functions[i].jumps|
    requires var p := functions[i].jumps[j];
             && !p.kind.Call? && IsEven(p.position) && p.target in runtime.labels
             && IsEven(runtime.labels[p.target]) && IsEven(|runtime.code|)
             && forall l :: 0 <= l < |functions| ==> !Defines(functions[l], p.target)
    ensures var p, at := functions[i].jumps[j], JumpAt(runtime, functions, i, j);
            && at + 4 <= |image|
            && ControlOf(Word32(image, at)) ==
               Wanted(CompiledWord(functions, i, j), p.kind, runtime.labels[p.target] - (CODE_BASE + at))
  {
    hide Word32, Linked, ControlOf, Wanted, CodeOf, LabelsOf, OffsetOf, PatchesDisjoint, WholeInstructions, Defines;
    var p := functions[i].jumps[j];
    RuntimeLabelSurvives(runtime.labels, functions, runtime.CodeAddress(), p.target);
    OffsetsAligned(functions, i);
    SumEven(|runtime.code|, p.position);
    SumAligned(CODE_BASE, OffsetOf(functions, i));
    EvenDistance(0, runtime.labels[p.target], CODE_BASE + OffsetOf(functions, i), |runtime.code| + p.position);
    JumpReachesIff(runtime, functions, main, image, i, j);
  }

  lemma SumEven(a: nat, b: nat)
    requires IsEven(a) && IsEven(b)
    ensures IsEven(a + b)
  {
    DivModUnique(a + b, 2, a / 2 + b / 2, 0);
  }

  /** The start-up code of the image calls main: JAL ra over the distance to the first byte of its code. */
  lemma MainCalled(runtime: Runtime, functions: seq<CompiledFunction>, main: nat, image: Memory)
    requires Linkable(runtime, functions, main) && Linked(runtime, functions, main) == Ok(image)
    requires IsEven(runtime.callMain) && IsEven(|runtime.code|)
    ensures |image| >= runtime.callMain + 4
    ensures ControlOf(Word32(image, runtime.callMain)) ==
            JumpBy(1, runtime.CodeAddress() + OffsetOf(functions, main) - (CODE_BASE + runtime.callMain))
  {
    hide Word32, WithCallMain, PatchJumps, CodeOf, OffsetOf, SitesOf, AddressSitesOf, LabelsOf, PatchesDisjoint;
    hide JImm, Opcode, Rd;
    SitesInside(functions);
    var address := runtime.CodeAddress() + OffsetOf(functions, main);
    var start := WithCallMain(runtime.code, runtime.callMain, address).value;
    CallMainExact(runtime.code, runtime.callMain, address);
    assert image[..|start|] == start;
    forall b | runtime.callMain <= b < runtime.callMain + 4 ensures image[b] == start[b] {
      assert image[..|start|][b] == image[b];
    }
    WordUnchanged(start, image, runtime.callMain);
    OffsetsAligned(functions, main);
    SumAligned(CODE_BASE, OffsetOf(functions, main));
    EvenDistance(CODE_BASE + OffsetOf(functions, main), |runtime.code|, 0, runtime.callMain);
  }

  /** A byte of the image that some patch writes: the call of main, a known address, or a resolved jump. */
  ghost predicate IsPatched(runtime: Runtime, functions: seq<CompiledFunction>, b: int) {
    var labels, inCode := LabelsIn(runtime, functions), b - |runtime.code|;
    || runtime.callMain <= b < runtime.callMain + 4
    || InKnownSite(AddressSitesOf(functions), runtime.names, labels, inCode)
    || InResolvedSite(SitesOf(functions), labels, inCode)
  }

  /** Every other byte of the image is the byte of the runtime or of the compiled functions. */
  lemma LinkedElsewhere(runtime: Runtime, functions: seq<CompiledFunction>, main: nat, image: Memory, b: nat)
    requires Linkable(runtime, functions, main) && Linked(runtime, functions, main) == Ok(image)
    requires b < |image| && !IsPatched(runtime, functions, b)
    ensures |image| == |runtime.code + CodeOf(functions)| && image[b] == (runtime.code + CodeOf(functions))[b]
  {
    hide AddressOf, LabelsIn, LoadDouble, Word32, PatchJumps, PatchAddresses, WithCallMain, CodeOf, OffsetOf, SitesOf;
    hide AddressSitesOf, JumpsToLabel, Resolved, ControlOf, JImm, Opcode, Rd;
    SitesInside(functions);
    AddressSitesInside(functions);
    var labels := LabelsIn(runtime, functions);
    var addressed := WithAddresses(runtime, functions);
    var patched := PatchJumps(addressed, SitesOf(functions), labels, runtime.CodeAddress()).value;
    var address := runtime.CodeAddress() + OffsetOf(functions, main);
    var start := WithCallMain(runtime.code, runtime.callMain, address).value;
    assert image == start + patched;
    if b < |runtime.code| {
      CallMainExact(runtime.code, runtime.callMain, address);
    } else {
      PatchAddressesExact(CodeOf(functions), AddressSitesOf(functions), runtime.names, labels);
      PatchJumpsExact(addressed, SitesOf(functions), labels, runtime.CodeAddress());
      var inCode := b - |runtime.code|;
      assert patched[inCode] == addressed[inCode] == CodeOf(functions)[inCode];
    }
  }
}
