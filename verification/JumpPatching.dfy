/** Patching the pending jumps of the functions' code. */
module JumpPatching {
  import opened Wrappers
  import opened Bytes
  import opened BitFields
  import opened RiscvEncoding
  import opened CodeLayout

  /** A pending jump at its place in the whole code. */
  datatype Site = Site(position: nat, target: string, kind: JumpKind)

  function SitesOf(functions: seq<CompiledFunction>): seq<Site> {
    if functions == [] then []
    else
      var n := |functions| - 1;
      SitesOf(functions[..n]) + FunctionSites(functions[n].jumps, OffsetOf(functions, n))
  }

  function FunctionSites(jumps: seq<PendingJump>, offset: nat): seq<Site> {
    seq(|jumps|, i requires 0 <= i < |jumps| => Site(offset + jumps[i].position, jumps[i].target, jumps[i].kind))
  }

  predicate InRange(offset: int, kind: JumpKind) {
    match kind
    case Unconditional => -0x10_0000 <= offset <= 0x10_0000 - 1
    case Conditional => -0x1000 <= offset <= 0x1000 - 1
    case Call => true
  }

  /** The word a resolved jump is replaced by. */
  function JumpWord(orig: nat, offset: int, kind: JumpKind): nat
    requires !kind.Call?
  {
    if kind.Unconditional? then JType(ToU32(offset), 0, JAL)
    else BType(ToU32(offset), Rs2(orig), Rs1(orig), Funct3(orig), BRANCH)
  }

  predicate Resolved(s: Site, labels: LabelTable) {
    s.target in labels && !s.kind.Call?
  }

  function Distance(s: Site, labels: LabelTable, codeAddress: nat): int
    requires s.target in labels
  {
    labels[s.target] - (codeAddress + s.position)
  }

  /** One step of jump patching; `codeAddress` is where the functions' code will be loaded. */
  function PatchJump(code: Memory, s: Site, labels: LabelTable, codeAddress: nat): (r: Result<Memory>)
    requires s.position + 4 <= |code|
    ensures r.Ok? ==> |r.value| == |code|
  {
    if !Resolved(s, labels) then Ok(code)
    else if !InRange(Distance(s, labels, codeAddress), s.kind) then Err
    else Ok(StoreWord(code, s.position, JumpWord(Word32(code, s.position), Distance(s, labels, codeAddress), s.kind)))
  }

  function PatchJumps(code: Memory, sites: seq<Site>, labels: LabelTable, codeAddress: nat): (r: Result<Memory>)
    requires forall i :: 0 <= i < |sites| ==> sites[i].position + 4 <= |code|
    ensures r.Ok? ==> |r.value| == |code|
  {
    if sites == [] then Ok(code)
    else
      var n := |sites| - 1;
      var r := PatchJumps(code, sites[..n], labels, codeAddress);
      if r.Err? then Err else PatchJump(r.value, sites[n], labels, codeAddress)
  }

  /** The distances a JAL and a conditional branch can express, up to parity: 21 and 13 bits, signed. */
  predicate Reaches(kind: JumpKind, distance: int) {
    && (kind.Unconditional? ==> -1048576 <= distance < 1048576)
    && (kind.Conditional? ==> -4096 <= distance < 4096)
  }

  /** The pass succeeds exactly when every jump to a known label can express its distance. */
  lemma {:induction false} PatchJumpsSucceedIff(code: Memory, sites: seq<Site>, labels: LabelTable, codeAddress: nat)
    requires forall i :: 0 <= i < |sites| ==> sites[i].position + 4 <= |code|
    ensures PatchJumps(code, sites, labels, codeAddress).Ok? <==>
            forall i :: 0 <= i < |sites| && Resolved(sites[i], labels) ==>
                Reaches(sites[i].kind, labels[sites[i].target] - (codeAddress + sites[i].position))
  {
    hide StoreWord, JumpWord;
    if sites != [] {
      var n := |sites| - 1;
      PatchJumpsSucceedIff(code, sites[..n], labels, codeAddress);
      assert forall i :: 0 <= i < n ==> sites[..n][i] == sites[i];
    }
  }

  /** Patch sites do not overlap. */
  predicate Disjoint(sites: seq<Site>) {
    forall i, j :: 0 <= i < j < |sites| ==>
      sites[i].position + 4 <= sites[j].position || sites[j].position + 4 <= sites[i].position
  }

  predicate InWord(s: Site, b: int) {
    s.position <= b < s.position + 4
  }

  /** The word at a resolved site jumps to its label, exactly when the distance is even, and keeps its operands. */
  ghost predicate JumpsToLabel(old_: Memory, new_: Memory, s: Site, labels: LabelTable, codeAddress: nat)
    requires s.position + 4 <= |old_| == |new_| && Resolved(s, labels)
  {
    var o, w := Word32(old_, s.position), Word32(new_, s.position);
    var pc := codeAddress + s.position;
    if s.kind.Unconditional? then
      && Opcode(w) == JAL && Rd(w) == 0
      && (pc + JImm(w) == labels[s.target] <==> Distance(s, labels, codeAddress) % 2 == 0)
    else
      && Opcode(w) == BRANCH && Rs1(w) == Rs1(o) && Rs2(w) == Rs2(o) && Funct3(w) == Funct3(o)
      && (pc + BImm(w) == labels[s.target] <==> Distance(s, labels, codeAddress) % 2 == 0)
  }

  lemma JumpWordExact(code: Memory, s: Site, labels: LabelTable, codeAddress: nat)
    requires s.position + 4 <= |code| && Resolved(s, labels)
    requires PatchJump(code, s, labels, codeAddress).Ok?
    ensures var n := PatchJump(code, s, labels, codeAddress).value;
            && JumpsToLabel(code, n, s, labels, codeAddress)
            && forall b :: 0 <= b < |code| && !InWord(s, b) ==> n[b] == code[b]
  {
    hide Bits, BType, JType, Word32, StoreWord, ToU32, BImm, JImm, Rs1, Rs2, Funct3, Opcode, Rd;
    var orig := Word32(code, s.position);
    var d := Distance(s, labels, codeAddress);
    JalExact(d, 0);
    BranchExact(orig, d);
    StoreThenLoad(code, s.position, JumpWord(orig, d, s.kind));
  }

  lemma JumpUnchanged(old_: Memory, now: Memory, later: Memory, s: Site, labels: LabelTable, codeAddress: nat)
    requires s.position + 4 <= |old_| == |now| == |later| && Resolved(s, labels)
    requires JumpsToLabel(old_, now, s, labels, codeAddress)
    requires forall b :: InWord(s, b) ==> later[b] == now[b]
    ensures JumpsToLabel(old_, later, s, labels, codeAddress)
  {
    hide Word32;
    WordUnchanged(now, later, s.position);
  }

  /** A byte of a resolved jump. */
  ghost predicate InResolvedSite(sites: seq<Site>, labels: LabelTable, b: int) {
    exists i :: 0 <= i < |sites| && Resolved(sites[i], labels) && InWord(sites[i], b)
  }

  /** After the pass every resolved jump leads to its label and every byte outside the resolved sites is as before. */
  lemma {:induction false} PatchJumpsExact(code: Memory, sites: seq<Site>, labels: LabelTable, codeAddress: nat)
    requires forall i :: 0 <= i < |sites| ==> sites[i].position + 4 <= |code|
    requires Disjoint(sites) && PatchJumps(code, sites, labels, codeAddress).Ok?
    ensures var n := PatchJumps(code, sites, labels, codeAddress).value;
            && (forall i :: 0 <= i < |sites| && Resolved(sites[i], labels) ==>
                  JumpsToLabel(code, n, sites[i], labels, codeAddress))
            && (forall b :: 0 <= b < |code| && !InResolvedSite(sites, labels, b) ==> n[b] == code[b])
  {
    hide JumpsToLabel, PatchJump, Resolved, InWord;
    if sites != [] {
      var k := |sites| - 1;
      var s := sites[k];
      PatchJumpsExact(code, sites[..k], labels, codeAddress);
      assert forall i :: 0 <= i < k ==> sites[..k][i] == sites[i];
      var now := PatchJumps(code, sites[..k], labels, codeAddress).value;
      var later := PatchJump(now, s, labels, codeAddress).value;
      LastJump(code, now, later, sites, labels, codeAddress);
    }
  }

  lemma LastJump(code: Memory, now: Memory, later: Memory, sites: seq<Site>, labels: LabelTable, codeAddress: nat)
    requires |now| == |code| && |sites| > 0 && Disjoint(sites)
    requires forall i :: 0 <= i < |sites| ==> sites[i].position + 4 <= |code|
    requires PatchJump(now, sites[|sites| - 1], labels, codeAddress) == Ok(later)
    requires forall i :: 0 <= i < |sites| - 1 && Resolved(sites[i], labels) ==>
        JumpsToLabel(code, now, sites[i], labels, codeAddress)
    requires forall b :: 0 <= b < |code| && !InResolvedSite(sites[..|sites| - 1], labels, b) ==> now[b] == code[b]
    ensures forall i :: 0 <= i < |sites| && Resolved(sites[i], labels) ==>
        JumpsToLabel(code, later, sites[i], labels, codeAddress)
    ensures forall b :: 0 <= b < |code| && !InResolvedSite(sites, labels, b) ==> later[b] == code[b]
  {
    hide JumpsToLabel;
    var k := |sites| - 1;
    var s := sites[k];
    if Resolved(s, labels) {
      JumpWordExact(now, s, labels, codeAddress);
      forall b | InWord(s, b) ensures now[b] == code[b] {
      }
      SameOrigin(code, now, later, s, labels, codeAddress);
      forall i | 0 <= i < k
          && Resolved(sites[i], labels) ensures JumpsToLabel(code, later, sites[i], labels, codeAddress) {
        JumpUnchanged(code, now, later, sites[i], labels, codeAddress);
      }
    }
  }

  lemma SameOrigin(code: Memory, now: Memory, later: Memory, s: Site, labels: LabelTable, codeAddress: nat)
    requires s.position + 4 <= |code| == |now| == |later| && Resolved(s, labels)
    requires JumpsToLabel(now, later, s, labels, codeAddress)
    requires forall b :: InWord(s, b) ==> now[b] == code[b]
    ensures JumpsToLabel(code, later, s, labels, codeAddress)
  {
    hide Word32;
    WordUnchanged(code, now, s.position);
  }

  /** The pending jumps of every function lie inside its own code. */
  predicate JumpsInside(functions: seq<CompiledFunction>) {
    forall i, j :: 0 <= i < |functions| && 0 <= j < |functions[i].jumps| ==>
      functions[i].jumps[j].position + 4 <= |functions[i].code|
  }

  lemma {:induction false} SitesInside(functions: seq<CompiledFunction>)
    requires JumpsInside(functions)
    ensures forall i :: 0 <= i < |SitesOf(functions)| ==> SitesOf(functions)[i].position + 4 <= |CodeOf(functions)|
  {
    if functions != [] {
      SitesInside(functions[..|functions| - 1]);
    }
  }

  method PatchFunctionJumps(code: Memory, jumps: seq<PendingJump>, offset: nat, labels: LabelTable, codeAddress: nat)
    returns (r: Result<Memory>)
    requires forall i :: 0 <= i < |jumps| ==> offset + jumps[i].position + 4 <= |code|
    ensures r == PatchJumps(code, FunctionSites(jumps, offset), labels, codeAddress)
  {
    hide StoreWord, JumpWord;
    var patched := code;
    ghost var sites := FunctionSites(jumps, offset);
    for i := 0 to |jumps|
      invariant |patched| == |code|
      invariant PatchJumps(code, sites[..i], labels, codeAddress) == Ok(patched)
    {
      var pending := jumps[i];
      var s := Site(offset + pending.position, pending.target, pending.kind);
      assert sites[..i + 1][..i] == sites[..i] && sites[..i + 1][i] == s;
      if pending.target in labels {
        var distance := labels[pending.target] - (codeAddress + s.position);
        match pending.kind
        case Call =>
        case Unconditional =>
          if distance < -0x10_0000 || distance > 0x10_0000 - 1 {
            FailurePersists(code, sites, i + 1, labels, codeAddress);
            return Err;
          }
          patched := StoreWord(patched, s.position, JumpWord(Word32(patched, s.position), distance, Unconditional));
        case Conditional =>
          if distance < -0x1000 || distance > 0x1000 - 1 {
            FailurePersists(code, sites, i + 1, labels, codeAddress);
            return Err;
          }
          patched := StoreWord(patched, s.position, JumpWord(Word32(patched, s.position), distance, Conditional));
      }
    }
    assert sites[..|jumps|] == sites;
    r := Ok(patched);
  }

  lemma {:induction false} FailurePersists(code: Memory, sites: seq<Site>, k: nat, labels: LabelTable, codeAddress: nat)
    requires k <= |sites| && forall i :: 0 <= i < |sites| ==> sites[i].position + 4 <= |code|
    requires PatchJumps(code, sites[..k], labels, codeAddress).Err?
    ensures PatchJumps(code, sites, labels, codeAddress).Err?
    decreases |sites|
  {
    if k < |sites| {
      var n := |sites| - 1;
      assert sites[..n][..k] == sites[..k];
      FailurePersists(code, sites[..n], k, labels, codeAddress);
    } else {
      assert sites[..k] == sites;
    }
  }

  lemma {:induction false} PatchJumpsConcat(code: Memory, a: seq<Site>, b: seq<Site>, labels: LabelTable,
                                            codeAddress: nat)
    requires forall i :: 0 <= i < |a| ==> a[i].position + 4 <= |code|
    requires forall i :: 0 <= i < |b| ==> b[i].position + 4 <= |code|
    ensures PatchJumps(code, a + b, labels, codeAddress) ==
            var r := PatchJumps(code, a, labels, codeAddress);
            if r.Err? then Err else PatchJumps(r.value, b, labels, codeAddress)
    decreases |b|
  {
    hide PatchJump;
    if b == [] {
      assert a + b == a;
    } else {
      var n := |b| - 1;
      assert (a + b)[..|a + b| - 1] == a + b[..n];
      PatchJumpsConcat(code, a, b[..n], labels, codeAddress);
    }
  }

  method PatchAll(code: Memory, functions: seq<CompiledFunction>, offsets: seq<nat>, labels: LabelTable,
                  codeAddress: nat)
    returns (r: Result<Memory>)
    requires JumpsInside(functions) && |code| == |CodeOf(functions)|
    requires |offsets| == |functions| && forall i :: 0 <= i < |functions| ==> offsets[i] == OffsetOf(functions, i)
    requires forall i :: 0 <= i < |SitesOf(functions)| ==> SitesOf(functions)[i].position + 4 <= |code|
    ensures r == PatchJumps(code, SitesOf(functions), labels, codeAddress)
  {
    hide PatchJumps;
    r := Ok(code);
    NoJumps(code, labels, codeAddress);
    for i := 0 to |functions|
      invariant forall k :: 0 <= k < |SitesOf(functions[..i])| ==> SitesOf(functions[..i])[k].position + 4 <= |code|
      invariant r == PatchJumps(code, SitesOf(functions[..i]), labels, codeAddress)
    {
      assert functions[..i + 1][..i] == functions[..i];
      assert functions[..i + 1][i] == functions[i];
      FunctionAtOffset(functions, i);
      ghost var more := FunctionSites(functions[i].jumps, offsets[i]);
      PatchJumpsConcat(code, SitesOf(functions[..i]), more, labels, codeAddress);
      assert SitesOf(functions[..i + 1]) == SitesOf(functions[..i]) + more;
      if r.Ok? {
        r := PatchFunctionJumps(r.value, functions[i].jumps, offsets[i], labels, codeAddress);
      }
    }
    assert functions[..|functions|] == functions;
  }

  lemma NoJumps(code: Memory, labels: LabelTable, codeAddress: nat)
    ensures PatchJumps(code, [], labels, codeAddress) == Ok(code)
  {
  }
}
