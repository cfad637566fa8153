/** Where the compiled functions and their labels go. */
module CodeLayout {
  import opened Arithmetic
  import opened Bytes

  const CODE_BASE: nat := 0x40_0000

  datatype JumpKind = Unconditional | Conditional | Call

  datatype PendingJump = PendingJump(position: nat, target: string, kind: JumpKind)

  /** Eight bytes that are to hold the address of a label. */
  datatype PendingAddress = PendingAddress(position: nat, target: string)

  /** What the function compiler delivers. */
  datatype CompiledFunction = CompiledFunction(
    name: string,
    code: Memory,
    labels: map<string, nat>,
    addresses: seq<PendingAddress>,
    jumps: seq<PendingJump>)

  type LabelTable = map<string, nat>

  // ---- Layout --------------------------------------------------------------

  /** The functions' code, one after the other. */
  function CodeOf(functions: seq<CompiledFunction>): Memory {
    if functions == [] then []
    else CodeOf(functions[..|functions| - 1]) + functions[|functions| - 1].code
  }

  /** Where function `i` starts. */
  function OffsetOf(functions: seq<CompiledFunction>, i: nat): nat
    requires i <= |functions|
  {
    |CodeOf(functions[..i])|
  }

  /**
   * Every function that another one follows is a whole number of instructions.  The padding loop needs this to end
   * (`PaddingEndsIff`), and the RISC-V back end, which emits 4 and 8 bytes at a time, delivers it.
   */
  predicate WholeInstructions(functions: seq<CompiledFunction>) {
    forall i :: 0 <= i < |functions| - 1 ==> |functions[i].code| % 4 == 0
  }

  const NOP: Memory := [0x13, 0, 0, 0]

  /** The code after `k` rounds of the loop that appends one NOP a round while the length is not a multiple of 4. */
  function Padded(code: Memory, k: nat): Memory {
    if k == 0 then code else Padded(code, k - 1) + NOP
  }

  lemma {:induction false} PaddedLength(code: Memory, k: nat)
    ensures |Padded(code, k)| == |code| + 4 * k && |Padded(code, k)| % 4 == |code| % 4
  {
    if k > 0 {
      PaddedLength(code, k - 1);
    }
  }

  predicate EndsAfter(code: Memory, k: nat) {
    |Padded(code, k)| % 4 == 0
  }

  /** The padding loop ends if and only if there is nothing to pad. */
  lemma PaddingEndsIff(code: Memory)
    ensures (exists k: nat :: EndsAfter(code, k)) <==> |code| % 4 == 0
  {
    forall k: nat ensures EndsAfter(code, k) <==> |code| % 4 == 0 {
      PaddedLength(code, k);
    }
    assert EndsAfter(code, 0) <==> |code| % 4 == 0;
  }

  lemma {:induction false} FunctionAtOffset(functions: seq<CompiledFunction>, i: nat)
    requires i < |functions|
    ensures OffsetOf(functions, i + 1) == OffsetOf(functions, i) + |functions[i].code|
    ensures OffsetOf(functions, i + 1) <= |CodeOf(functions)|
    ensures CodeOf(functions)[OffsetOf(functions, i)..OffsetOf(functions, i + 1)] == functions[i].code
    decreases |functions|
  {
    var n := |functions| - 1;
    var last := functions[n].code;
    assert CodeOf(functions) == CodeOf(functions[..n]) + last;
    hide CodeOf;
    if i == n {
      assert functions[..i + 1] == functions;
      AppendedSlice(CodeOf(functions[..n]), CodeOf(functions), last);
    } else {
      FunctionAtOffset(functions[..n], i);
      assert functions[..n][..i] == functions[..i];
      assert functions[..n][..i + 1] == functions[..i + 1];
      SliceOfPrefix(CodeOf(functions[..n]), CodeOf(functions), last, OffsetOf(functions, i),
          OffsetOf(functions, i + 1));
    }
  }

  lemma AppendedSlice(a: Memory, whole: Memory, b: Memory)
    requires whole == a + b
    ensures |whole| == |a| + |b| && whole[|a|..|whole|] == b
  {
  }

  lemma SliceOfPrefix(a: Memory, whole: Memory, b: Memory, lo: nat, hi: nat)
    requires whole == a + b && lo <= hi <= |a|
    ensures whole[lo..hi] == a[lo..hi]
  {
  }

  lemma SumAligned(a: nat, b: nat)
    requires a % 4 == 0 && b % 4 == 0
    ensures (a + b) % 4 == 0
  {
    DivModUnique(a + b, 4, a / 4 + b / 4, 0);
  }

  lemma FirstOffset(functions: seq<CompiledFunction>)
    ensures OffsetOf(functions, 0) == 0
  {
  }

  lemma {:induction false} OffsetsAligned(functions: seq<CompiledFunction>, i: nat)
    requires WholeInstructions(functions) && i < |functions|
    ensures OffsetOf(functions, i) % 4 == 0
    decreases i
  {
    hide OffsetOf, CodeOf;
    if i == 0 {
      FirstOffset(functions);
    } else {
      OffsetsAligned(functions, i - 1);
      FunctionAtOffset(functions, i - 1);
      SumAligned(OffsetOf(functions, i - 1), |functions[i - 1].code|);
    }
  }

  // ---- Labels --------------------------------------------------------------

  predicate Defines(f: CompiledFunction, label_: string) {
    label_ == "func_" + f.name || label_ == f.name || label_ in f.labels
  }

  function WithFunction(table: LabelTable, f: CompiledFunction, address: nat): LabelTable {
    table["func_" + f.name := address][f.name := address] + (map l | l in f.labels :: address + f.labels[l])
  }

  /** The table after entering all functions on top of the runtime's own labels. */
  function LabelsOf(runtime: LabelTable, functions: seq<CompiledFunction>, base: nat): LabelTable {
    if functions == [] then runtime
    else
      var n := |functions| - 1;
      WithFunction(LabelsOf(runtime, functions[..n], base), functions[n], base + OffsetOf(functions, n))
  }

  lemma LabelsUnfold(runtime: LabelTable, functions: seq<CompiledFunction>, base: nat)
    requires functions != []
    ensures var n := |functions| - 1;
            LabelsOf(runtime, functions, base) ==
            WithFunction(LabelsOf(runtime, functions[..n], base), functions[n], base + OffsetOf(functions, n))
  {
  }

  /** A label that no later function defines again stands for its own place in the code. */
  lemma {:induction false} LabelResolves(runtime: LabelTable, functions: seq<CompiledFunction>, base: nat, i: nat,
                                         label_: string)
    requires i < |functions| && Defines(functions[i], label_)
    requires forall j :: i < j < |functions| ==> !Defines(functions[j], label_)
    ensures label_ in LabelsOf(runtime, functions, base)
    ensures LabelsOf(runtime, functions, base)[label_] ==
            base + OffsetOf(functions, i) + (if label_ in functions[i].labels then functions[i].labels[label_] else 0)
    decreases |functions|
  {
    hide OffsetOf, WithFunction, LabelsOf, Defines;
    var n := |functions| - 1;
    var before := LabelsOf(runtime, functions[..n], base);
    LabelsUnfold(runtime, functions, base);
    if i < n {
      LabelResolves(runtime, functions[..n], base, i, label_);
      SameOffset(functions, |functions| - 1, i);
      Untouched(before, functions[n], base + OffsetOf(functions, n), label_);
    } else {
      Entered(before, functions[n], base + OffsetOf(functions, n), label_);
    }
  }

  lemma SameOffset(functions: seq<CompiledFunction>, k: nat, i: nat)
    requires i <= k <= |functions|
    ensures OffsetOf(functions[..k], i) == OffsetOf(functions, i)
  {
    assert functions[..k][..i] == functions[..i];
  }

  lemma Untouched(table: LabelTable, f: CompiledFunction, address: nat, label_: string)
    requires label_ in table && !Defines(f, label_)
    ensures label_ in WithFunction(table, f, address) && WithFunction(table, f, address)[label_] == table[label_]
  {
  }

  lemma Entered(table: LabelTable, f: CompiledFunction, address: nat, label_: string)
    requires Defines(f, label_)
    ensures label_ in WithFunction(table, f, address)
    ensures WithFunction(table, f, address)[label_] == address + (if label_ in f.labels then f.labels[label_] else 0)
  {
  }

  /** Labels of the runtime survive unless a function takes their name. */
  lemma {:induction false} RuntimeLabelSurvives(runtime: LabelTable, functions: seq<CompiledFunction>, base: nat,
                                                label_: string)
    requires label_ in runtime && forall j :: 0 <= j < |functions| ==> !Defines(functions[j], label_)
    ensures label_ in LabelsOf(runtime, functions, base)
        && LabelsOf(runtime, functions, base)[label_] == runtime[label_]
    decreases |functions|
  {
    if functions != [] {
      RuntimeLabelSurvives(runtime, functions[..|functions| - 1], base, label_);
    }
  }

  /** The padding loop before each function has nothing to do, by `OffsetsAligned`. */
  method LayoutFunctions(functions: seq<CompiledFunction>) returns (karteCode: Memory, offsets: seq<nat>)
    requires WholeInstructions(functions)
    ensures karteCode == CodeOf(functions)
    ensures |offsets| == |functions| && forall i :: 0 <= i < |functions| ==> offsets[i] == OffsetOf(functions, i)
  {
    karteCode, offsets := [], [];
    for i := 0 to |functions|
      invariant karteCode == CodeOf(functions[..i]) && |offsets| == i
      invariant forall k :: 0 <= k < i ==> offsets[k] == OffsetOf(functions, k)
    {
      offsets := offsets + [|karteCode|];
      karteCode := karteCode + functions[i].code;
      assert functions[..i + 1][..i] == functions[..i];
    }
    assert functions[..|functions|] == functions;
  }

  lemma LabelsStep(runtime: LabelTable, functions: seq<CompiledFunction>, i: nat, base: nat)
    requires i < |functions|
    ensures LabelsOf(runtime, functions[..i + 1], base) ==
            WithFunction(LabelsOf(runtime, functions[..i], base), functions[i], base + OffsetOf(functions, i))
  {
    hide WithFunction;
    assert functions[..i + 1][..i] == functions[..i];
    SameOffset(functions, i + 1, i);
  }

  lemma NoLabels(runtime: LabelTable, functions: seq<CompiledFunction>, base: nat)
    ensures LabelsOf(runtime, functions[..0], base) == runtime
  {
  }

  method BuildLabels(runtime: LabelTable, functions: seq<CompiledFunction>, offsets: seq<nat>,
                     runtimeSize: nat) returns (labels: LabelTable)
    requires |offsets| == |functions| && forall i :: 0 <= i < |functions| ==> offsets[i] == OffsetOf(functions, i)
    ensures labels == LabelsOf(runtime, functions, CODE_BASE + runtimeSize)
  {
    hide LabelsOf, OffsetOf;
    NoLabels(runtime, functions, CODE_BASE + runtimeSize);
    labels := runtime;
    for i := 0 to |functions|
      invariant labels == LabelsOf(runtime, functions[..i], CODE_BASE + runtimeSize)
    {
      var address := CODE_BASE + runtimeSize + offsets[i];
      ghost var before := labels;
      labels := labels["func_" + functions[i].name := address];
      labels := labels[functions[i].name := address];
      labels := labels + (map l | l in functions[i].labels :: address + functions[i].labels[l]);
      assert labels == WithFunction(before, functions[i], address);
      LabelsStep(runtime, functions, i, CODE_BASE + runtimeSize);
    }
    assert functions[..|functions|] == functions;
  }
}
