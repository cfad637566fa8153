/** Choosing where a variable lives from what the escape analysis found. */
module AllocationStrategies {
  import opened Wrappers
  import opened EscapeTypes
  import opened Alignment
  import opened FrameLayouts
  import opened Propagation
  import opened AnalysisStates
  import opened Spreading

  const DEFAULT_SIZE: nat := 8
  const INLINE_LIMIT: nat := 32

  datatype AllocationStrategy =
    | Stack(offset: int, size: nat, alignment: nat)
    | Heap(objectType: string, size: nat, gcTracked: bool)
    | Inline(size: nat)
    | Register(registerHint: Option<nat>, size: nat)

  function SizeOf(sizes: map<string, nat>, name: string): nat {
    if name in sizes then sizes[name] else DEFAULT_SIZE
  }

  predicate IsStacked(info: map<VariableId, VariableEscapeInfo>, v: VariableId) {
    v in info && info[v].suggestion == StackAlloc
  }

  class AllocationStrategySelector {
    const stackLayout: StackFrameLayout
    var escapeAnalysis: map<VariableId, VariableEscapeInfo>
    var currentFunction: string
    var variableSizes: map<string, nat>
    var variableAlignments: map<string, nat>

    constructor (escapeAnalysis: map<VariableId, VariableEscapeInfo>)
      ensures stackLayout.Valid() && stackLayout.slots == [] && fresh(stackLayout)
      ensures this.escapeAnalysis == escapeAnalysis && currentFunction == "" && variableSizes == map[]
          && variableAlignments == map[]
    {
      stackLayout := new StackFrameLayout();
      this.escapeAnalysis := escapeAnalysis;
      currentFunction := "";
      variableSizes := map[];
      variableAlignments := map[];
    }

    /** A new function starts with an empty frame. */
    method SetCurrentFunction(functionName: string)
      modifies this`currentFunction, stackLayout
      ensures currentFunction == functionName
      ensures stackLayout.Valid() && stackLayout.slots == []
    {
      currentFunction := functionName;
      stackLayout.Reset();
    }

    method SetVariableSize(name: string, size: nat)
      modifies this`variableSizes
      ensures variableSizes == old(variableSizes)[name := size]
    {
      variableSizes := variableSizes[name := size];
    }

    method SetVariableAlignment(name: string, alignment: nat)
      modifies this`variableAlignments
      ensures variableAlignments == old(variableAlignments)[name := alignment]
    {
      variableAlignments := variableAlignments[name := alignment];
    }

    /**
     * A slot is taken exactly for a variable the analysis suggests for the stack; nothing else touches the frame.
     * Where a slot is taken, the alignment must be positive and the frame must stay within a signed 64-bit word.
     */
    method SelectAllocationStrategy(v: VariableId, name: string) returns (strategy: AllocationStrategy)
      requires stackLayout.Valid()
      requires IsStacked(escapeAnalysis, v) ==>
                 && SizeOf(variableAlignments, name) > 0
                 && ISIZE_MIN <= AlignDown(stackLayout.currentOffset,
                     SizeOf(variableAlignments, name)) - SizeOf(variableSizes, name)
      modifies stackLayout
      ensures stackLayout.Valid()
      ensures strategy.Stack? <==> IsStacked(escapeAnalysis, v)
      ensures strategy.Stack? ==>
                && strategy.size == SizeOf(variableSizes, name)
                && strategy.alignment == SizeOf(variableAlignments, name)
                && stackLayout.requests == old(stackLayout.requests) + [Request(strategy.size, strategy.alignment)]
                && stackLayout.slots ==
                    old(stackLayout.slots) + [StackSlot(strategy.offset, strategy.size, strategy.alignment)]
      ensures !strategy.Stack? ==> unchanged(stackLayout)
      ensures !strategy.Inline? ==> strategy.size == if name in variableSizes then variableSizes[name] else 8
      ensures strategy.Stack? ==>
                strategy.alignment == if name in variableAlignments then variableAlignments[name] else 8
      ensures v !in escapeAnalysis || escapeAnalysis[v].suggestion == HeapAlloc ==>
                strategy == Heap(currentFunction + "::" + name, SizeOf(variableSizes, name), true)
      ensures v in escapeAnalysis && escapeAnalysis[v].suggestion == RegisterAlloc ==>
                strategy == Register(None, SizeOf(variableSizes, name))
      ensures v in escapeAnalysis && escapeAnalysis[v].suggestion == InlineAlloc ==>
                && strategy.Inline? && strategy.size <= INLINE_LIMIT && strategy.size <= SizeOf(variableSizes, name)
                && (strategy.size == INLINE_LIMIT || strategy.size == SizeOf(variableSizes, name))
    {
      if v in escapeAnalysis {
        match escapeAnalysis[v].suggestion {
          case StackAlloc =>
            var size := SizeOf(variableSizes, name);
            var alignment := SizeOf(variableAlignments, name);
            var offset := stackLayout.Allocate(size, alignment);
            strategy := Stack(offset, size, alignment);
          case HeapAlloc =>
            strategy := Heap(currentFunction + "::" + name, SizeOf(variableSizes, name), true);
          case InlineAlloc =>
            var size := SizeOf(variableSizes, name);
            strategy := Inline(if size < INLINE_LIMIT then size else INLINE_LIMIT);
          case RegisterAlloc =>
            strategy := Register(None, SizeOf(variableSizes, name));
        }
      } else {
        strategy := Heap(currentFunction + "::" + name, SizeOf(variableSizes, name), true);
      }
    }
  }

  /**
   * After the analysis, a variable it knows gets a stack slot if and only if nothing its values may flow to or from
   * escapes.
   */
  lemma StackedIffNothingEscapes(st: AnalysisState, st': AnalysisState, v: VariableId)
    requires Analyzed(st, st')
    ensures IsStacked(st'.info, v) <==>
            v in st'.info && forall u :: Connected(st'.graph, v, u) ==> StateOf(st'.marks, u) == NoEscape
  {
    if v in st'.info {
      StackAllocIff(st, st', v);
    }
  }
}
