/** The escape lattice and the identifiers shared by the escape analysis. */
module EscapeTypes {

  datatype VariableId = VariableId(id: nat)

  datatype FunctionId = FunctionId(name: string)

  /** How far a variable may travel; the constructors are listed from least to most escaping. */
  datatype EscapeState = NoEscape | ArgEscape | ReturnEscape | GlobalEscape {

    function Rank(): nat {
      match this
      case NoEscape => 0
      case ArgEscape => 1
      case ReturnEscape => 2
      case GlobalEscape => 3
    }

    predicate Leq(other: EscapeState) {
      Rank() <= other.Rank()
    }

    predicate CanStackAllocate() {
      NoEscape?
    }

    /** Merging two states is their least upper bound. */
    function Merge(other: EscapeState): (r: EscapeState)
      ensures Leq(r) && other.Leq(r)
      ensures forall s: EscapeState :: Leq(s) && other.Leq(s) ==> r.Leq(s)
    {
      match (this, other)
      case (GlobalEscape, _) => GlobalEscape
      case (_, GlobalEscape) => GlobalEscape
      case (ReturnEscape, _) => ReturnEscape
      case (_, ReturnEscape) => ReturnEscape
      case (ArgEscape, _) => ArgEscape
      case (_, ArgEscape) => ArgEscape
      case _ => NoEscape
    }
  }

  lemma LeqAntisymmetric(s: EscapeState, t: EscapeState)
    requires s.Leq(t) && t.Leq(s)
    ensures s == t
  {
  }

  datatype AllocationSuggestion = StackAlloc | HeapAlloc | RegisterAlloc | InlineAlloc

  /** The part of a variable's escape information that the analysis decides.  Source spans are not kept. */
  datatype EscapePoint =
    | FunctionArgument(callee: FunctionId, index: nat)
    | FunctionReturn(function_: FunctionId)
    | HeapFieldStore(object_: VariableId, field: string)
    | AddressOf(variable: VariableId)

  datatype VariableEscapeInfo = VariableEscapeInfo(
    state: EscapeState,
    points: seq<EscapePoint>,
    suggestion: AllocationSuggestion)
  {
    static function NewNoEscape(): VariableEscapeInfo {
      VariableEscapeInfo(NoEscape, [], StackAlloc)
    }

    function MarkEscape(s: EscapeState, point: EscapePoint): VariableEscapeInfo {
      var merged := state.Merge(s);
      VariableEscapeInfo(
        merged,
        points + [point],
        if merged.CanStackAllocate() then suggestion else HeapAlloc)
    }
  }
}
