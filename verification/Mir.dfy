/** The parts of the middle intermediate representation that the escape analysis looks at. */
module Mir {
  import opened Wrappers
  import opened EscapeTypes

  datatype Value =
    | Variable(name: string)
    | Temp(id: nat)
    | Reference(value: Value)
    | Function(name: string)
    | OtherValue

  datatype Statement =
    | Assign(target: Value, source: Value)
    | FieldAccess(target: Value, object_: Value, field: string)
    | FieldAssign(object_: Value, field: string, value: Value)
    | BinaryOp(target: Value, left: Value, right: Value)
    | Call(result: Option<Value>, callee: Value, args: seq<Value>)
    | Allocate(target: Value)
    | OtherStatement

  datatype Terminator =
    | Return(value: Option<Value>)
    | Branch(condition: Value)
    | OtherTerminator

  datatype BasicBlock = BasicBlock(statements: seq<Statement>, terminator: Option<Terminator>)

  datatype MirFunction = MirFunction(name: string, blocks: seq<BasicBlock>)

  type MirProgram = map<string, MirFunction>

  /** The analyzer's reading of a callee. */
  function CalleeId(callee: Value): FunctionId {
    match callee
    case Function(name) => FunctionId(name)
    case Variable(name) => FunctionId(name)
    case _ => FunctionId("<unknown>")
  }

  // ---- Function summaries -------------------------------------------------

  datatype ParameterTag =
    | NoEscapeTag
    | EscapeViaReturn
    | EscapeViaHeapStore
    | EscapeViaCall(callee: FunctionId, index: nat)
    | UnknownTag
  {
    predicate Escapes() {
      !NoEscapeTag?
    }

    function ToEscapeState(): EscapeState {
      match this
      case NoEscapeTag => NoEscape
      case EscapeViaReturn => ReturnEscape
      case EscapeViaHeapStore => GlobalEscape
      case EscapeViaCall(_, _) => ArgEscape
      case UnknownTag => GlobalEscape
    }
  }

  datatype ReturnSource = FromParameter(index: nat) | LocalAllocation | GlobalData | Constant | UnknownSource

  datatype FunctionSummary = FunctionSummary(function_: FunctionId, tags: seq<ParameterTag>, source: ReturnSource)

  /** User summaries shadow built-in ones. */
  datatype SummaryDatabase = SummaryDatabase(
    user: map<FunctionId, FunctionSummary>,
    builtin: map<string, FunctionSummary>)
  {
    function Get(f: FunctionId): Option<FunctionSummary> {
      if f in user then Some(user[f])
      else if f.name in builtin then Some(builtin[f.name])
      else None
    }

    function Insert(s: FunctionSummary): SummaryDatabase {
      this.(user := user[s.function_ := s])
    }

    /** A summary is found under its own name, whatever was known before; all others stay. */
    lemma InsertedIsFound(s: FunctionSummary, f: FunctionId)
      ensures Insert(s).Get(f) == if f == s.function_ then Some(s) else Get(f)
    {
    }
  }
}
