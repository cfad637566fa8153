/** The escape analyzer: statement by statement graph building, propagation and allocation suggestions. */
module EscapeAnalyzers {
  import opened Wrappers
  import opened EscapeTypes
  import opened Propagation
  import opened VariableGraphs
  import opened AnalysisStates
  import opened Effects
  import opened StatementEffects
  import opened FunctionEffects
  import opened FunctionResults
  import opened Spreading
  import opened Digraph
  import opened CallGraphs
  import opened ProgramRuns
  import Mir
  import Calls

  class EscapeAnalyzer {
    const graph: VariableGraph
    const fieldHash: string -> nat
    var escapeInfo: InfoMap
    var variableNameToId: map<string, VariableId>
    var nextVariableId: nat
    var summaryDb: Mir.SummaryDatabase
    ghost var marks: Cache

    ghost function State(): AnalysisState
      reads this, graph
    {
      AnalysisState(graph.Value(), graph.escapeCache, escapeInfo, variableNameToId, nextVariableId, marks)
    }

    ghost predicate Valid()
      reads this, graph
    {
      Sound(State())
    }

    constructor (fieldHash: string -> nat, builtin: map<string, Mir.FunctionSummary>)
      ensures Valid() && fresh(graph)
      ensures State() == AnalysisState(Graph(map[], map[]), map[], map[], map[], 1, map[])
    {
      graph := new VariableGraph();
      this.fieldHash := fieldHash;
      escapeInfo, variableNameToId, nextVariableId := map[], map[], 1;
      summaryDb := Mir.SummaryDatabase(map[], builtin);
      marks := map[];
    }

    // ---- Building the graph -----------------------------------------------

    method GetOrCreateVarId(value: Mir.Value) returns (id: Option<VariableId>)
      modifies this`variableNameToId, this`nextVariableId
      ensures State() == Resolve(old(State()), value).0
      ensures id == Resolve(old(State()), value).1
      ensures forall v :: id == Some(v) <==> Is(variableNameToId, value, v)
      ensures variableNameToId != old(variableNameToId) ==>
                id == Some(VariableId(old(nextVariableId))) && nextVariableId == old(nextVariableId) + 1
      ensures forall name :: name in old(variableNameToId) ==>
                name in variableNameToId && variableNameToId[name] == old(variableNameToId)[name]
    {
      match value
      case Variable(name) =>
        if name in variableNameToId {
          id := Some(variableNameToId[name]);
        } else {
          id := Some(VariableId(nextVariableId));
          variableNameToId := variableNameToId[name := VariableId(nextVariableId)];
          nextVariableId := nextVariableId + 1;
        }
      case Temp(n) => id := Some(VariableId(n));
      case _ => id := None;
    }

    method MarkEscape(v: VariableId, s: EscapeState, point: EscapePoint)
      modifies this`escapeInfo, this`marks, graph`escapeCache
      ensures State() == WithMark(old(State()), v, s, point)
      ensures graph.escapeCache == old(graph.escapeCache)[v := s]
      ensures v in escapeInfo && escapeInfo[v].state == InfoOf(old(escapeInfo), v).state.Merge(s)
      ensures escapeInfo[v].points == InfoOf(old(escapeInfo), v).points + [point]
      ensures escapeInfo[v].state != NoEscape ==> escapeInfo[v].suggestion == HeapAlloc
      ensures forall u :: u != v ==> InfoOf(escapeInfo, u) == InfoOf(old(escapeInfo), u)
    {
      var info := InfoOf(escapeInfo, v);
      escapeInfo := escapeInfo[v := info.MarkEscape(s, point)];
      graph.SetEscapeState(v, s);
      marks := marks[v := StateOf(marks, v).Merge(s)];
    }

    method AddEdge(from: VariableId, to: VariableId, edge: WeightedEdge)
      requires graph.Valid()
      modifies graph
      ensures graph.Valid() && State() == WithEdge(old(State()), from, to, edge)
    {
      graph.AddWeightedEdge(from, to, edge);
    }

    method AnalyzeFlow(target: Mir.Value, source: Mir.Value, edge: WeightedEdge)
      requires graph.Valid()
      modifies this, graph
      ensures graph.Valid() && summaryDb == old(summaryDb)
      ensures State() == AfterFlow(old(State()), target, source, edge)
    {
      var to := GetOrCreateVarId(target);
      var from := GetOrCreateVarId(source);
      if to.Some? && from.Some? {
        AddEdge(from.value, to.value, edge);
      }
    }

    method AnalyzeAddressOf(target: Mir.Value, referent: Mir.Value)
      requires graph.Valid()
      modifies this, graph
      ensures graph.Valid() && summaryDb == old(summaryDb)
      ensures State() == AfterAssign(old(State()), target, Mir.Reference(referent))
    {
      var value := GetOrCreateVarId(referent);
      var to := GetOrCreateVarId(target);
      if value.Some? && to.Some? {
        AddEdge(value.value, to.value, WeightedEdge(DirectAssignment, EdgeWeight.AddressOf));
        var info := InfoOf(escapeInfo, value.value);
        escapeInfo := escapeInfo[value.value := info.(points := info.points + [EscapePoint.AddressOf(value.value)])];
      }
    }

    method AnalyzeFieldAssign(object_: Mir.Value, field: string, value: Mir.Value)
      requires graph.Valid()
      modifies this, graph
      ensures graph.Valid() && summaryDb == old(summaryDb)
      ensures State() == AfterFieldAssign(old(State()), object_, field, value)
    {
      hide WithMark, WithEdge;
      var objectId := GetOrCreateVarId(object_);
      var valueId := GetOrCreateVarId(value);
      if objectId.Some? && valueId.Some? {
        escapeInfo := escapeInfo[objectId.value := InfoOf(escapeInfo, objectId.value)];
        var objectIsDefinitelyStack := escapeInfo[objectId.value].state == NoEscape;
        if objectIsDefinitelyStack {
          AddEdge(valueId.value, objectId.value, PLAIN_ASSIGNMENT);
        } else {
          AddEdge(valueId.value, objectId.value, WeightedEdge(HeapStore, Identity));
          MarkEscape(valueId.value, GlobalEscape, HeapFieldStore(objectId.value, field));
        }
      }
    }

    method AnalyzeArguments(summary: Option<Mir.FunctionSummary>, callee: FunctionId, args: seq<Mir.Value>)
      requires graph.Valid()
      modifies this, graph
      ensures graph.Valid() && summaryDb == old(summaryDb)
      ensures State() == AfterArguments(old(State()), summary, callee, args, 0)
    {
      ghost var target := AfterArguments(State(), summary, callee, args, 0);
      for index := 0 to |args|
        invariant graph.Valid() && summaryDb == old(summaryDb)
        invariant AfterArguments(State(), summary, callee, args, index) == target
      {
        var id := GetOrCreateVarId(args[index]);
        if id.Some? {
          if summary.None? {
            MarkEscape(id.value, ArgEscape, EscapePoint.FunctionArgument(callee, index));
          } else if index < |summary.value.tags| {
            var tag := summary.value.tags[index];
            if tag.Escapes() {
              MarkEscape(id.value, tag.ToEscapeState(), EscapePoint.FunctionArgument(callee, index));
            }
          }
        }
      }
    }

    method AnalyzeResult(summary: Option<Mir.FunctionSummary>, callee: FunctionId, args: seq<Mir.Value>,
                         result: Option<Mir.Value>)
      requires graph.Valid()
      modifies this, graph
      ensures graph.Valid() && summaryDb == old(summaryDb)
      ensures State() == AfterResult(old(State()), summary, callee, args, result)
    {
      if result.None? {
        return;
      }
      var target := GetOrCreateVarId(result.value);
      if target.Some? {
        if summary.None? {
          MarkEscape(target.value, ReturnEscape, EscapePoint.FunctionReturn(callee));
        } else {
          match summary.value.source
          case FromParameter(index) =>
            if index < |args| {
              var arg := GetOrCreateVarId(args[index]);
              if arg.Some? {
                AddEdge(arg.value, target.value, PLAIN_ASSIGNMENT);
              }
            }
          case LocalAllocation =>
            MarkEscape(target.value, ReturnEscape, EscapePoint.FunctionReturn(callee));
          case _ =>
        }
      }
    }

    method AnalyzeStatementDependencies(statement: Mir.Statement)
      requires graph.Valid()
      modifies this, graph
      ensures graph.Valid() && summaryDb == old(summaryDb)
      ensures State() == AfterStatement(old(State()), summaryDb, fieldHash, statement)
      ensures Gains(old(State()), State(),
                  StatementEffect(old(escapeInfo), variableNameToId, summaryDb, fieldHash, statement))
    {
      hide Gains, StatementEffect;
      ghost var st := State();
      StatementGains(st, summaryDb, fieldHash, statement,
                     AfterStatement(st, summaryDb, fieldHash, statement).names);
      match statement
      case Assign(target, source) =>
        if source.Reference? {
          AnalyzeAddressOf(target, source.value);
        } else {
          AnalyzeFlow(target, source, PLAIN_ASSIGNMENT);
        }
      case FieldAccess(target, object_, field) =>
        AnalyzeFlow(target, object_, WeightedEdge(DependencyEdge.FieldAccess(fieldHash(field)), Identity));
      case FieldAssign(object_, field, value) => AnalyzeFieldAssign(object_, field, value);
      case BinaryOp(target, left, right) =>
        AnalyzeFlow(target, left, PLAIN_ASSIGNMENT);
        AnalyzeFlow(target, right, PLAIN_ASSIGNMENT);
      case Call(result, callee, args) =>
        var id := Mir.CalleeId(callee);
        var summary := summaryDb.Get(id);
        AnalyzeArguments(summary, id, args);
        AnalyzeResult(summary, id, args, result);
      case Allocate(target) =>
        var id := GetOrCreateVarId(target);
        if id.Some? {
          MarkEscape(id.value, GlobalEscape, HeapFieldStore(id.value, "alloc"));
        }
      case OtherStatement =>
    }

    method AnalyzeTerminatorDependencies(current: FunctionId, terminator: Mir.Terminator)
      requires graph.Valid()
      modifies this, graph
      ensures graph.Valid() && summaryDb == old(summaryDb)
      ensures State() == AfterTerminator(old(State()), current, terminator)
      ensures Gains(old(State()), State(), TerminatorEffect(variableNameToId, current, terminator))
    {
      hide Gains, TerminatorEffect;
      TerminatorGains(State(), current, terminator, AfterTerminator(State(), current, terminator).names);
      match terminator
      case Return(Some(value)) =>
        var inner := if value.Reference? then value.value else value;
        var id := GetOrCreateVarId(inner);
        if id.Some? {
          MarkEscape(id.value, ReturnEscape, EscapePoint.FunctionReturn(current));
        }
      case Branch(condition) =>
        var _ := GetOrCreateVarId(condition);
      case _ =>
    }

    method BuildVariableGraph(function_: Mir.MirFunction)
      requires graph.Valid()
      modifies this, graph
      ensures graph.Valid() && summaryDb == old(summaryDb)
      ensures State() == AfterBlocks(old(State()), summaryDb, fieldHash, FunctionId(function_.name), function_.blocks)
    {
      var blocks := function_.blocks;
      var current := FunctionId(function_.name);
      ghost var start := State();
      for i := 0 to |blocks|
        invariant graph.Valid() && summaryDb == old(summaryDb)
        invariant State() == AfterBlocks(start, summaryDb, fieldHash, current, blocks[..i])
      {
        assert blocks[..i + 1][..i] == blocks[..i];
        BuildBlock(current, blocks[i]);
      }
      assert blocks[..|blocks|] == blocks;
    }

    method BuildBlock(current: FunctionId, block: Mir.BasicBlock)
      requires graph.Valid()
      modifies this, graph
      ensures graph.Valid() && summaryDb == old(summaryDb)
      ensures State() == AfterBlock(old(State()), summaryDb, fieldHash, current, block)
    {
      var statements := block.statements;
      ghost var start := State();
      for i := 0 to |statements|
        invariant graph.Valid() && summaryDb == old(summaryDb)
        invariant State() == AfterStatements(start, summaryDb, fieldHash, statements[..i])
      {
        assert statements[..i + 1][..i] == statements[..i];
        AnalyzeStatementDependencies(statements[i]);
      }
      assert statements[..|statements|] == statements;
      if block.terminator.Some? {
        AnalyzeTerminatorDependencies(current, block.terminator.value);
      }
    }

    // ---- Propagation ------------------------------------------------------

    /** The variables with an escaping state, in whatever order the hash map yields them. */
    method SnapshotEscaping() returns (snapshot: seq<(VariableId, EscapeState)>)
      ensures forall p :: p in snapshot ==> p.1 == InfoOf(escapeInfo, p.0).state
      ensures forall v :: InfoOf(escapeInfo, v).state != NoEscape ==> (v, InfoOf(escapeInfo, v).state) in snapshot
    {
      snapshot := [];
      var remaining := escapeInfo.Keys;
      while remaining != {}
        invariant remaining <= escapeInfo.Keys
        invariant forall p :: p in snapshot ==> p.1 == InfoOf(escapeInfo, p.0).state
        invariant forall v :: v in escapeInfo.Keys - remaining && escapeInfo[v].state != NoEscape ==>
                    (v, escapeInfo[v].state) in snapshot
      {
        var v :| v in remaining;
        remaining := remaining - {v};
        if escapeInfo[v].state != NoEscape {
          snapshot := snapshot + [(v, escapeInfo[v].state)];
        }
      }
    }

    /** Copies the new states of the affected variables into the information map. */
    method CopyAffected(affected: seq<VariableId>, ghost before: Cache)
      requires forall v :: v in affected <==> StateOf(graph.escapeCache, v) != StateOf(before, v)
      modifies this`escapeInfo
      ensures InfoFollowsCache(old(escapeInfo), escapeInfo, before, graph.escapeCache)
    {
      for i := 0 to |affected|
        invariant forall v :: v in affected[..i] ==>
                    v in escapeInfo
                    && escapeInfo[v] == InfoOf(old(escapeInfo), v).(state := StateOf(graph.escapeCache, v))
        invariant forall v :: v !in affected[..i] ==>
                    (v in escapeInfo <==> v in old(escapeInfo))
                    && (v in old(escapeInfo) ==> escapeInfo[v] == old(escapeInfo)[v])
      {
        var v := affected[i];
        var newState := StateOf(graph.escapeCache, v);
        escapeInfo := escapeInfo[v := InfoOf(escapeInfo, v).(state := newState)];
        assert affected[..i + 1] == affected[..i] + [v];
      }
      assert affected[..|affected|] == affected;
    }

    /** Propagates every recorded state; afterwards both stores hold the join of each component's marks. */
    method PropagateEscapeStates()
      requires Valid()
      modifies this`escapeInfo, graph`escapeCache
      ensures Spread(old(State()), State())
      ensures Valid()
    {
      hide PartlySpread, InfoFollowsCache, Sound, Spread, IsPropagation;
      ghost var st := State();
      NothingSpread(st);
      var escapingVars := SnapshotEscaping();
      ghost var done: set<VariableId> := {};
      for i := 0 to |escapingVars|
        invariant State() == st.(cache := graph.escapeCache, info := escapeInfo)
        invariant forall p :: p in escapingVars[..i] ==> p.0 in done
        invariant PartlySpread(st, done, graph.escapeCache, escapeInfo)
      {
        var (v, s) := escapingVars[i];
        assert escapingVars[i] in escapingVars;
        assert escapingVars[..i + 1] == escapingVars[..i] + [(v, s)];
        ghost var before, infoBefore := graph.escapeCache, escapeInfo;
        var affected := graph.PropagateEscape(v, s);
        CopyAffected(affected, before);
        SpreadOneMore(st, done, before, infoBefore, v, graph.escapeCache, escapeInfo);
        done := done + {v};
      }
      assert escapingVars[..|escapingVars|] == escapingVars;
      AllDoneIsSpread(st, done, graph.escapeCache, escapeInfo);
      SpreadKeepsSound(st, State());
    }

    // ---- Suggestions ------------------------------------------------------

    /** Gives every named variable information, then derives all suggestions from the states. */
    method GenerateAllocationSuggestions(ghost st: AnalysisState)
      requires Sound(st) && Spread(st, State())
      modifies this`escapeInfo, graph`escapeCache
      ensures Analyzed(st, State())
    {
      hide Spread, Sound, Analyzed, NamedInfo;
      ghost var mid := State();
      EnsureNamedInfo();
      var remaining := escapeInfo.Keys;
      ghost var info, named := escapeInfo, State();
      while remaining != {}
        invariant remaining <= escapeInfo.Keys == info.Keys
        invariant State() == named.(info := escapeInfo)
        invariant forall v :: v in remaining ==> escapeInfo[v] == info[v]
        invariant forall v :: v in info.Keys - remaining ==>
                    escapeInfo[v] == info[v].(suggestion := SuggestionFor(info[v].state))
      {
        var v :| v in remaining;
        remaining := remaining - {v};
        var suggestion := if escapeInfo[v].state.CanStackAllocate() then StackAlloc else HeapAlloc;
        escapeInfo := escapeInfo[v := escapeInfo[v].(suggestion := suggestion)];
      }
      assert State().(info := info) == named;
      SuggestedIsAnalyzed(st, mid, info, State());
    }

    method EnsureNamedInfo()
      modifies this`escapeInfo, graph`escapeCache
      ensures NamedInfo(old(State()), State())
    {
      hide NamedSoFar;
      ghost var mid := State();
      NobodyNamed(mid);
      var remaining := variableNameToId.Keys;
      ghost var seen: set<VariableId> := {};
      while remaining != {}
        invariant remaining <= variableNameToId.Keys
        invariant seen == set name | name in variableNameToId.Keys - remaining :: variableNameToId[name]
        invariant NamedSoFar(mid, seen, State())
      {
        var name :| name in remaining;
        remaining := remaining - {name};
        var v := variableNameToId[name];
        NamedOneMore(mid, seen, State(), v);
        seen := seen + {v};
        if v !in escapeInfo {
          var info := VariableEscapeInfo.NewNoEscape();
          info := info.(state := StateOf(graph.escapeCache, v));
          graph.SetEscapeState(v, info.state);
          escapeInfo := escapeInfo[v := info];
        }
      }
      assert seen == variableNameToId.Values;
    }

    // ---- Whole functions --------------------------------------------------

    /** Analyzes one function on top of everything analyzed before. */
    method AnalyzeFunction(function_: Mir.MirFunction)
      requires Valid()
      modifies this, graph
      ensures Valid() && summaryDb == old(summaryDb)
      ensures Analyzed(AfterBlocks(old(State()), summaryDb, fieldHash, FunctionId(function_.name), function_.blocks),
          State())
      ensures Grows(old(State()), State())
      ensures Explained(old(State()), summaryDb, function_.blocks, State())
    {
      hide Explained;
      ghost var st0 := State();
      BlocksFollow(st0, summaryDb, fieldHash, FunctionId(function_.name), function_.blocks);
      BuildVariableGraph(function_);
      ghost var st := State();
      PropagateEscapeStates();
      GenerateAllocationSuggestions(st);
      AnalyzedKeepsSound(st, State());
      FunctionExplained(st0, summaryDb, fieldHash, FunctionId(function_.name), function_.blocks, State());
    }

    // ---- Whole programs ---------------------------------------------------

    /** Some summary of the function; which one is not modelled. */
    method GenerateFunctionSummary(function_: Mir.MirFunction) returns (summary: Mir.FunctionSummary)
      ensures summary.function_ == FunctionId(function_.name)
    {
      var tags: seq<Mir.ParameterTag> := *;
      var source: Mir.ReturnSource := *;
      summary := Mir.FunctionSummary(FunctionId(function_.name), tags, source);
    }

    /** Applies known summaries at the call sites of one function. */
    method ApplySummaries(function_: Mir.MirFunction)
      modifies this`escapeInfo, this`marks, graph`escapeCache
      ensures State() == AfterSummaries(old(State()), summaryDb, function_.blocks)
      ensures Gains(old(State()), State(),
                  Marking(iset m | MarksInBlocks(variableNameToId, summaryDb, function_.blocks, m)))
    {
      hide Gains, Marking;
      SummariesGain(State(), summaryDb, function_.blocks);
      var blocks := function_.blocks;
      ghost var start := State();
      for i := 0 to |blocks|
        invariant State() == AfterSummaries(start, summaryDb, blocks[..i])
      {
        assert blocks[..i + 1][..i] == blocks[..i];
        ApplySummariesInBlock(blocks[i].statements);
      }
      assert blocks[..|blocks|] == blocks;
    }

    method ApplySummariesInBlock(statements: seq<Mir.Statement>)
      modifies this`escapeInfo, this`marks, graph`escapeCache
      ensures State() == AfterCallSites(old(State()), summaryDb, statements)
    {
      ghost var start := State();
      for i := 0 to |statements|
        invariant State() == AfterCallSites(start, summaryDb, statements[..i])
      {
        assert statements[..i + 1][..i] == statements[..i];
        if statements[i].Call? {
          var callee := Mir.CalleeId(statements[i].callee);
          var summary := summaryDb.Get(callee);
          if summary.Some? {
            ApplySummaryAtCallSite(statements[i].args, summary.value);
          }
        }
      }
      assert statements[..|statements|] == statements;
    }

    method ApplySummaryAtCallSite(args: seq<Mir.Value>, summary: Mir.FunctionSummary)
      modifies this`escapeInfo, this`marks, graph`escapeCache
      ensures State() == AfterSummary(old(State()), summary, args)
    {
      ghost var start := State();
      for i := 0 to |args|
        invariant State() == AfterSummary(start, summary, args[..i])
      {
        assert args[..i + 1][..i] == args[..i];
        var id := VariableOf(variableNameToId, args[i]);
        if id.Some? && i < |summary.tags| && summary.tags[i].Escapes() {
          MarkEscape(id.value, summary.tags[i].ToEscapeState(), EscapePoint.FunctionArgument(summary.function_, i));
        }
      }
      assert args[..|args|] == args;
    }

    /** Analyzes one function, records a summary under its own name and applies what is known at its calls. */
    method AnalyzeAndSummarize(function_: Mir.MirFunction)
      requires Valid()
      modifies this, graph
      ensures Valid()
      ensures IsStep(fieldHash, function_, Snapshot(old(State()), old(summaryDb)), Snapshot(State(), summaryDb))
    {
      hide Sound, Analyzed, AfterBlocks, AfterSummaries;
      ghost var before := Snapshot(State(), summaryDb);
      AnalyzeFunction(function_);
      ghost var mid := State();
      var summary := GenerateFunctionSummary(function_);
      summaryDb := summaryDb.Insert(summary);
      ApplySummaries(function_);
      assert IsStep(fieldHash, function_, before, Snapshot(State(), summaryDb));
      StepFollows(fieldHash, function_, before, Snapshot(State(), summaryDb));
    }

    /**
     * Analyzes the functions bottom-up along the call graph, then propagates everything once more.  The run leads
     * from the state before the call to the one that last propagation starts from.
     */
    method AnalyzeProgramInterprocedural(program: Mir.MirProgram)
      returns (ghost calls: Successors<FunctionId>, ghost functions: seq<FunctionId>, ghost trace: seq<Snapshot>)
      requires Valid()
      modifies this, graph
      ensures Valid() && Grows(old(State()), State())
      ensures Calls.IsCallRelation(program, calls)
      ensures NoDuplicates(functions) && forall f :: f in functions <==> f.name in program
      ensures Calls.CalleesFirst(program, calls, functions)
      ensures IsProgramRun(program, fieldHash, functions, trace)
      ensures trace[0] == Snapshot(old(State()), old(summaryDb))
      ensures Spread(trace[|functions|].state, State()) && trace[|functions|].db == summaryDb
      ensures summaryDb.user.Keys == old(summaryDb.user.Keys) + set name | name in program ::
          FunctionId(program[name].name)
      ensures forall v ::
                InfoOf(escapeInfo, v).state == StateOf(graph.escapeCache, v) == ComponentJoin(graph.Value(), marks, v)
    {
      hide Sound, Spread, ComponentJoin, BottomUp, Calls.IsCallRelation, Calls.CalleesFirst, Calls.ListsProgram,
          IsProgramRun, IsStep, Grows;
      var callGraph := Calls.BuildFromProgram(program);
      calls := callGraph.edges;
      var order := callGraph.TopologicalOrder();
      functions, trace := [], [Snapshot(State(), summaryDb)];
      NothingRun(program, fieldHash, calls, trace[0]);
      assert order[..0] == [];
      for i := 0 to |order|
        invariant Valid()
        invariant |trace| == |functions| + 1 && IsProgramRun(program, fieldHash, functions, trace)
        invariant trace[0] == Snapshot(old(State()), old(summaryDb))
            && trace[|functions|] == Snapshot(State(), summaryDb)
        invariant Calls.ListsProgram(program, order[..i], functions) && Calls.CalleesFirst(program, calls, functions)
      {
        var name := order[i].name;
        Calls.ListNext(program, calls, order, i, functions);
        if name in program {
          AnalyzeAndSummarize(program[name]);
          RunExtends(program, fieldHash, functions, trace, order[i], Snapshot(State(), summaryDb));
          functions, trace := functions + [order[i]], trace + [Snapshot(State(), summaryDb)];
        }
      }
      assert order[..|order|] == order;
      WholeProgramRun(program, fieldHash, order, functions, trace);
      ghost var st := State();
      PropagateEscapeStates();
      SpreadAgrees(st, State());
      SpreadGrows(st, State());
      GrowsTransitive(old(State()), st, State());
    }
  }
}
