/** What an interprocedural analysis does to the analyzer, function by function. */
module ProgramRuns {
  import opened EscapeTypes
  import opened Propagation
  import opened AnalysisStates
  import opened Effects
  import opened StatementEffects
  import opened FunctionEffects
  import opened FunctionResults
  import opened Spreading
  import opened Digraph
  import opened CallGraphs
  import opened Calls
  import Mir

  datatype Snapshot = Snapshot(state: AnalysisState, db: Mir.SummaryDatabase)

  /**
   * One function: it is analyzed with the summaries of `a`, some summary is recorded under its own name, and what is
   * then known about its callees is applied.
   */
  ghost predicate IsStep(fieldHash: string -> nat, function_: Mir.MirFunction, a: Snapshot, b: Snapshot) {
    exists mid: AnalysisState, summary: Mir.FunctionSummary ::
      && Analyzed(AfterBlocks(a.state, a.db, fieldHash, FunctionId(function_.name), function_.blocks), mid)
      && summary.function_ == FunctionId(function_.name)
      && b == Snapshot(AfterSummaries(mid, a.db.Insert(summary), function_.blocks), a.db.Insert(summary))
  }

  /** `trace[i]` is what the analysis of `functions[i]` starts from and `trace[i + 1]` what it leaves. */
  ghost predicate IsProgramRun(program: Mir.MirProgram, fieldHash: string -> nat, functions: seq<FunctionId>,
                               trace: seq<Snapshot>) {
    && |trace| == |functions| + 1
    && forall i :: 0 <= i < |functions| ==>
         functions[i].name in program && IsStep(fieldHash, program[functions[i].name], trace[i], trace[i + 1])
  }

  lemma RunExtends(program: Mir.MirProgram, fieldHash: string -> nat, functions: seq<FunctionId>, trace: seq<Snapshot>,
                   f: FunctionId, next: Snapshot)
    requires IsProgramRun(program, fieldHash, functions, trace) && f.name in program
    requires IsStep(fieldHash, program[f.name], trace[|functions|], next)
    ensures IsProgramRun(program, fieldHash, functions + [f], trace + [next])
  {
    hide IsStep;
  }

  lemma StepFollows(fieldHash: string -> nat, function_: Mir.MirFunction, a: Snapshot, b: Snapshot)
    requires Sound(a.state) && IsStep(fieldHash, function_, a, b)
    ensures Follows(a.state, b.state)
    ensures b.db.user.Keys == a.db.user.Keys + {FunctionId(function_.name)}
  {
    hide Analyzed, AfterBlocks, AfterSummaries, Sound, Grows;
    var mid: AnalysisState, summary: Mir.FunctionSummary :|
      && Analyzed(AfterBlocks(a.state, a.db, fieldHash, FunctionId(function_.name), function_.blocks), mid)
      && summary.function_ == FunctionId(function_.name)
      && b == Snapshot(AfterSummaries(mid, a.db.Insert(summary), function_.blocks), a.db.Insert(summary));
    var built := AfterBlocks(a.state, a.db, fieldHash, FunctionId(function_.name), function_.blocks);
    BlocksFollow(a.state, a.db, fieldHash, FunctionId(function_.name), function_.blocks);
    AnalyzedFollows(built, mid);
    SummariesFollow(mid, b.db, function_.blocks);
    hide Follows;
    FollowsTransitive(a.state, built, mid);
    FollowsTransitive(a.state, mid, b.state);
  }

  lemma AnalyzedFollows(st: AnalysisState, st': AnalysisState)
    requires Sound(st) && Analyzed(st, st')
    ensures Follows(st, st')
  {
    AnalyzedKeepsSound(st, st');
  }

  /** Names under which the first `k` functions of a run leave their summaries. */
  function Summarized(program: Mir.MirProgram, functions: seq<FunctionId>): set<FunctionId> {
    set f | f in functions && f.name in program :: FunctionId(program[f.name].name)
  }

  /**
   * Through a whole run the analysis stays sound, edges and marks only grow, and exactly the functions analyzed so
   * far have gained a summary.
   */
  lemma {:induction false} RunFollows(program: Mir.MirProgram, fieldHash: string -> nat, functions: seq<FunctionId>,
                                      trace: seq<Snapshot>, k: nat)
    requires IsProgramRun(program, fieldHash, functions, trace) && Sound(trace[0].state) && k <= |functions|
    ensures Follows(trace[0].state, trace[k].state)
    ensures trace[k].db.user.Keys == trace[0].db.user.Keys + Summarized(program, functions[..k])
  {
    hide IsStep, Sound, Grows;
    if k == 0 {
      FollowsSelf(trace[0].state);
    } else {
      var f := functions[k - 1];
      RunFollows(program, fieldHash, functions, trace, k - 1);
      StepFollows(fieldHash, program[f.name], trace[k - 1], trace[k]);
      FollowsTransitive(trace[0].state, trace[k - 1].state, trace[k].state);
      assert functions[..k] == functions[..k - 1] + [f];
      assert Summarized(program, functions[..k]) ==
          Summarized(program, functions[..k - 1]) + {FunctionId(program[f.name].name)};
    }
  }

  /** When keys are names, a callee without a summary can reach its caller. */
  lemma MissingSummaryIsRecursive(program: Mir.MirProgram, fieldHash: string -> nat, calls: Successors<FunctionId>,
                                  functions: seq<FunctionId>, trace: seq<Snapshot>, i: nat, b: FunctionId)
    requires IsProgramRun(program, fieldHash, functions, trace) && Sound(trace[0].state)
    requires KeysAreNames(program) && CalleesFirst(program, calls, functions)
    requires i < |functions| && b in Succ(calls, functions[i]) && b.name in program
    ensures trace[i].db.Get(b).None? ==> Reaches(calls, b, functions[i])
  {
    RunFollows(program, fieldHash, functions, trace, i);
    if b in functions[..i] {
      assert FunctionId(program[b.name].name) in Summarized(program, functions[..i]);
    }
  }

  /** So without recursion every program function called by the one being analyzed has a summary. */
  lemma AcyclicSummariesReady(program: Mir.MirProgram, fieldHash: string -> nat, calls: Successors<FunctionId>,
                              functions: seq<FunctionId>, trace: seq<Snapshot>, i: nat, b: FunctionId)
    requires IsProgramRun(program, fieldHash, functions, trace) && Sound(trace[0].state)
    requires KeysAreNames(program) && CalleesFirst(program, calls, functions) && Acyclic(calls)
    requires i < |functions| && b in Succ(calls, functions[i]) && b.name in program
    ensures trace[i].db.Get(b).Some?
  {
    MissingSummaryIsRecursive(program, fieldHash, calls, functions, trace, i, b);
    if Reaches(calls, b, functions[i]) {
      BackEdgeClosesCycle(calls, functions[i], b);
    }
  }

  /** So without recursion every call of a program function finds a summary when its caller is analyzed. */
  lemma AcyclicCallsFindSummaries(program: Mir.MirProgram, fieldHash: string -> nat, calls: Successors<FunctionId>,
                                  functions: seq<FunctionId>, trace: seq<Snapshot>, i: nat, block: Mir.BasicBlock,
                                  s: Mir.Statement)
    requires IsProgramRun(program, fieldHash, functions, trace) && Sound(trace[0].state)
    requires KeysAreNames(program) && CalleesFirst(program, calls, functions) && Acyclic(calls)
    requires IsCallRelation(program, calls)
    requires i < |functions| && block in program[functions[i].name].blocks && s in block.statements && s.Call?
    requires (s.callee.Function? || s.callee.Variable?) && s.callee.name in program
    ensures trace[i].db.Get(Mir.CalleeId(s.callee)).Some?
  {
    hide IsCallRelation, CalleesFirst, Acyclic, IsStep;
    CallMakesEdge(program, calls, functions[i], block, s);
    AcyclicSummariesReady(program, fieldHash, calls, functions, trace, i, Mir.CalleeId(s.callee));
  }

  /** After one function is done, what its statements tie is adjacent and what they let escape is marked. */
  lemma StepBuilds(fieldHash: string -> nat, function_: Mir.MirFunction, a: Snapshot, b: Snapshot, names: Names)
    requires Sound(a.state) && IsStep(fieldHash, function_, a, b) && NamesKept(b.state.names, names)
    ensures forall p :: p in Ties(names, a.db, function_.blocks) ==> Adjacent(b.state.graph, p.0, p.1)
    ensures forall p :: p in Sendings(names, a.db, function_.blocks) ==> p.1.Leq(StateOf(b.state.marks, p.0))
  {
    hide Analyzed, AfterBlocks, AfterSummaries, Sound, Built, Ties, Sendings;
    var mid: AnalysisState, summary: Mir.FunctionSummary :|
      && Analyzed(AfterBlocks(a.state, a.db, fieldHash, FunctionId(function_.name), function_.blocks), mid)
      && summary.function_ == FunctionId(function_.name)
      && b == Snapshot(AfterSummaries(mid, a.db.Insert(summary), function_.blocks), a.db.Insert(summary));
    var built := AfterBlocks(a.state, a.db, fieldHash, FunctionId(function_.name), function_.blocks);
    var ties, sends := Ties(names, a.db, function_.blocks), Sendings(names, a.db, function_.blocks);
    AnalyzedKeeps(built, mid);
    SummariesFollow(mid, b.db, function_.blocks);
    SummariesGain(mid, b.db, function_.blocks);
    BlocksBuild(a.state, a.db, fieldHash, FunctionId(function_.name), function_.blocks, names);
    BuiltStays(a.state, built, ties, sends, b.state);
  }

  lemma BuiltStays(a: AnalysisState, built: AnalysisState, ties: iset<Tie>, sends: iset<Sending>, later: AnalysisState)
    requires Built(a, built, ties, sends) && Extends(built.graph, later.graph) && CacheLeq(built.marks, later.marks)
    ensures forall p :: p in ties ==> Adjacent(later.graph, p.0, p.1)
    ensures forall p :: p in sends ==> p.1.Leq(StateOf(later.marks, p.0))
  {
    forall p | p in ties ensures Adjacent(later.graph, p.0, p.1) {
      assert p == (p.0, p.1);
      assert Adjacent(built.graph, p.0, p.1);
    }
    forall p | p in sends ensures p.1.Leq(StateOf(later.marks, p.0)) {
      assert StateOf(built.marks, p.0).Leq(StateOf(later.marks, p.0));
    }
  }

  /**
   * In the end result of a program, variables between which any of its functions lets something flow share a state, and
   * whatever one of them lets escape has at least that state.
   */
  lemma RunKeepsFlows(program: Mir.MirProgram, fieldHash: string -> nat, functions: seq<FunctionId>,
                      trace: seq<Snapshot>, i: nat, final: AnalysisState)
    requires IsProgramRun(program, fieldHash, functions, trace) && Sound(trace[0].state) && i < |functions|
    requires Spread(trace[|functions|].state, final)
    ensures var blocks := program[functions[i].name].blocks;
            && (forall p :: p in Ties(final.names, trace[i].db, blocks) ==>
                  InfoOf(final.info, p.0).state == InfoOf(final.info, p.1).state)
            && (forall p :: p in Sendings(final.names, trace[i].db, blocks) ==>
                  p.1.Leq(InfoOf(final.info, p.0).state))
  {
    hide IsStep, Sound, Spread, Ties, Sendings, Adjacent, Connected, Summarized;
    var n, blocks := |functions|, program[functions[i].name].blocks;
    var last := trace[n].state;
    RunFollows(program, fieldHash, functions, trace, i);
    StepFollows(fieldHash, program[functions[i].name], trace[i], trace[i + 1]);
    RunFollows(program, fieldHash, functions[i + 1..], trace[i + 1..], n - i - 1);
    assert trace[i + 1..][n - i - 1] == trace[n];
    SpreadKeepsNames(last, final);
    StepBuilds(fieldHash, program[functions[i].name], trace[i], trace[i + 1], final.names);
    forall p | p in Ties(final.names, trace[i].db, blocks)
      ensures InfoOf(final.info, p.0).state == InfoOf(final.info, p.1).state
    {
      AdjacentInExtension(trace[i + 1].state.graph, last.graph, p.0, p.1);
      SpreadShares(last, final, p.0, p.1);
    }
    forall p | p in Sendings(final.names, trace[i].db, blocks) ensures p.1.Leq(InfoOf(final.info, p.0).state) {
      assert StateOf(trace[i + 1].state.marks, p.0).Leq(StateOf(last.marks, p.0));
      SpreadDominates(last, final, p.0);
    }
  }

  lemma SpreadKeepsNames(st: AnalysisState, st': AnalysisState)
    requires Spread(st, st')
    ensures st'.names == st.names
  {
  }

  lemma AdjacentInExtension(f: Graph, g: Graph, u: VariableId, v: VariableId)
    requires Extends(f, g) && Adjacent(f, u, v)
    ensures Adjacent(g, u, v)
  {
  }

  lemma SpreadShares(st: AnalysisState, st': AnalysisState, u: VariableId, v: VariableId)
    requires Sound(st) && Spread(st, st') && Adjacent(st.graph, u, v)
    ensures InfoOf(st'.info, u).state == InfoOf(st'.info, v).state
  {
    ConnectedSelf(st.graph, u);
    ConnectedStep(st.graph, u, u, v);
    JoinSharedInComponent(st.graph, st.marks, u, v);
  }

  lemma SpreadDominates(st: AnalysisState, st': AnalysisState, v: VariableId)
    requires Spread(st, st')
    ensures StateOf(st.marks, v).Leq(InfoOf(st'.info, v).state)
  {
    ConnectedSelf(st.graph, v);
    JoinDominates(st.graph, st.marks, v, v);
  }

  lemma NothingRun(program: Mir.MirProgram, fieldHash: string -> nat, calls: Successors<FunctionId>, start: Snapshot)
    ensures IsProgramRun(program, fieldHash, [], [start])
    ensures ListsProgram(program, [], []) && CalleesFirst(program, calls, [])
  {
  }

  /** At the end of a run over all nodes of the call graph every program function has left its summary. */
  lemma WholeProgramRun(program: Mir.MirProgram, fieldHash: string -> nat, order: seq<FunctionId>,
                        functions: seq<FunctionId>,
                        trace: seq<Snapshot>)
    requires IsProgramRun(program, fieldHash, functions, trace) && Sound(trace[0].state)
    requires ListsProgram(program, order, functions) && forall name :: name in program ==> FunctionId(name) in order
    ensures |trace| == |functions| + 1 && Follows(trace[0].state, trace[|functions|].state)
    ensures NoDuplicates(functions) && forall f :: f in functions <==> f.name in program
    ensures trace[|functions|].db.user.Keys == trace[0].db.user.Keys + set name | name in program ::
        FunctionId(program[name].name)
  {
    hide IsStep, Follows, Sound;
    RunFollows(program, fieldHash, functions, trace, |functions|);
    assert functions[..|functions|] == functions;
    forall f ensures f in functions <==> f.name in program {
      if f.name in program {
        assert f == FunctionId(f.name);
      }
    }
    var names := set name | name in program :: FunctionId(program[name].name);
    forall g | g in names ensures g in Summarized(program, functions) {
      var name :| name in program && g == FunctionId(program[name].name);
      assert FunctionId(name) in functions;
    }
    assert names == Summarized(program, functions);
  }

  lemma SpreadGrows(st: AnalysisState, st': AnalysisState)
    requires Sound(st) && Spread(st, st')
    ensures Grows(st, st')
  {
  }

  lemma GrowsTransitive(a: AnalysisState, b: AnalysisState, c: AnalysisState)
    requires Follows(a, b) && Grows(b, c)
    ensures Grows(a, c)
  {
  }
}
