/** The result of analyzing one function, told by its statements and returns. */
module FunctionResults {
  import opened EscapeTypes
  import opened Propagation
  import opened AnalysisStates
  import opened Effects
  import opened FunctionEffects
  import opened Spreading
  import Mir

  /**
   * What the analysis of `blocks` leaves in `final`, told by the statements alone.  Variables between which something
   * flows share a state; what escapes has at least the state it escapes with; and a variable is put on the stack
   * exactly when nothing that escapes, now or before, is linked to it by such flows.
   */
  ghost predicate Explained(st: AnalysisState, db: Mir.SummaryDatabase, blocks: seq<Mir.BasicBlock>,
                            final: AnalysisState) {
    var ties, sends := Ties(final.names, db, blocks), Sendings(final.names, db, blocks);
    && (forall name :: IsUsed(blocks, Mir.Variable(name)) ==> name in final.names)
    && (forall name :: name in final.names ==> final.names[name] in final.info)
    && (forall u, v :: Adjacent(final.graph, u, v) <==> Adjacent(st.graph, u, v) || (u, v) in ties || (v, u) in ties)
    && (forall u, v :: (u, v) in ties ==> InfoOf(final.info, u).state == InfoOf(final.info, v).state)
    && (forall p :: p in sends ==> p.1.Leq(InfoOf(final.info, p.0).state))
    && (forall v :: v in final.info ==>
          (final.info[v].suggestion == StackAlloc <==>
           forall w :: Connected(final.graph, v, w) ==> !IsRoot(st.marks, sends, w)))
  }

  lemma FunctionExplained(st: AnalysisState, db: Mir.SummaryDatabase, fieldHash: string -> nat, current: FunctionId,
                          blocks: seq<Mir.BasicBlock>, final: AnalysisState)
    requires Sound(st) && Analyzed(AfterBlocks(st, db, fieldHash, current, blocks), final)
    ensures Explained(st, db, blocks, final)
  {
    hide Built, AfterBlocks, IsUsed, Adjacent, Connected, IsRoot, Analyzed, Grows, IsTie, IsSending, NamesKept;
    var built := AfterBlocks(st, db, fieldHash, current, blocks);
    var ties, sends := Ties(final.names, db, blocks), Sendings(final.names, db, blocks);
    AnalyzedKeeps(built, final);
    BlocksFollow(st, db, fieldHash, current, blocks);
    BlocksBuild(st, db, fieldHash, current, blocks, final.names);
    forall name | IsUsed(blocks, Mir.Variable(name)) ensures name in final.names {
      BlocksName(st, db, fieldHash, current, blocks, name);
    }
    BuiltAdjacent(st, built, ties, sends);
    forall u, v | (u, v) in ties ensures InfoOf(final.info, u).state == InfoOf(final.info, v).state {
      AdjacentShare(built, final, u, v);
    }
    forall p | p in sends ensures p.1.Leq(InfoOf(final.info, p.0).state) {
      SentShows(st, built, final, ties, sends, p);
    }
    forall p | p in sends ensures p.1 != NoEscape {
      SendingEscapes(final.names, db, blocks, p);
    }
    forall v | v in final.info
      ensures final.info[v].suggestion == StackAlloc <==>
              forall w :: Connected(final.graph, v, w) ==> !IsRoot(st.marks, sends, w)
    {
      StackAllocIff(built, final, v);
      RootsDecide(st, built, ties, sends, v);
    }
  }

  lemma AnalyzedKeeps(st: AnalysisState, st': AnalysisState)
    requires Analyzed(st, st')
    ensures st'.graph == st.graph && st'.names == st.names && st'.marks == st.marks && NamesKept(st.names, st'.names)
    ensures forall name :: name in st'.names ==> st'.names[name] in st'.info
  {
  }

  lemma BuiltAdjacent(a: AnalysisState, b: AnalysisState, ties: iset<Tie>, sends: iset<Sending>)
    requires Built(a, b, ties, sends)
    ensures forall u, v :: Adjacent(b.graph, u, v) <==> Adjacent(a.graph, u, v) || (u, v) in ties || (v, u) in ties
  {
  }

  lemma AdjacentShare(st: AnalysisState, st': AnalysisState, u: VariableId, v: VariableId)
    requires Sound(st) && Analyzed(st, st') && Adjacent(st.graph, u, v)
    ensures InfoOf(st'.info, u).state == InfoOf(st'.info, v).state
  {
    AnalyzedKeepsSound(st, st');
    ConnectedSelf(st.graph, u);
    ConnectedStep(st.graph, u, u, v);
    JoinSharedInComponent(st.graph, st.marks, u, v);
  }

  lemma SentShows(a: AnalysisState, b: AnalysisState, final: AnalysisState, ties: iset<Tie>, sends: iset<Sending>,
                  p: Sending)
    requires Built(a, b, ties, sends) && p in sends && Sound(b) && Analyzed(b, final)
    ensures p.1.Leq(InfoOf(final.info, p.0).state)
  {
    AnalyzedKeepsSound(b, final);
    ConnectedSelf(b.graph, p.0);
    JoinDominates(b.graph, b.marks, p.0, p.0);
  }

  lemma SendingEscapes(names: Names, db: Mir.SummaryDatabase, blocks: seq<Mir.BasicBlock>, p: Sending)
    requires IsSending(names, db, blocks, p)
    ensures p.1 != NoEscape
  {
    hide Sends;
    var block :| block in blocks && BlockSends(names, db, block, p);
    if SendsSome(names, db, block.statements, p) {
      var s :| s in block.statements && SendsOne(names, db, s, p);
      SentIsMarked(map[], names, db, s, p);
    }
  }

  /** No mark in a component means no root in it, and the other way round. */
  lemma RootsDecide(a: AnalysisState, b: AnalysisState, ties: iset<Tie>, sends: iset<Sending>, v: VariableId)
    requires Built(a, b, ties, sends) && forall p :: p in sends ==> p.1 != NoEscape
    ensures (forall w :: Connected(b.graph, v, w) ==> StateOf(b.marks, w) == NoEscape) <==>
            (forall w :: Connected(b.graph, v, w) ==> !IsRoot(a.marks, sends, w))
  {
    hide Connected, Adjacent;
    if w :| Connected(b.graph, v, w) && StateOf(b.marks, w) != NoEscape {
      var x :| Connected(b.graph, w, x) && IsRoot(a.marks, sends, x);
      ConnectedTransitive(b.graph, v, w, x);
    }
    forall w | IsRoot(a.marks, sends, w) ensures StateOf(b.marks, w) != NoEscape {
      assert StateOf(a.marks, w).Leq(StateOf(b.marks, w));
      if s :| (w, s) in sends {
        assert (w, s).1.Leq(StateOf(b.marks, (w, s).0));
      }
    }
  }

  /** Some statement lets one of the two values flow into the other. */
  ghost predicate Linked(db: Mir.SummaryDatabase, blocks: seq<Mir.BasicBlock>, x: Mir.Value, y: Mir.Value) {
    exists block, s :: block in blocks && s in block.statements && (Moves(db, s, x, y) || Moves(db, s, y, x))
  }

  /** Some statement or return lets the value escape. */
  ghost predicate LetsEscape(db: Mir.SummaryDatabase, blocks: seq<Mir.BasicBlock>, x: Mir.Value, state: EscapeState) {
    || (exists block, s :: block in blocks && s in block.statements && Sends(db, s, x, state))
    || (state == ReturnEscape
        && exists block :: block in blocks && block.terminator.Some? && Returns(block.terminator.value, x))
  }

  /**
   * What is linked to an escaping value through any chain of assignments, field accesses and the like escapes as far,
   * and is not put on the stack: after `b = a; return b` neither is `a`.
   */
  lemma {:induction false} LinkedEscapes(st: AnalysisState, db: Mir.SummaryDatabase, blocks: seq<Mir.BasicBlock>,
                                         final: AnalysisState, chain: seq<Mir.Value>, state: EscapeState,
                                         v: VariableId)
    requires Explained(st, db, blocks, final)
    requires chain != [] && (forall x :: x in chain ==> IsVariable(x)) && Is(final.names, chain[0], v)
    requires forall i :: 0 <= i < |chain| - 1 ==> Linked(db, blocks, chain[i], chain[i + 1])
    requires LetsEscape(db, blocks, chain[|chain| - 1], state)
    ensures state.Leq(InfoOf(final.info, v).state)
    ensures v in final.info && final.info[v].suggestion != StackAlloc
  {
    hide Explained, Linked, LetsEscape;
    var w := ChainEnds(st, db, blocks, final, chain, state, v);
    RootStaysOff(st, db, blocks, final, state, v, w);
  }

  lemma {:induction false} ChainEnds(st: AnalysisState, db: Mir.SummaryDatabase, blocks: seq<Mir.BasicBlock>,
                                     final: AnalysisState, chain: seq<Mir.Value>, state: EscapeState, v: VariableId)
    returns (w: VariableId)
    requires Explained(st, db, blocks, final)
    requires chain != [] && (forall x :: x in chain ==> IsVariable(x)) && Is(final.names, chain[0], v)
    requires forall i :: 0 <= i < |chain| - 1 ==> Linked(db, blocks, chain[i], chain[i + 1])
    requires LetsEscape(db, blocks, chain[|chain| - 1], state)
    ensures IsSending(final.names, db, blocks, (w, state)) && Connected(final.graph, v, w)
    ensures InfoOf(final.info, v).state == InfoOf(final.info, w).state
    decreases |chain|
  {
    hide Explained, LetsEscape, Connected, IsSending, Is, Linked;
    if |chain| == 1 {
      w := v;
      ConnectedSelf(final.graph, v);
      EscapeIsSent(db, blocks, final.names, chain[0], state, v);
    } else {
      assert chain[0] in chain && chain[1] in chain && Linked(db, blocks, chain[0], chain[0 + 1]);
      var u := LinkStep(st, db, blocks, final, chain[0], chain[1], v);
      w := ChainEnds(st, db, blocks, final, chain[1..], state, u);
      ConnectedTransitive(final.graph, v, u, w);
    }
  }

  lemma EscapeIsSent(db: Mir.SummaryDatabase, blocks: seq<Mir.BasicBlock>, names: Names, x: Mir.Value,
                     state: EscapeState, v: VariableId)
    requires LetsEscape(db, blocks, x, state) && Is(names, x, v)
    ensures IsSending(names, db, blocks, (v, state))
  {
    hide Sends, Is, Returns;
    if block, s :| block in blocks && s in block.statements && Sends(db, s, x, state) {
      assert SendsOne(names, db, s, (v, state));
      assert SendsSome(names, db, block.statements, (v, state));
      assert BlockSends(names, db, block, (v, state));
    } else {
      var block :| block in blocks && block.terminator.Some? && Returns(block.terminator.value, x);
      assert ReturnsOne(names, block.terminator.value, (v, state));
      assert BlockSends(names, db, block, (v, state));
    }
  }

  lemma MovesOperands(db: Mir.SummaryDatabase, s: Mir.Statement, x: Mir.Value, y: Mir.Value)
    requires Moves(db, s, x, y)
    ensures x in Operands(s) && y in Operands(s)
  {
  }

  lemma LinkStep(st: AnalysisState, db: Mir.SummaryDatabase, blocks: seq<Mir.BasicBlock>, final: AnalysisState,
                 x: Mir.Value, y: Mir.Value, v: VariableId)
    returns (u: VariableId)
    requires Explained(st, db, blocks, final) && Linked(db, blocks, x, y)
    requires Is(final.names, x, v) && IsVariable(y)
    ensures Is(final.names, y, u) && Connected(final.graph, v, u)
    ensures InfoOf(final.info, v).state == InfoOf(final.info, u).state
  {
    hide Moves, Operands, Connected, Adjacent, IsRoot;
    var block, s :| block in blocks && s in block.statements && (Moves(db, s, x, y) || Moves(db, s, y, x));
    if Moves(db, s, x, y) {
      MovesOperands(db, s, x, y);
    } else {
      MovesOperands(db, s, y, x);
    }
    assert UsedIn(block, y);
    assert IsUsed(blocks, y);
    u := if y.Variable? then final.names[y.name] else VariableId(y.id);
    assert TiesOne(final.names, db, s, v, u) || TiesOne(final.names, db, s, u, v);
    assert TiesSome(final.names, db, block.statements, (v, u)) || TiesSome(final.names, db, block.statements, (u, v));
    assert (v, u) in Ties(final.names, db, blocks) || (u, v) in Ties(final.names, db, blocks);
    ConnectedSelf(final.graph, v);
    ConnectedStep(final.graph, v, v, u);
  }

  lemma RootStaysOff(st: AnalysisState, db: Mir.SummaryDatabase, blocks: seq<Mir.BasicBlock>, final: AnalysisState,
                     state: EscapeState, v: VariableId, w: VariableId)
    requires Explained(st, db, blocks, final) && IsSending(final.names, db, blocks, (w, state))
    requires Connected(final.graph, v, w) && InfoOf(final.info, v).state == InfoOf(final.info, w).state
    ensures state.Leq(InfoOf(final.info, v).state)
    ensures v in final.info && final.info[v].suggestion != StackAlloc
  {
    hide Connected, Adjacent, IsSending, IsUsed;
    SendingEscapes(final.names, db, blocks, (w, state));
    assert (w, state).1.Leq(InfoOf(final.info, (w, state).0).state);
    assert IsRoot(st.marks, Sendings(final.names, db, blocks), w);
  }
}
