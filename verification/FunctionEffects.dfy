/** What the analysis of a whole function says about its variables, in terms of the function's statements. */
module FunctionEffects {
  import opened Wrappers
  import opened EscapeTypes
  import opened Propagation
  import opened AnalysisStates
  import opened Effects
  import opened StatementEffects
  import opened Spreading
  import Mir

  // ---- What flows where ---------------------------------------------------

  type Tie = (VariableId, VariableId)
  type Sending = (VariableId, EscapeState)

  /** The statement lets `source` flow into `target`. */
  predicate Moves(db: Mir.SummaryDatabase, s: Mir.Statement, source: Mir.Value, target: Mir.Value) {
    match s
    case Assign(t, x) => target == t && source == if x.Reference? then x.value else x
    case FieldAccess(t, o, _) => target == t && source == o
    case FieldAssign(o, _, x) => target == o && source == x
    case BinaryOp(t, l, r) => target == t && (source == l || source == r)
    case Call(result, callee, args) =>
      var summary := db.Get(Mir.CalleeId(callee));
      result == Some(target) && ReturnsParameter(summary, args) && source == args[summary.value.source.index]
    case Allocate(_) => false
    case OtherStatement => false
  }

  /** The statement lets `value` escape at least as far as `state`, whatever else happens. */
  predicate Sends(db: Mir.SummaryDatabase, s: Mir.Statement, value: Mir.Value, state: EscapeState) {
    match s
    case Allocate(target) => value == target && state == GlobalEscape
    case Call(result, callee, args) =>
      var summary := db.Get(Mir.CalleeId(callee));
      || (exists i :: 0 <= i < |args| && args[i] == value && CallGives(summary, i, state))
      || (result == Some(value) && ResultIsNew(summary) && state == ReturnEscape)
    case _ => false
  }

  ghost predicate TiesOne(names: Names, db: Mir.SummaryDatabase, s: Mir.Statement, u: VariableId, v: VariableId) {
    exists x, y :: Moves(db, s, x, y) && Is(names, x, u) && Is(names, y, v)
  }

  ghost predicate SendsOne(names: Names, db: Mir.SummaryDatabase, s: Mir.Statement, p: Sending) {
    exists x :: Sends(db, s, x, p.1) && Is(names, x, p.0)
  }

  ghost predicate ReturnsOne(names: Names, terminator: Mir.Terminator, p: Sending) {
    p.1 == ReturnEscape && exists x :: Returns(terminator, x) && Is(names, x, p.0)
  }

  ghost predicate TiesSome(names: Names, db: Mir.SummaryDatabase, statements: seq<Mir.Statement>, p: Tie) {
    exists s :: s in statements && TiesOne(names, db, s, p.0, p.1)
  }

  ghost predicate SendsSome(names: Names, db: Mir.SummaryDatabase, statements: seq<Mir.Statement>, p: Sending) {
    exists s :: s in statements && SendsOne(names, db, s, p)
  }

  ghost predicate BlockSends(names: Names, db: Mir.SummaryDatabase, block: Mir.BasicBlock, p: Sending) {
    || SendsSome(names, db, block.statements, p)
    || (block.terminator.Some? && ReturnsOne(names, block.terminator.value, p))
  }

  ghost predicate IsTie(names: Names, db: Mir.SummaryDatabase, blocks: seq<Mir.BasicBlock>, p: Tie) {
    exists block :: block in blocks && TiesSome(names, db, block.statements, p)
  }

  ghost predicate IsSending(names: Names, db: Mir.SummaryDatabase, blocks: seq<Mir.BasicBlock>, p: Sending) {
    exists block :: block in blocks && BlockSends(names, db, block, p)
  }

  /** The pairs of variables between which a statement of the function lets something flow. */
  ghost function Ties(names: Names, db: Mir.SummaryDatabase, blocks: seq<Mir.BasicBlock>): iset<Tie> {
    iset p | IsTie(names, db, blocks, p)
  }

  /** The variables a statement or a return of the function lets escape, and how far. */
  ghost function Sendings(names: Names, db: Mir.SummaryDatabase, blocks: seq<Mir.BasicBlock>): iset<Sending> {
    iset p | IsSending(names, db, blocks, p)
  }

  // ---- Building a graph from them -----------------------------------------

  ghost predicate IsRoot(marks: Cache, sends: iset<Sending>, v: VariableId) {
    StateOf(marks, v) != NoEscape || exists s :: (v, s) in sends
  }

  ghost predicate Rooted(a: AnalysisState, b: AnalysisState, sends: iset<Sending>, v: VariableId) {
    exists w :: Connected(b.graph, v, w) && IsRoot(a.marks, sends, w)
  }

  /**
   * From `a` to `b` exactly the ties have become adjacent, everything sent has been marked, and every mark is connected
   * to something that was marked before or has been sent.
   */
  ghost predicate Built(a: AnalysisState, b: AnalysisState, ties: iset<Tie>, sends: iset<Sending>) {
    && (forall u, v :: Adjacent(b.graph, u, v) <==> Adjacent(a.graph, u, v) || (u, v) in ties || (v, u) in ties)
    && CacheLeq(a.marks, b.marks)
    && (forall p :: p in sends ==> p.1.Leq(StateOf(b.marks, p.0)))
    && (forall v :: StateOf(b.marks, v) != NoEscape ==> Rooted(a, b, sends, v))
  }

  lemma SamePaths(a: AnalysisState, b: AnalysisState, u: VariableId, v: VariableId)
    requires Connected(a.graph, u, v) && forall x, y :: Adjacent(a.graph, x, y) ==> Adjacent(b.graph, x, y)
    ensures Connected(b.graph, u, v)
  {
    hide Adjacent;
    var path :| IsPath(a.graph, path, u, v);
    assert IsPath(b.graph, path, u, v);
  }

  lemma BuiltTwice(a: AnalysisState, b: AnalysisState, c: AnalysisState, ties: iset<Tie>, sends: iset<Sending>,
                   ties': iset<Tie>, sends': iset<Sending>)
    requires Built(a, b, ties, sends) && Built(b, c, ties', sends')
    ensures Built(a, c, ties + ties', sends + sends')
  {
    hide Adjacent, Connected;
    forall v | StateOf(c.marks, v) != NoEscape ensures Rooted(a, c, sends + sends', v) {
      var w :| Connected(c.graph, v, w) && IsRoot(b.marks, sends', w);
      if StateOf(b.marks, w) != NoEscape {
        var x :| Connected(b.graph, w, x) && IsRoot(a.marks, sends, x);
        SamePaths(b, c, w, x);
        ConnectedTransitive(c.graph, v, w, x);
        assert IsRoot(a.marks, sends + sends', x);
      } else {
        assert IsRoot(a.marks, sends + sends', w);
      }
    }
    forall p | p in sends + sends' ensures p.1.Leq(StateOf(c.marks, p.0)) {
      assert StateOf(b.marks, p.0).Leq(StateOf(c.marks, p.0));
    }
    forall v ensures StateOf(a.marks, v).Leq(StateOf(c.marks, v)) {
      assert StateOf(a.marks, v).Leq(StateOf(b.marks, v)) && StateOf(b.marks, v).Leq(StateOf(c.marks, v));
    }
  }

  lemma BuiltSelf(st: AnalysisState)
    ensures Built(st, st, iset{}, iset{})
  {
    forall v | StateOf(st.marks, v) != NoEscape ensures Rooted(st, st, iset{}, v) {
      ConnectedSelf(st.graph, v);
      assert IsRoot(st.marks, iset{}, v);
    }
  }

  /** The edges a statement adds join exactly what it moves. */
  lemma FlowsTie(info: InfoMap, names: Names, db: Mir.SummaryDatabase, fieldHash: string -> nat, s: Mir.Statement,
                 u: VariableId, v: VariableId)
    ensures (exists e :: AddsFlow(info, names, db, fieldHash, s, Flow(u, v, e))) <==> TiesOne(names, db, s, u, v)
  {
    hide Is;
    if e :| AddsFlow(info, names, db, fieldHash, s, Flow(u, v, e)) {
      match s
      case Assign(t, x) => assert Moves(db, s, if x.Reference? then x.value else x, t);
      case FieldAccess(t, o, _) => assert Moves(db, s, o, t);
      case FieldAssign(o, _, x) => assert Moves(db, s, x, o);
      case BinaryOp(t, l, r) => assert Moves(db, s, l, t) && Moves(db, s, r, t);
      case Call(result, callee, args) =>
        assert Moves(db, s, args[db.Get(Mir.CalleeId(callee)).value.source.index], result.value);
    }
    if TiesOne(names, db, s, u, v) {
      var e := match s
        case Assign(_, x) => if x.Reference? then WeightedEdge(DirectAssignment, EdgeWeight.AddressOf) else COPY
        case FieldAccess(_, _, field) => WeightedEdge(DependencyEdge.FieldAccess(fieldHash(field)), Identity)
        case FieldAssign(_, _, _) =>
          if InfoOf(info, v).state == NoEscape then COPY else WeightedEdge(HeapStore, Identity)
        case _ => COPY;
      assert AddsFlow(info, names, db, fieldHash, s, Flow(u, v, e));
    }
  }

  /** The edges after a statement join what they joined before and what the statement ties. */
  lemma StatementTies(st: AnalysisState, db: Mir.SummaryDatabase, fieldHash: string -> nat, s: Mir.Statement,
                      names: Names, u: VariableId, v: VariableId)
    requires Gains(st, AfterStatement(st, db, fieldHash, s), StatementEffect(st.info, names, db, fieldHash, s))
    ensures Adjacent(AfterStatement(st, db, fieldHash, s).graph, u, v) <==>
            Adjacent(st.graph, u, v) || TiesOne(names, db, s, u, v) || TiesOne(names, db, s, v, u)
  {
    hide TiesOne, AddsFlow, AddsMark, AfterStatement;
    FlowsTie(st.info, names, db, fieldHash, s, u, v);
    FlowsTie(st.info, names, db, fieldHash, s, v, u);
    GainsAdjacent(st, AfterStatement(st, db, fieldHash, s), StatementEffect(st.info, names, db, fieldHash, s), u, v);
  }

  lemma GainsAdjacent(a: AnalysisState, b: AnalysisState, e: Effect, u: VariableId, v: VariableId)
    requires Gains(a, b, e)
    ensures Adjacent(b.graph, u, v) <==>
            Adjacent(a.graph, u, v) || (exists w :: Flow(u, v, w) in e.flows) || (exists w :: Flow(v, u, w) in e.flows)
  {
    forall w
      ensures (v, w) in Edges(b.graph.forward, u) <==> (v, w) in Edges(a.graph.forward, u) || Flow(u, v, w) in e.flows
      ensures (v, w) in Edges(b.graph.backward, u) <==>
              (v, w) in Edges(a.graph.backward, u) || Flow(v, u, w) in e.flows
    {
      var p := (v, w);
      assert p.0 == v && p.1 == w;
    }
  }

  /** What a statement sends it marks; its other escaping marks are stores into objects that escape already. */
  lemma MarksSend(info: InfoMap, names: Names, db: Mir.SummaryDatabase, s: Mir.Statement)
    ensures forall p :: SendsOne(names, db, s, p) ==>
              p.1 != NoEscape && exists point :: AddsMark(info, names, db, s, Mark(p.0, p.1, point))
    ensures forall m :: AddsMark(info, names, db, s, m) && m.state != NoEscape ==>
              || SendsOne(names, db, s, (m.variable, m.state))
              || (exists o :: TiesOne(names, db, s, m.variable, o) && InfoOf(info, o).state != NoEscape)
  {
    hide Is;
    forall p | SendsOne(names, db, s, p)
      ensures p.1 != NoEscape && exists point :: AddsMark(info, names, db, s, Mark(p.0, p.1, point))
    {
      SentIsMarked(info, names, db, s, p);
    }
    forall m | AddsMark(info, names, db, s, m) && m.state != NoEscape && !SendsOne(names, db, s, (m.variable, m.state))
      ensures exists o :: TiesOne(names, db, s, m.variable, o) && InfoOf(info, o).state != NoEscape
    {
      MarkIsSent(info, names, db, s, m);
    }
  }

  lemma SentIsMarked(info: InfoMap, names: Names, db: Mir.SummaryDatabase, s: Mir.Statement, p: Sending)
    requires SendsOne(names, db, s, p)
    ensures p.1 != NoEscape && exists point :: AddsMark(info, names, db, s, Mark(p.0, p.1, point))
  {
    hide Is;
    var x :| Sends(db, s, x, p.1) && Is(names, x, p.0);
    if s.Allocate? {
      assert AddsMark(info, names, db, s, Mark(p.0, p.1, HeapFieldStore(p.0, "alloc")));
    } else {
      var id := Mir.CalleeId(s.callee);
      if i :| 0 <= i < |s.args| && s.args[i] == x && CallGives(db.Get(id), i, p.1) {
        var m := Mark(p.0, p.1, EscapePoint.FunctionArgument(id, i));
        assert MarksArgument(names, db.Get(id), id, s.args, i, m);
        assert AddsMark(info, names, db, s, m);
      } else {
        assert AddsMark(info, names, db, s, Mark(p.0, p.1, EscapePoint.FunctionReturn(id)));
      }
    }
  }

  lemma MarkIsSent(info: InfoMap, names: Names, db: Mir.SummaryDatabase, s: Mir.Statement, m: Mark)
    requires AddsMark(info, names, db, s, m) && m.state != NoEscape
    ensures || SendsOne(names, db, s, (m.variable, m.state))
            || (exists o :: TiesOne(names, db, s, m.variable, o) && InfoOf(info, o).state != NoEscape)
  {
    hide Is;
    match s
    case FieldAssign(object_, _, value) =>
      assert Moves(db, s, value, object_);
      assert TiesOne(names, db, s, m.variable, m.point.object_);
    case Allocate(target) => assert Sends(db, s, target, m.state);
    case Call(result, callee, args) =>
      var id := Mir.CalleeId(callee);
      if i :| 0 <= i < |args| && MarksArgument(names, db.Get(id), id, args, i, m) {
        assert Sends(db, s, args[i], m.state);
      } else {
        assert Sends(db, s, result.value, m.state);
      }
  }

  ghost function OneTie(names: Names, db: Mir.SummaryDatabase, s: Mir.Statement): iset<Tie> {
    iset p: Tie | TiesOne(names, db, s, p.0, p.1)
  }

  ghost function OneSending(names: Names, db: Mir.SummaryDatabase, s: Mir.Statement): iset<Sending> {
    iset p: Sending | SendsOne(names, db, s, p)
  }

  lemma SentIsRaised(a: AnalysisState, b: AnalysisState, e: Effect, names: Names, db: Mir.SummaryDatabase,
                     s: Mir.Statement, p: Sending)
    requires Gains(a, b, e) && e.marks == iset m | AddsMark(a.info, names, db, s, m)
    requires SendsOne(names, db, s, p)
    ensures p.1.Leq(StateOf(b.marks, p.0))
  {
    hide SendsOne, AddsMark;
    MarksSend(a.info, names, db, s);
    var point :| AddsMark(a.info, names, db, s, Mark(p.0, p.1, point));
    assert Mark(p.0, p.1, point) in e.marks;
    assert Raised(StateOf(a.marks, p.0), StateOf(b.marks, p.0), e.marks, p.0);
  }

  lemma MarkedIsRooted(a: AnalysisState, b: AnalysisState, e: Effect, names: Names, db: Mir.SummaryDatabase,
                       s: Mir.Statement, v: VariableId)
    requires Sound(a) && Gains(a, b, e) && e.marks == iset m | AddsMark(a.info, names, db, s, m)
    requires StateOf(b.marks, v) != NoEscape
    requires forall x, y :: Adjacent(a.graph, x, y) || TiesOne(names, db, s, x, y) ==> Adjacent(b.graph, x, y)
    ensures Rooted(a, b, OneSending(names, db, s), v)
  {
    hide SendsOne, TiesOne, AddsMark, Adjacent, Connected, Sound;
    var sends := OneSending(names, db, s);
    assert Raised(StateOf(a.marks, v), StateOf(b.marks, v), e.marks, v);
    hide Gains;
    ConnectedSelf(b.graph, v);
    if StateOf(a.marks, v) != NoEscape {
      assert IsRoot(a.marks, sends, v);
    } else {
      var m :| m in e.marks && m.variable == v && m.state == StateOf(b.marks, v);
      MarksSend(a.info, names, db, s);
      if SendsOne(names, db, s, (v, m.state)) {
        assert (v, m.state) in sends;
        assert IsRoot(a.marks, sends, v);
      } else {
        var o :| TiesOne(names, db, s, v, o) && InfoOf(a.info, o).state != NoEscape;
        StoredIsRooted(a, b, sends, v, o);
      }
    }
  }

  lemma StatementBuilds(st: AnalysisState, db: Mir.SummaryDatabase, fieldHash: string -> nat, s: Mir.Statement,
                        names: Names)
    requires Sound(st) && NamesKept(AfterStatement(st, db, fieldHash, s).names, names)
    ensures Built(st, AfterStatement(st, db, fieldHash, s), OneTie(names, db, s), OneSending(names, db, s))
  {
    hide Gains, AfterStatement, TiesOne, SendsOne, AddsFlow, AddsMark, Adjacent, Rooted, Sound;
    var next := AfterStatement(st, db, fieldHash, s);
    var e := StatementEffect(st.info, names, db, fieldHash, s);
    StatementGains(st, db, fieldHash, s, names);
    forall u, v
      ensures Adjacent(next.graph, u, v) <==>
              Adjacent(st.graph, u, v) || TiesOne(names, db, s, u, v) || TiesOne(names, db, s, v, u)
    {
      StatementTies(st, db, fieldHash, s, names, u, v);
    }
    forall p | p in OneSending(names, db, s) ensures p.1.Leq(StateOf(next.marks, p.0)) {
      SentIsRaised(st, next, e, names, db, s, p);
    }
    forall v | StateOf(next.marks, v) != NoEscape ensures Rooted(st, next, OneSending(names, db, s), v) {
      MarkedIsRooted(st, next, e, names, db, s, v);
    }
    forall v ensures StateOf(st.marks, v).Leq(StateOf(next.marks, v)) {
      GainsMarks(st, next, e, v);
    }
  }

  lemma GainsMarks(a: AnalysisState, b: AnalysisState, e: Effect, v: VariableId)
    requires Gains(a, b, e)
    ensures Raised(StateOf(a.marks, v), StateOf(b.marks, v), e.marks, v)
    ensures StateOf(a.marks, v).Leq(StateOf(b.marks, v))
  {
  }

  /** Whatever is stored into an escaping object is connected to an old mark. */
  lemma StoredIsRooted(st: AnalysisState, next: AnalysisState, sends: iset<Sending>, v: VariableId, o: VariableId)
    requires Sound(st) && InfoOf(st.info, o).state != NoEscape && Adjacent(next.graph, v, o)
    requires forall x, y :: Adjacent(st.graph, x, y) ==> Adjacent(next.graph, x, y)
    ensures Rooted(st, next, sends, v)
  {
    hide Adjacent, Connected, Mirrored;
    assert InfoOf(st.info, o).state.Leq(ComponentJoin(st.graph, st.marks, o));
    JoinNoEscapeIff(st.graph, st.marks, o);
    var w :| Connected(st.graph, o, w) && StateOf(st.marks, w) != NoEscape;
    SamePaths(st, next, o, w);
    ConnectedSelf(next.graph, v);
    ConnectedStep(next.graph, v, v, o);
    ConnectedTransitive(next.graph, v, o, w);
    assert IsRoot(st.marks, sends, w);
  }

  // ---- Whole functions ------------------------------------------------------

  lemma BuiltSame(a: AnalysisState, b: AnalysisState, ties: iset<Tie>, sends: iset<Sending>, ties': iset<Tie>,
                  sends': iset<Sending>)
    requires Built(a, b, ties, sends) && ties == ties' && sends == sends'
    ensures Built(a, b, ties', sends')
  {
  }

  ghost function SomeTies(names: Names, db: Mir.SummaryDatabase, statements: seq<Mir.Statement>): iset<Tie> {
    iset p: Tie | TiesSome(names, db, statements, p)
  }

  ghost function SomeSendings(names: Names, db: Mir.SummaryDatabase, statements: seq<Mir.Statement>): iset<Sending> {
    iset p: Sending | SendsSome(names, db, statements, p)
  }

  ghost function BlockSendings(names: Names, db: Mir.SummaryDatabase, block: Mir.BasicBlock): iset<Sending> {
    iset p: Sending | BlockSends(names, db, block, p)
  }

  lemma OneMoreStatement(names: Names, db: Mir.SummaryDatabase, statements: seq<Mir.Statement>, s: Mir.Statement)
    ensures SomeTies(names, db, statements + [s]) == SomeTies(names, db, statements) + OneTie(names, db, s)
    ensures SomeSendings(names, db, statements + [s]) == SomeSendings(names, db, statements) + OneSending(names, db, s)
  {
    hide TiesOne, SendsOne;
  }

  lemma {:induction false} StatementsBuild(st: AnalysisState, db: Mir.SummaryDatabase, fieldHash: string -> nat,
                                           statements: seq<Mir.Statement>, names: Names)
    requires Sound(st) && NamesKept(AfterStatements(st, db, fieldHash, statements).names, names)
    ensures Built(st, AfterStatements(st, db, fieldHash, statements), SomeTies(names, db, statements),
                SomeSendings(names, db, statements))
    ensures NamesKept(st.names, names)
  {
    hide Built, AfterStatement, Sound, NamesKept, Gains, Grows;
    if statements == [] {
      BuiltSelf(st);
      BuiltSame(st, st, iset{}, iset{}, SomeTies(names, db, []), SomeSendings(names, db, []));
    } else {
      var n := |statements| - 1;
      var s := statements[n];
      var st1 := AfterStatements(st, db, fieldHash, statements[..n]);
      var next := AfterStatement(st1, db, fieldHash, s);
      StatementGains(st1, db, fieldHash, s, names);
      GainsKeepNames(st1, next, StatementEffect(st1.info, names, db, fieldHash, s), names);
      StatementsFollow(st, db, fieldHash, statements[..n]);
      StatementsBuild(st, db, fieldHash, statements[..n], names);
      StatementBuilds(st1, db, fieldHash, s, names);
      BuiltTwice(st, st1, next, SomeTies(names, db, statements[..n]), SomeSendings(names, db, statements[..n]),
                 OneTie(names, db, s), OneSending(names, db, s));
      assert statements == statements[..n] + [s];
      OneMoreStatement(names, db, statements[..n], s);
    }
  }

  ghost function ReturnSendings(names: Names, terminator: Mir.Terminator): iset<Sending> {
    iset p: Sending | ReturnsOne(names, terminator, p)
  }

  lemma TerminatorBuilds(st: AnalysisState, current: FunctionId, terminator: Mir.Terminator, names: Names)
    requires NamesKept(AfterTerminator(st, current, terminator).names, names)
    ensures Built(st, AfterTerminator(st, current, terminator), iset{}, ReturnSendings(names, terminator))
    ensures NamesKept(st.names, names)
  {
    var next := AfterTerminator(st, current, terminator);
    var e := TerminatorEffect(names, current, terminator);
    var sends := ReturnSendings(names, terminator);
    TerminatorGains(st, current, terminator, names);
    GainsKeepNames(st, next, e, names);
    hide Gains, AfterTerminator, Adjacent, Connected, NamesKept, Is, Returns;
    forall u, v ensures Adjacent(next.graph, u, v) <==> Adjacent(st.graph, u, v) {
      GainsAdjacent(st, next, e, u, v);
    }
    forall v ensures Raised(StateOf(st.marks, v), StateOf(next.marks, v), e.marks, v) {
      GainsMarks(st, next, e, v);
    }
    forall p | p in sends ensures p.1.Leq(StateOf(next.marks, p.0)) {
      assert Mark(p.0, ReturnEscape, EscapePoint.FunctionReturn(current)) in e.marks;
    }
    forall v | StateOf(next.marks, v) != NoEscape ensures Rooted(st, next, sends, v) {
      ConnectedSelf(next.graph, v);
      if StateOf(st.marks, v) == NoEscape {
        assert (v, ReturnEscape) in sends;
      }
      assert IsRoot(st.marks, sends, v);
    }
  }

  lemma BlockBuilds(st: AnalysisState, db: Mir.SummaryDatabase, fieldHash: string -> nat, current: FunctionId,
                    block: Mir.BasicBlock, names: Names)
    requires Sound(st) && NamesKept(AfterBlock(st, db, fieldHash, current, block).names, names)
    ensures Built(st, AfterBlock(st, db, fieldHash, current, block), SomeTies(names, db, block.statements),
                BlockSendings(names, db, block))
    ensures NamesKept(st.names, names)
  {
    hide Built, AfterStatements, AfterTerminator, Sound, NamesKept, TiesSome, SendsSome, ReturnsOne;
    var st1 := AfterStatements(st, db, fieldHash, block.statements);
    var ties, sends := SomeTies(names, db, block.statements), SomeSendings(names, db, block.statements);
    if block.terminator.Some? {
      var t := block.terminator.value;
      TerminatorBuilds(st1, current, t, names);
      StatementsBuild(st, db, fieldHash, block.statements, names);
      BuiltTwice(st, st1, AfterTerminator(st1, current, t), ties, sends, iset{}, ReturnSendings(names, t));
      BuiltSame(st, AfterTerminator(st1, current, t), ties + iset{}, sends + ReturnSendings(names, t), ties,
                BlockSendings(names, db, block));
    } else {
      StatementsBuild(st, db, fieldHash, block.statements, names);
      BuiltSame(st, st1, ties, sends, ties, BlockSendings(names, db, block));
    }
  }

  lemma OneMoreBlock(names: Names, db: Mir.SummaryDatabase, blocks: seq<Mir.BasicBlock>, block: Mir.BasicBlock)
    ensures Ties(names, db, blocks + [block]) == Ties(names, db, blocks) + SomeTies(names, db, block.statements)
    ensures Sendings(names, db, blocks + [block]) == Sendings(names, db, blocks) + BlockSendings(names, db, block)
  {
    hide TiesSome, BlockSends;
  }

  /**
   * Building a function's graph makes exactly those variables adjacent between which its statements let something flow,
   * and marks what its statements and returns let escape; every mark is connected to something that escapes like that
   * or did before.
   */
  lemma {:induction false} BlocksBuild(st: AnalysisState, db: Mir.SummaryDatabase, fieldHash: string -> nat,
                                       current: FunctionId, blocks: seq<Mir.BasicBlock>, names: Names)
    requires Sound(st) && NamesKept(AfterBlocks(st, db, fieldHash, current, blocks).names, names)
    ensures Built(st, AfterBlocks(st, db, fieldHash, current, blocks), Ties(names, db, blocks),
                Sendings(names, db, blocks))
    ensures NamesKept(st.names, names)
  {
    hide Built, AfterBlock, Sound, NamesKept, Grows;
    if blocks == [] {
      BuiltSelf(st);
      BuiltSame(st, st, iset{}, iset{}, Ties(names, db, []), Sendings(names, db, []));
    } else {
      var n := |blocks| - 1;
      var st1 := AfterBlocks(st, db, fieldHash, current, blocks[..n]);
      var next := AfterBlock(st1, db, fieldHash, current, blocks[n]);
      BlocksFollow(st, db, fieldHash, current, blocks[..n]);
      BlockBuilds(st1, db, fieldHash, current, blocks[n], names);
      BlocksBuild(st, db, fieldHash, current, blocks[..n], names);
      BuiltTwice(st, st1, next, Ties(names, db, blocks[..n]), Sendings(names, db, blocks[..n]),
                 SomeTies(names, db, blocks[n].statements), BlockSendings(names, db, blocks[n]));
      assert blocks == blocks[..n] + [blocks[n]];
      OneMoreBlock(names, db, blocks[..n], blocks[n]);
    }
  }

  /** A value some statement looks up, or a return lets escape. */
  ghost predicate IsUsed(blocks: seq<Mir.BasicBlock>, x: Mir.Value) {
    exists block :: block in blocks && UsedIn(block, x)
  }

  ghost predicate UsedIn(block: Mir.BasicBlock, x: Mir.Value) {
    || (exists s :: s in block.statements && x in Operands(s))
    || (block.terminator.Some? && Returns(block.terminator.value, x))
  }

  lemma {:induction false} StatementsName(st: AnalysisState, db: Mir.SummaryDatabase, fieldHash: string -> nat,
                                          statements: seq<Mir.Statement>, s: Mir.Statement, name: string)
    requires s in statements && Mir.Variable(name) in Operands(s)
    ensures name in AfterStatements(st, db, fieldHash, statements).names
  {
    hide AfterStatement, Operands, AddsFlow, AddsMark;
    var n := |statements| - 1;
    var st1 := AfterStatements(st, db, fieldHash, statements[..n]);
    var next := AfterStatement(st1, db, fieldHash, statements[n]);
    StatementGains(st1, db, fieldHash, statements[n], next.names);
    if s != statements[n] {
      StatementsName(st, db, fieldHash, statements[..n], s, name);
    }
  }

  lemma BlockNames(st: AnalysisState, db: Mir.SummaryDatabase, fieldHash: string -> nat, current: FunctionId,
                   block: Mir.BasicBlock, name: string)
    requires UsedIn(block, Mir.Variable(name))
    ensures name in AfterBlock(st, db, fieldHash, current, block).names
  {
    hide AfterStatements, AfterTerminator, Operands, Returns;
    var st1 := AfterStatements(st, db, fieldHash, block.statements);
    if block.terminator.Some? {
      var t := block.terminator.value;
      TerminatorGains(st1, current, t, AfterTerminator(st1, current, t).names);
    }
    if s :| s in block.statements && Mir.Variable(name) in Operands(s) {
      StatementsName(st, db, fieldHash, block.statements, s, name);
    }
  }

  /** Every variable a function uses is named afterwards. */
  lemma {:induction false} BlocksName(st: AnalysisState, db: Mir.SummaryDatabase, fieldHash: string -> nat,
                                      current: FunctionId, blocks: seq<Mir.BasicBlock>, name: string)
    requires IsUsed(blocks, Mir.Variable(name))
    ensures name in AfterBlocks(st, db, fieldHash, current, blocks).names
  {
    hide AfterBlock, UsedIn, Follows;
    var block :| block in blocks && UsedIn(block, Mir.Variable(name));
    var n := |blocks| - 1;
    var st1 := AfterBlocks(st, db, fieldHash, current, blocks[..n]);
    if block == blocks[n] {
      BlockNames(st1, db, fieldHash, current, blocks[n], name);
    } else {
      BlocksName(st, db, fieldHash, current, blocks[..n], name);
      BlockFollows(st1, db, fieldHash, current, blocks[n]);
      GrowsNames(st1, AfterBlock(st1, db, fieldHash, current, blocks[n]));
    }
  }

  lemma GrowsNames(a: AnalysisState, b: AnalysisState)
    requires Follows(a, b)
    ensures NamesKept(a.names, b.names)
  {
  }
}
