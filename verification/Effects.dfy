/**
 * What each statement, terminator and call site adds to the analysis, read off the syntax alone: which edges, which
 * marks and which names.  The analyzer adds exactly these.
 */
module Effects {
  import opened Wrappers
  import opened EscapeTypes
  import opened Propagation
  import opened VariableGraphs
  import opened AnalysisStates
  import Mir

  datatype Flow = Flow(from: VariableId, to: VariableId, edge: WeightedEdge)

  /** A state recorded for a variable, and the escape point recorded with it. */
  datatype Mark = Mark(variable: VariableId, state: EscapeState, point: EscapePoint)

  datatype Effect = Effect(flows: iset<Flow>, marks: iset<Mark>, names: iset<string>)

  ghost function Nothing(): Effect {
    Effect(iset{}, iset{}, iset{})
  }

  ghost function Plus(d: Effect, e: Effect): Effect {
    Effect(d.flows + e.flows, d.marks + e.marks, d.names + e.names)
  }

  // ---- What a state gains -------------------------------------------------

  /** `new` is the least upper bound of `old_` and the states recorded for `v`. */
  ghost predicate Raised(old_: EscapeState, new_: EscapeState, marks: iset<Mark>, v: VariableId) {
    && old_.Leq(new_)
    && (forall m :: m in marks && m.variable == v ==> m.state.Leq(new_))
    && (new_ == old_ || exists m :: m in marks && m.variable == v && m.state == new_)
  }

  ghost predicate PointAdded(marks: iset<Mark>, v: VariableId, point: EscapePoint) {
    exists m :: m in marks && m.variable == v && m.point == point
  }

  /** Different names stand for different variables, and none of them for one still to be handed out. */
  ghost predicate NamesApart(st: AnalysisState) {
    && (forall name :: name in st.names ==> st.names[name].id < st.nextId)
    && (forall x, y :: x in st.names && y in st.names && st.names[x] == st.names[y] ==> x == y)
  }

  ghost predicate GainsEdges(a: Graph, b: Graph, flows: iset<Flow>) {
    && (forall u, v, e :: (v, e) in Edges(b.forward, u) <==> (v, e) in Edges(a.forward, u) || Flow(u, v, e) in flows)
    && (forall u, v, e :: (u, e) in Edges(b.backward, v) <==> (u, e) in Edges(a.backward, v) || Flow(u, v, e) in flows)
  }

  ghost predicate GainsMarks(a: AnalysisState, b: AnalysisState, marks: iset<Mark>) {
    && (forall v :: Raised(StateOf(a.marks, v), StateOf(b.marks, v), marks, v))
    && (forall v :: Raised(InfoOf(a.info, v).state, InfoOf(b.info, v).state, marks, v))
  }

  ghost predicate GainsPoints(a: InfoMap, b: InfoMap, marks: iset<Mark>) {
    forall v, point :: point in InfoOf(b, v).points <==>
        point in InfoOf(a, v).points || PointAdded(marks, v, point)
  }

  ghost predicate GainsNames(a: AnalysisState, b: AnalysisState, names: iset<string>) {
    && (forall name :: name in b.names <==> name in a.names || name in names)
    && NamesKept(a.names, b.names)
    && (NamesApart(a) ==> NamesApart(b))
  }

  /** From `a` to `b` the edges, marks, points and names of `e` have been added, and nothing else. */
  ghost predicate Gains(a: AnalysisState, b: AnalysisState, e: Effect) {
    && GainsEdges(a.graph, b.graph, e.flows) && GainsMarks(a, b, e.marks) && GainsPoints(a.info, b.info, e.marks)
    && GainsNames(a, b, e.names)
  }

  lemma RaisedTwice(x: EscapeState, y: EscapeState, z: EscapeState, m: iset<Mark>, n: iset<Mark>, v: VariableId)
    requires Raised(x, y, m, v) && Raised(y, z, n, v)
    ensures Raised(x, z, m + n, v)
  {
  }

  lemma EdgesTwice(a: Graph, b: Graph, c: Graph, d: iset<Flow>, e: iset<Flow>)
    requires GainsEdges(a, b, d) && GainsEdges(b, c, e)
    ensures GainsEdges(a, c, d + e)
  {
    hide Edges;
  }

  lemma MarksTwice(a: AnalysisState, b: AnalysisState, c: AnalysisState, d: iset<Mark>, e: iset<Mark>)
    requires GainsMarks(a, b, d) && GainsMarks(b, c, e)
    ensures GainsMarks(a, c, d + e)
  {
    hide Raised, StateOf, InfoOf;
    forall v
      ensures Raised(StateOf(a.marks, v), StateOf(c.marks, v), d + e, v)
      ensures Raised(InfoOf(a.info, v).state, InfoOf(c.info, v).state, d + e, v)
    {
      RaisedTwice(StateOf(a.marks, v), StateOf(b.marks, v), StateOf(c.marks, v), d, e, v);
      RaisedTwice(InfoOf(a.info, v).state, InfoOf(b.info, v).state, InfoOf(c.info, v).state, d, e, v);
    }
  }

  lemma PointsTwice(a: InfoMap, b: InfoMap, c: InfoMap, d: iset<Mark>, e: iset<Mark>)
    requires GainsPoints(a, b, d) && GainsPoints(b, c, e)
    ensures GainsPoints(a, c, d + e)
  {
    hide PointAdded, InfoOf;
    forall v, point
      ensures point in InfoOf(c, v).points <==> point in InfoOf(a, v).points || PointAdded(d + e, v, point)
    {
      PointsOfSum(d, e, v, point);
    }
  }

  lemma NamesTwice(a: AnalysisState, b: AnalysisState, c: AnalysisState, d: iset<string>, e: iset<string>)
    requires GainsNames(a, b, d) && GainsNames(b, c, e)
    ensures GainsNames(a, c, d + e)
  {
    hide NamesApart;
  }

  lemma GainsTwice(a: AnalysisState, b: AnalysisState, c: AnalysisState, d: Effect, e: Effect)
    requires Gains(a, b, d) && Gains(b, c, e)
    ensures Gains(a, c, Plus(d, e))
  {
    hide GainsEdges, GainsMarks, GainsPoints, GainsNames;
    EdgesTwice(a.graph, b.graph, c.graph, d.flows, e.flows);
    MarksTwice(a, b, c, d.marks, e.marks);
    PointsTwice(a.info, b.info, c.info, d.marks, e.marks);
    NamesTwice(a, b, c, d.names, e.names);
  }

  lemma PointsOfSum(m: iset<Mark>, n: iset<Mark>, v: VariableId, point: EscapePoint)
    ensures PointAdded(m + n, v, point) <==> PointAdded(m, v, point) || PointAdded(n, v, point)
  {
  }

  /** Steps that keep names one after the other keep them together. */
  lemma NamesKeptTwice(a: Names, b: Names, c: Names)
    requires NamesKept(a, b) && NamesKept(b, c)
    ensures NamesKept(a, c)
  {
  }

  lemma GainsKeepNames(a: AnalysisState, b: AnalysisState, e: Effect, names: Names)
    requires Gains(a, b, e) && NamesKept(b.names, names)
    ensures NamesKept(a.names, names)
  {
    NamesKeptTwice(a.names, b.names, names);
  }

  lemma GainsNothing(st: AnalysisState)
    ensures Gains(st, st, Nothing())
  {
  }

  /** An effect written differently is the same effect. */
  lemma GainsSame(a: AnalysisState, b: AnalysisState, d: Effect, e: Effect)
    requires Gains(a, b, d) && d == e
    ensures Gains(a, b, e)
  {
  }

  // ---- Single steps -------------------------------------------------------

  /** The value stands for variable `v` once `names` are known. */
  predicate Is(names: Names, value: Mir.Value, v: VariableId) {
    || (value.Variable? && value.name in names && names[value.name] == v)
    || (value.Temp? && v == VariableId(value.id))
  }

  ghost function NamesOf(value: Mir.Value): iset<string> {
    iset name | value == Mir.Variable(name)
  }

  ghost function Naming(value: Mir.Value): Effect {
    Effect(iset{}, iset{}, NamesOf(value))
  }

  /** Looking up a variable names it and adds nothing else; later names do not change what it stands for. */
  lemma ResolveGains(st: AnalysisState, value: Mir.Value, names: Names)
    requires NamesKept(Resolve(st, value).0.names, names)
    ensures Gains(st, Resolve(st, value).0, Naming(value))
    ensures forall v :: Is(names, value, v) <==> Resolve(st, value).1 == Some(v)
  {
    hide NamesApart, Gains;
    if NamesApart(st) {
      ResolveKeepsApart(st, value);
    }
    OnlyNames(st, Resolve(st, value).0, NamesOf(value));
  }

  lemma OnlyNames(a: AnalysisState, b: AnalysisState, added: iset<string>)
    requires b.graph == a.graph && b.info == a.info && b.marks == a.marks && NamesKept(a.names, b.names)
    requires (forall name :: name in b.names <==> name in a.names || name in added) && (NamesApart(a) ==> NamesApart(b))
    ensures Gains(a, b, Effect(iset{}, iset{}, added))
  {
    hide NamesApart, NamesKept, InfoOf, StateOf, Edges;
  }

  lemma ResolveKeepsApart(st: AnalysisState, value: Mir.Value)
    requires NamesApart(st)
    ensures NamesApart(Resolve(st, value).0)
  {
  }

  /** Two lookups, in the order in which the variables are numbered. */
  lemma ResolveTwiceGains(st: AnalysisState, x: Mir.Value, y: Mir.Value, names: Names)
    requires NamesKept(Resolve(Resolve(st, x).0, y).0.names, names)
    ensures Gains(st, Resolve(Resolve(st, x).0, y).0, Effect(iset{}, iset{}, NamesOf(x) + NamesOf(y)))
    ensures forall v :: Is(names, x, v) <==> Resolve(st, x).1 == Some(v)
    ensures forall v :: Is(names, y, v) <==> Resolve(Resolve(st, x).0, y).1 == Some(v)
  {
    hide Gains;
    var st1 := Resolve(st, x).0;
    var st2 := Resolve(st1, y).0;
    assert NamesKept(st1.names, st2.names);
    ResolveGains(st, x, names);
    ResolveGains(st1, y, names);
    GainsTwice(st, st1, st2, Naming(x), Naming(y));
    GainsSame(st, st2, Plus(Naming(x), Naming(y)), Effect(iset{}, iset{}, NamesOf(x) + NamesOf(y)));
  }

  lemma EdgeGains(st: AnalysisState, from: VariableId, to: VariableId, edge: WeightedEdge)
    ensures Gains(st, WithEdge(st, from, to, edge), Effect(iset{Flow(from, to, edge)}, iset{}, iset{}))
  {
    var st' := WithEdge(st, from, to, edge);
    forall u, v, e
      ensures (v, e) in Edges(st'.graph.forward, u) <==>
              (v, e) in Edges(st.graph.forward, u) || Flow(u, v, e) in iset{Flow(from, to, edge)}
      ensures (u, e) in Edges(st'.graph.backward, v) <==>
              (u, e) in Edges(st.graph.backward, v) || Flow(u, v, e) in iset{Flow(from, to, edge)}
    {
      InsertedEdges(st.graph, from, to, edge, u, (v, e));
      InsertedEdges(st.graph, from, to, edge, v, (u, e));
    }
  }

  lemma MarkGains(st: AnalysisState, v: VariableId, s: EscapeState, point: EscapePoint)
    ensures Gains(st, WithMark(st, v, s, point), Effect(iset{}, iset{Mark(v, s, point)}, iset{}))
  {
    var st', marks := WithMark(st, v, s, point), iset{Mark(v, s, point)};
    hide PointAdded;
    MarkRaises(st, v, s, point);
    forall u, p
      ensures p in InfoOf(st'.info, u).points <==> p in InfoOf(st.info, u).points || PointAdded(marks, u, p)
    {
      MarkAddsPoint(st, v, s, point, u, p);
    }
  }

  lemma MarkRaises(st: AnalysisState, v: VariableId, s: EscapeState, point: EscapePoint)
    ensures forall u :: Raised(StateOf(st.marks, u), StateOf(WithMark(st, v, s, point).marks, u),
                          iset{Mark(v, s, point)}, u)
    ensures forall u :: Raised(InfoOf(st.info, u).state, InfoOf(WithMark(st, v, s, point).info, u).state,
                          iset{Mark(v, s, point)}, u)
  {
    assert Mark(v, s, point) in iset{Mark(v, s, point)};
  }

  lemma MarkAddsPoint(st: AnalysisState, v: VariableId, s: EscapeState, point: EscapePoint, u: VariableId,
                      p: EscapePoint)
    ensures p in InfoOf(WithMark(st, v, s, point).info, u).points <==>
            p in InfoOf(st.info, u).points || PointAdded(iset{Mark(v, s, point)}, u, p)
  {
    assert Mark(v, s, point) in iset{Mark(v, s, point)};
  }

  /** The mark a value gets, if it stands for a variable at all. */
  ghost function MarksOf(names: Names, value: Mir.Value, s: EscapeState, point: EscapePoint): iset<Mark> {
    iset m: Mark | Is(names, value, m.variable) && m.state == s && m.point == point
  }

  /** A value is looked up and, if it is a variable, marked. */
  lemma ResolveMarkGains(st: AnalysisState, value: Mir.Value, s: EscapeState, point: EscapePoint, names: Names)
    requires NamesKept(Resolve(st, value).0.names, names)
    ensures var (st1, id) := Resolve(st, value);
            Gains(st, if id.Some? then WithMark(st1, id.value, s, point) else st1,
                Effect(iset{}, MarksOf(names, value, s, point), NamesOf(value)))
  {
    hide Gains;
    var (st1, id) := Resolve(st, value);
    ResolveGains(st, value, names);
    hide Is, WithMark;
    if id.Some? {
      var marked := Effect(iset{}, iset{Mark(id.value, s, point)}, iset{});
      MarkGains(st1, id.value, s, point);
      GainsTwice(st, st1, WithMark(st1, id.value, s, point), Naming(value), marked);
      assert MarksOf(names, value, s, point) == iset{Mark(id.value, s, point)};
      assert Plus(Naming(value), marked) == Effect(iset{}, MarksOf(names, value, s, point), NamesOf(value));
    } else {
      assert MarksOf(names, value, s, point) == iset{};
    }
  }

  lemma InfoGains(st: AnalysisState, v: VariableId)
    ensures Gains(st, WithInfo(st, v), Nothing())
  {
  }

  /** Taking an address leaves an escape point but raises no state. */
  lemma AddressTakenGains(st: AnalysisState, v: VariableId)
    ensures Gains(st, WithAddressTaken(st, v),
                Effect(iset{}, iset{Mark(v, NoEscape, EscapePoint.AddressOf(v))}, iset{}))
  {
  }

  // ---- What the syntax asks for --------------------------------------------

  predicate Runs(names: Names, source: Mir.Value, target: Mir.Value, edge: WeightedEdge, f: Flow) {
    Is(names, source, f.from) && Is(names, target, f.to) && f.edge == edge
  }

  predicate IsVariable(value: Mir.Value) {
    value.Variable? || value.Temp?
  }

  /** What an assignment lets flow. */
  const COPY := WeightedEdge(DirectAssignment, Identity)

  /** The callee is known to return one of its arguments. */
  predicate ReturnsParameter(summary: Option<Mir.FunctionSummary>, args: seq<Mir.Value>) {
    summary.Some? && summary.value.source.FromParameter? && summary.value.source.index < |args|
  }

  /** The edges of one statement.  A value stored into a field runs into the object, as a heap store if that escapes. */
  predicate AddsFlow(info: InfoMap, names: Names, db: Mir.SummaryDatabase, fieldHash: string -> nat,
                     s: Mir.Statement, f: Flow) {
    match s
    case Assign(target, source) =>
      if source.Reference? then
        Runs(names, source.value, target, WeightedEdge(DirectAssignment, EdgeWeight.AddressOf), f)
      else Runs(names, source, target, COPY, f)
    case FieldAccess(target, object_, field) =>
      Runs(names, object_, target, WeightedEdge(DependencyEdge.FieldAccess(fieldHash(field)), Identity), f)
    case FieldAssign(object_, _, value) =>
      Runs(names, value, object_,
           if InfoOf(info, f.to).state == NoEscape then COPY else WeightedEdge(HeapStore, Identity), f)
    case BinaryOp(target, left, right) => Runs(names, left, target, COPY, f) || Runs(names, right, target, COPY, f)
    case Call(result, callee, args) =>
      ReturnsParameter(db.Get(Mir.CalleeId(callee)), args) && result.Some?
      && Runs(names, args[db.Get(Mir.CalleeId(callee)).value.source.index], result.value, COPY, f)
    case Allocate(_) => false
    case OtherStatement => false
  }

  /** The state a parameter's tag gives to the argument; a parameter that does not escape gives none. */
  predicate TagGives(tag: Mir.ParameterTag, s: EscapeState) {
    match s
    case NoEscape => false
    case ArgEscape => tag.EscapeViaCall?
    case ReturnEscape => tag.EscapeViaReturn?
    case GlobalEscape => tag.EscapeViaHeapStore? || tag.UnknownTag?
  }

  /** What a call does to its argument `index`: without a summary it escapes as an argument. */
  predicate CallGives(summary: Option<Mir.FunctionSummary>, index: nat, s: EscapeState) {
    if summary.None? then s == ArgEscape
    else index < |summary.value.tags| && TagGives(summary.value.tags[index], s)
  }

  predicate MarksArgument(names: Names, summary: Option<Mir.FunctionSummary>, callee: FunctionId, args: seq<Mir.Value>,
                          i: nat, m: Mark) {
    && i < |args| && Is(names, args[i], m.variable) && CallGives(summary, i, m.state)
    && m.point == EscapePoint.FunctionArgument(callee, i)
  }

  ghost predicate MarksSomeArgument(names: Names, summary: Option<Mir.FunctionSummary>, callee: FunctionId,
                                    args: seq<Mir.Value>, index: nat, m: Mark) {
    exists i :: index <= i < |args| && MarksArgument(names, summary, callee, args, i, m)
  }

  /** Without a summary, or with one that says so, the result of a call is newly allocated. */
  predicate ResultIsNew(summary: Option<Mir.FunctionSummary>) {
    summary.Some? ==> summary.value.source.LocalAllocation?
  }

  predicate MarksResult(names: Names, summary: Option<Mir.FunctionSummary>, callee: FunctionId,
                        result: Option<Mir.Value>, m: Mark) {
    && result.Some? && ResultIsNew(summary) && Is(names, result.value, m.variable)
    && m.state == ReturnEscape && m.point == EscapePoint.FunctionReturn(callee)
  }

  /** The marks of one statement. */
  ghost predicate AddsMark(info: InfoMap, names: Names, db: Mir.SummaryDatabase, s: Mir.Statement, m: Mark) {
    match s
    case Assign(target, source) =>
      && source.Reference? && IsVariable(target) && Is(names, source.value, m.variable)
      && m.state == NoEscape && m.point == EscapePoint.AddressOf(m.variable)
    case FieldAssign(object_, field, value) =>
      && Is(names, value, m.variable) && m.state == GlobalEscape
      && m.point.HeapFieldStore? && m.point.field == field && Is(names, object_, m.point.object_)
      && InfoOf(info, m.point.object_).state != NoEscape
    case Call(result, callee, args) =>
      var id := Mir.CalleeId(callee);
      || MarksSomeArgument(names, db.Get(id), id, args, 0, m)
      || MarksResult(names, db.Get(id), id, result, m)
    case Allocate(target) =>
      Is(names, target, m.variable) && m.state == GlobalEscape && m.point == HeapFieldStore(m.variable, "alloc")
    case FieldAccess(_, _, _) => false
    case BinaryOp(_, _, _) => false
    case OtherStatement => false
  }

  /** The values a statement looks up. */
  function Operands(s: Mir.Statement): seq<Mir.Value> {
    match s
    case Assign(target, source) => [target, if source.Reference? then source.value else source]
    case FieldAccess(target, object_, _) => [target, object_]
    case FieldAssign(object_, _, value) => [object_, value]
    case BinaryOp(target, left, right) => [target, left, right]
    case Call(result, _, args) => args + if result.Some? then [result.value] else []
    case Allocate(target) => [target]
    case OtherStatement => []
  }

  ghost function NamesIn(values: seq<Mir.Value>): iset<string> {
    iset name | Mir.Variable(name) in values
  }

  ghost function StatementEffect(info: InfoMap, names: Names, db: Mir.SummaryDatabase, fieldHash: string -> nat,
                                 s: Mir.Statement): Effect {
    Effect((iset f | AddsFlow(info, names, db, fieldHash, s, f)), (iset m | AddsMark(info, names, db, s, m)),
           NamesIn(Operands(s)))
  }

  /** The value a return lets escape: what a returned reference refers to, or the returned value itself. */
  predicate Returns(terminator: Mir.Terminator, value: Mir.Value) {
    && terminator.Return? && terminator.value.Some?
    && (terminator.value.value == Mir.Reference(value) || (terminator.value.value == value && !value.Reference?))
  }

  ghost function TerminatorEffect(names: Names, current: FunctionId, terminator: Mir.Terminator): Effect {
    Effect(
      iset{},
      (iset m | MarksReturned(names, current, terminator, m)),
      iset name | Returns(terminator, Mir.Variable(name)) || terminator == Mir.Branch(Mir.Variable(name)))
  }

  ghost predicate MarksReturned(names: Names, current: FunctionId, terminator: Mir.Terminator, m: Mark) {
    && m.state == ReturnEscape && m.point == EscapePoint.FunctionReturn(current)
    && exists value :: Returns(terminator, value) && Is(names, value, m.variable)
  }

  ghost predicate MarksBySummary(names: Names, summary: Mir.FunctionSummary, args: seq<Mir.Value>, m: Mark) {
    MarksSomeArgument(names, Some(summary), summary.function_, args, 0, m)
  }

  /** Some call in these statements has a summary that marks `m`. */
  ghost predicate MarksAtSites(names: Names, db: Mir.SummaryDatabase, statements: seq<Mir.Statement>, m: Mark) {
    exists s :: s in statements && s.Call? && db.Get(Mir.CalleeId(s.callee)).Some?
      && MarksBySummary(names, db.Get(Mir.CalleeId(s.callee)).value, s.args, m)
  }

  ghost predicate MarksInBlocks(names: Names, db: Mir.SummaryDatabase, blocks: seq<Mir.BasicBlock>, m: Mark) {
    exists block :: block in blocks && MarksAtSites(names, db, block.statements, m)
  }
}
