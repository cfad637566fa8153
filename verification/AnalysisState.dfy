/**
 * The state of the escape analyzer as one value, the effect of every MIR statement on it, and the facts
 * that keep its two stores of escape states (the per-variable information and the graph's cache) in step.
 */
module AnalysisStates {
  import opened Wrappers
  import opened EscapeTypes
  import opened Propagation
  import opened VariableGraphs
  import Mir

  type InfoMap = map<VariableId, VariableEscapeInfo>
  type Names = map<string, VariableId>

  /** `marks` is history: the join of all states a variable was ever marked with. */
  datatype AnalysisState = AnalysisState(
    graph: Graph,
    cache: Cache,
    info: InfoMap,
    names: Names,
    nextId: nat,
    marks: Cache)

  function InfoOf(info: InfoMap, v: VariableId): VariableEscapeInfo {
    if v in info then info[v] else VariableEscapeInfo.NewNoEscape()
  }

  // ---- Effects ------------------------------------------------------------

  function Resolve(st: AnalysisState, value: Mir.Value): (AnalysisState, Option<VariableId>) {
    match value
    case Variable(name) =>
      if name in st.names then (st, Some(st.names[name]))
      else (st.(names := st.names[name := VariableId(st.nextId)], nextId := st.nextId + 1), Some(VariableId(st.nextId)))
    case Temp(id) => (st, Some(VariableId(id)))
    case _ => (st, None)
  }

  function WithEdge(st: AnalysisState, from: VariableId, to: VariableId, edge: WeightedEdge): AnalysisState {
    st.(graph := Inserted(st.graph, from, to, edge), cache := st.cache - {from, to})
  }

  const PLAIN_ASSIGNMENT := WeightedEdge(DirectAssignment, Identity)

  function WithInfo(st: AnalysisState, v: VariableId): AnalysisState {
    st.(info := st.info[v := InfoOf(st.info, v)])
  }

  function WithMark(st: AnalysisState, v: VariableId, s: EscapeState, point: EscapePoint): AnalysisState {
    st.(info := st.info[v := InfoOf(st.info, v).MarkEscape(s, point)],
        cache := st.cache[v := s],
        marks := st.marks[v := StateOf(st.marks, v).Merge(s)])
  }

  function WithAddressTaken(st: AnalysisState, v: VariableId): AnalysisState {
    var info := InfoOf(st.info, v);
    st.(info := st.info[v := info.(points := info.points + [EscapePoint.AddressOf(v)])])
  }

  function AfterAssign(st: AnalysisState, target: Mir.Value, source: Mir.Value): AnalysisState {
    if source.Reference? then
      var (st1, value) := Resolve(st, source.value);
      var (st2, to) := Resolve(st1, target);
      if value.Some? && to.Some?
      then WithAddressTaken(WithEdge(st2, value.value, to.value, WeightedEdge(DirectAssignment, EdgeWeight.AddressOf)),
          value.value)
      else st2
    else
      AfterFlow(st, target, source, PLAIN_ASSIGNMENT)
  }

  /** Resolves `target`, then `source`, and adds the edge `source -> target`. */
  function AfterFlow(st: AnalysisState, target: Mir.Value, source: Mir.Value, edge: WeightedEdge): AnalysisState {
    var (st1, to) := Resolve(st, target);
    var (st2, from) := Resolve(st1, source);
    if to.Some? && from.Some? then WithEdge(st2, from.value, to.value, edge) else st2
  }

  /** A value stored into an object that may be on the heap escapes; otherwise it just flows. */
  function AfterFieldAssign(st: AnalysisState, object_: Mir.Value, field: string, value: Mir.Value): AnalysisState {
    var (st1, objectId) := Resolve(st, object_);
    var (st2, valueId) := Resolve(st1, value);
    if objectId.Some? && valueId.Some? then
      var st3 := WithInfo(st2, objectId.value);
      if st3.info[objectId.value].state == NoEscape
      then WithEdge(st3, valueId.value, objectId.value, PLAIN_ASSIGNMENT)
      else WithMark(WithEdge(st3, valueId.value, objectId.value, WeightedEdge(HeapStore, Identity)),
                    valueId.value, GlobalEscape, HeapFieldStore(objectId.value, field))
    else st2
  }

  /** Arguments from `index` on, marked as the summary says, or conservatively when there is none. */
  function AfterArguments(st: AnalysisState, summary: Option<Mir.FunctionSummary>, callee: FunctionId,
                          args: seq<Mir.Value>, index: nat): AnalysisState
    requires index <= |args|
    decreases |args| - index
  {
    if index == |args| then st
    else AfterArguments(AfterArgument(st, summary, callee, args[index], index), summary, callee, args, index + 1)
  }

  function AfterArgument(st: AnalysisState, summary: Option<Mir.FunctionSummary>, callee: FunctionId,
                         arg: Mir.Value, index: nat): AnalysisState
  {
    var (st1, id) := Resolve(st, arg);
    var point := EscapePoint.FunctionArgument(callee, index);
    if id.None? then st1
    else if summary.None? then WithMark(st1, id.value, ArgEscape, point)
    else if index < |summary.value.tags| && summary.value.tags[index].Escapes()
    then WithMark(st1, id.value, summary.value.tags[index].ToEscapeState(), point)
    else st1
  }

  function AfterResult(st: AnalysisState, summary: Option<Mir.FunctionSummary>, callee: FunctionId,
                       args: seq<Mir.Value>, result: Option<Mir.Value>): AnalysisState
  {
    if result.None? then st
    else
      var (st1, target) := Resolve(st, result.value);
      if target.None? then st1
      else if summary.None? || summary.value.source.LocalAllocation?
      then WithMark(st1, target.value, ReturnEscape, EscapePoint.FunctionReturn(callee))
      else if summary.value.source.FromParameter? && summary.value.source.index < |args| then
        var (st2, arg) := Resolve(st1, args[summary.value.source.index]);
        if arg.Some? then WithEdge(st2, arg.value, target.value, PLAIN_ASSIGNMENT) else st2
      else st1
  }

  function AfterStatement(st: AnalysisState, db: Mir.SummaryDatabase, fieldHash: string -> nat,
                          statement: Mir.Statement): AnalysisState {
    match statement
    case Assign(target, source) => AfterAssign(st, target, source)
    case FieldAccess(target, object_, field) =>
      AfterFlow(st, target, object_, WeightedEdge(DependencyEdge.FieldAccess(fieldHash(field)), Identity))
    case FieldAssign(object_, field, value) => AfterFieldAssign(st, object_, field, value)
    case BinaryOp(target, left, right) =>
      AfterFlow(AfterFlow(st, target, left, PLAIN_ASSIGNMENT), target, right, PLAIN_ASSIGNMENT)
    case Call(result, callee, args) =>
      var id := Mir.CalleeId(callee);
      AfterResult(AfterArguments(st, db.Get(id), id, args, 0), db.Get(id), id, args, result)
    case Allocate(target) =>
      var (st1, id) := Resolve(st, target);
      if id.Some? then WithMark(st1, id.value, GlobalEscape, HeapFieldStore(id.value, "alloc")) else st1
    case OtherStatement => st
  }

  /** A returned value escapes to the caller; a returned reference lets its referent escape. */
  function AfterTerminator(st: AnalysisState, current: FunctionId, terminator: Mir.Terminator): AnalysisState {
    match terminator
    case Return(Some(value)) =>
      var (st1, id) := Resolve(st, if value.Reference? then value.value else value);
      if id.Some? then WithMark(st1, id.value, ReturnEscape, EscapePoint.FunctionReturn(current)) else st1
    case Branch(condition) => Resolve(st, condition).0
    case _ => st
  }

  function AfterStatements(st: AnalysisState, db: Mir.SummaryDatabase, fieldHash: string -> nat,
                           statements: seq<Mir.Statement>): AnalysisState {
    if statements == [] then st
    else
      var n := |statements| - 1;
      AfterStatement(AfterStatements(st, db, fieldHash, statements[..n]), db, fieldHash, statements[n])
  }

  function AfterBlock(st: AnalysisState, db: Mir.SummaryDatabase, fieldHash: string -> nat, current: FunctionId,
                      block: Mir.BasicBlock): AnalysisState {
    var st1 := AfterStatements(st, db, fieldHash, block.statements);
    if block.terminator.Some? then AfterTerminator(st1, current, block.terminator.value) else st1
  }

  function AfterBlocks(st: AnalysisState, db: Mir.SummaryDatabase, fieldHash: string -> nat, current: FunctionId,
                       blocks: seq<Mir.BasicBlock>): AnalysisState {
    if blocks == [] then st
    else
      var n := |blocks| - 1;
      AfterBlock(AfterBlocks(st, db, fieldHash, current, blocks[..n]), db, fieldHash, current, blocks[n])
  }

  /** The variable an argument stands for, without naming new ones. */
  function VariableOf(names: Names, value: Mir.Value): Option<VariableId> {
    match value
    case Variable(name) => if name in names then Some(names[name]) else None
    case Temp(id) => Some(VariableId(id))
    case _ => None
  }

  /** An argument whose parameter escapes according to the summary is marked so. */
  function WithSummaryTag(st: AnalysisState, summary: Mir.FunctionSummary, arg: Mir.Value, index: nat): AnalysisState {
    var id := VariableOf(st.names, arg);
    if id.Some? && index < |summary.tags| && summary.tags[index].Escapes()
    then WithMark(st, id.value, summary.tags[index].ToEscapeState(),
        EscapePoint.FunctionArgument(summary.function_, index))
    else st
  }

  function AfterSummary(st: AnalysisState, summary: Mir.FunctionSummary, args: seq<Mir.Value>): AnalysisState {
    if args == [] then st
    else
      var n := |args| - 1;
      WithSummaryTag(AfterSummary(st, summary, args[..n]), summary, args[n], n)
  }

  /** What is known about the callee of one statement. */
  function AfterCallSite(st: AnalysisState, db: Mir.SummaryDatabase, statement: Mir.Statement): AnalysisState {
    if statement.Call? && db.Get(Mir.CalleeId(statement.callee)).Some?
    then AfterSummary(st, db.Get(Mir.CalleeId(statement.callee)).value, statement.args)
    else st
  }

  function AfterCallSites(st: AnalysisState, db: Mir.SummaryDatabase, statements: seq<Mir.Statement>): AnalysisState {
    if statements == [] then st
    else
      var n := |statements| - 1;
      AfterCallSite(AfterCallSites(st, db, statements[..n]), db, statements[n])
  }

  /** What is known about the callees of a whole function. */
  function AfterSummaries(st: AnalysisState, db: Mir.SummaryDatabase, blocks: seq<Mir.BasicBlock>): AnalysisState {
    if blocks == [] then st
    else
      var n := |blocks| - 1;
      AfterCallSites(AfterSummaries(st, db, blocks[..n]), db, blocks[n].statements)
  }

  // ---- The join of a connected component ----------------------------------

  ghost predicate Attained(g: Graph, marks: Cache, v: VariableId, s: EscapeState) {
    exists u :: Connected(g, v, u) && StateOf(marks, u) == s
  }

  /** The least upper bound of the marks in the connected component of `v`. */
  ghost function ComponentJoin(g: Graph, marks: Cache, v: VariableId): EscapeState {
    if Attained(g, marks, v, GlobalEscape) then GlobalEscape
    else if Attained(g, marks, v, ReturnEscape) then ReturnEscape
    else if Attained(g, marks, v, ArgEscape) then ArgEscape
    else NoEscape
  }

  lemma JoinDominates(g: Graph, marks: Cache, v: VariableId, u: VariableId)
    requires Connected(g, v, u)
    ensures StateOf(marks, u).Leq(ComponentJoin(g, marks, v))
  {
    assert Attained(g, marks, v, StateOf(marks, u));
  }

  /** Any upper bound of the component's marks dominates the join. */
  lemma JoinIsLeast(g: Graph, marks: Cache, v: VariableId, s: EscapeState)
    requires forall u :: Connected(g, v, u) ==> StateOf(marks, u).Leq(s)
    ensures ComponentJoin(g, marks, v).Leq(s)
  {
  }

  lemma JoinSharedInComponent(g: Graph, marks: Cache, u: VariableId, v: VariableId)
    requires Mirrored(g) && Connected(g, u, v)
    ensures ComponentJoin(g, marks, u) == ComponentJoin(g, marks, v)
  {
    ConnectedSymmetric(g, u, v);
    forall w | Connected(g, v, w) ensures StateOf(marks, w).Leq(ComponentJoin(g, marks, u)) {
      ConnectedTransitive(g, u, v, w);
      JoinDominates(g, marks, u, w);
    }
    JoinIsLeast(g, marks, v, ComponentJoin(g, marks, u));
    forall w | Connected(g, u, w) ensures StateOf(marks, w).Leq(ComponentJoin(g, marks, v)) {
      ConnectedTransitive(g, v, u, w);
      JoinDominates(g, marks, v, w);
    }
    JoinIsLeast(g, marks, u, ComponentJoin(g, marks, v));
    LeqAntisymmetric(ComponentJoin(g, marks, u), ComponentJoin(g, marks, v));
  }

  /** A component joins to NoEscape exactly when nothing in it was marked as escaping. */
  lemma JoinNoEscapeIff(g: Graph, marks: Cache, v: VariableId)
    ensures ComponentJoin(g, marks, v) == NoEscape <==>
            forall u :: Connected(g, v, u) ==> StateOf(marks, u) == NoEscape
  {
    if ComponentJoin(g, marks, v) == NoEscape {
      forall u | Connected(g, v, u) ensures StateOf(marks, u) == NoEscape {
        JoinDominates(g, marks, v, u);
      }
    }
  }

  /** `g` has every edge of `f`. */
  ghost predicate Extends(f: Graph, g: Graph) {
    && (forall v, p :: p in Edges(f.forward, v) ==> p in Edges(g.forward, v))
    && (forall v, p :: p in Edges(f.backward, v) ==> p in Edges(g.backward, v))
  }

  lemma ConnectedInExtension(f: Graph, g: Graph, u: VariableId, v: VariableId)
    requires Extends(f, g) && Connected(f, u, v)
    ensures Connected(g, u, v)
  {
    var path :| IsPath(f, path, u, v);
    forall i | 0 <= i < |path| - 1 ensures Adjacent(g, path[i], path[i + 1]) {
      assert Adjacent(f, path[i], path[i + 1]);
    }
    assert IsPath(g, path, u, v);
  }

  ghost predicate CacheLeq(a: Cache, b: Cache) {
    forall v :: StateOf(a, v).Leq(StateOf(b, v))
  }

  lemma JoinGrows(f: Graph, g: Graph, a: Cache, b: Cache, v: VariableId)
    requires Extends(f, g) && CacheLeq(a, b)
    ensures ComponentJoin(f, a, v).Leq(ComponentJoin(g, b, v))
  {
    forall u | Connected(f, v, u) ensures StateOf(a, u).Leq(ComponentJoin(g, b, v)) {
      ConnectedInExtension(f, g, v, u);
      JoinDominates(g, b, v, u);
    }
    JoinIsLeast(f, a, v, ComponentJoin(g, b, v));
  }

  // ---- The invariant ------------------------------------------------------

  /** An edge that passes on at least the state it receives, in both directions. */
  predicate Carries(e: WeightedEdge) {
    || e.weight == EdgeWeight.AddressOf
    || (e.weight == Identity && (e.kind.DirectAssignment? || e.kind.FieldAccess? || e.kind.HeapStore?))
  }

  /** An edge that can raise what it passes on. */
  predicate Raises(e: WeightedEdge) {
    e.weight == Identity && e.kind.HeapStore?
  }

  ghost predicate Consistent(st: AnalysisState) {
    && Mirrored(st.graph)
    && (forall v, p :: p in Edges(st.graph.forward, v) ==> Carries(p.1))
    && (forall v :: StateOf(st.cache, v).Leq(InfoOf(st.info, v).state))
    && (forall v :: StateOf(st.marks, v).Leq(InfoOf(st.info, v).state))
    && (forall v :: InfoOf(st.info, v).state.Leq(ComponentJoin(st.graph, st.marks, v)))
  }

  /** Whatever was stored into a heap object has been marked as escaping globally. */
  ghost predicate HeapStoresMarked(st: AnalysisState) {
    forall v, p :: p in Edges(st.graph.forward, v) && Raises(p.1) ==> StateOf(st.marks, v) == GlobalEscape
  }

  ghost predicate Sound(st: AnalysisState) {
    Consistent(st) && HeapStoresMarked(st)
  }

  /** No name changes its meaning. */
  ghost predicate NamesKept(a: Names, b: Names) {
    forall name :: name in a ==> name in b && b[name] == a[name]
  }

  /** Between two states the graph, the marks and the names only grow. */
  ghost predicate Grows(a: AnalysisState, b: AnalysisState) {
    Extends(a.graph, b.graph) && CacheLeq(a.marks, b.marks) && a.info.Keys <= b.info.Keys
        && NamesKept(a.names, b.names)
  }

  lemma EdgeGrows(st: AnalysisState, from: VariableId, to: VariableId, edge: WeightedEdge)
    ensures var st' := WithEdge(st, from, to, edge);
            && Grows(st, st')
            && (forall v, p :: p in Edges(st'.graph.forward, v) ==>
                  p in Edges(st.graph.forward, v) || (v == from && p == (to, edge)))
  {
    var st' := WithEdge(st, from, to, edge);
    forall v, p
      ensures p in Edges(st'.graph.forward, v) <==> p in Edges(st.graph.forward, v) || (v == from && p == (to, edge))
      ensures p in Edges(st'.graph.backward, v) <==> p in Edges(st.graph.backward, v) || (v == to && p == (from, edge))
    {
      InsertedEdges(st.graph, from, to, edge, v, p);
    }
  }

  lemma EdgeKeepsConsistent(st: AnalysisState, from: VariableId, to: VariableId, edge: WeightedEdge)
    requires Consistent(st) && Carries(edge)
    ensures Consistent(WithEdge(st, from, to, edge))
  {
    var st' := WithEdge(st, from, to, edge);
    EdgeGrows(st, from, to, edge);
    InsertedMirrored(st.graph, from, to, edge);
    forall v
      ensures StateOf(st'.cache, v).Leq(InfoOf(st'.info, v).state)
      ensures InfoOf(st'.info, v).state.Leq(ComponentJoin(st'.graph, st'.marks, v))
    {
      assert StateOf(st.cache, v).Leq(InfoOf(st.info, v).state);
      JoinGrows(st.graph, st'.graph, st.marks, st'.marks, v);
    }
  }

  lemma MarkGrows(st: AnalysisState, v: VariableId, s: EscapeState, point: EscapePoint)
    ensures Grows(st, WithMark(st, v, s, point))
  {
    assert StateOf(st.marks, v).Leq(StateOf(st.marks, v).Merge(s));
  }

  lemma MarkKeepsConsistent(st: AnalysisState, v: VariableId, s: EscapeState, point: EscapePoint)
    requires Consistent(st)
    ensures Consistent(WithMark(st, v, s, point))
  {
    var st' := WithMark(st, v, s, point);
    MarkGrows(st, v, s, point);
    ConnectedSelf(st.graph, v);
    JoinDominates(st'.graph, st'.marks, v, v);
    forall u
      ensures StateOf(st'.cache, u).Leq(InfoOf(st'.info, u).state)
      ensures StateOf(st'.marks, u).Leq(InfoOf(st'.info, u).state)
      ensures InfoOf(st'.info, u).state.Leq(ComponentJoin(st'.graph, st'.marks, u))
    {
      JoinGrows(st.graph, st'.graph, st.marks, st'.marks, u);
      MergedInfo(InfoOf(st.info, v), StateOf(st.marks, v), s, point, ComponentJoin(st'.graph, st'.marks, v));
    }
  }

  lemma MergedInfo(info: VariableEscapeInfo, mark: EscapeState, s: EscapeState, point: EscapePoint, bound: EscapeState)
    ensures s.Leq(info.MarkEscape(s, point).state)
    ensures mark.Leq(info.state) ==> mark.Merge(s).Leq(info.MarkEscape(s, point).state)
    ensures info.state.Leq(bound) && mark.Merge(s).Leq(bound) ==> info.MarkEscape(s, point).state.Leq(bound)
  {
  }

  /** `b` follows from `a` by steps that preserve soundness and lose nothing. */
  ghost predicate Follows(a: AnalysisState, b: AnalysisState) {
    (Sound(a) ==> Sound(b)) && Grows(a, b)
  }

  lemma FollowsSelf(a: AnalysisState)
    ensures Follows(a, a)
  {
  }

  lemma FollowsTransitive(a: AnalysisState, b: AnalysisState, c: AnalysisState)
    requires Follows(a, b) && Follows(b, c)
    ensures Follows(a, c)
  {
  }

  lemma ResolveFollows(st: AnalysisState, value: Mir.Value)
    ensures Follows(st, Resolve(st, value).0)
  {
  }

  lemma EdgeFollows(st: AnalysisState, from: VariableId, to: VariableId, edge: WeightedEdge)
    requires Carries(edge) && !Raises(edge)
    ensures Follows(st, WithEdge(st, from, to, edge))
  {
    EdgeGrows(st, from, to, edge);
    if Sound(st) {
      EdgeKeepsConsistent(st, from, to, edge);
    }
  }

  lemma MarkFollows(st: AnalysisState, v: VariableId, s: EscapeState, point: EscapePoint)
    ensures Follows(st, WithMark(st, v, s, point))
  {
    MarkGrows(st, v, s, point);
    if Sound(st) {
      MarkKeepsConsistent(st, v, s, point);
    }
  }

  lemma ArgumentFollows(st: AnalysisState, summary: Option<Mir.FunctionSummary>, callee: FunctionId, arg: Mir.Value,
                        index: nat)
    ensures Follows(st, AfterArgument(st, summary, callee, arg, index))
  {
    hide Follows;
    var (st1, id) := Resolve(st, arg);
    ResolveFollows(st, arg);
    var next := AfterArgument(st, summary, callee, arg, index);
    if next != st1 {
      var s := if summary.None? then ArgEscape else summary.value.tags[index].ToEscapeState();
      MarkFollows(st1, id.value, s, EscapePoint.FunctionArgument(callee, index));
      FollowsTransitive(st, st1, next);
    }
  }

  lemma {:induction false} ArgumentsFollow(st: AnalysisState, summary: Option<Mir.FunctionSummary>,
                                           callee: FunctionId, args: seq<Mir.Value>, index: nat)
    requires index <= |args|
    ensures Follows(st, AfterArguments(st, summary, callee, args, index))
    decreases |args| - index
  {
    hide Follows;
    if index == |args| {
      FollowsSelf(st);
    } else {
      var st1 := AfterArgument(st, summary, callee, args[index], index);
      ArgumentFollows(st, summary, callee, args[index], index);
      ArgumentsFollow(st1, summary, callee, args, index + 1);
      FollowsTransitive(st, st1, AfterArguments(st1, summary, callee, args, index + 1));
    }
  }

  /** Resolving two values in a row. */
  lemma ResolveTwiceFollows(st: AnalysisState, a: Mir.Value, b: Mir.Value)
    ensures Follows(st, Resolve(Resolve(st, a).0, b).0)
  {
    hide Follows;
    ResolveFollows(st, a);
    ResolveFollows(Resolve(st, a).0, b);
    FollowsTransitive(st, Resolve(st, a).0, Resolve(Resolve(st, a).0, b).0);
  }

  lemma FlowFollows(st: AnalysisState, target: Mir.Value, source: Mir.Value, edge: WeightedEdge)
    requires Carries(edge) && !Raises(edge)
    ensures Follows(st, AfterFlow(st, target, source, edge))
  {
    hide Follows;
    var (st1, to) := Resolve(st, target);
    var (st2, from) := Resolve(st1, source);
    ResolveTwiceFollows(st, target, source);
    if to.Some? && from.Some? {
      EdgeFollows(st2, from.value, to.value, edge);
      FollowsTransitive(st, st2, AfterFlow(st, target, source, edge));
    }
  }

  lemma AddressTakenFollows(st: AnalysisState, v: VariableId)
    ensures Follows(st, WithAddressTaken(st, v))
  {
  }

  lemma AssignFollows(st: AnalysisState, target: Mir.Value, source: Mir.Value)
    ensures Follows(st, AfterAssign(st, target, source))
  {
    hide Follows;
    if source.Reference? {
      var (st1, value) := Resolve(st, source.value);
      var (st2, to) := Resolve(st1, target);
      ResolveTwiceFollows(st, source.value, target);
      if value.Some? && to.Some? {
        var edge := WeightedEdge(DirectAssignment, EdgeWeight.AddressOf);
        var st3 := WithEdge(st2, value.value, to.value, edge);
        EdgeFollows(st2, value.value, to.value, edge);
        AddressTakenFollows(st3, value.value);
        FollowsTransitive(st, st2, st3);
        FollowsTransitive(st, st3, WithAddressTaken(st3, value.value));
      }
    } else {
      FlowFollows(st, target, source, PLAIN_ASSIGNMENT);
    }
  }

  /** A heap store adds its edge and marks the stored value, so the pair restores soundness. */
  lemma HeapStoreFollows(st: AnalysisState, object_: VariableId, value: VariableId, point: EscapePoint)
    ensures Follows(st, WithMark(WithEdge(st, value, object_, WeightedEdge(HeapStore, Identity)), value, GlobalEscape,
        point))
  {
    var edge := WeightedEdge(HeapStore, Identity);
    var st1 := WithEdge(st, value, object_, edge);
    var st' := WithMark(st1, value, GlobalEscape, point);
    EdgeGrows(st, value, object_, edge);
    MarkGrows(st1, value, GlobalEscape, point);
    if Sound(st) {
      EdgeKeepsConsistent(st, value, object_, edge);
      MarkKeepsConsistent(st1, value, GlobalEscape, point);
    }
  }

  lemma InfoFollows(st: AnalysisState, v: VariableId)
    ensures Follows(st, WithInfo(st, v))
  {
  }

  lemma FieldAssignFollows(st: AnalysisState, object_: Mir.Value, field: string, value: Mir.Value)
    ensures Follows(st, AfterFieldAssign(st, object_, field, value))
  {
    hide Follows;
    var (st1, objectId) := Resolve(st, object_);
    var (st2, valueId) := Resolve(st1, value);
    ResolveTwiceFollows(st, object_, value);
    if objectId.Some? && valueId.Some? {
      var st3 := WithInfo(st2, objectId.value);
      InfoFollows(st2, objectId.value);
      FollowsTransitive(st, st2, st3);
      EdgeFollows(st3, valueId.value, objectId.value, PLAIN_ASSIGNMENT);
      HeapStoreFollows(st3, objectId.value, valueId.value, HeapFieldStore(objectId.value, field));
      FollowsTransitive(st, st3, AfterFieldAssign(st, object_, field, value));
    }
  }

  lemma ResultFollows(st: AnalysisState, summary: Option<Mir.FunctionSummary>, callee: FunctionId,
                      args: seq<Mir.Value>, result: Option<Mir.Value>)
    ensures Follows(st, AfterResult(st, summary, callee, args, result))
  {
    hide Follows;
    FollowsSelf(st);
    if result.Some? {
      var (st1, target) := Resolve(st, result.value);
      ResolveFollows(st, result.value);
      var next := AfterResult(st, summary, callee, args, result);
      if target.Some? && (summary.None? || summary.value.source.LocalAllocation?) {
        MarkFollows(st1, target.value, ReturnEscape, EscapePoint.FunctionReturn(callee));
        FollowsTransitive(st, st1, next);
      } else if target.Some? && summary.value.source.FromParameter? && summary.value.source.index < |args| {
        var (st2, arg) := Resolve(st1, args[summary.value.source.index]);
        ResolveTwiceFollows(st, result.value, args[summary.value.source.index]);
        if arg.Some? {
          EdgeFollows(st2, arg.value, target.value, PLAIN_ASSIGNMENT);
          FollowsTransitive(st, st2, next);
        }
      }
    }
  }

  /** Resolving a value and marking it, if it is a variable at all. */
  lemma ResolveMarkFollows(st: AnalysisState, value: Mir.Value, s: EscapeState, point: EscapePoint)
    requires Resolve(st, value).1.Some?
    ensures Follows(st, WithMark(Resolve(st, value).0, Resolve(st, value).1.value, s, point))
  {
    hide Follows;
    var (st1, id) := Resolve(st, value);
    ResolveFollows(st, value);
    MarkFollows(st1, id.value, s, point);
    FollowsTransitive(st, st1, WithMark(st1, id.value, s, point));
  }

  /** Every statement keeps the two stores in step and forgets neither edges nor marks. */
  lemma StatementFollows(st: AnalysisState, db: Mir.SummaryDatabase, fieldHash: string -> nat, statement: Mir.Statement)
    ensures Follows(st, AfterStatement(st, db, fieldHash, statement))
  {
    hide Follows;
    match statement
    case Assign(target, source) => AssignFollows(st, target, source);
    case FieldAccess(target, object_, field) =>
      FlowFollows(st, target, object_, WeightedEdge(DependencyEdge.FieldAccess(fieldHash(field)), Identity));
    case FieldAssign(object_, field, value) => FieldAssignFollows(st, object_, field, value);
    case BinaryOp(target, left, right) =>
      var st1 := AfterFlow(st, target, left, PLAIN_ASSIGNMENT);
      FlowFollows(st, target, left, PLAIN_ASSIGNMENT);
      FlowFollows(st1, target, right, PLAIN_ASSIGNMENT);
      FollowsTransitive(st, st1, AfterFlow(st1, target, right, PLAIN_ASSIGNMENT));
    case Call(result, callee, args) =>
      var id := Mir.CalleeId(callee);
      var st1 := AfterArguments(st, db.Get(id), id, args, 0);
      ArgumentsFollow(st, db.Get(id), id, args, 0);
      ResultFollows(st1, db.Get(id), id, args, result);
      FollowsTransitive(st, st1, AfterResult(st1, db.Get(id), id, args, result));
    case Allocate(target) =>
      ResolveFollows(st, target);
      var (st1, id) := Resolve(st, target);
      if id.Some? {
        ResolveMarkFollows(st, target, GlobalEscape, HeapFieldStore(id.value, "alloc"));
      }
    case OtherStatement => FollowsSelf(st);
  }

  lemma TerminatorFollows(st: AnalysisState, current: FunctionId, terminator: Mir.Terminator)
    ensures Follows(st, AfterTerminator(st, current, terminator))
  {
    hide Follows;
    match terminator
    case Return(Some(value)) =>
      var inner := if value.Reference? then value.value else value;
      ResolveFollows(st, inner);
      if Resolve(st, inner).1.Some? {
        ResolveMarkFollows(st, inner, ReturnEscape, EscapePoint.FunctionReturn(current));
      }
    case Branch(condition) => ResolveFollows(st, condition);
    case _ => FollowsSelf(st);
  }

  lemma {:induction false} StatementsFollow(st: AnalysisState, db: Mir.SummaryDatabase, fieldHash: string -> nat,
                                            statements: seq<Mir.Statement>)
    ensures Follows(st, AfterStatements(st, db, fieldHash, statements))
  {
    hide Follows;
    if statements == [] {
      FollowsSelf(st);
    } else {
      var n := |statements| - 1;
      var st1 := AfterStatements(st, db, fieldHash, statements[..n]);
      StatementsFollow(st, db, fieldHash, statements[..n]);
      StatementFollows(st1, db, fieldHash, statements[n]);
      FollowsTransitive(st, st1, AfterStatement(st1, db, fieldHash, statements[n]));
    }
  }

  lemma BlockFollows(st: AnalysisState, db: Mir.SummaryDatabase, fieldHash: string -> nat, current: FunctionId,
                     block: Mir.BasicBlock)
    ensures Follows(st, AfterBlock(st, db, fieldHash, current, block))
  {
    hide Follows;
    var st1 := AfterStatements(st, db, fieldHash, block.statements);
    StatementsFollow(st, db, fieldHash, block.statements);
    if block.terminator.Some? {
      TerminatorFollows(st1, current, block.terminator.value);
      FollowsTransitive(st, st1, AfterTerminator(st1, current, block.terminator.value));
    }
  }

  /** Building the graph of a whole function keeps the analysis sound. */
  lemma {:induction false} BlocksFollow(st: AnalysisState, db: Mir.SummaryDatabase, fieldHash: string -> nat,
                                        current: FunctionId, blocks: seq<Mir.BasicBlock>)
    ensures Follows(st, AfterBlocks(st, db, fieldHash, current, blocks))
  {
    hide Follows;
    if blocks == [] {
      FollowsSelf(st);
    } else {
      var n := |blocks| - 1;
      var st1 := AfterBlocks(st, db, fieldHash, current, blocks[..n]);
      BlocksFollow(st, db, fieldHash, current, blocks[..n]);
      BlockFollows(st1, db, fieldHash, current, blocks[n]);
      FollowsTransitive(st, st1, AfterBlock(st1, db, fieldHash, current, blocks[n]));
    }
  }

  lemma {:induction false} SummaryFollows(st: AnalysisState, summary: Mir.FunctionSummary, args: seq<Mir.Value>)
    ensures Follows(st, AfterSummary(st, summary, args))
  {
    hide Follows, WithMark;
    FollowsSelf(st);
    if args != [] {
      var n := |args| - 1;
      var st1 := AfterSummary(st, summary, args[..n]);
      SummaryFollows(st, summary, args[..n]);
      var id := VariableOf(st1.names, args[n]);
      if id.Some? && n < |summary.tags| {
        MarkFollows(st1, id.value, summary.tags[n].ToEscapeState(), EscapePoint.FunctionArgument(summary.function_, n));
        FollowsTransitive(st, st1, WithMark(st1, id.value, summary.tags[n].ToEscapeState(),
            EscapePoint.FunctionArgument(summary.function_, n)));
      }
    }
  }

  lemma {:induction false} CallSitesFollow(st: AnalysisState, db: Mir.SummaryDatabase, statements: seq<Mir.Statement>)
    ensures Follows(st, AfterCallSites(st, db, statements))
  {
    hide Follows, AfterSummary;
    FollowsSelf(st);
    if statements != [] {
      var n := |statements| - 1;
      var st1 := AfterCallSites(st, db, statements[..n]);
      CallSitesFollow(st, db, statements[..n]);
      if statements[n].Call? && db.Get(Mir.CalleeId(statements[n].callee)).Some? {
        var summary := db.Get(Mir.CalleeId(statements[n].callee)).value;
        SummaryFollows(st1, summary, statements[n].args);
        FollowsTransitive(st, st1, AfterSummary(st1, summary, statements[n].args));
      }
    }
  }

  /** Whatever the summaries say, applying them keeps the analysis sound. */
  lemma {:induction false} SummariesFollow(st: AnalysisState, db: Mir.SummaryDatabase, blocks: seq<Mir.BasicBlock>)
    ensures Follows(st, AfterSummaries(st, db, blocks))
  {
    hide Follows, AfterCallSites;
    FollowsSelf(st);
    if blocks != [] {
      var n := |blocks| - 1;
      var st1 := AfterSummaries(st, db, blocks[..n]);
      SummariesFollow(st, db, blocks[..n]);
      CallSitesFollow(st1, db, blocks[n].statements);
      FollowsTransitive(st, st1, AfterCallSites(st1, db, blocks[n].statements));
    }
  }
}
