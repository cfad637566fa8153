/** The variable dependency graph and its worklist propagation of escape states. */
module VariableGraphs {
  import opened EscapeTypes
  import opened Propagation

  datatype NodeMetadata = NodeMetadata(pointerDepth: int, isParameter: bool)

  // ---- The worklist -------------------------------------------------------

  type Message = (VariableId, EscapeState)

  /** The messages a variable sends along its edges when it propagates state `s`. */
  function BackwardMessages(edges: seq<(VariableId, WeightedEdge)>, s: EscapeState): seq<Message> {
    seq(|edges|, i requires 0 <= i < |edges| => (edges[i].0, BackwardTransfer(s, edges[i].1)))
  }

  function ForwardMessages(edges: seq<(VariableId, WeightedEdge)>, s: EscapeState): seq<Message> {
    seq(|edges|, i requires 0 <= i < |edges| => (edges[i].0, ForwardTransfer(s, edges[i].1)))
  }

  /** One run of the worklist, frozen between two iterations. */
  datatype Worklist = Worklist(
    cache: Cache,
    queue: seq<Message>,
    visited: set<VariableId>,
    affected: seq<VariableId>)

  /** The vertices a run can meet: both edge maps and the start variable. */
  ghost function Vertices(g: Graph, start: VariableId): set<VariableId> {
    g.forward.Keys + g.backward.Keys + {start}
  }

  lemma AdjacentIsVertex(g: Graph, start: VariableId, u: VariableId, v: VariableId)
    requires Mirrored(g) && Adjacent(g, u, v)
    ensures v in Vertices(g, start)
  {
    var e :| (v, e) in Edges(g.forward, u) || (v, e) in Edges(g.backward, u);
    assert (u, e) in Edges(g.backward, v) || (u, e) in Edges(g.forward, v);
  }

  /** The states a variable can still climb to, for every vertex. */
  ghost function Headroom(vertices: set<VariableId>, cache: Cache): set<(VariableId, EscapeState)> {
    set v, s: EscapeState | v in vertices && !s.Leq(StateOf(cache, v)) :: (v, s)
  }

  lemma HeadroomShrinks(vertices: set<VariableId>, cache: Cache, v: VariableId, s: EscapeState)
    requires v in vertices && !s.Leq(StateOf(cache, v)) && StateOf(cache, v).Leq(s)
    ensures Headroom(vertices, cache[v := s]) < Headroom(vertices, cache)
  {
    assert (v, s) in Headroom(vertices, cache) && (v, s) !in Headroom(vertices, cache[v := s]);
  }

  /** A message to `v` at least as strong as `s` is waiting, or `v` has already absorbed `s`. */
  ghost predicate Delivered(w: Worklist, v: VariableId, s: EscapeState) {
    || (v in w.visited && s.Leq(StateOf(w.cache, v)))
    || (exists m :: m in w.queue && m.0 == v && s.Leq(m.1))
  }

  ghost predicate Settled(g: Graph, w: Worklist, v: VariableId) {
    && (forall p :: p in Edges(g.backward, v) ==> Delivered(w, p.0, BackwardTransfer(StateOf(w.cache, v), p.1)))
    && (forall p :: p in Edges(g.forward, v) ==> Delivered(w, p.0, ForwardTransfer(StateOf(w.cache, v), p.1)))
  }

  ghost predicate Bounded(w: Worklist, x: Assignment) {
    && (forall v :: StateOf(w.cache, v).Leq(x(v)))
    && (forall m :: m in w.queue ==> m.1.Leq(x(m.0)))
  }

  ghost predicate Local(g: Graph, start: VariableId, w: Worklist) {
    && (forall m :: m in w.queue ==> m.0 in Vertices(g, start) && Connected(g, start, m.0))
    && (forall v :: v in w.visited ==> v in Vertices(g, start) && Connected(g, start, v))
  }

  /** What changed so far is exactly what `affected` lists. */
  ghost predicate Tracked(before: Cache, w: Worklist) {
    && (forall v :: StateOf(before, v).Leq(StateOf(w.cache, v)))
    && (forall v :: v in w.affected <==> StateOf(w.cache, v) != StateOf(before, v))
    && (forall v :: v in w.cache <==> v in before || StateOf(w.cache, v) != StateOf(before, v))
  }

  ghost predicate Invariant(g: Graph, before: Cache, start: VariableId, seed: EscapeState, w: Worklist) {
    && Local(g, start, w)
    && Tracked(before, w)
    && Delivered(w, start, seed)
    && (forall v :: v in w.visited ==> Settled(g, w, v))
    && (forall x :: IsSolution(g, before, start, seed, x) ==> Bounded(w, x))
  }

  /** One iteration: take the front message, merge it, and pass the merged state on if it is news. */
  function Iterate(g: Graph, w: Worklist): Worklist
    requires w.queue != []
  {
    var v := w.queue[0].0;
    var old_ := StateOf(w.cache, v);
    var merged := old_.Merge(w.queue[0].1);
    var changed := merged != old_;
    Worklist(
      if changed then w.cache[v := merged] else w.cache,
      if changed || v !in w.visited
      then w.queue[1..] + BackwardMessages(Edges(g.backward, v), merged) + ForwardMessages(Edges(g.forward, v), merged)
      else w.queue[1..],
      w.visited + {v},
      if changed then w.affected + [v] else w.affected)
  }

  lemma NewMessage(g: Graph, w: Worklist, m: Message) returns (e: WeightedEdge)
    requires w.queue != []
    requires m in Iterate(g, w).queue && m !in w.queue
    ensures var v := w.queue[0].0;
            var s := StateOf(Iterate(g, w).cache, v);
            || ((m.0, e) in Edges(g.backward, v) && m.1 == BackwardTransfer(s, e))
            || ((m.0, e) in Edges(g.forward, v) && m.1 == ForwardTransfer(s, e))
  {
    var v := w.queue[0].0;
    var s := StateOf(Iterate(g, w).cache, v);
    var bs, fs := Edges(g.backward, v), Edges(g.forward, v);
    assert m in BackwardMessages(bs, s) || m in ForwardMessages(fs, s);
    if m in BackwardMessages(bs, s) {
      var i :| 0 <= i < |bs| && m == BackwardMessages(bs, s)[i];
      e := bs[i].1;
      assert (m.0, e) == bs[i];
    } else {
      var i :| 0 <= i < |fs| && m == ForwardMessages(fs, s)[i];
      e := fs[i].1;
      assert (m.0, e) == fs[i];
    }
  }

  lemma IterateLocal(g: Graph, start: VariableId, w: Worklist)
    requires Mirrored(g) && w.queue != [] && Local(g, start, w)
    ensures Local(g, start, Iterate(g, w))
  {
    var w' := Iterate(g, w);
    var v := w.queue[0].0;
    assert w.queue[0] in w.queue;
    forall m | m in w'.queue && m !in w.queue
      ensures m.0 in Vertices(g, start) && Connected(g, start, m.0)
    {
      var e := NewMessage(g, w, m);
      AdjacentIsVertex(g, start, v, m.0);
      ConnectedStep(g, start, v, m.0);
    }
  }

  lemma IterateTracked(g: Graph, before: Cache, w: Worklist)
    requires w.queue != [] && Tracked(before, w)
    ensures Tracked(before, Iterate(g, w))
  {
    var w' := Iterate(g, w);
    var v := w.queue[0].0;
    forall u ensures u in w'.affected <==> StateOf(w'.cache, u) != StateOf(before, u) {
      assert u in w'.affected <==> u in w.affected || (u == v && StateOf(w'.cache, v) != StateOf(w.cache, v));
    }
  }

  /** Nothing that was delivered is lost by an iteration. */
  lemma IterateDelivered(g: Graph, w: Worklist, u: VariableId, s: EscapeState)
    requires w.queue != [] && Delivered(w, u, s)
    ensures Delivered(Iterate(g, w), u, s)
  {
    var w' := Iterate(g, w);
    var front := w.queue[0];
    if u in w.visited && s.Leq(StateOf(w.cache, u)) {
    } else {
      var m :| m in w.queue && m.0 == u && s.Leq(m.1);
      if m == front {
        assert u in w'.visited && s.Leq(StateOf(w'.cache, u));
      } else {
        assert m in w.queue[1..];
        assert m in w'.queue;
      }
    }
  }

  lemma IterateSettles(g: Graph, w: Worklist, u: VariableId)
    requires w.queue != []
    requires u in Iterate(g, w).visited
    requires u in w.visited ==> Settled(g, w, u)
    ensures Settled(g, Iterate(g, w), u)
  {
    var w' := Iterate(g, w);
    var s := StateOf(w'.cache, u);
    if u in w.visited && s == StateOf(w.cache, u) {
      forall p | p in Edges(g.backward, u) ensures Delivered(w', p.0, BackwardTransfer(s, p.1)) {
        IterateDelivered(g, w, p.0, BackwardTransfer(s, p.1));
      }
      forall p | p in Edges(g.forward, u) ensures Delivered(w', p.0, ForwardTransfer(s, p.1)) {
        IterateDelivered(g, w, p.0, ForwardTransfer(s, p.1));
      }
    } else {
      assert u == w.queue[0].0;
      var bs, fs := Edges(g.backward, u), Edges(g.forward, u);
      forall p | p in bs ensures Delivered(w', p.0, BackwardTransfer(s, p.1)) {
        var i :| 0 <= i < |bs| && bs[i] == p;
        assert BackwardMessages(bs, s)[i] in w'.queue;
      }
      forall p | p in fs ensures Delivered(w', p.0, ForwardTransfer(s, p.1)) {
        var i :| 0 <= i < |fs| && fs[i] == p;
        assert ForwardMessages(fs, s)[i] in w'.queue;
      }
    }
  }

  lemma IterateBounded(g: Graph, before: Cache, start: VariableId, seed: EscapeState, w: Worklist, x: Assignment)
    requires w.queue != [] && Local(g, start, w)
    requires IsSolution(g, before, start, seed, x) && Bounded(w, x)
    ensures Bounded(Iterate(g, w), x)
  {
    var w' := Iterate(g, w);
    var front := w.queue[0];
    var v := front.0;
    assert front in w.queue && Stable(g, x, v);
    assert StateOf(w'.cache, v).Leq(x(v));
    forall m | m in w'.queue ensures m.1.Leq(x(m.0)) {
      if m !in w.queue {
        var e := NewMessage(g, w, m);
        TransfersMonotone(StateOf(w'.cache, v), x(v), e);
        assert (m.0, e).0 == m.0;
      }
    }
  }

  lemma IterateKeepsInvariant(g: Graph, before: Cache, start: VariableId, seed: EscapeState, w: Worklist)
    requires Mirrored(g) && w.queue != []
    requires Invariant(g, before, start, seed, w)
    ensures Invariant(g, before, start, seed, Iterate(g, w))
  {
    var w' := Iterate(g, w);
    IterateLocal(g, start, w);
    IterateTracked(g, before, w);
    IterateDelivered(g, w, start, seed);
    forall v | v in w'.visited ensures Settled(g, w', v) {
      IterateSettles(g, w, v);
    }
    forall x | IsSolution(g, before, start, seed, x) ensures Bounded(w', x) {
      IterateBounded(g, before, start, seed, w, x);
    }
  }

  lemma StartsInvariant(g: Graph, before: Cache, start: VariableId, seed: EscapeState)
    ensures Invariant(g, before, start, seed, Worklist(before, [(start, seed)], {}, []))
  {
    ConnectedSelf(g, start);
    var w := Worklist(before, [(start, seed)], {}, []);
    assert (start, seed) in w.queue;
  }

  /** The lexicographic measure that makes the worklist stop on every graph, cyclic or not. */
  lemma IterateDescends(g: Graph, start: VariableId, w: Worklist)
    requires w.queue != [] && Local(g, start, w)
    ensures var w' := Iterate(g, w);
            var vs := Vertices(g, start);
            || vs - w'.visited < vs - w.visited
            || (vs - w'.visited == vs - w.visited && Headroom(vs, w'.cache) < Headroom(vs, w.cache))
            || (vs - w'.visited == vs - w.visited && w'.cache == w.cache && |w'.queue| < |w.queue|)
  {
    var w' := Iterate(g, w);
    var vs := Vertices(g, start);
    var v := w.queue[0].0;
    assert w.queue[0] in w.queue;
    if v !in w.visited {
      assert v in vs - w.visited && v !in vs - w'.visited;
    } else if StateOf(w'.cache, v) != StateOf(w.cache, v) {
      HeadroomShrinks(vs, w.cache, v, StateOf(w'.cache, v));
    }
  }

  lemma {:induction false} VisitedAlong(g: Graph, start: VariableId, w: Worklist, path: seq<VariableId>, v: VariableId)
    requires IsPath(g, path, start, v)
    requires w.queue == [] && start in w.visited
    requires forall u :: u in w.visited ==> Settled(g, w, u)
    ensures v in w.visited
    decreases |path|
  {
    if |path| > 1 {
      var u := path[|path| - 2];
      VisitedAlong(g, start, w, path[..|path| - 1], u);
      assert Adjacent(g, u, path[|path| - 2 + 1]);
      var e :| (v, e) in Edges(g.forward, u) || (v, e) in Edges(g.backward, u);
      assert (v, e).0 == v;
    }
  }

  lemma DrainedIsPropagation(g: Graph, before: Cache, start: VariableId, seed: EscapeState, w: Worklist)
    requires Invariant(g, before, start, seed, w) && w.queue == []
    ensures IsPropagation(g, before, start, seed, w.cache)
    ensures forall v :: v in w.visited <==> Connected(g, start, v)
  {
    forall v | Connected(g, start, v) ensures v in w.visited && Stable(g, States(w.cache), v) {
      var path :| IsPath(g, path, start, v);
      VisitedAlong(g, start, w, path, v);
    }
    assert IsSolution(g, before, start, seed, States(w.cache));
    forall x | IsSolution(g, before, start, seed, x) ensures Below(States(w.cache), x) {
      assert Bounded(w, x);
    }
  }

  // ---- The graph ----------------------------------------------------------

  /** `m` with one more entry at the end of the list of `v`. */
  function Pushed(m: EdgeMap, v: VariableId, p: (VariableId, WeightedEdge)): EdgeMap {
    m[v := Edges(m, v) + [p]]
  }

  function Inserted(g: Graph, from: VariableId, to: VariableId, edge: WeightedEdge): Graph {
    Graph(Pushed(g.forward, from, (to, edge)), Pushed(g.backward, to, (from, edge)))
  }

  lemma InsertedEdges(g: Graph, from: VariableId, to: VariableId, edge: WeightedEdge, v: VariableId, p: (VariableId,
                      WeightedEdge))
    ensures p in Edges(Inserted(g, from, to, edge).forward, v) <==>
            p in Edges(g.forward, v) || (v == from && p == (to, edge))
    ensures p in Edges(Inserted(g, from, to, edge).backward, v) <==>
            p in Edges(g.backward, v) || (v == to && p == (from, edge))
  {
  }

  lemma InsertedMirrored(g: Graph, from: VariableId, to: VariableId, edge: WeightedEdge)
    requires Mirrored(g)
    ensures Mirrored(Inserted(g, from, to, edge))
  {
    forall u, v, e
      ensures (v, e) in Edges(Inserted(g, from, to, edge).forward, u) <==>
          (u, e) in Edges(Inserted(g, from, to, edge).backward, v)
    {
      InsertedEdges(g, from, to, edge, u, (v, e));
      InsertedEdges(g, from, to, edge, v, (u, e));
    }
  }

  function DepthAcross(depth: int, weight: EdgeWeight): int {
    match weight
    case AddressOf => depth + 1
    case Identity => depth
    case Dereference => depth - 1
  }

  class VariableGraph {
    var forwardEdges: EdgeMap
    var backwardEdges: EdgeMap
    var escapeCache: Cache
    var nodeMetadata: map<VariableId, NodeMetadata>

    ghost predicate Valid()
      reads this
    {
      Mirrored(Value())
    }

    function Value(): Graph
      reads this
    {
      Graph(forwardEdges, backwardEdges)
    }

    constructor ()
      ensures Valid()
      ensures Value() == Graph(map[], map[]) && escapeCache == map[] && nodeMetadata == map[]
    {
      forwardEdges, backwardEdges, escapeCache, nodeMetadata := map[], map[], map[], map[];
    }

    /** Adds `from -> to` in both directions and forgets the cached states of both ends. */
    method AddWeightedEdge(from: VariableId, to: VariableId, edge: WeightedEdge)
      requires Valid()
      modifies this
      ensures Valid()
      ensures Value() == Inserted(old(Value()), from, to, edge)
      ensures escapeCache == old(escapeCache) - {from, to}
      ensures nodeMetadata == if from in old(nodeMetadata) && to in old(nodeMetadata)
                              then old(nodeMetadata)[to := old(nodeMetadata)[to].(
                                     pointerDepth := DepthAcross(old(nodeMetadata)[from].pointerDepth, edge.weight))]
                              else old(nodeMetadata)
      ensures from in old(nodeMetadata) && to in old(nodeMetadata) && from != to ==>
                nodeMetadata[to].pointerDepth - nodeMetadata[from].pointerDepth ==
                if edge.weight == EdgeWeight.AddressOf then 1 else if edge.weight == Dereference then -1 else 0
    {
      InsertedMirrored(Value(), from, to, edge);
      forwardEdges := Pushed(forwardEdges, from, (to, edge));
      backwardEdges := Pushed(backwardEdges, to, (from, edge));
      escapeCache := escapeCache - {from};
      escapeCache := escapeCache - {to};
      if from in nodeMetadata && to in nodeMetadata {
        var depth := nodeMetadata[from].pointerDepth;
        nodeMetadata := nodeMetadata[to := nodeMetadata[to].(pointerDepth := DepthAcross(depth, edge.weight))];
      }
    }

    method SetEscapeState(v: VariableId, s: EscapeState)
      modifies this`escapeCache
      ensures escapeCache == old(escapeCache)[v := s]
    {
      escapeCache := escapeCache[v := s];
    }

    /** Queues a message for every neighbour of `v`: first its dependencies, then its dependents. */
    method PushMessages(pending: seq<Message>, v: VariableId, s: EscapeState) returns (workQueue: seq<Message>)
      ensures workQueue == pending + BackwardMessages(Edges(backwardEdges, v),
          s) + ForwardMessages(Edges(forwardEdges, v), s)
    {
      workQueue := pending;
      var dependencies := Edges(backwardEdges, v);
      for i := 0 to |dependencies|
        invariant workQueue == pending + BackwardMessages(dependencies, s)[..i]
      {
        var (dependencyVar, edge) := dependencies[i];
        workQueue := workQueue + [(dependencyVar, BackwardTransfer(s, edge))];
      }
      ghost var sent := workQueue;
      var dependents := Edges(forwardEdges, v);
      for i := 0 to |dependents|
        invariant workQueue == sent + ForwardMessages(dependents, s)[..i]
      {
        var (dependentVar, edge) := dependents[i];
        workQueue := workQueue + [(dependentVar, ForwardTransfer(s, edge))];
      }
    }

    /**
     * Raises the state of `start` by `seed` and spreads the change over its connected component.
     * The cache ends at the least solution; `affected` lists exactly the variables that changed.
     */
    method PropagateEscape(start: VariableId, seed: EscapeState) returns (affected: seq<VariableId>)
      requires Valid()
      modifies this`escapeCache
      ensures IsPropagation(Value(), old(escapeCache), start, seed, escapeCache)
      ensures forall v :: v in affected <==> StateOf(escapeCache, v) != StateOf(old(escapeCache), v)
    {
      ghost var g := Value();
      ghost var before := escapeCache;
      affected := [];
      var workQueue := [(start, seed)];
      var visited: set<VariableId> := {};
      StartsInvariant(g, before, start, seed);
      while workQueue != []
        invariant Invariant(g, before, start, seed, Worklist(escapeCache, workQueue, visited, affected))
        decreases Vertices(g, start) - visited, Headroom(Vertices(g, start), escapeCache), |workQueue|
      {
        ghost var w := Worklist(escapeCache, workQueue, visited, affected);
        IterateKeepsInvariant(g, before, start, seed, w);
        IterateDescends(g, start, w);

        var (currentVar, currentState) := workQueue[0];
        workQueue := workQueue[1..];
        var oldState := StateOf(escapeCache, currentVar);
        var newState := oldState.Merge(currentState);
        var isFirstVisit := currentVar !in visited;
        visited := visited + {currentVar};
        var shouldPropagate := newState != oldState || isFirstVisit;
        if newState != oldState {
          escapeCache := escapeCache[currentVar := newState];
          affected := affected + [currentVar];
        }
        if shouldPropagate {
          workQueue := PushMessages(workQueue, currentVar, newState);
        }
        assert Worklist(escapeCache, workQueue, visited, affected) == Iterate(g, w);
      }
      DrainedIsPropagation(g, before, start, seed, Worklist(escapeCache, workQueue, visited, affected));
    }
  }
}
