/** The meaning of escape propagation: transfer functions, connectivity, and what a least solution is. */
module Propagation {
  import opened EscapeTypes

  datatype DependencyEdge =
    | DirectAssignment
    | FieldAccess(fieldNameHash: nat)
    | ArrayAccess
    | FunctionArgument
    | FunctionReturn
    | ClosureCapture
    | HeapStore

  /** The change of pointer depth along an edge. */
  datatype EdgeWeight = AddressOf | Identity | Dereference

  datatype WeightedEdge = WeightedEdge(kind: DependencyEdge, weight: EdgeWeight)

  type EdgeMap = map<VariableId, seq<(VariableId, WeightedEdge)>>
  type Cache = map<VariableId, EscapeState>

  /** Both edge maps of a variable graph, as one value. */
  datatype Graph = Graph(forward: EdgeMap, backward: EdgeMap)

  function Edges(m: EdgeMap, v: VariableId): seq<(VariableId, WeightedEdge)> {
    if v in m then m[v] else []
  }

  function StateOf(cache: Cache, v: VariableId): EscapeState {
    if v in cache then cache[v] else NoEscape
  }

  /** What a variable in state `s` sends to a variable it depends on. */
  function BackwardTransfer(s: EscapeState, e: WeightedEdge): EscapeState {
    match e.weight
    case AddressOf => s
    case Dereference => NoEscape
    case Identity => s
  }

  /** What a variable in state `s` sends to a variable that depends on it. */
  function ForwardTransfer(s: EscapeState, e: WeightedEdge): EscapeState {
    match e.weight
    case AddressOf => s
    case Dereference => NoEscape
    case Identity =>
      match e.kind
      case DirectAssignment => s
      case FieldAccess(_) => s
      case ArrayAccess => s
      case FunctionArgument => if s == NoEscape then ArgEscape else s
      case FunctionReturn => if s == NoEscape || s == ArgEscape then ReturnEscape else s
      case ClosureCapture => GlobalEscape
      case HeapStore => GlobalEscape
  }

  lemma TransfersMonotone(s: EscapeState, t: EscapeState, e: WeightedEdge)
    requires s.Leq(t)
    ensures BackwardTransfer(s, e).Leq(BackwardTransfer(t, e))
    ensures ForwardTransfer(s, e).Leq(ForwardTransfer(t, e))
  {
  }

  /** The least state that what flows along such an edge has. */
  predicate AtLeast(kind: DependencyEdge, s: EscapeState) {
    && (kind.FunctionArgument? ==> ArgEscape.Leq(s))
    && (kind.FunctionReturn? ==> ReturnEscape.Leq(s))
    && (kind.ClosureCapture? || kind.HeapStore? ==> GlobalEscape.Leq(s))
  }

  /**
   * A dereference passes nothing on.  Any other edge passes on the state itself against its direction, and along it the
   * least state that is not lower and as high as the kind of edge asks for.
   */
  lemma TransfersExact(s: EscapeState, e: WeightedEdge)
    ensures e.weight == Dereference ==> BackwardTransfer(s, e) == ForwardTransfer(s, e) == NoEscape
    ensures e.weight != Dereference ==> BackwardTransfer(s, e) == s
    ensures e.weight == EdgeWeight.AddressOf ==> ForwardTransfer(s, e) == s
    ensures e.weight == Identity ==>
              && s.Leq(ForwardTransfer(s, e)) && AtLeast(e.kind, ForwardTransfer(s, e))
              && forall t: EscapeState :: s.Leq(t) && AtLeast(e.kind, t) ==> ForwardTransfer(s, e).Leq(t)
  {
  }

  /** Every forward edge has its backward twin and the other way round. */
  ghost predicate Mirrored(g: Graph) {
    forall u, v, e :: (v, e) in Edges(g.forward, u) <==> (u, e) in Edges(g.backward, v)
  }

  // ---- Connectivity -------------------------------------------------------

  ghost predicate Adjacent(g: Graph, u: VariableId, v: VariableId) {
    exists e :: (v, e) in Edges(g.forward, u) || (v, e) in Edges(g.backward, u)
  }

  ghost predicate IsPath(g: Graph, path: seq<VariableId>, u: VariableId, v: VariableId) {
    && |path| > 0 && path[0] == u && path[|path| - 1] == v
    && forall i :: 0 <= i < |path| - 1 ==> Adjacent(g, path[i], path[i + 1])
  }

  /** `v` lies in the undirected connected component of `u`. */
  ghost predicate Connected(g: Graph, u: VariableId, v: VariableId) {
    exists path :: IsPath(g, path, u, v)
  }

  lemma ConnectedSelf(g: Graph, u: VariableId)
    ensures Connected(g, u, u)
  {
    assert IsPath(g, [u], u, u);
  }

  lemma ConnectedStep(g: Graph, u: VariableId, v: VariableId, w: VariableId)
    requires Connected(g, u, v) && Adjacent(g, v, w)
    ensures Connected(g, u, w)
  {
    var path :| IsPath(g, path, u, v);
    assert IsPath(g, path + [w], u, w);
  }

  lemma ConnectedTransitive(g: Graph, u: VariableId, v: VariableId, w: VariableId)
    requires Connected(g, u, v) && Connected(g, v, w)
    ensures Connected(g, u, w)
  {
    var p :| IsPath(g, p, u, v);
    var q :| IsPath(g, q, v, w);
    var r := p + q[1..];
    forall i | 0 <= i < |r| - 1 ensures Adjacent(g, r[i], r[i + 1]) {
      if i == |p| - 1 {
        assert r[i] == q[0];
      } else if i >= |p| {
        assert r[i] == q[i - |p| + 1] && r[i + 1] == q[i - |p| + 2];
      }
    }
    assert IsPath(g, r, u, w);
  }

  lemma {:induction false} ConnectedSymmetric(g: Graph, u: VariableId, v: VariableId)
    requires Mirrored(g) && Connected(g, u, v)
    ensures Connected(g, v, u)
  {
    var p :| IsPath(g, p, u, v);
    var n := |p|;
    var r := seq(n, i requires 0 <= i < n => p[n - 1 - i]);
    forall i | 0 <= i < n - 1 ensures Adjacent(g, r[i], r[i + 1]) {
      assert Adjacent(g, p[n - 2 - i], p[n - 2 - i + 1]);
    }
    assert IsPath(g, r, v, u);
  }

  // ---- Solutions ----------------------------------------------------------

  type Assignment = VariableId -> EscapeState

  /** `x` is closed under every transfer function leaving `v`. */
  ghost predicate Stable(g: Graph, x: Assignment, v: VariableId) {
    && (forall p :: p in Edges(g.backward, v) ==> BackwardTransfer(x(v), p.1).Leq(x(p.0)))
    && (forall p :: p in Edges(g.forward, v) ==> ForwardTransfer(x(v), p.1).Leq(x(p.0)))
  }

  /** `x` dominates the old states and the seed, and is closed on the component of `start`. */
  ghost predicate IsSolution(g: Graph, before: Cache, start: VariableId, seed: EscapeState, x: Assignment) {
    && (forall v :: StateOf(before, v).Leq(x(v)))
    && seed.Leq(x(start))
    && (forall v :: Connected(g, start, v) ==> Stable(g, x, v))
  }

  ghost predicate Below(x: Assignment, y: Assignment) {
    forall v :: x(v).Leq(y(v))
  }

  ghost function States(cache: Cache): Assignment {
    v => StateOf(cache, v)
  }

  /** `after` holds the least solution, and new entries only where a state changed. */
  ghost predicate IsPropagation(g: Graph, before: Cache, start: VariableId, seed: EscapeState, after: Cache) {
    && IsSolution(g, before, start, seed, States(after))
    && (forall x :: IsSolution(g, before, start, seed, x) ==> Below(States(after), x))
    && (forall v :: v in after <==> v in before || StateOf(after, v) != StateOf(before, v))
  }

  /** The outcome of a propagation is determined by its inputs. */
  lemma PropagationUnique(g: Graph, before: Cache, start: VariableId, seed: EscapeState, a: Cache, b: Cache)
    requires IsPropagation(g, before, start, seed, a)
    requires IsPropagation(g, before, start, seed, b)
    ensures a == b
  {
    assert Below(States(a), States(b)) && Below(States(b), States(a));
    forall v ensures StateOf(a, v) == StateOf(b, v) {
      assert States(a)(v).Leq(States(b)(v)) && States(b)(v).Leq(States(a)(v));
      LeqAntisymmetric(StateOf(a, v), StateOf(b, v));
    }
    assert forall v :: v in a <==> v in b;
    assert forall v :: v in a ==> a[v] == StateOf(a, v) && b[v] == StateOf(b, v);
  }

  /** Two graphs with the same edges, listed in any order and multiplicity. */
  ghost predicate SameEdges(g: Graph, h: Graph) {
    && (forall v, p :: p in Edges(g.forward, v) <==> p in Edges(h.forward, v))
    && (forall v, p :: p in Edges(g.backward, v) <==> p in Edges(h.backward, v))
  }

  lemma SameEdgesConnected(g: Graph, h: Graph, u: VariableId, v: VariableId)
    requires SameEdges(g, h) && Connected(g, u, v)
    ensures Connected(h, u, v)
  {
    var path :| IsPath(g, path, u, v);
    forall i | 0 <= i < |path| - 1 ensures Adjacent(h, path[i], path[i + 1]) {
      assert Adjacent(g, path[i], path[i + 1]);
    }
    assert IsPath(h, path, u, v);
  }

  lemma SameEdgesSolution(g: Graph, h: Graph, before: Cache, start: VariableId, seed: EscapeState, x: Assignment)
    requires SameEdges(g, h) && IsSolution(g, before, start, seed, x)
    ensures IsSolution(h, before, start, seed, x)
  {
    forall v | Connected(h, start, v) ensures Stable(h, x, v) {
      SameEdgesConnected(h, g, start, v);
      assert Stable(g, x, v);
    }
  }

  /** The order in which edges were inserted does not matter. */
  lemma PropagationIgnoresEdgeOrder(g: Graph, h: Graph, before: Cache, start: VariableId, seed: EscapeState, a: Cache,
                                    b: Cache)
    requires SameEdges(g, h)
    requires IsPropagation(g, before, start, seed, a)
    requires IsPropagation(h, before, start, seed, b)
    ensures a == b
  {
    SameEdgesSolution(g, h, before, start, seed, States(a));
    forall x | IsSolution(h, before, start, seed, x) ensures Below(States(a), x) {
      SameEdgesSolution(h, g, before, start, seed, x);
    }
    PropagationUnique(h, before, start, seed, a, b);
  }

  /** The old states outside the component of `start`, the strongest state inside. */
  ghost function Ceiling(g: Graph, before: Cache, start: VariableId): Assignment {
    u => if Connected(g, start, u) then GlobalEscape else StateOf(before, u)
  }

  lemma CeilingIsSolution(g: Graph, before: Cache, start: VariableId, seed: EscapeState)
    ensures IsSolution(g, before, start, seed, Ceiling(g, before, start))
  {
    var x := Ceiling(g, before, start);
    ConnectedSelf(g, start);
    hide Connected;
    forall u | Connected(g, start, u) ensures Stable(g, x, u) {
      forall p | p in Edges(g.backward, u) || p in Edges(g.forward, u) ensures x(p.0) == GlobalEscape {
        assert p == (p.0, p.1);
        ConnectedStep(g, start, u, p.0);
      }
    }
  }

  /** A propagation lowers no state and leaves every other component alone. */
  lemma PropagationLocal(g: Graph, before: Cache, start: VariableId, seed: EscapeState, after: Cache, v: VariableId)
    requires IsPropagation(g, before, start, seed, after)
    ensures StateOf(before, v).Leq(StateOf(after, v))
    ensures !Connected(g, start, v) ==> StateOf(after, v) == StateOf(before, v) && (v in after <==> v in before)
  {
    hide Connected, Stable;
    CeilingIsSolution(g, before, start, seed);
    assert StateOf(before, v).Leq(States(after)(v)) && States(after)(v).Leq(Ceiling(g, before, start)(v));
    if !Connected(g, start, v) {
      LeqAntisymmetric(StateOf(before, v), StateOf(after, v));
    }
  }
}
