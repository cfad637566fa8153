/** Walks, reachability and cycles in a finite directed graph given by its successor sets. */
module Digraph {

  type Successors<N> = map<N, set<N>>

  function Succ<N(!new)>(g: Successors<N>, a: N): set<N> {
    if a in g then g[a] else {}
  }

  ghost predicate IsWalk<N(!new)>(g: Successors<N>, walk: seq<N>, a: N, b: N) {
    && |walk| > 0 && walk[0] == a && walk[|walk| - 1] == b
    && forall i :: 0 <= i < |walk| - 1 ==> walk[i + 1] in Succ(g, walk[i])
  }

  ghost predicate Reaches<N(!new)>(g: Successors<N>, a: N, b: N) {
    exists walk :: IsWalk(g, walk, a, b)
  }

  /** A walk of at least one edge leads from `a` to `b`. */
  ghost predicate Leads<N(!new)>(g: Successors<N>, a: N, b: N) {
    exists c :: Reaches(g, a, c) && b in Succ(g, c)
  }

  /** `a` lies on a closed walk of at least one edge. */
  ghost predicate OnCycle<N(!new)>(g: Successors<N>, a: N) {
    Leads(g, a, a)
  }

  ghost predicate Acyclic<N(!new)>(g: Successors<N>) {
    forall a :: !OnCycle(g, a)
  }

  lemma ReachesSelf<N(!new)>(g: Successors<N>, a: N)
    ensures Reaches(g, a, a)
  {
    assert IsWalk(g, [a], a, a);
  }

  lemma ReachesStep<N(!new)>(g: Successors<N>, a: N, b: N, c: N)
    requires Reaches(g, a, b) && c in Succ(g, b)
    ensures Reaches(g, a, c)
  {
    var walk :| IsWalk(g, walk, a, b);
    assert IsWalk(g, walk + [c], a, c);
  }

  lemma LeadsReaches<N(!new)>(g: Successors<N>, a: N, b: N)
    requires Leads(g, a, b)
    ensures Reaches(g, a, b)
  {
    var c :| Reaches(g, a, c) && b in Succ(g, c);
    ReachesStep(g, a, c, b);
  }

  /** A successor that can come back closes a cycle. */
  lemma BackEdgeClosesCycle<N(!new)>(g: Successors<N>, a: N, b: N)
    requires b in Succ(g, a) && Reaches(g, b, a)
    ensures OnCycle(g, a) && OnCycle(g, b)
  {
    var walk :| IsWalk(g, walk, b, a);
    var round := [a] + walk;
    var c := round[|round| - 2];
    assert walk == round[1..];
    forall i | 0 <= i < |round| - 1 ensures round[i + 1] in Succ(g, round[i]) {
      if i > 0 {
        assert walk[i - 1 + 1] in Succ(g, walk[i - 1]);
      }
    }
    assert IsWalk(g, round[..|round| - 1], a, c);
  }

  /** `order` lists every successor of an element before the element itself. */
  ghost predicate SuccessorsFirst<N(!new)>(g: Successors<N>, order: seq<N>) {
    forall i, b :: 0 <= i < |order| && b in Succ(g, order[i]) ==> b in order[..i]
  }

  lemma WalkDescends<N(!new)>(g: Successors<N>, order: seq<N>, walk: seq<N>, i: nat, b: N)
    requires SuccessorsFirst(g, order)
    requires i < |order| && IsWalk(g, walk, order[i], b)
    ensures b in order[..i + 1]
    ensures |walk| > 1 ==> b in order[..i]
    decreases |walk|
  {
    if |walk| > 1 {
      assert walk[0 + 1] in Succ(g, walk[0]);
      var j :| 0 <= j < i && order[j] == walk[1];
      assert IsWalk(g, walk[1..], order[j], b);
      WalkDescends(g, order, walk[1..], j, b);
      assert order[..j + 1] <= order[..i];
    }
  }

  /** What is listed successors-first contains no cycle and cannot leave the list. */
  lemma SuccessorsFirstAcyclic<N(!new)>(g: Successors<N>, order: seq<N>, a: N, v: N)
    requires SuccessorsFirst(g, order) && a in order && Reaches(g, a, v)
    ensures v in order && !OnCycle(g, v)
  {
    var i :| 0 <= i < |order| && order[i] == a;
    var walk :| IsWalk(g, walk, a, v);
    WalkDescends(g, order, walk, i, v);
    var k := FirstIndex(order, v);
    if OnCycle(g, v) {
      var c :| Reaches(g, v, c) && v in Succ(g, c);
      var around :| IsWalk(g, around, v, c);
      assert IsWalk(g, around + [v], v, v);
      WalkDescends(g, order, around + [v], k, v);
    }
  }

  lemma FirstIndex<N(!new)>(order: seq<N>, v: N) returns (k: nat)
    requires v in order
    ensures k < |order| && order[k] == v && v !in order[..k]
  {
    k := 0;
    while order[k] != v
      invariant k < |order| && v !in order[..k] && v in order[k..]
      decreases |order| - k
    {
      k := k + 1;
    }
  }
}
