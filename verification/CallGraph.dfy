/** The function call graph: cycle detection and the bottom-up analysis order. */
module CallGraphs {
  import opened EscapeTypes
  import opened Digraph

  ghost predicate NoDuplicates<T(!new)>(s: seq<T>) {
    forall i, j :: 0 <= i < j < |s| ==> s[i] != s[j]
  }

  /** In a bottom-up order a callee comes before its caller unless it can call back into it. */
  ghost predicate BottomUp(g: Successors<FunctionId>, order: seq<FunctionId>) {
    forall i, b :: 0 <= i < |order| && b in Succ(g, order[i]) ==>
      b in order[..i] || Reaches(g, b, order[i])
  }

  lemma BottomUpExtends(g: Successors<FunctionId>, order: seq<FunctionId>, f: FunctionId)
    requires BottomUp(g, order)
    requires forall b :: b in Succ(g, f) ==> b in order || Reaches(g, b, f)
    ensures BottomUp(g, order + [f])
  {
    var longer := order + [f];
    forall i, b | 0 <= i < |longer| && b in Succ(g, longer[i])
      ensures b in longer[..i] || Reaches(g, b, longer[i])
    {
      assert longer[..i] == order[..i];
      assert order[..|order|] == order;
    }
  }

  /** Without recursion every callee precedes its caller. */
  lemma AcyclicOrderIsTopological(g: Successors<FunctionId>, order: seq<FunctionId>)
    requires BottomUp(g, order) && Acyclic(g)
    ensures SuccessorsFirst(g, order)
  {
    forall i, b | 0 <= i < |order| && b in Succ(g, order[i]) ensures b in order[..i] {
      if Reaches(g, b, order[i]) {
        BackEdgeClosesCycle(g, order[i], b);
      }
    }
  }

  class CallGraph {
    var edges: Successors<FunctionId>
    var reverseEdges: Successors<FunctionId>
    var nodes: set<FunctionId>

    ghost predicate Valid()
      reads this
    {
      && (forall a, b :: b in Succ(edges, a) <==> a in Succ(reverseEdges, b))
      && (forall a, b {:trigger b in Succ(edges, a)} :: b in Succ(edges, a) ==> a in nodes && b in nodes)
    }

    constructor ()
      ensures Valid()
      ensures edges == map[] && reverseEdges == map[] && nodes == {}
    {
      edges, reverseEdges, nodes := map[], map[], {};
    }

    method AddNode(f: FunctionId)
      requires Valid()
      modifies this
      ensures Valid()
      ensures nodes == old(nodes) + {f} && edges == old(edges) && reverseEdges == old(reverseEdges)
    {
      nodes := nodes + {f};
    }

    method AddEdge(caller: FunctionId, callee: FunctionId)
      requires Valid()
      modifies this
      ensures Valid()
      ensures nodes == old(nodes) + {caller, callee}
      ensures edges == old(edges)[caller := Succ(old(edges), caller) + {callee}]
      ensures reverseEdges == old(reverseEdges)[callee := Succ(old(reverseEdges), callee) + {caller}]
    {
      ghost var edges0, reverse0 := edges, reverseEdges;
      edges := edges[caller := Succ(edges, caller) + {callee}];
      reverseEdges := reverseEdges[callee := Succ(reverseEdges, callee) + {caller}];
      nodes := nodes + {caller};
      nodes := nodes + {callee};
      assert forall a, b :: b in Succ(edges, a) <==> b in Succ(edges0, a) || (a == caller && b == callee);
      assert forall a, b :: a in Succ(reverseEdges, b) <==> a in Succ(reverse0, b) || (a == caller && b == callee);
    }

    /** True exactly when a function reachable from `start` can call itself again. */
    method HasCycle(start: FunctionId) returns (found: bool)
      requires Valid()
      ensures found <==> exists v :: Reaches(edges, start, v) && OnCycle(edges, v)
    {
      ReachesSelf(edges, start);
      var visited, recStack;
      ghost var finished;
      found, visited, recStack, finished := HasCycleUtil(start, start, {}, {}, []);
      if !found {
        forall v | Reaches(edges, start, v) ensures !OnCycle(edges, v) {
          SuccessorsFirstAcyclic(edges, finished, start, v);
        }
      }
    }

    /** `finished` records the functions that left the recursion stack, in that order. */
    method HasCycleUtil(ghost start: FunctionId, f: FunctionId, visited0: set<FunctionId>,
                        recStack0: set<FunctionId>, ghost finished0: seq<FunctionId>)
      returns (found: bool, visited: set<FunctionId>, recStack: set<FunctionId>, ghost finished: seq<FunctionId>)
      requires Valid()
      requires Reaches(edges, start, f)
      requires forall a :: a in recStack0 ==> Leads(edges, a, f)
      requires recStack0 <= visited0 && (forall a :: a in finished0 <==> a in visited0 - recStack0)
      requires SuccessorsFirst(edges, finished0)
      ensures found ==> exists v :: Reaches(edges, start, v) && OnCycle(edges, v)
      ensures !found ==> recStack == recStack0 && f in finished && SuccessorsFirst(edges, finished)
      ensures !found ==> recStack <= visited && (forall a :: a in finished0 ==> a in finished)
      ensures !found ==> forall a :: a in finished <==> a in visited - recStack
      decreases nodes + {start} - recStack0
    {
      visited, recStack, finished := visited0, recStack0, finished0;
      if f in recStack {
        return true, visited, recStack, finished;
      }
      if f in visited {
        return false, visited, recStack, finished;
      }
      visited := visited + {f};
      recStack := recStack + {f};
      ReachesSelf(edges, f);
      StartOrNode(start, f);
      forall a | a in recStack0 ensures Reaches(edges, a, f) {
        LeadsReaches(edges, a, f);
      }
      var callees := Succ(edges, f);
      var remaining := callees;
      while remaining != {}
        invariant remaining <= callees
        invariant recStack == recStack0 + {f} && recStack <= visited
        invariant forall a :: a in recStack ==> Reaches(edges, a, f)
        invariant forall a :: a in finished <==> a in visited - recStack
        invariant SuccessorsFirst(edges, finished) && (forall a :: a in finished0 ==> a in finished)
        invariant forall b :: b in callees - remaining ==> b in finished
      {
        var callee :| callee in remaining;
        remaining := remaining - {callee};
        ReachesStep(edges, start, f, callee);
        found, visited, recStack, finished := HasCycleUtil(start, callee, visited, recStack, finished);
        if found {
          return;
        }
      }
      recStack := recStack - {f};
      found := false;
      FinishedExtends(finished, f);
      finished := finished + [f];
    }

    /** All functions, bottom-up: leaves first, whatever order the node and callee sets are walked in. */
    method TopologicalOrder() returns (result: seq<FunctionId>)
      requires Valid()
      ensures NoDuplicates(result) && (forall f :: f in result <==> f in nodes)
      ensures BottomUp(edges, result)
    {
      result := [];
      var visited, inProgress := {}, {};
      var remaining := nodes;
      while remaining != {}
        invariant remaining <= nodes && inProgress == {}
        invariant visited <= nodes && (forall f :: f in result <==> f in visited)
        invariant NoDuplicates(result) && BottomUp(edges, result)
        invariant nodes - remaining <= visited
      {
        var f :| f in remaining;
        remaining := remaining - {f};
        if f !in visited {
          visited, inProgress, result := TopologicalDfs(f, visited, inProgress, result);
        }
      }
    }

    method TopologicalDfs(f: FunctionId, visited0: set<FunctionId>, inProgress0: set<FunctionId>,
                          result0: seq<FunctionId>)
      returns (visited: set<FunctionId>, inProgress: set<FunctionId>, result: seq<FunctionId>)
      requires Valid()
      requires f in nodes && visited0 <= nodes && inProgress0 !! visited0
      requires forall a :: a in inProgress0 ==> Reaches(edges, a, f)
      requires NoDuplicates(result0) && (forall a :: a in result0 <==> a in visited0)
      requires BottomUp(edges, result0)
      ensures inProgress == inProgress0 && inProgress !! visited
      ensures visited0 <= visited <= nodes
      ensures f in visited || f in inProgress
      ensures NoDuplicates(result) && (forall a :: a in result <==> a in visited)
      ensures BottomUp(edges, result)
      decreases nodes - inProgress0
    {
      visited, inProgress, result := visited0, inProgress0, result0;
      if f in visited {
        return;
      }
      if f in inProgress {
        return;
      }
      inProgress := inProgress + {f};
      ReachesSelf(edges, f);
      var callees := Succ(edges, f);
      var remaining := callees;
      while remaining != {}
        invariant remaining <= callees
        invariant inProgress == inProgress0 + {f} && inProgress !! visited
        invariant visited0 <= visited <= nodes
        invariant NoDuplicates(result) && (forall a :: a in result <==> a in visited)
        invariant BottomUp(edges, result)
        invariant forall b :: b in callees - remaining ==> b in visited || b in inProgress
      {
        var callee :| callee in remaining;
        remaining := remaining - {callee};
        forall a | a in inProgress ensures Reaches(edges, a, callee) {
          ReachesStep(edges, a, f, callee);
        }
        visited, inProgress, result := TopologicalDfs(callee, visited, inProgress, result);
      }
      inProgress := inProgress - {f};
      visited := visited + {f};
      BottomUpExtends(edges, result, f);
      result := result + [f];
    }

    lemma StartOrNode(start: FunctionId, f: FunctionId)
      requires Valid() && Reaches(edges, start, f)
      ensures f in nodes + {start}
    {
      var walk :| IsWalk(edges, walk, start, f);
      if |walk| > 1 {
        assert walk[|walk| - 2 + 1] in Succ(edges, walk[|walk| - 2]);
      }
    }

    lemma FinishedExtends(finished: seq<FunctionId>, f: FunctionId)
      requires SuccessorsFirst(edges, finished)
      requires forall b :: b in Succ(edges, f) ==> b in finished
      ensures SuccessorsFirst(edges, finished + [f])
    {
      var longer := finished + [f];
      forall i, b | 0 <= i < |longer| && b in Succ(edges, longer[i]) ensures b in longer[..i] {
        assert longer[..i] == finished[..i];
        assert finished[..|finished|] == finished;
      }
    }
  }
}
