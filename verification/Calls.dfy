/** The call relation of a program and what "its callees are already summarized" means. */
module Calls {
  import opened Wrappers
  import opened EscapeTypes
  import opened Digraph
  import opened CallGraphs
  import Mir

  /** The callee of a call statement, when it is named. */
  function NamedCallee(statement: Mir.Statement): Option<FunctionId> {
    if statement.Call? && (statement.callee.Function? || statement.callee.Variable?)
    then Some(FunctionId(statement.callee.name))
    else None
  }

  /** The statement calls the function `callee`, directly or through a variable of that name. */
  predicate IsCallOf(s: Mir.Statement, callee: FunctionId) {
    s.Call? && (s.callee == Mir.Function(callee.name) || s.callee == Mir.Variable(callee.name))
  }

  ghost predicate CallsIn(statements: seq<Mir.Statement>, callee: FunctionId) {
    exists s :: s in statements && IsCallOf(s, callee)
  }

  ghost predicate CallsFrom(blocks: seq<Mir.BasicBlock>, callee: FunctionId) {
    exists block :: block in blocks && CallsIn(block.statements, callee)
  }

  /** `calls` relates each function of the program to exactly the functions its statements call. */
  ghost predicate IsCallRelation(program: Mir.MirProgram, calls: Successors<FunctionId>) {
    forall a, b {:trigger b in Succ(calls, a)} ::
      b in Succ(calls, a) <==> a.name in program && CallsFrom(program[a.name].blocks, b)
  }

  /** A call makes an edge to the function under whose identifier the analyzer looks its summary up. */
  lemma CallMakesEdge(program: Mir.MirProgram, calls: Successors<FunctionId>, a: FunctionId, block: Mir.BasicBlock,
                      s: Mir.Statement)
    requires IsCallRelation(program, calls) && a.name in program && block in program[a.name].blocks
    requires s in block.statements && s.Call? && (s.callee.Function? || s.callee.Variable?)
    ensures Mir.CalleeId(s.callee) == FunctionId(s.callee.name)
    ensures FunctionId(s.callee.name) in Succ(calls, a)
  {
    assert IsCallOf(s, FunctionId(s.callee.name));
    assert CallsIn(block.statements, FunctionId(s.callee.name));
    assert CallsFrom(program[a.name].blocks, FunctionId(s.callee.name));
  }

  /** And every edge comes from such a call. */
  lemma EdgeIsCall(program: Mir.MirProgram, calls: Successors<FunctionId>, a: FunctionId, b: FunctionId)
    returns (block: Mir.BasicBlock, s: Mir.Statement)
    requires IsCallRelation(program, calls) && b in Succ(calls, a)
    ensures a.name in program && block in program[a.name].blocks && s in block.statements
    ensures s.Call? && (s.callee.Function? || s.callee.Variable?) && Mir.CalleeId(s.callee) == b
  {
    block :| block in program[a.name].blocks && CallsIn(block.statements, b);
    s :| s in block.statements && IsCallOf(s, b);
  }

  /** Every program function is stored under its own name. */
  predicate KeysAreNames(program: Mir.MirProgram) {
    forall name :: name in program ==> program[name].name == name
  }

  /** Each program function a listed function calls is listed before it, or can call back into it. */
  ghost predicate CalleesFirst(program: Mir.MirProgram, calls: Successors<FunctionId>, functions: seq<FunctionId>) {
    forall i, b :: 0 <= i < |functions| && b in Succ(calls, functions[i]) && b.name in program ==>
      b in functions[..i] || Reaches(calls, b, functions[i])
  }

  /** `functions` lists the functions of `order` that belong to the program. */
  ghost predicate ListsProgram(program: Mir.MirProgram, order: seq<FunctionId>, functions: seq<FunctionId>) {
    NoDuplicates(functions) && forall f :: f in functions <==> f in order && f.name in program
  }

  /** The next function of a bottom-up order, if it belongs to the program at all. */
  lemma ListNext(program: Mir.MirProgram, calls: Successors<FunctionId>, order: seq<FunctionId>, i: nat,
                 functions: seq<FunctionId>)
    requires i < |order| && BottomUp(calls, order) && NoDuplicates(order)
    requires ListsProgram(program, order[..i], functions) && CalleesFirst(program, calls, functions)
    ensures var next := if order[i].name in program then functions + [order[i]] else functions;
            ListsProgram(program, order[..i + 1], next) && CalleesFirst(program, calls, next)
  {
    assert order[..i + 1] == order[..i] + [order[i]];
    if order[i].name in program {
      var next := functions + [order[i]];
      forall k, b | 0 <= k < |next| && b in Succ(calls, next[k]) && b.name in program
        ensures b in next[..k] || Reaches(calls, b, next[k])
      {
        assert next[..k] == functions[..k];
        if k == |functions| {
          assert functions[..k] == functions;
          assert b in order[..i] || Reaches(calls, b, order[i]);
        }
      }
    }
  }

  method BuildFromProgram(program: Mir.MirProgram) returns (graph: CallGraph)
    ensures fresh(graph) && graph.Valid()
    ensures IsCallRelation(program, graph.edges)
    ensures forall name :: name in program ==> FunctionId(name) in graph.nodes
  {
    graph := new CallGraph();
    var remaining := program.Keys;
    while remaining != {}
      invariant graph.Valid() && remaining <= program.Keys && fresh(graph)
      invariant graph.edges == map[]
      invariant forall name :: name in program.Keys - remaining ==> FunctionId(name) in graph.nodes
    {
      var name :| name in remaining;
      remaining := remaining - {name};
      graph.AddNode(FunctionId(name));
    }
    remaining := program.Keys;
    while remaining != {}
      invariant graph.Valid() && remaining <= program.Keys && fresh(graph)
      invariant forall name :: name in program ==> FunctionId(name) in graph.nodes
      invariant forall a, b {:trigger b in Succ(graph.edges, a)} :: b in Succ(graph.edges, a) <==>
                  a.name in program.Keys - remaining && CallsFrom(program[a.name].blocks, b)
    {
      var name :| name in remaining;
      ghost var before := graph.edges;
      AddCalls(graph, FunctionId(name), program[name]);
      remaining := remaining - {name};
      forall a, b ensures b in Succ(graph.edges, a) <==>
                    (a.name in program.Keys - remaining && CallsFrom(program[a.name].blocks, b))
      {
        assert a == FunctionId(name) <==> a.name == name;
        assert b in Succ(before, a) <==>
               (a.name in program.Keys - remaining - {name} && CallsFrom(program[a.name].blocks, b));
      }
    }
  }

  method AddCalls(graph: CallGraph, caller: FunctionId, function_: Mir.MirFunction)
    requires graph.Valid()
    modifies graph
    ensures graph.Valid() && old(graph.nodes) <= graph.nodes
    ensures forall a, b {:trigger b in Succ(graph.edges, a)} :: b in Succ(graph.edges, a) <==>
              b in Succ(old(graph.edges), a) || (a == caller && CallsFrom(function_.blocks, b))
  {
    var blocks := function_.blocks;
    for i := 0 to |blocks|
      invariant graph.Valid() && old(graph.nodes) <= graph.nodes
      invariant forall a, b {:trigger b in Succ(graph.edges, a)} :: b in Succ(graph.edges, a) <==>
                  b in Succ(old(graph.edges), a) || (a == caller && CallsFrom(blocks[..i], b))
    {
      AddBlockCalls(graph, caller, blocks[i]);
      assert blocks[..i + 1] == blocks[..i] + [blocks[i]];
      forall b
        ensures CallsFrom(blocks[..i + 1], b) <==> CallsFrom(blocks[..i], b) || CallsIn(blocks[i].statements, b)
      {
      }
    }
    assert blocks[..|blocks|] == blocks;
  }

  method AddBlockCalls(graph: CallGraph, caller: FunctionId, block: Mir.BasicBlock)
    requires graph.Valid()
    modifies graph
    ensures graph.Valid() && old(graph.nodes) <= graph.nodes
    ensures forall a, b {:trigger b in Succ(graph.edges, a)} :: b in Succ(graph.edges, a) <==>
              b in Succ(old(graph.edges), a) || (a == caller && CallsIn(block.statements, b))
  {
    var statements := block.statements;
    for j := 0 to |statements|
      invariant graph.Valid() && old(graph.nodes) <= graph.nodes
      invariant forall a, b {:trigger b in Succ(graph.edges, a)} :: b in Succ(graph.edges, a) <==>
                  b in Succ(old(graph.edges), a) || (a == caller && CallsIn(statements[..j], b))
    {
      ghost var before := graph.edges;
      var callee := NamedCallee(statements[j]);
      if callee.Some? {
        graph.AddEdge(caller, callee.value);
      }
      assert forall a, b {:trigger b in Succ(graph.edges, a)} ::
          b in Succ(graph.edges, a) <==> b in Succ(before, a) || (a == caller && callee == Some(b));
      assert statements[..j + 1] == statements[..j] + [statements[j]];
      forall b
        ensures CallsIn(statements[..j + 1], b) <==>
                CallsIn(statements[..j], b) || NamedCallee(statements[j]) == Some(b)
      {
        assert IsCallOf(statements[j], b) <==> NamedCallee(statements[j]) == Some(b);
      }
    }
    assert statements[..|statements|] == statements;
  }
}
