/** What propagating every recorded escape state through the graph achieves, whatever the order. */
module Spreading {
  import opened EscapeTypes
  import opened Propagation
  import opened VariableGraphs
  import opened AnalysisStates

  /** Information after the cache moved from `before` to `after`: changed variables take the new state. */
  ghost predicate InfoFollowsCache(info: InfoMap, info': InfoMap, before: Cache, after: Cache) {
    forall v ::
      if StateOf(after, v) != StateOf(before, v)
      then v in info' && info'[v] == InfoOf(info, v).(state := StateOf(after, v))
      else (v in info' <==> v in info) && (v in info ==> info'[v] == info[v])
  }

  lemma InfoFollowsTwice(info: InfoMap, info1: InfoMap, info2: InfoMap, a: Cache, b: Cache, c: Cache)
    requires InfoFollowsCache(info, info1, a, b) && InfoFollowsCache(info1, info2, b, c)
    requires CacheLeq(a, b) && CacheLeq(b, c)
    ensures InfoFollowsCache(info, info2, a, c)
  {
    forall v
      ensures if StateOf(c, v) != StateOf(a, v)
              then v in info2 && info2[v] == InfoOf(info, v).(state := StateOf(c, v))
              else (v in info2 <==> v in info) && (v in info ==> info2[v] == info[v])
    {
      assert StateOf(a, v).Leq(StateOf(b, v)) && StateOf(b, v).Leq(StateOf(c, v));
      if StateOf(c, v) == StateOf(a, v) {
        LeqAntisymmetric(StateOf(a, v), StateOf(b, v));
      }
    }
  }

  /** The situation after the recorded states of `done` have been propagated from `st`. */
  ghost predicate PartlySpread(st: AnalysisState, done: set<VariableId>, cache: Cache, info: InfoMap) {
    && CacheLeq(st.cache, cache)
    && (forall v :: StateOf(cache, v).Leq(ComponentJoin(st.graph, st.marks, v)))
    && (forall u, v :: u in done && Connected(st.graph, u, v) ==> InfoOf(st.info, u).state.Leq(StateOf(cache, v)))
    && InfoFollowsCache(st.info, info, st.cache, cache)
    && (forall v :: v in cache <==> v in st.cache || StateOf(cache, v) != StateOf(st.cache, v))
  }

  lemma NothingSpread(st: AnalysisState)
    requires Sound(st)
    ensures PartlySpread(st, {}, st.cache, st.info) && Mirrored(st.graph)
  {
    hide ComponentJoin, Mirrored, HeapStoresMarked;
  }

  /** Everything has been propagated: both stores hold the join of the component's marks. */
  ghost predicate Spread(st: AnalysisState, st': AnalysisState) {
    && st' == st.(cache := st'.cache, info := st'.info)
    && (forall v :: StateOf(st'.cache, v) == ComponentJoin(st.graph, st.marks, v))
    && (forall v :: InfoOf(st'.info, v).state == ComponentJoin(st.graph, st.marks, v))
    && InfoFollowsCache(st.info, st'.info, st.cache, st'.cache)
    && (forall v :: v in st'.cache <==> v in st.cache || StateOf(st'.cache, v) != StateOf(st.cache, v))
  }

  /** The result does not depend on the order in which hash maps and edge lists were walked. */
  lemma SpreadUnique(st: AnalysisState, a: AnalysisState, b: AnalysisState)
    requires Spread(st, a) && Spread(st, b)
    ensures a == b
  {
    forall v ensures v in a.cache <==> v in b.cache
             ensures v in a.cache ==> a.cache[v] == b.cache[v]
    {
      assert StateOf(a.cache, v) == StateOf(b.cache, v);
    }
    assert a.cache == b.cache;
    forall v ensures v in a.info <==> v in b.info
             ensures v in a.info ==> a.info[v] == b.info[v]
    {
      assert StateOf(a.cache, v) == StateOf(b.cache, v);
    }
    assert a.info == b.info;
  }

  /** After spreading the information map and the graph's cache agree on every variable. */
  lemma SpreadAgrees(st: AnalysisState, st': AnalysisState)
    requires Spread(st, st')
    ensures forall v :: InfoOf(st'.info, v).state == StateOf(st'.cache, v) == ComponentJoin(st'.graph, st'.marks, v)
  {
  }

  /** Spreading lowers nobody, although a single propagation may. */
  lemma SpreadLowersNobody(st: AnalysisState, st': AnalysisState, v: VariableId)
    requires Consistent(st) && Spread(st, st')
    ensures InfoOf(st.info, v).state.Leq(InfoOf(st'.info, v).state)
  {
  }

  /** `v` escapes globally, then `u` flows into it, which drops `v` from the cache, then `u` escapes as an argument. */
  function Lowering(u: VariableId, v: VariableId, point: EscapePoint): AnalysisState {
    var start := AnalysisState(Graph(map[], map[]), map[], map[], map[], 1, map[]);
    var flow := WeightedEdge(DirectAssignment, Identity);
    WithMark(WithEdge(WithMark(start, v, GlobalEscape, point), u, v, flow), u, ArgEscape, point)
  }

  lemma LoweringSound(u: VariableId, v: VariableId, point: EscapePoint)
    ensures Sound(Lowering(u, v, point))
  {
    hide WithMark, WithEdge;
    var start := AnalysisState(Graph(map[], map[]), map[], map[], map[], 1, map[]);
    var flow := WeightedEdge(DirectAssignment, Identity);
    var st1 := WithMark(start, v, GlobalEscape, point);
    var st2 := WithEdge(st1, u, v, flow);
    assert Sound(start);
    hide Sound;
    MarkFollows(start, v, GlobalEscape, point);
    EdgeFollows(st1, u, v, flow);
    MarkFollows(st2, u, ArgEscape, point);
  }

  /** A single propagation can lower what is known: from a sound state, `v` drops from global to argument escape. */
  lemma OneStepCanLower(u: VariableId, v: VariableId, point: EscapePoint)
    requires u != v
    ensures var st := Lowering(u, v, point);
            var cache := st.cache[v := ArgEscape];
            var info := st.info[v := InfoOf(st.info, v).(state := ArgEscape)];
            && Sound(st)
            && IsPropagation(st.graph, st.cache, u, InfoOf(st.info, u).state, cache)
            && InfoFollowsCache(st.info, info, st.cache, cache)
            && InfoOf(st.info, v).state == GlobalEscape && InfoOf(info, v).state == ArgEscape
  {
    LoweringSound(u, v, point);
    hide Sound;
    var st := Lowering(u, v, point);
    var flow := WeightedEdge(DirectAssignment, Identity);
    var cache := st.cache[v := ArgEscape];
    var none: EdgeMap := map[];
    assert Edges(none, u) + [(v, flow)] == [(v, flow)] && Edges(none, v) + [(u, flow)] == [(u, flow)];
    assert st.graph == Inserted(Graph(none, none), u, v, flow);
    assert st.graph == Graph(map[u := [(v, flow)]], map[v := [(u, flow)]]);
    assert st.cache == map[u := ArgEscape] && InfoOf(st.info, u).state == ArgEscape;
    assert IsSolution(st.graph, st.cache, u, ArgEscape, States(cache));
    forall x | IsSolution(st.graph, st.cache, u, ArgEscape, x) ensures Below(States(cache), x) {
      ConnectedSelf(st.graph, u);
      assert Stable(st.graph, x, u);
      assert (v, flow) in Edges(st.graph.forward, u);
    }
  }

  ghost function Joins(st: AnalysisState): Assignment {
    v => ComponentJoin(st.graph, st.marks, v)
  }

  /** In an analyzer graph the component join is closed under every transfer function. */
  lemma JoinIsSolution(st: AnalysisState, cache: Cache, start: VariableId, seed: EscapeState)
    requires Sound(st)
    requires forall v :: StateOf(cache, v).Leq(ComponentJoin(st.graph, st.marks, v))
    requires seed.Leq(ComponentJoin(st.graph, st.marks, start))
    ensures IsSolution(st.graph, cache, start, seed, Joins(st))
  {
    ghost var x := Joins(st);
    forall v ensures Stable(st.graph, x, v) {
      forall p | p in Edges(st.graph.backward, v) ensures BackwardTransfer(x(v), p.1).Leq(x(p.0)) {
        NeighbourSharesJoin(st, v, p);
      }
      forall p | p in Edges(st.graph.forward, v) ensures ForwardTransfer(x(v), p.1).Leq(x(p.0)) {
        NeighbourSharesJoin(st, v, p);
        assert Carries(p.1);
        if Raises(p.1) {
          ConnectedSelf(st.graph, v);
          JoinDominates(st.graph, st.marks, v, v);
        }
      }
    }
  }

  lemma NeighbourSharesJoin(st: AnalysisState, v: VariableId, p: (VariableId, WeightedEdge))
    requires Sound(st)
    requires p in Edges(st.graph.backward, v) || p in Edges(st.graph.forward, v)
    ensures ComponentJoin(st.graph, st.marks, v) == ComponentJoin(st.graph, st.marks, p.0)
  {
    assert p == (p.0, p.1);
    assert Adjacent(st.graph, v, p.0);
    ConnectedSelf(st.graph, v);
    ConnectedStep(st.graph, v, v, p.0);
    JoinSharedInComponent(st.graph, st.marks, v, p.0);
  }

  /** In an analyzer graph a propagated state arrives undiminished everywhere in the component. */
  lemma {:induction false} SeedArrives(st: AnalysisState, cache: Cache, start: VariableId, seed: EscapeState,
                                       after: Cache, path: seq<VariableId>, v: VariableId)
    requires Sound(st) && IsPropagation(st.graph, cache, start, seed, after)
    requires IsPath(st.graph, path, start, v)
    ensures seed.Leq(StateOf(after, v))
    decreases |path|
  {
    if |path| > 1 {
      var u := path[|path| - 2];
      assert IsPath(st.graph, path[..|path| - 1], start, u);
      SeedArrives(st, cache, start, seed, after, path[..|path| - 1], u);
      assert Adjacent(st.graph, u, path[|path| - 2 + 1]);
      EdgeCarries(st, u, v, States(after), start);
    } else {
      assert seed.Leq(States(after)(start));
    }
  }

  lemma EdgeCarries(st: AnalysisState, u: VariableId, v: VariableId, x: Assignment, start: VariableId)
    requires Sound(st) && Adjacent(st.graph, u, v)
    requires Stable(st.graph, x, u)
    ensures x(u).Leq(x(v))
  {
    var e :| (v, e) in Edges(st.graph.forward, u) || (v, e) in Edges(st.graph.backward, u);
    assert (v, e) in Edges(st.graph.forward, u) || (u, e) in Edges(st.graph.forward, v);
    assert (u, e).1 == e && (v, e).1 == e && (v, e).0 == v;
    assert Carries(e);
  }

  lemma PropagationWithinJoin(st: AnalysisState, cache: Cache, u: VariableId, seed: EscapeState, cache': Cache)
    requires Sound(st) && IsPropagation(st.graph, cache, u, seed, cache')
    requires forall v :: StateOf(cache, v).Leq(ComponentJoin(st.graph, st.marks, v))
    requires seed.Leq(ComponentJoin(st.graph, st.marks, u))
    ensures forall v :: StateOf(cache', v).Leq(ComponentJoin(st.graph, st.marks, v))
  {
    JoinIsSolution(st, cache, u, seed);
    assert Below(States(cache'), Joins(st));
    forall v ensures StateOf(cache', v).Leq(ComponentJoin(st.graph, st.marks, v)) {
      assert States(cache')(v).Leq(Joins(st)(v));
    }
  }

  /** One more recorded state has been propagated and its changes copied into the information map. */
  lemma SpreadOneMore(st: AnalysisState, done: set<VariableId>, cache: Cache, info: InfoMap,
                      u: VariableId, cache': Cache, info': InfoMap)
    requires Sound(st) && PartlySpread(st, done, cache, info)
    requires IsPropagation(st.graph, cache, u, InfoOf(st.info, u).state, cache')
    requires InfoFollowsCache(info, info', cache, cache')
    ensures PartlySpread(st, done + {u}, cache', info')
  {
    hide ComponentJoin, Connected, IsSolution;
    var seed := InfoOf(st.info, u).state;
    PropagationWithinJoin(st, cache, u, seed, cache');
    forall v ensures StateOf(cache, v).Leq(StateOf(cache', v)) {
      PropagationLocal(st.graph, cache, u, seed, cache', v);
    }
    forall v | Connected(st.graph, u, v) ensures seed.Leq(StateOf(cache', v)) {
      SeedArrivesAt(st, cache, u, seed, cache', v);
    }
    forall w, v | w in done + {u}
        && Connected(st.graph, w, v) ensures InfoOf(st.info, w).state.Leq(StateOf(cache', v)) {
      if w != u {
        assert InfoOf(st.info, w).state.Leq(StateOf(cache, v));
        assert StateOf(cache, v).Leq(StateOf(cache', v));
      }
    }
    InfoFollowsTwice(st.info, info, info', st.cache, cache, cache');
    KeysFollow(st.cache, cache, cache');
  }

  lemma SeedArrivesAt(st: AnalysisState, cache: Cache, start: VariableId, seed: EscapeState, after: Cache,
                      v: VariableId)
    requires Sound(st) && IsPropagation(st.graph, cache, start, seed, after)
    requires Connected(st.graph, start, v)
    ensures seed.Leq(StateOf(after, v))
  {
    var path :| IsPath(st.graph, path, start, v);
    SeedArrives(st, cache, start, seed, after, path, v);
  }

  lemma KeysFollow(a: Cache, b: Cache, c: Cache)
    requires CacheLeq(a, b) && CacheLeq(b, c)
    requires forall v :: v in b <==> v in a || StateOf(b, v) != StateOf(a, v)
    requires forall v :: v in c <==> v in b || StateOf(c, v) != StateOf(b, v)
    ensures CacheLeq(a, c)
    ensures forall v :: v in c <==> v in a || StateOf(c, v) != StateOf(a, v)
  {
    forall v ensures v in c <==> v in a || StateOf(c, v) != StateOf(a, v)
             ensures StateOf(a, v).Leq(StateOf(c, v))
    {
      assert StateOf(a, v).Leq(StateOf(b, v)) && StateOf(b, v).Leq(StateOf(c, v));
      if StateOf(c, v) == StateOf(a, v) {
        LeqAntisymmetric(StateOf(a, v), StateOf(b, v));
      }
    }
  }

  /** When every escaping variable has been propagated, both stores hold the component joins. */
  lemma AllDoneIsSpread(st: AnalysisState, done: set<VariableId>, cache: Cache, info: InfoMap)
    requires Sound(st) && PartlySpread(st, done, cache, info)
    requires forall v :: InfoOf(st.info, v).state != NoEscape ==> v in done
    ensures Spread(st, st.(cache := cache, info := info))
  {
    forall v
      ensures StateOf(cache, v) == ComponentJoin(st.graph, st.marks, v)
      ensures InfoOf(info, v).state == ComponentJoin(st.graph, st.marks, v)
    {
      forall u | Connected(st.graph, v, u) ensures StateOf(st.marks, u).Leq(StateOf(cache, v)) {
        ConnectedSymmetric(st.graph, v, u);
        assert StateOf(st.marks, u).Leq(InfoOf(st.info, u).state);
        if InfoOf(st.info, u).state != NoEscape {
          assert InfoOf(st.info, u).state.Leq(StateOf(cache, v));
        }
      }
      JoinIsLeast(st.graph, st.marks, v, StateOf(cache, v));
      assert StateOf(cache, v).Leq(ComponentJoin(st.graph, st.marks, v));
      LeqAntisymmetric(StateOf(cache, v), ComponentJoin(st.graph, st.marks, v));
      SameWhenUnchanged(st, cache, info, v);
    }
  }

  lemma SameWhenUnchanged(st: AnalysisState, cache: Cache, info: InfoMap, v: VariableId)
    requires Consistent(st) && InfoFollowsCache(st.info, info, st.cache, cache)
    requires StateOf(cache, v) == ComponentJoin(st.graph, st.marks, v)
    ensures InfoOf(info, v).state == ComponentJoin(st.graph, st.marks, v)
  {
    assert StateOf(st.cache, v).Leq(InfoOf(st.info, v).state);
    assert InfoOf(st.info, v).state.Leq(ComponentJoin(st.graph, st.marks, v));
    if StateOf(cache, v) == StateOf(st.cache, v) {
      LeqAntisymmetric(StateOf(cache, v), InfoOf(st.info, v).state);
    }
  }

  lemma SpreadKeepsSound(st: AnalysisState, st': AnalysisState)
    requires Sound(st) && Spread(st, st')
    ensures Sound(st')
  {
    forall v ensures StateOf(st'.marks, v).Leq(InfoOf(st'.info, v).state) {
      ConnectedSelf(st.graph, v);
      JoinDominates(st.graph, st.marks, v, v);
    }
  }

  // ---- Allocation suggestions ---------------------------------------------

  function SuggestionFor(s: EscapeState): AllocationSuggestion {
    if s.CanStackAllocate() then StackAlloc else HeapAlloc
  }

  /**
   * The outcome of analyzing a function whose statements led to `st`: every named variable has information,
   * both stores hold the component joins, and suggestions follow the states.
   */
  ghost predicate Analyzed(st: AnalysisState, st': AnalysisState) {
    && st' == st.(cache := st'.cache, info := st'.info)
    && (forall v :: StateOf(st'.cache, v) == ComponentJoin(st.graph, st.marks, v))
    && (forall v :: v in st'.cache <==>
          v in st.cache || StateOf(st'.cache, v) != StateOf(st.cache, v) || (v in st.names.Values && v !in st.info))
    && (forall v :: v in st'.info <==>
          v in st.info || ComponentJoin(st.graph, st.marks, v) != NoEscape || v in st.names.Values)
    && (forall v :: v in st'.info ==>
          st'.info[v] == InfoOf(st.info, v).(state := ComponentJoin(st.graph, st.marks, v),
                                             suggestion := SuggestionFor(ComponentJoin(st.graph, st.marks, v))))
  }

  /** `seen` names have been given information, silent ones in the state the graph holds for them. */
  ghost predicate NamedSoFar(mid: AnalysisState, seen: set<VariableId>, st': AnalysisState) {
    && st' == mid.(cache := st'.cache, info := st'.info)
    && (forall v :: StateOf(st'.cache, v) == StateOf(mid.cache, v))
    && (forall v :: v in st'.cache <==> v in mid.cache || (v in seen && v !in mid.info))
    && (forall v :: v in st'.info <==> v in mid.info || v in seen)
    && (forall v :: v in st'.info ==>
          st'.info[v] == if v in mid.info then mid.info[v]
                         else VariableEscapeInfo.NewNoEscape().(state := StateOf(mid.cache, v)))
  }

  lemma NobodyNamed(mid: AnalysisState)
    ensures NamedSoFar(mid, {}, mid)
  {
  }

  /** Giving one more name information, unless it has some already. */
  lemma NamedOneMore(mid: AnalysisState, seen: set<VariableId>, st: AnalysisState, v: VariableId)
    requires NamedSoFar(mid, seen, st)
    ensures var s := StateOf(st.cache, v);
            NamedSoFar(mid, seen + {v},
                if v in st.info then st
                else st.(cache := st.cache[v := s],
                         info := st.info[v := VariableEscapeInfo.NewNoEscape().(state := s)]))
  {
  }

  ghost predicate NamedInfo(mid: AnalysisState, st': AnalysisState) {
    NamedSoFar(mid, mid.names.Values, st')
  }

  lemma SuggestedAt(st: AnalysisState, mid: AnalysisState, named: AnalysisState, v: VariableId)
    requires Consistent(st) && Spread(st, mid) && NamedInfo(mid, named)
    ensures StateOf(named.cache, v) == ComponentJoin(st.graph, st.marks, v)
    ensures v in named.cache <==>
              v in st.cache || StateOf(named.cache, v) != StateOf(st.cache, v)
                  || (v in st.names.Values && v !in st.info)
    ensures v in named.info <==>
              v in st.info || ComponentJoin(st.graph, st.marks, v) != NoEscape || v in st.names.Values
    ensures v in named.info ==>
              named.info[v] == InfoOf(st.info, v).(state := ComponentJoin(st.graph, st.marks, v),
                  suggestion := named.info[v].suggestion)
  {
    hide ComponentJoin, Mirrored;
    assert StateOf(st.cache, v).Leq(InfoOf(st.info, v).state);
    assert StateOf(mid.cache, v) == ComponentJoin(st.graph, st.marks, v) == InfoOf(mid.info, v).state;
  }

  /** What `Analyzed` says of one variable. */
  ghost predicate AnalyzedAt(st: AnalysisState, st': AnalysisState, v: VariableId) {
    var join := ComponentJoin(st.graph, st.marks, v);
    && StateOf(st'.cache, v) == join
    && (v in st'.cache <==> v in st.cache || join != StateOf(st.cache, v) || (v in st.names.Values && v !in st.info))
    && (v in st'.info <==> v in st.info || join != NoEscape || v in st.names.Values)
    && (v in st'.info ==> st'.info[v] == InfoOf(st.info, v).(state := join, suggestion := SuggestionFor(join)))
  }

  lemma AnalyzedEverywhere(st: AnalysisState, st': AnalysisState)
    requires st' == st.(cache := st'.cache, info := st'.info) && forall v :: AnalyzedAt(st, st', v)
    ensures Analyzed(st, st')
  {
    hide ComponentJoin, SuggestionFor;
    forall v ensures StateOf(st'.cache, v) == ComponentJoin(st.graph, st.marks, v) {
      assert AnalyzedAt(st, st', v);
    }
    forall v
      ensures v in st'.cache <==>
                v in st.cache || StateOf(st'.cache, v) != StateOf(st.cache, v)
                    || (v in st.names.Values && v !in st.info)
    {
      assert AnalyzedAt(st, st', v);
    }
    forall v
      ensures v in st'.info <==>
              v in st.info || ComponentJoin(st.graph, st.marks, v) != NoEscape || v in st.names.Values
    {
      assert AnalyzedAt(st, st', v);
    }
    forall v | v in st'.info
      ensures st'.info[v] == InfoOf(st.info, v).(state := ComponentJoin(st.graph, st.marks, v),
                                                 suggestion := SuggestionFor(ComponentJoin(st.graph, st.marks, v)))
    {
      assert AnalyzedAt(st, st', v);
    }
  }

  lemma SuggestedIsAnalyzed(st: AnalysisState, mid: AnalysisState, named: InfoMap, st': AnalysisState)
    requires Sound(st) && Spread(st, mid)
    requires NamedInfo(mid, st'.(info := named)) && st'.info.Keys == named.Keys
    requires forall v :: v in named ==> st'.info[v] == named[v].(suggestion := SuggestionFor(named[v].state))
    ensures Analyzed(st, st')
  {
    hide ComponentJoin, SuggestionFor, Analyzed;
    forall v ensures AnalyzedAt(st, st', v) {
      SuggestedAt(st, mid, st'.(info := named), v);
      hide Spread, NamedInfo, Consistent, HeapStoresMarked;
    }
    AnalyzedEverywhere(st, st');
  }

  /** Analysis is deterministic although it walks hash maps. */
  lemma AnalyzedUnique(st: AnalysisState, a: AnalysisState, b: AnalysisState)
    requires Analyzed(st, a) && Analyzed(st, b)
    ensures a == b
  {
    forall v ensures v in a.cache <==> v in b.cache
             ensures v in a.cache ==> a.cache[v] == b.cache[v]
    {
      assert StateOf(a.cache, v) == StateOf(b.cache, v);
    }
    assert a.cache == b.cache;
    assert forall v :: v in a.info <==> v in b.info;
    assert a.info == b.info;
  }

  /** A variable is put on the stack exactly when nothing in its component was ever marked as escaping. */
  lemma StackAllocIff(st: AnalysisState, st': AnalysisState, v: VariableId)
    requires Analyzed(st, st') && v in st'.info
    ensures st'.info[v].suggestion == StackAlloc <==>
            forall u :: Connected(st'.graph, v, u) ==> StateOf(st'.marks, u) == NoEscape
  {
    JoinNoEscapeIff(st.graph, st.marks, v);
  }

  lemma AnalyzedKeepsSound(st: AnalysisState, st': AnalysisState)
    requires Sound(st) && Analyzed(st, st')
    ensures Sound(st')
    ensures forall v :: InfoOf(st'.info, v).state == StateOf(st'.cache, v)
  {
    forall v ensures InfoOf(st'.info, v).state == StateOf(st'.cache, v)
             ensures StateOf(st'.marks, v).Leq(InfoOf(st'.info, v).state)
    {
      ConnectedSelf(st.graph, v);
      JoinDominates(st.graph, st.marks, v, v);
    }
  }
}
