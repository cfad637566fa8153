/** The analyzer adds exactly what the syntax of statements, terminators and known callees asks for. */
module StatementEffects {
  import opened Wrappers
  import opened EscapeTypes
  import opened Propagation
  import opened VariableGraphs
  import opened AnalysisStates
  import opened Effects
  import Mir

  // ---- Assignments ------------------------------------------------------------

  ghost function FlowEffect(names: Names, source: Mir.Value, target: Mir.Value, edge: WeightedEdge): Effect {
    Effect((iset f | Runs(names, source, target, edge, f)), iset{}, NamesOf(target) + NamesOf(source))
  }

  lemma FlowEffectOf(names: Names, source: Mir.Value, target: Mir.Value, edge: WeightedEdge, from: Option<VariableId>,
                     to: Option<VariableId>)
    requires forall v :: Is(names, source, v) <==> from == Some(v)
    requires forall v :: Is(names, target, v) <==> to == Some(v)
    ensures FlowEffect(names, source, target, edge) ==
            Effect(if to.Some? && from.Some? then iset{Flow(from.value, to.value, edge)} else iset{}, iset{},
                   NamesOf(target) + NamesOf(source))
  {
    hide Is;
  }

  lemma FlowGains(st: AnalysisState, target: Mir.Value, source: Mir.Value, edge: WeightedEdge, names: Names)
    requires NamesKept(AfterFlow(st, target, source, edge).names, names)
    ensures Gains(st, AfterFlow(st, target, source, edge), FlowEffect(names, source, target, edge))
  {
    hide Gains, Is, FlowEffect;
    var (st1, to) := Resolve(st, target);
    var (st2, from) := Resolve(st1, source);
    ResolveTwiceGains(st, target, source, names);
    hide WithEdge;
    FlowEffectOf(names, source, target, edge, from, to);
    if to.Some? && from.Some? {
      EdgeGains(st2, from.value, to.value, edge);
      GainsEdge(st, st2, AfterFlow(st, target, source, edge), Flow(from.value, to.value, edge),
                NamesOf(target) + NamesOf(source));
    }
  }

  lemma AddressEffect(info: InfoMap, names: Names, db: Mir.SummaryDatabase, fieldHash: string -> nat, target: Mir.Value,
                      value: Mir.Value, from: Option<VariableId>, to: Option<VariableId>)
    requires forall v :: Is(names, value, v) <==> from == Some(v)
    requires forall v :: Is(names, target, v) <==> to == Some(v)
    requires to.Some? <==> IsVariable(target)
    ensures StatementEffect(info, names, db, fieldHash, Mir.Assign(target, Mir.Reference(value))) ==
            if from.None? || to.None? then Effect(iset{}, iset{}, NamesOf(value) + NamesOf(target))
            else Effect(iset{Flow(from.value, to.value, WeightedEdge(DirectAssignment, EdgeWeight.AddressOf))},
                        iset{Mark(from.value, NoEscape, EscapePoint.AddressOf(from.value))},
                        NamesOf(value) + NamesOf(target))
  {
    hide Is;
  }

  lemma AddressGains(st: AnalysisState, target: Mir.Value, value: Mir.Value, db: Mir.SummaryDatabase,
                     fieldHash: string -> nat, names: Names)
    requires NamesKept(AfterAssign(st, target, Mir.Reference(value)).names, names)
    ensures Gains(st, AfterAssign(st, target, Mir.Reference(value)),
                StatementEffect(st.info, names, db, fieldHash, Mir.Assign(target, Mir.Reference(value))))
  {
    hide Gains, Is, StatementEffect;
    var (st1, from) := Resolve(st, value);
    var (st2, to) := Resolve(st1, target);
    var all := NamesOf(value) + NamesOf(target);
    ResolveTwiceGains(st, value, target, names);
    hide WithEdge, WithAddressTaken;
    AddressEffect(st.info, names, db, fieldHash, target, value, from, to);
    if from.Some? && to.Some? {
      var edge := WeightedEdge(DirectAssignment, EdgeWeight.AddressOf);
      var st3 := WithEdge(st2, from.value, to.value, edge);
      EdgeGains(st2, from.value, to.value, edge);
      AddressTakenGains(st3, from.value);
      GainsEdge(st, st2, st3, Flow(from.value, to.value, edge), all);
      GainsMark(st, st3, WithAddressTaken(st3, from.value), Flow(from.value, to.value, edge),
                Mark(from.value, NoEscape, EscapePoint.AddressOf(from.value)), all);
    }
  }

  /** An edge after some names. */
  lemma GainsEdge(a: AnalysisState, b: AnalysisState, c: AnalysisState, f: Flow, all: iset<string>)
    requires Gains(a, b, Effect(iset{}, iset{}, all)) && Gains(b, c, Effect(iset{f}, iset{}, iset{}))
    ensures Gains(a, c, Effect(iset{f}, iset{}, all))
  {
    hide Gains;
    var d, e := Effect(iset{}, iset{}, all), Effect(iset{f}, iset{}, iset{});
    GainsTwice(a, b, c, d, e);
    assert Plus(d, e) == Effect(iset{f}, iset{}, all);
  }

  /** Nothing after some names. */
  lemma GainsInfo(a: AnalysisState, b: AnalysisState, c: AnalysisState, all: iset<string>)
    requires Gains(a, b, Effect(iset{}, iset{}, all)) && Gains(b, c, Nothing())
    ensures Gains(a, c, Effect(iset{}, iset{}, all))
  {
    hide Gains;
    GainsTwice(a, b, c, Effect(iset{}, iset{}, all), Nothing());
    assert Plus(Effect(iset{}, iset{}, all), Nothing()) == Effect(iset{}, iset{}, all);
  }

  /** A mark after some names and an edge. */
  lemma GainsMark(a: AnalysisState, b: AnalysisState, c: AnalysisState, f: Flow, m: Mark, all: iset<string>)
    requires Gains(a, b, Effect(iset{f}, iset{}, all)) && Gains(b, c, Effect(iset{}, iset{m}, iset{}))
    ensures Gains(a, c, Effect(iset{f}, iset{m}, all))
  {
    hide Gains;
    var d, e := Effect(iset{f}, iset{}, all), Effect(iset{}, iset{m}, iset{});
    GainsTwice(a, b, c, d, e);
    assert Plus(d, e) == Effect(iset{f}, iset{m}, all);
  }

  lemma AssignGains(st: AnalysisState, target: Mir.Value, source: Mir.Value, db: Mir.SummaryDatabase,
                    fieldHash: string -> nat, names: Names)
    requires NamesKept(AfterAssign(st, target, source).names, names)
    ensures Gains(st, AfterAssign(st, target, source),
                StatementEffect(st.info, names, db, fieldHash, Mir.Assign(target, source)))
  {
    hide Gains, Is;
    if source.Reference? {
      AddressGains(st, target, source.value, db, fieldHash, names);
    } else {
      FlowGains(st, target, source, PLAIN_ASSIGNMENT, names);
      assert FlowEffect(names, source, target, PLAIN_ASSIGNMENT) ==
          StatementEffect(st.info, names, db, fieldHash, Mir.Assign(target, source));
    }
  }

  lemma FieldAssignEffect(info: InfoMap, names: Names, db: Mir.SummaryDatabase, fieldHash: string -> nat,
                          object_: Mir.Value, field: string, value: Mir.Value, o: Option<VariableId>,
                          v: Option<VariableId>)
    requires forall x :: Is(names, object_, x) <==> o == Some(x)
    requires forall x :: Is(names, value, x) <==> v == Some(x)
    ensures StatementEffect(info, names, db, fieldHash, Mir.FieldAssign(object_, field, value)) ==
            if o.None? || v.None? then Effect(iset{}, iset{}, NamesOf(object_) + NamesOf(value))
            else if InfoOf(info, o.value).state == NoEscape
            then Effect(iset{Flow(v.value, o.value, COPY)}, iset{}, NamesOf(object_) + NamesOf(value))
            else Effect(iset{Flow(v.value, o.value, WeightedEdge(HeapStore, Identity))},
                        iset{Mark(v.value, GlobalEscape, HeapFieldStore(o.value, field))},
                        NamesOf(object_) + NamesOf(value))
  {
    hide Is;
  }

  lemma FieldAssignGains(st: AnalysisState, object_: Mir.Value, field: string, value: Mir.Value,
                         db: Mir.SummaryDatabase, fieldHash: string -> nat, names: Names)
    requires NamesKept(AfterFieldAssign(st, object_, field, value).names, names)
    ensures Gains(st, AfterFieldAssign(st, object_, field, value),
                StatementEffect(st.info, names, db, fieldHash, Mir.FieldAssign(object_, field, value)))
  {
    hide Gains, Is, StatementEffect;
    var (st1, o) := Resolve(st, object_);
    var (st2, v) := Resolve(st1, value);
    var all := NamesOf(object_) + NamesOf(value);
    ResolveTwiceGains(st, object_, value, names);
    hide WithEdge, WithMark;
    FieldAssignEffect(st.info, names, db, fieldHash, object_, field, value, o, v);
    if o.Some? && v.Some? {
      StoreGains(st, st2, v.value, o.value, field, InfoOf(st.info, o.value).state == NoEscape, all);
    }
  }

  /** The store itself, once object and value have been looked up. */
  lemma StoreGains(st: AnalysisState, st2: AnalysisState, v: VariableId, o: VariableId, field: string, stays: bool,
                   all: iset<string>)
    requires Gains(st, st2, Effect(iset{}, iset{}, all))
    ensures var st3 := WithInfo(st2, o);
            var stored := WithEdge(st3, v, o, WeightedEdge(HeapStore, Identity));
            if stays then
              Gains(st, WithEdge(st3, v, o, PLAIN_ASSIGNMENT), Effect(iset{Flow(v, o, COPY)}, iset{}, all))
            else
              Gains(st, WithMark(stored, v, GlobalEscape, HeapFieldStore(o, field)),
                  Effect(iset{Flow(v, o, WeightedEdge(HeapStore, Identity))},
                         iset{Mark(v, GlobalEscape, HeapFieldStore(o, field))}, all))
  {
    hide Gains, WithEdge, WithMark, WithInfo;
    var st3 := WithInfo(st2, o);
    InfoGains(st2, o);
    GainsInfo(st, st2, st3, all);
    var edge := if stays then PLAIN_ASSIGNMENT else WeightedEdge(HeapStore, Identity);
    var st4 := WithEdge(st3, v, o, edge);
    EdgeGains(st3, v, o, edge);
    GainsEdge(st, st3, st4, Flow(v, o, edge), all);
    if !stays {
      var point := HeapFieldStore(o, field);
      MarkGains(st4, v, GlobalEscape, point);
      GainsMark(st, st4, WithMark(st4, v, GlobalEscape, point), Flow(v, o, edge), Mark(v, GlobalEscape, point), all);
    }
  }

  lemma BinaryOpGains(st: AnalysisState, db: Mir.SummaryDatabase, fieldHash: string -> nat, target: Mir.Value,
                      left: Mir.Value, right: Mir.Value, names: Names)
    requires NamesKept(AfterFlow(AfterFlow(st, target, left, PLAIN_ASSIGNMENT), target, right, PLAIN_ASSIGNMENT).names,
                 names)
    ensures Gains(st, AfterFlow(AfterFlow(st, target, left, PLAIN_ASSIGNMENT), target, right, PLAIN_ASSIGNMENT),
                StatementEffect(st.info, names, db, fieldHash, Mir.BinaryOp(target, left, right)))
  {
    var st1 := AfterFlow(st, target, left, PLAIN_ASSIGNMENT);
    var st2 := AfterFlow(st1, target, right, PLAIN_ASSIGNMENT);
    FlowGains(st1, target, right, PLAIN_ASSIGNMENT, names);
    GainsKeepNames(st1, st2, FlowEffect(names, right, target, PLAIN_ASSIGNMENT), names);
    hide Gains, Is, NamesKept, AfterFlow, StatementEffect;
    FlowGains(st, target, left, PLAIN_ASSIGNMENT, names);
    var first, second := FlowEffect(names, left, target, PLAIN_ASSIGNMENT),
        FlowEffect(names, right, target, PLAIN_ASSIGNMENT);
    GainsTwice(st, st1, st2, first, second);
    BinaryOpEffect(st.info, names, db, fieldHash, target, left, right);
  }

  lemma BinaryOpEffect(info: InfoMap, names: Names, db: Mir.SummaryDatabase, fieldHash: string -> nat,
                       target: Mir.Value, left: Mir.Value, right: Mir.Value)
    ensures StatementEffect(info, names, db, fieldHash, Mir.BinaryOp(target, left, right)) ==
        Plus(FlowEffect(names, left, target, PLAIN_ASSIGNMENT), FlowEffect(names, right, target, PLAIN_ASSIGNMENT))
  {
    hide Is;
  }

  // ---- Calls ------------------------------------------------------------------

  lemma TagGivesItsState(tag: Mir.ParameterTag, s: EscapeState)
    ensures TagGives(tag, s) <==> tag.Escapes() && tag.ToEscapeState() == s
  {
  }

  ghost function ArgumentsEffect(names: Names, summary: Option<Mir.FunctionSummary>, callee: FunctionId,
                                 args: seq<Mir.Value>, index: nat): Effect
    requires index <= |args|
  {
    Effect(iset{}, (iset m | MarksSomeArgument(names, summary, callee, args, index, m)),
           NamesIn(args[index..]))
  }

  ghost function MarksArgumentAt(names: Names, summary: Option<Mir.FunctionSummary>, callee: FunctionId,
                                 args: seq<Mir.Value>, i: nat): iset<Mark> {
    iset m | MarksArgument(names, summary, callee, args, i, m)
  }

  lemma ArgumentGains(st: AnalysisState, summary: Option<Mir.FunctionSummary>, callee: FunctionId, args: seq<Mir.Value>,
                      i: nat, names: Names)
    requires i < |args| && NamesKept(AfterArgument(st, summary, callee, args[i], i).names, names)
    ensures Gains(st, AfterArgument(st, summary, callee, args[i], i),
                Effect(iset{}, MarksArgumentAt(names, summary, callee, args, i), NamesOf(args[i])))
  {
    hide Gains, Is, WithMark;
    var marks, point := MarksArgumentAt(names, summary, callee, args, i), EscapePoint.FunctionArgument(callee, i);
    assert NamesKept(Resolve(st, args[i]).0.names, names) by {
      MarkKeepsNames();
    }
    if summary.None? {
      ResolveMarkGains(st, args[i], ArgEscape, point, names);
      assert marks == MarksOf(names, args[i], ArgEscape, point);
    } else if i < |summary.value.tags| && summary.value.tags[i].Escapes() {
      var s := summary.value.tags[i].ToEscapeState();
      ResolveMarkGains(st, args[i], s, point, names);
      assert marks == MarksOf(names, args[i], s, point);
    } else {
      ResolveGains(st, args[i], names);
      assert marks == iset{};
    }
  }

  lemma MarkKeepsNames()
    ensures forall st, v, s, point :: WithMark(st, v, s, point).names == st.names
  {
  }

  lemma {:induction false} ArgumentsGain(st: AnalysisState, summary: Option<Mir.FunctionSummary>, callee: FunctionId,
                                         args: seq<Mir.Value>, index: nat, names: Names)
    requires index <= |args| && NamesKept(AfterArguments(st, summary, callee, args, index).names, names)
    ensures Gains(st, AfterArguments(st, summary, callee, args, index),
                ArgumentsEffect(names, summary, callee, args, index))
    decreases |args| - index
  {
    hide MarksArgument;
    if index == |args| {
      GainsNothing(st);
      NoMoreArguments(names, summary, callee, args);
    } else {
      var st1 := AfterArgument(st, summary, callee, args[index], index);
      var next := AfterArguments(st1, summary, callee, args, index + 1);
      ArgumentsGain(st1, summary, callee, args, index + 1, names);
      GainsKeepNames(st1, next, ArgumentsEffect(names, summary, callee, args, index + 1), names);
      hide Gains, NamesKept, AfterArgument;
      ArgumentGains(st, summary, callee, args, index, names);
      var first := Effect(iset{}, MarksArgumentAt(names, summary, callee, args, index), NamesOf(args[index]));
      GainsTwice(st, st1, next, first, ArgumentsEffect(names, summary, callee, args, index + 1));
      ArgumentsUnfold(names, summary, callee, args, index);
    }
  }

  lemma ArgumentsUnfold(names: Names, summary: Option<Mir.FunctionSummary>, callee: FunctionId, args: seq<Mir.Value>,
                        index: nat)
    requires index < |args|
    ensures ArgumentsEffect(names, summary, callee, args, index) ==
            Plus(Effect(iset{}, MarksArgumentAt(names, summary, callee, args, index), NamesOf(args[index])),
                 ArgumentsEffect(names, summary, callee, args, index + 1))
  {
    hide MarksArgument;
    assert args[index..] == [args[index]] + args[index + 1..];
  }

  lemma NoMoreArguments(names: Names, summary: Option<Mir.FunctionSummary>, callee: FunctionId, args: seq<Mir.Value>)
    ensures ArgumentsEffect(names, summary, callee, args, |args|) == Nothing()
  {
    assert args[|args|..] == [];
  }

  /** What a call's result adds once its arguments have been looked up. */
  ghost function ResultEffect(names: Names, summary: Option<Mir.FunctionSummary>, callee: FunctionId,
                              args: seq<Mir.Value>, result: Option<Mir.Value>): Effect {
    if result.None? then Nothing()
    else if ReturnsParameter(summary, args) then
      var arg := args[summary.value.source.index];
      Effect((iset f | Runs(names, arg, result.value, COPY, f)), iset{},
             NamesOf(result.value) + if IsVariable(result.value) then NamesOf(arg) else iset{})
    else
      Effect(iset{}, (iset m | MarksResult(names, summary, callee, result, m)), NamesOf(result.value))
  }

  lemma ReturnedGains(st: AnalysisState, result: Mir.Value, arg: Mir.Value, names: Names)
    requires var (st1, to) := Resolve(st, result);
             && to.Some?
             && var (st2, from) := Resolve(st1, arg);
             && NamesKept((if from.Some? then WithEdge(st2, from.value, to.value, PLAIN_ASSIGNMENT) else st2).names,
                          names)
    ensures var (st1, to) := Resolve(st, result);
            var (st2, from) := Resolve(st1, arg);
            Gains(st, if from.Some? then WithEdge(st2, from.value, to.value, PLAIN_ASSIGNMENT) else st2,
                Effect((iset f | Runs(names, arg, result, COPY, f)), iset{}, NamesOf(result) + NamesOf(arg)))
  {
    hide Gains, Is;
    var (st1, to) := Resolve(st, result);
    var (st2, from) := Resolve(st1, arg);
    assert AfterFlow(st, result, arg, PLAIN_ASSIGNMENT) ==
        if from.Some? then WithEdge(st2, from.value, to.value, PLAIN_ASSIGNMENT) else st2;
    FlowGains(st, result, arg, PLAIN_ASSIGNMENT, names);
    assert FlowEffect(names, arg, result, PLAIN_ASSIGNMENT) ==
        Effect((iset f | Runs(names, arg, result, COPY, f)), iset{}, NamesOf(result) + NamesOf(arg));
  }

  lemma ResultGains(st: AnalysisState, summary: Option<Mir.FunctionSummary>, callee: FunctionId, args: seq<Mir.Value>,
                    result: Option<Mir.Value>, names: Names)
    requires NamesKept(AfterResult(st, summary, callee, args, result).names, names)
    ensures Gains(st, AfterResult(st, summary, callee, args, result),
                ResultEffect(names, summary, callee, args, result))
  {
    hide Gains, Is, WithMark;
    if result.None? {
      GainsNothing(st);
    } else if ReturnsParameter(summary, args) && Resolve(st, result.value).1.Some? {
      ReturnedGains(st, result.value, args[summary.value.source.index], names);
    } else {
      var e, point := ResultEffect(names, summary, callee, args, result), EscapePoint.FunctionReturn(callee);
      assert NamesKept(Resolve(st, result.value).0.names, names) by {
        MarkKeepsNames();
      }
      if ResultIsNew(summary) {
        ResolveMarkGains(st, result.value, ReturnEscape, point, names);
        assert e.marks == MarksOf(names, result.value, ReturnEscape, point);
      } else {
        ResolveGains(st, result.value, names);
        assert e == Naming(result.value);
      }
    }
  }

  lemma CallEffect(info: InfoMap, names: Names, db: Mir.SummaryDatabase, fieldHash: string -> nat,
                   result: Option<Mir.Value>, callee: Mir.Value, args: seq<Mir.Value>)
    ensures var id := Mir.CalleeId(callee);
            StatementEffect(info, names, db, fieldHash, Mir.Call(result, callee, args)) ==
            Plus(ArgumentsEffect(names, db.Get(id), id, args, 0), ResultEffect(names, db.Get(id), id, args, result))
  {
    hide Is, MarksSomeArgument;
    assert args[0..] == args;
  }

  lemma CallGains(st: AnalysisState, db: Mir.SummaryDatabase, fieldHash: string -> nat, result: Option<Mir.Value>,
                  callee: Mir.Value, args: seq<Mir.Value>, names: Names)
    requires NamesKept(AfterStatement(st, db, fieldHash, Mir.Call(result, callee, args)).names, names)
    ensures Gains(st, AfterStatement(st, db, fieldHash, Mir.Call(result, callee, args)),
                StatementEffect(st.info, names, db, fieldHash, Mir.Call(result, callee, args)))
  {
    hide Gains, ResultEffect, ArgumentsEffect, AfterResult, AfterArguments, StatementEffect, NamesKept;
    var id := Mir.CalleeId(callee);
    var st1 := AfterArguments(st, db.Get(id), id, args, 0);
    var st2 := AfterResult(st1, db.Get(id), id, args, result);
    var first := ArgumentsEffect(names, db.Get(id), id, args, 0);
    var second := ResultEffect(names, db.Get(id), id, args, result);
    ResultGains(st1, db.Get(id), id, args, result, names);
    GainsKeepNames(st1, st2, second, names);
    ArgumentsGain(st, db.Get(id), id, args, 0, names);
    GainsTwice(st, st1, st2, first, second);
    CallEffect(st.info, names, db, fieldHash, result, callee, args);
  }

  /**
   * A statement adds exactly the edges, marks, escape points and names its syntax asks for.  The names may be those of
   * any later state.
   */
  lemma StatementGains(st: AnalysisState, db: Mir.SummaryDatabase, fieldHash: string -> nat, statement: Mir.Statement,
                       names: Names)
    requires NamesKept(AfterStatement(st, db, fieldHash, statement).names, names)
    ensures Gains(st, AfterStatement(st, db, fieldHash, statement),
                StatementEffect(st.info, names, db, fieldHash, statement))
  {
    hide Gains, Is, StatementEffect, FlowEffect;
    match statement
    case Assign(target, source) => AssignGains(st, target, source, db, fieldHash, names);
    case FieldAccess(target, object_, field) =>
      FlowGains(st, target, object_, WeightedEdge(DependencyEdge.FieldAccess(fieldHash(field)), Identity), names);
      FieldAccessEffect(st.info, names, db, fieldHash, target, object_, field);
    case FieldAssign(object_, field, value) => FieldAssignGains(st, object_, field, value, db, fieldHash, names);
    case BinaryOp(target, left, right) => BinaryOpGains(st, db, fieldHash, target, left, right, names);
    case Call(result, callee, args) => CallGains(st, db, fieldHash, result, callee, args, names);
    case Allocate(target) => AllocateGains(st, db, fieldHash, target, names);
    case OtherStatement =>
      GainsNothing(st);
      NoEffect(st.info, names, db, fieldHash);
  }

  lemma FieldAccessEffect(info: InfoMap, names: Names, db: Mir.SummaryDatabase, fieldHash: string -> nat,
                          target: Mir.Value, object_: Mir.Value, field: string)
    ensures StatementEffect(info, names, db, fieldHash, Mir.FieldAccess(target, object_, field)) ==
            FlowEffect(names, object_, target,
                       WeightedEdge(DependencyEdge.FieldAccess(fieldHash(field)), Identity))
  {
    hide Is;
  }

  lemma NoEffect(info: InfoMap, names: Names, db: Mir.SummaryDatabase, fieldHash: string -> nat)
    ensures StatementEffect(info, names, db, fieldHash, Mir.OtherStatement) == Nothing()
  {
  }

  lemma AllocateGains(st: AnalysisState, db: Mir.SummaryDatabase, fieldHash: string -> nat, target: Mir.Value,
                      names: Names)
    requires NamesKept(AfterStatement(st, db, fieldHash, Mir.Allocate(target)).names, names)
    ensures Gains(st, AfterStatement(st, db, fieldHash, Mir.Allocate(target)),
                StatementEffect(st.info, names, db, fieldHash, Mir.Allocate(target)))
  {
    hide Gains, Is, WithMark;
    var (st1, id) := Resolve(st, target);
    var e := StatementEffect(st.info, names, db, fieldHash, Mir.Allocate(target));
    assert NamesKept(st1.names, names) by {
      MarkKeepsNames();
    }
    if id.Some? {
      var point := HeapFieldStore(id.value, "alloc");
      ResolveGains(st, target, names);
      ResolveMarkGains(st, target, GlobalEscape, point, names);
      assert e.marks == MarksOf(names, target, GlobalEscape, point);
      assert e == Effect(iset{}, MarksOf(names, target, GlobalEscape, point), NamesOf(target));
    } else {
      ResolveGains(st, target, names);
      assert e == Naming(target);
    }
  }

  // ---- Terminators --------------------------------------------------------------

  /** A terminator marks what it returns as escaping by return, and adds nothing else. */
  lemma TerminatorGains(st: AnalysisState, current: FunctionId, terminator: Mir.Terminator, names: Names)
    requires NamesKept(AfterTerminator(st, current, terminator).names, names)
    ensures Gains(st, AfterTerminator(st, current, terminator), TerminatorEffect(names, current, terminator))
  {
    hide Gains, Is, WithMark;
    var e := TerminatorEffect(names, current, terminator);
    MarkKeepsNames();
    match terminator
    case Return(Some(value)) =>
      var inner, point := if value.Reference? then value.value else value, EscapePoint.FunctionReturn(current);
      ResolveMarkGains(st, inner, ReturnEscape, point, names);
      ReturnEffect(names, current, value, inner);
    case Branch(condition) =>
      ResolveGains(st, condition, names);
      assert Naming(condition) == e;
    case _ =>
      GainsNothing(st);
      assert Nothing() == e;
  }

  lemma ReturnEffect(names: Names, current: FunctionId, value: Mir.Value, inner: Mir.Value)
    requires inner == if value.Reference? then value.value else value
    ensures TerminatorEffect(names, current, Mir.Return(Some(value))) ==
            Effect(iset{}, MarksOf(names, inner, ReturnEscape, EscapePoint.FunctionReturn(current)), NamesOf(inner))
  {
    hide Is;
    assert Returns(Mir.Return(Some(value)), inner);
    assert forall x :: Returns(Mir.Return(Some(value)), x) ==> x == inner;
  }

  // ---- Known callees --------------------------------------------------------------

  ghost function BySummary(names: Names, summary: Mir.FunctionSummary, args: seq<Mir.Value>): iset<Mark> {
    iset m | MarksBySummary(names, summary, args, m)
  }

  ghost function ByTag(names: Names, summary: Mir.FunctionSummary, args: seq<Mir.Value>, i: nat): iset<Mark> {
    iset m | MarksArgument(names, Some(summary), summary.function_, args, i, m)
  }

  ghost function Marking(marks: iset<Mark>): Effect {
    Effect(iset{}, marks, iset{})
  }

  lemma MarkingTwice(a: AnalysisState, b: AnalysisState, c: AnalysisState, m: iset<Mark>, n: iset<Mark>,
                     all: iset<Mark>)
    requires Gains(a, b, Marking(m)) && Gains(b, c, Marking(n)) && all == m + n
    ensures Gains(a, c, Marking(all))
  {
    hide Gains;
    GainsTwice(a, b, c, Marking(m), Marking(n));
    assert Plus(Marking(m), Marking(n)) == Marking(all);
  }

  lemma TagMarkGains(st: AnalysisState, summary: Mir.FunctionSummary, args: seq<Mir.Value>, i: nat)
    requires i < |args|
    ensures WithSummaryTag(st, summary, args[i], i).names == st.names
    ensures Gains(st, WithSummaryTag(st, summary, args[i], i),
                Marking(ByTag(st.names, summary, args, i)))
  {
    hide Gains;
    var marks := ByTag(st.names, summary, args, i);
    var id := VariableOf(st.names, args[i]);
    if id.Some? && i < |summary.tags| && summary.tags[i].Escapes() {
      var s, point := summary.tags[i].ToEscapeState(), EscapePoint.FunctionArgument(summary.function_, i);
      MarkGains(st, id.value, s, point);
      assert marks == iset{Mark(id.value, s, point)};
    } else {
      GainsNothing(st);
      assert marks == iset{};
    }
  }

  lemma {:induction false} SummaryGains(st: AnalysisState, summary: Mir.FunctionSummary, args: seq<Mir.Value>)
    ensures AfterSummary(st, summary, args).names == st.names
    ensures Gains(st, AfterSummary(st, summary, args), Marking(BySummary(st.names, summary, args)))
  {
    hide Gains, WithSummaryTag;
    var marks := BySummary(st.names, summary, args);
    if args == [] {
      GainsNothing(st);
      assert marks == iset{};
    } else {
      var n := |args| - 1;
      var st1 := AfterSummary(st, summary, args[..n]);
      SummaryGains(st, summary, args[..n]);
      TagMarkGains(st1, summary, args, n);
      OneMoreArgument(st.names, summary, args);
      MarkingTwice(st, st1, AfterSummary(st, summary, args), BySummary(st.names, summary, args[..n]),
                   ByTag(st.names, summary, args, n), marks);
    }
  }

  lemma OneMoreArgument(names: Names, summary: Mir.FunctionSummary, args: seq<Mir.Value>)
    requires args != []
    ensures BySummary(names, summary, args) ==
            BySummary(names, summary, args[..|args| - 1]) + ByTag(names, summary, args, |args| - 1)
  {
    hide Is, CallGives;
    var n := |args| - 1;
    forall i, m | 0 <= i < n
      ensures MarksArgument(names, Some(summary), summary.function_, args, i, m) <==>
              MarksArgument(names, Some(summary), summary.function_, args[..n], i, m)
    {
    }
    hide MarksArgument;
  }

  lemma {:induction false} CallSitesGain(st: AnalysisState, db: Mir.SummaryDatabase, statements: seq<Mir.Statement>)
    ensures AfterCallSites(st, db, statements).names == st.names
    ensures Gains(st, AfterCallSites(st, db, statements), Marking(iset m | MarksAtSites(st.names, db, statements, m)))
  {
    hide Gains, AfterSummary, MarksBySummary;
    var marks := iset m | MarksAtSites(st.names, db, statements, m);
    if statements == [] {
      GainsNothing(st);
      assert marks == iset{};
    } else {
      var n := |statements| - 1;
      var s := statements[n];
      var st1 := AfterCallSites(st, db, statements[..n]);
      CallSitesGain(st, db, statements[..n]);
      var before := iset m | MarksAtSites(st.names, db, statements[..n], m);
      assert statements == statements[..n] + [s];
      if s.Call? && db.Get(Mir.CalleeId(s.callee)).Some? {
        var summary := db.Get(Mir.CalleeId(s.callee)).value;
        SummaryGains(st1, summary, s.args);
        MarkingTwice(st, st1, AfterCallSites(st, db, statements), before, BySummary(st.names, summary, s.args), marks);
      } else {
        assert marks == before;
      }
    }
  }

  /**
   * Applying what is known about the callees marks exactly the arguments whose parameters escape, each with the state
   * of its tag, and adds nothing else.
   */
  lemma {:induction false} SummariesGain(st: AnalysisState, db: Mir.SummaryDatabase, blocks: seq<Mir.BasicBlock>)
    ensures AfterSummaries(st, db, blocks).names == st.names
    ensures Gains(st, AfterSummaries(st, db, blocks), Marking(iset m | MarksInBlocks(st.names, db, blocks, m)))
  {
    hide Gains, AfterCallSites, MarksAtSites;
    var marks := iset m | MarksInBlocks(st.names, db, blocks, m);
    if blocks == [] {
      GainsNothing(st);
      assert marks == iset{};
    } else {
      var n := |blocks| - 1;
      var st1 := AfterSummaries(st, db, blocks[..n]);
      SummariesGain(st, db, blocks[..n]);
      CallSitesGain(st1, db, blocks[n].statements);
      assert blocks == blocks[..n] + [blocks[n]];
      var before := iset m | MarksInBlocks(st.names, db, blocks[..n], m);
      var last := iset m | MarksAtSites(st.names, db, blocks[n].statements, m);
      MarkingTwice(st, st1, AfterSummaries(st, db, blocks), before, last, marks);
    }
  }
}
