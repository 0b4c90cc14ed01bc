/** From the recording calls to the graph that the engine runs: all steps in a row, and what comes of them. */
module Deployment {
  import opened Options
  import opened Reachability
  import opened Accesses
  import opened Graphs
  import opened Dag
  import opened Frames
  import opened Operators
  import opened Commute
  import opened Schedule
  import opened AppendOrder
  import opened Calls
  import opened ControlFlow
  import opened Agreement
  import opened OperatorNames
  import opened SubFlows
  import opened Compiler
  import opened Christening
  import opened Flattening
  import F = Flows
  import B = FlowBuilders
  import T = FlowTraversal
  import S = Scheduler
  import E = Expansion

  // ----- recording -----

  /** Makes the calls of a script on a new builder; nested flows are recorded on builders of their own. */
  method RecordScript(script: seq<F.Event>) returns (flow: F.Flow, mistake: Option<F.Error>)
    ensures (flow, mistake) == F.RecordAll(F.EMPTY, script)
    decreases script, |script|
  {
    var builder := new B.FlowBuilder();
    mistake := None;
    for k := 0 to |script|
      invariant builder.Valid() && mistake.None? && fresh(builder)
      invariant F.RecordAll(F.EMPTY, script) == F.RecordAll(builder.View(), script[k..])
    {
      assert script[k..][1..] == script[k + 1..] && script[k..][0] == script[k];
      ghost var before := builder.View();
      match script[k] {
        case AddOp(call) => builder.AddOp(call);
        case AddSub(name, inner) =>
          var nested;
          nested, mistake := RecordScript(inner);
          if mistake.None? {
            mistake := builder.AddSubFlow(name, nested, inner);
          }
        case OpenIf(cond) => mistake := builder.If(cond);
        case OpenElseIf(cond) => mistake := builder.ElseIf(cond);
        case OpenElse => mistake := builder.Else();
        case CloseIf => mistake := builder.EndIf();
      }
      assert F.Record(before, script[k]) == (builder.View(), mistake);
      if mistake.Some? {
        flow := builder.Snapshot();
        return;
      }
    }
    flow := builder.Snapshot();
  }

  // ----- what the compiler emits -----

  datatype Refusal =
    | RepeatedPath(path: string)
    | RepeatedName
    | NameIsPath(name: string)
    | NotExpanded(inExpansion: E.Error)
    | NotBuilt(inGraph: Dag.Error)

  /** The emitted operators under their names; of two with one name the later one stays. */
  function OperatorMap(calls: seq<OpCall>, names: seq<string>): map<string, OperatorConfig>
    requires |names| == |calls|
  {
    if calls == [] then map[] else
      var k := |calls| - 1;
      OperatorMap(calls[..k], names[..k])[names[k] := Called(calls[k], names[k]).config]
  }

  lemma {:induction false} OperatorsFound(calls: seq<OpCall>, names: seq<string>)
    requires |names| == |calls|
    ensures OperatorMap(calls, names).Keys == (set n | n in names)
    ensures E.NoRepeats(names) ==> forall i :: 0 <= i < |calls| ==> OperatorMap(calls, names)[names[i]] == Called(calls[i], names[i]).config
  {
    if calls != [] {
      var k := |calls| - 1;
      OperatorsFound(calls[..k], names[..k]);
      assert names == names[..k] + [names[k]];
      if E.NoRepeats(names) {
        assert E.NoRepeats(names[..k]);
        forall i | 0 <= i < |calls|
          ensures OperatorMap(calls, names)[names[i]] == Called(calls[i], names[i]).config
        {
          if i < k { assert names[..k][i] == names[i] && calls[..k][i] == calls[i]; }
        }
      }
    }
  }

  /** The entries of the nested flows. */
  function PipelineMap(flat: Flat, names: seq<string>): map<string, seq<string>>
    requires forall p :: p in flat.structures ==> InBounds(flat.structures[p], |names|)
  {
    map p | p in flat.structures && p != "" :: Resolve(flat.structures[p], names)
  }

  /** The flow that a structured pipeline is recorded as. */
  function Recorded(code: Code): F.Flow {
    F.Complete(F.Lower(code, [], 0))
  }

  function Flattened(code: Code): (Flat, Option<Problem>) {
    Traverse(Recorded(code), "", [], Flat([], map[], []))
  }

  function NamesOf(code: Code): Option<seq<string>> {
    AssignFrom(Compile(code, TOP, 0).0, map[])
  }

  /** What a pipeline must satisfy to be deployed, apart from being recorded without a mistake: the paths of its flows differ, its
      operators get distinct names that are no paths, no flow directly below the root is nameless, and declared sources
      name earlier operators. */
  ghost predicate Deployable(code: Code) {
    var children := Recorded(code).children;
    && Titled(children, "") && E.NoRepeats(FlowPaths(children, "")) && NamesOf(code).Some?
    && var names := NamesOf(code).value;
    && E.NoRepeats(names) && (forall n :: n in names ==> n !in FlowPaths(children, ""))
    && |names| == |Compile(code, TOP, 0).0|
    && FirstSourceProblem(names, Configs(OperatorsOf(NamedCalls(Compile(code, TOP, 0).0, names))), 0).None?
  }

  /** `nodes` is a graph for the operators of a deployable pipeline. */
  ghost predicate Deployed(code: Code, nodes: seq<Node>) {
    Deployable(code)
    && var names := NamesOf(code).value;
       var ops := OperatorsOf(NamedCalls(Compile(code, TOP, 0).0, names));
       && Mirrored(nodes) && OpsOf(nodes) == Configs(ops) && Increasing(ArrowsOf(nodes))
       && (forall u, v :: Reaches(ArrowsOf(nodes), u, v) <==> Reaches(RequiredOrder(names, OpsOf(nodes)), u, v))
       && |nodes| == |names|
       && forall i :: 0 <= i < |nodes| ==> nodes[i].name == names[i] && nodes[i].subflow == Compile(code, TOP, 0).0[i].path
  }

  // ----- the steps -----

  lemma {:induction false} FlattenedCalls(code: Code)
    requires F.Declarable(code) && Plain(code)
    ensures F.RecordAll(F.EMPTY, F.Script(code)) == (Recorded(code), None)
    ensures Flattened(code).1.None? ==> Flattened(code).0.calls == Compile(code, TOP, 0).0 && AllInBounds(Flattened(code).0)
    ensures Flattened(code).1.None? ==> "" in Flattened(code).0.structures
  {
    F.ScriptRecords(code, F.EMPTY);
    TraverseCompiles(code, "", []);
    assert F.Extended(F.EMPTY, F.Lower(code, [], 0)) == Recorded(code);
    assert [] + Compile(code, TOP, 0).0 == Compile(code, TOP, 0).0;
    if Flattened(code).1.None? {
      TraverseInBounds(Recorded(code), "", [], Flat([], map[], []));
    }
  }

  /** Emission: names, operators and entries, unless a name is refused. */
  method Emit(flat: Flat) returns (names: seq<string>, config: E.Config, operators: map<string, OperatorConfig>, refusal: Option<Refusal>)
    requires AllInBounds(flat)
    ensures refusal.None? <==> AssignFrom(flat.calls, map[]).Some?
                               && forall n :: n in AssignFrom(flat.calls, map[]).value ==> n == "" || n !in flat.structures
    ensures refusal.None? ==>
      && AssignFrom(flat.calls, map[]) == Some(names) && |names| == |flat.calls|
      && operators == OperatorMap(flat.calls, names) && config == E.Config(operators.Keys, PipelineMap(flat, names))
  {
    names, config, operators, refusal := [], E.Config({}, map[]), map[], None;
    var given := AssignNames(flat.calls);
    if given.None? {
      refusal := Some(RepeatedName);
      return;
    }
    Assigned(flat.calls);
    names := given.value;
    for k := 0 to |names|
      invariant operators == OperatorMap(flat.calls[..k], names[..k])
    {
      assert flat.calls[..k + 1][..k] == flat.calls[..k] && names[..k + 1][..k] == names[..k];
      operators := operators[names[k] := Called(flat.calls[k], names[k]).config];
    }
    assert flat.calls[..|names|] == flat.calls && names[..|names|] == names;
    config := E.Config(operators.Keys, PipelineMap(flat, names));
    for k := 0 to |names|
      invariant forall j :: 0 <= j < k ==> names[j] == "" || names[j] !in flat.structures
    {
      if names[k] in config.flows {
        refusal := Some(NameIsPath(names[k]));
        return;
      }
    }
  }

  lemma {:induction false} EmittedAsExpected(flat: Flat, names: seq<string>, c: E.Config)
    requires AllInBounds(flat) && |names| == |flat.calls|
    requires c == E.Config(OperatorMap(flat.calls, names).Keys, PipelineMap(flat, names))
    requires forall n :: n in names ==> n == "" || n !in flat.structures
    ensures Emitted(c, names, flat) && "" !in c.flows
  {
    OperatorsFound(flat.calls, names);
    assert forall i :: 0 <= i < |names| ==> names[i] in names;
  }

  /** Generated and explicit names are not empty. */
  ghost predicate Nameable(code: Code) {
    forall i :: 0 <= i < |Compile(code, TOP, 0).0| ==> Compile(code, TOP, 0).0[i].config.name != ""
  }

  lemma {:induction false} NoEmptyName(calls: seq<OpCall>)
    requires AssignFrom(calls, map[]).Some? && forall i :: 0 <= i < |calls| ==> calls[i].config.name != ""
    ensures "" !in AssignFrom(calls, map[]).value
  {
    Assigned(calls);
  }

  /** Expansion succeeds exactly when no flow below the root is nameless and the names are distinct, and gives the names back. */
  lemma {:induction false} ExpandedAsNamed(code: Code, names: seq<string>, c: E.Config)
    requires F.Declarable(code) && Plain(code) && Nameable(code) && Flattened(code).1.None? && NamesOf(code) == Some(names)
    requires |names| == |Compile(code, TOP, 0).0| && forall n :: n in names ==> n == "" || n !in Flattened(code).0.structures
    requires AllInBounds(Flattened(code).0) && Flattened(code).0.calls == Compile(code, TOP, 0).0
    requires c == E.Config(OperatorMap(Flattened(code).0.calls, names).Keys, PipelineMap(Flattened(code).0, names))
    ensures "" in Flattened(code).0.structures && InBounds(Flattened(code).0.structures[""], |names|)
    ensures
      var flat := Flattened(code).0;
      var (x, problem) := E.Expand(c, Resolve(flat.structures[""], names), "", E.NOTHING_YET, {});
      && (problem.None? <==> Titled(Recorded(code).children, "") && E.NoRepeats(names))
      && (problem.None? ==> x.sequence == names && x.flowOf.Keys == (set n | n in names)
                            && forall i :: 0 <= i < |names| ==> x.flowOf[names[i]] == flat.calls[i].path)
  {
    var flow, flat := Recorded(code), Flattened(code).0;
    EmittedAsExpected(flat, names, c);
    OperatorsFound(flat.calls, names);
    NoEmptyName(flat.calls);
    if Titled(flow.children, "") {
      ExpansionUndoesFlattening(flow, c, names);
    } else {
      NamelessFlowRefused(flow, c, names);
    }
  }

  /** The operators of the sequence are the named calls. */
  lemma {:induction false} ConfigsAsNamed(calls: seq<OpCall>, names: seq<string>)
    requires |names| == |calls| && E.NoRepeats(names)
    ensures forall n :: n in names ==> n in OperatorMap(calls, names)
    ensures ConfigsOf(names, OperatorMap(calls, names)) == Configs(OperatorsOf(NamedCalls(calls, names)))
  {
    OperatorsFound(calls, names);
    assert forall i :: 0 <= i < |names| ==> OperatorsOf(NamedCalls(calls, names))[i].config == Called(calls[i], names[i]).config;
  }

  /** The graph keeps the order that the sequence requires, and its nodes are labelled. */
  ghost predicate Orders(nodes: seq<Node>, sequence: seq<string>, operators: map<string, OperatorConfig>, flowOf: map<string, string>) {
    && Mirrored(nodes) && (forall n :: n in sequence ==> n in operators) && OpsOf(nodes) == ConfigsOf(sequence, operators)
    && Increasing(ArrowsOf(nodes)) && Labelled(nodes, sequence, flowOf)
    && forall u, v :: Reaches(ArrowsOf(nodes), u, v) <==> Reaches(RequiredOrder(sequence, OpsOf(nodes)), u, v)
  }

  /** What the loader does with an emitted configuration. */
  method Load(config: E.Config, operators: map<string, OperatorConfig>, entries: seq<string>) returns (graph: Graph, refusal: Option<Refusal>)
    ensures fresh(graph)
    ensures
      var (x, problem) := E.Expand(config, entries, "", E.NOTHING_YET, {});
      && (refusal.None? <==> problem.None? && BuildProblem(x.sequence, operators).None?)
      && (refusal.None? ==> graph.Valid() && Orders(graph.nodes, x.sequence, operators, x.flowOf))
  {
    var x, seen, failure := E.ExpandEntries(config, entries, "", E.NOTHING_YET, {}, {});
    if failure.Some? {
      graph := new Graph();
      return graph, Some(NotExpanded(failure.value));
    }
    var wrong;
    graph, wrong := BuildDag(x.sequence, operators, x.flowOf);
    refusal := if wrong.Some? then Some(NotBuilt(wrong.value)) else None;
  }

  /** With the names as expanded, building can only fail on declared sources. */
  lemma {:induction false} BuiltAsNamed(calls: seq<OpCall>, names: seq<string>)
    requires |names| == |calls| && E.NoRepeats(names)
    ensures BuildProblem(names, OperatorMap(calls, names)) == FirstSourceProblem(names, Configs(OperatorsOf(NamedCalls(calls, names))), 0)
  {
    ConfigsAsNamed(calls, names);
    NoneMissing(names, OperatorMap(calls, names));
  }

  lemma {:induction false} OrderedIsDeployed(code: Code, names: seq<string>, flowOf: map<string, string>, nodes: seq<Node>)
    requires Deployable(code) && NamesOf(code) == Some(names)
    requires flowOf.Keys == (set n | n in names) && forall i :: 0 <= i < |names| ==> flowOf[names[i]] == Compile(code, TOP, 0).0[i].path
    requires Orders(nodes, names, OperatorMap(Compile(code, TOP, 0).0, names), flowOf)
    ensures Deployed(code, nodes)
  {
    ConfigsAsNamed(Compile(code, TOP, 0).0, names);
    forall i | 0 <= i < |nodes|
      ensures nodes[i].subflow == Compile(code, TOP, 0).0[i].path
    {
      assert names[i] in names;
    }
  }

  /** Recording, traversal, naming, expansion and graph construction in a row: refused exactly when the pipeline is not
      deployable, and otherwise the graph is one for its operators. */
  method Deploy(code: Code) returns (graph: Graph, refusal: Option<Refusal>)
    requires F.Declarable(code) && Plain(code) && Nameable(code)
    ensures fresh(graph) && (refusal.None? <==> Deployable(code))
    ensures refusal.None? ==> graph.Valid() && Deployed(code, graph.nodes)
  {
    FlattenedCalls(code);
    if Titled(Recorded(code).children, "") { RefusedIffPathsRepeat(Recorded(code)); }
    if NamesOf(code).Some? { NoEmptyName(Compile(code, TOP, 0).0); }
    var flow, mistake := RecordScript(F.Script(code));
    var compilation := new T.Compilation();
    var problem := compilation.Visit(flow, "", []);
    var flat := Flat(compilation.calls, compilation.structures, compilation.groups);
    assert Flattened(code) == (flat, problem);
    if problem.Some? {
      graph := new Graph();
      return graph, Some(RepeatedPath(problem.value.path));
    }
    var names, config, operators;
    names, config, operators, refusal := Emit(flat);
    if refusal.Some? {
      graph := new Graph();
      return;
    }
    ExpandedAsNamed(code, names, config);
    ghost var x := E.Expand(config, Resolve(flat.structures[""], names), "", E.NOTHING_YET, {}).0;
    graph, refusal := Load(config, operators, Resolve(flat.structures[""], names));
    if Titled(flow.children, "") && E.NoRepeats(names) {
      BuiltAsNamed(flat.calls, names);
      if refusal.None? {
        OrderedIsDeployed(code, names, x.flowOf, graph.nodes);
      }
    }
  }

  /** The pipeline in which each operator goes by its final name. */
  ghost predicate GoesBy(code: Code, named: Code) {
    NamesOf(code).Some? && |NamesOf(code).value| == Count(code) && named == Christened(code, NamesOf(code).value)
  }

  lemma {:induction false} ChristenedCompiles(code: Code)
    requires Plain(code) && Deployable(code)
    ensures
      var names := NamesOf(code).value;
      && |names| == Count(code) && Plain(Christened(code, names))
      && Compile(Christened(code, names), TOP, 0).0 == NamedCalls(Compile(code, TOP, 0).0, names)
      && NamesAccepted(Compile(Christened(code, names), TOP, 0).0)
  {
    var calls, names := Compile(code, TOP, 0).0, NamesOf(code).value;
    AssignedKeepsControls(calls);
    CompiledChristened(code, TOP, 0, names);
    ChristenedPlain(code, names);
    DistinctAccepted(NamedCalls(calls, names));
  }

  /** Main result. Whatever graph the steps end with, and however its nodes are interleaved, a run that does not stop early
      serves a request as the structured pipeline is meant to, apart from control fields; and it fails exactly when the
      structured run fails or leaves a condition without its fields. Appending operators have to be ordered. */
  lemma {:induction false} DeployedRunMeansStructuredRun(code: Code, named: Code, nodes: seq<Node>, f: Frame, events: seq<S.Event>, t: S.State)
    requires Plain(code) && Deployed(code, nodes) && GoesBy(code, named) && UserOpsWellFormed(Compile(named, TOP, 0).0)
    requires
      var ops := OperatorsOf(Compile(named, TOP, 0).0);
      && AppendsOrdered(ArrowsOf(nodes), Configs(ops))
      && S.Leads(nodes, ops, S.Init(nodes, f), events, t) && forall ev :: !S.Enabled(t, ev)
    ensures
      var start := Outcome(Some(f), []);
      var wanted := Perform(named, start).frame;
      && (t.frame.Some? <==> wanted.Some? && Provided(named, start))
      && (t.frame.Some? ==> Alike(ControlFields(Compile(named, TOP, 0).0), t.frame.value, wanted.value))
  {
    ChristenedCompiles(code);
    var ops := OperatorsOf(Compile(named, TOP, 0).0);
    CompiledSuitable(named);
    S.BuiltGraphIsRunnable(NamesOf(code).value, nodes, ops);
    AnyParallelRunMeansStructuredRun(named, nodes, f, events, t);
  }
}
