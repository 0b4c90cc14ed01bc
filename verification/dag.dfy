/** Building the operator graph: derive edges, add declared sources, check for cycles, reduce. */
module Dag {
  import opened Reachability
  import opened Accesses
  import opened Graphs
  import opened Trackers
  import opened Traversal
  import opened Options

  datatype Error =
    | OperatorNotFound(name: string)
    | UnknownSource(op: string, source: string)
    | ForwardReference(op: string, source: string)

  /** Keeps the edges whose end is not reachable otherwise. On an acyclic graph that is the transitive reduction. */
  method Reduce(graph: Graph)
    requires graph.Valid()
    modifies graph`nodes
    ensures graph.Valid() && SameOperators(old(graph.nodes), graph.nodes)
    ensures graph.Arrows() == Irreplaceable(old(graph.Arrows()))
  {
    var nodes := graph.nodes;
    var kept: seq<(nat, nat)> := [];
    for u := 0 to |nodes|
      invariant graph.nodes == nodes
      invariant forall p :: p in kept <==> p in Irreplaceable(ArrowsOf(nodes)) && p.0 < u
    {
      var succs := nodes[u].succs;
      for k := 0 to |succs|
        invariant graph.nodes == nodes
        invariant forall p :: p in kept <==>
          p in Irreplaceable(ArrowsOf(nodes)) && (p.0 < u || (p.0 == u && p.1 in succs[..k]))
      {
        assert HasSucc(nodes, u, succs[k]);
        var found := ReachableWithout(nodes, u, succs[k]);
        assert (u, succs[k]) in ArrowsOf(nodes);
        assert succs[..k + 1] == succs[..k] + [succs[k]];
        if !found {
          kept := kept + [(u, succs[k])];
        }
      }
      forall p | p in Irreplaceable(ArrowsOf(nodes)) && p.0 == u
        ensures p.1 in succs[..|succs|]
      {
        assert succs[..|succs|] == succs;
      }
    }
    forall p | p in Irreplaceable(ArrowsOf(nodes))
      ensures p.0 < |nodes|
    {
      assert (p.0, p.1) in ArrowsOf(nodes);
    }
    Relink(graph, kept);
  }

  method Relink(graph: Graph, kept: seq<(nat, nat)>)
    requires graph.Valid() && forall p :: p in kept ==> p in graph.Arrows()
    modifies graph`nodes
    ensures graph.Valid() && SameOperators(old(graph.nodes), graph.nodes)
    ensures graph.Arrows() == set p | p in kept
  {
    ClearedIsEmpty(graph.nodes);
    forall p | p in kept
      ensures p.0 < |graph.nodes| && p.1 < |graph.nodes| && p.0 != p.1
    {
      assert (p.0, p.1) in graph.Arrows();
      assert HasSucc(graph.nodes, p.0, p.1);
    }
    graph.nodes := Cleared(graph.nodes);
    for k := 0 to |kept|
      invariant graph.Valid() && SameOperators(old(graph.nodes), graph.nodes)
      invariant graph.Arrows() == set p | p in kept[..k]
    {
      assert kept[k] in kept;
      graph.AddEdge(kept[k].0, kept[k].1);
      assert kept[..k + 1] == kept[..k] + [kept[k]];
      assert kept[k] == (kept[k].0, kept[k].1);
    }
    assert kept[..|kept|] == kept;
  }

  function Cleared(nodes: seq<Node>): seq<Node> {
    seq(|nodes|, i requires 0 <= i < |nodes| => nodes[i].(succs := [], preds := []))
  }

  lemma {:induction false} ClearedIsEmpty(nodes: seq<Node>)
    ensures Mirrored(Cleared(nodes)) && ArrowsOf(Cleared(nodes)) == {} && SameOperators(nodes, Cleared(nodes))
  {
  }

  /** The index a name was last registered under, or -1. */
  function LastIndex(s: seq<string>, x: string): (k: int)
    ensures k == -1 || (0 <= k < |s| && s[k] == x)
  {
    if s == [] then -1
    else if s[|s| - 1] == x then |s| - 1
    else LastIndex(s[..|s| - 1], x)
  }

  function FirstMissing(sequence: seq<string>, operators: map<string, OperatorConfig>): Option<Error> {
    if sequence == [] then None
    else if sequence[0] !in operators then Some(OperatorNotFound(sequence[0]))
    else FirstMissing(sequence[1..], operators)
  }

  function OneSourceProblem(sequence: seq<string>, op: OperatorConfig, src: string, i: nat): Option<Error> {
    if LastIndex(sequence, src) < 0 then Some(UnknownSource(op.name, src))
    else if LastIndex(sequence, src) >= i then Some(ForwardReference(op.name, src))
    else None
  }

  /** The first unusable entry in the sources of operator `i`. */
  function SourceProblem(sequence: seq<string>, op: OperatorConfig, sources: seq<string>, i: nat): Option<Error> {
    if sources == [] then None else
      var problem := OneSourceProblem(sequence, op, sources[0], i);
      if problem.Some? then problem else SourceProblem(sequence, op, sources[1..], i)
  }

  function FirstSourceProblem(sequence: seq<string>, ops: seq<OperatorConfig>, i: nat): Option<Error>
    decreases |ops| - i
  {
    if i >= |ops| then None else
      var problem := SourceProblem(sequence, ops[i], ops[i].sources, i);
      if problem.Some? then problem else FirstSourceProblem(sequence, ops, i + 1)
  }

  function ConfigsOf(sequence: seq<string>, operators: map<string, OperatorConfig>): seq<OperatorConfig>
    requires forall name :: name in sequence ==> name in operators
  {
    seq(|sequence|, i requires 0 <= i < |sequence| => operators[sequence[i]])
  }

  lemma {:induction false} NoneMissing(sequence: seq<string>, operators: map<string, OperatorConfig>)
    ensures FirstMissing(sequence, operators) == None <==> forall name :: name in sequence ==> name in operators
  {
    if sequence != [] {
      NoneMissing(sequence[1..], operators);
      assert forall name :: name in sequence <==> name == sequence[0] || name in sequence[1..];
    }
  }

  lemma {:induction false} FirstMissingAt(sequence: seq<string>, operators: map<string, OperatorConfig>, i: nat)
    requires i < |sequence| && sequence[i] !in operators
    requires forall j :: 0 <= j < i ==> sequence[j] in operators
    ensures FirstMissing(sequence, operators) == Some(OperatorNotFound(sequence[i]))
  {
    if i > 0 {
      assert sequence[0] in operators;
      FirstMissingAt(sequence[1..], operators, i - 1);
    }
  }

  /** Why construction is refused, if it is. A cycle is never the reason. */
  function BuildProblem(sequence: seq<string>, operators: map<string, OperatorConfig>): Option<Error> {
    NoneMissing(sequence, operators);
    var missing := FirstMissing(sequence, operators);
    if missing.Some? then missing else FirstSourceProblem(sequence, ConfigsOf(sequence, operators), 0)
  }

  // ----- what the problem says -----

  /** `src` is the name of an operator before `i`, and of none from `i` on. */
  ghost predicate NamedBefore(sequence: seq<string>, src: string, i: nat) {
    i <= |sequence| && src in sequence[..i] && src !in sequence[i..]
  }

  lemma {:induction false} NamedBeforeMeans(sequence: seq<string>, op: OperatorConfig, src: string, i: nat)
    requires i < |sequence|
    ensures OneSourceProblem(sequence, op, src, i)
         == if NamedBefore(sequence, src, i) then None
            else if src !in sequence then Some(UnknownSource(op.name, src))
            else Some(ForwardReference(op.name, src))
  {
    LastIndexIsLast(sequence, src);
    var k := LastIndex(sequence, src);
    assert sequence == sequence[..i] + sequence[i..];
    if 0 <= k < i {
      assert sequence[..i][k] == src;
      assert forall l :: 0 <= l < |sequence[i..]| ==> sequence[i..][l] == sequence[i + l];
    } else if k >= i {
      assert sequence[i..][k - i] == src;
    }
  }

  /** The first entry that does not name earlier operators only is the one reported. */
  lemma {:induction false} FirstBadSource(sequence: seq<string>, op: OperatorConfig, sources: seq<string>, i: nat) returns (k: nat)
    requires i < |sequence|
    ensures k <= |sources| && forall l :: 0 <= l < k ==> NamedBefore(sequence, sources[l], i)
    ensures SourceProblem(sequence, op, sources, i).None? <==> k == |sources|
    ensures k < |sources| ==> !NamedBefore(sequence, sources[k], i)
    ensures k < |sources| ==>
              SourceProblem(sequence, op, sources, i)
              == Some(if sources[k] in sequence then ForwardReference(op.name, sources[k]) else UnknownSource(op.name, sources[k]))
  {
    k := 0;
    if sources != [] {
      NamedBeforeMeans(sequence, op, sources[0], i);
      if NamedBefore(sequence, sources[0], i) {
        var rest := FirstBadSource(sequence, op, sources[1..], i);
        k := rest + 1;
        forall l | 0 <= l < k
          ensures NamedBefore(sequence, sources[l], i)
        {
          if l > 0 { assert sources[l] == sources[1..][l - 1]; }
        }
      }
    }
  }

  ghost predicate SourcesNamed(sequence: seq<string>, op: OperatorConfig, i: nat) {
    forall l :: 0 <= l < |op.sources| ==> NamedBefore(sequence, op.sources[l], i)
  }

  /** The first operator with such an entry is the one reported. */
  lemma {:induction false} FirstBadOperator(sequence: seq<string>, ops: seq<OperatorConfig>, i: nat) returns (j: nat)
    requires i <= |ops| == |sequence|
    ensures i <= j <= |ops| && forall l :: i <= l < j ==> SourcesNamed(sequence, ops[l], l)
    ensures FirstSourceProblem(sequence, ops, i).None? <==> j == |ops|
    ensures j < |ops| ==> !SourcesNamed(sequence, ops[j], j)
    ensures j < |ops| ==> FirstSourceProblem(sequence, ops, i) == SourceProblem(sequence, ops[j], ops[j].sources, j)
    decreases |ops| - i
  {
    j := i;
    if i < |ops| {
      var k := FirstBadSource(sequence, ops[i], ops[i].sources, i);
      if k == |ops[i].sources| {
        j := FirstBadOperator(sequence, ops, i + 1);
      }
    }
  }

  /** Construction succeeds exactly when every name has an operator and every declared source names earlier operators only. */
  lemma {:induction false} BuiltExactlyWhen(sequence: seq<string>, operators: map<string, OperatorConfig>)
    ensures BuildProblem(sequence, operators).None? <==>
            && (forall name :: name in sequence ==> name in operators)
            && (forall j :: 0 <= j < |sequence| ==> SourcesNamed(sequence, operators[sequence[j]], j))
  {
    NoneMissing(sequence, operators);
    if FirstMissing(sequence, operators).None? {
      var ops := ConfigsOf(sequence, operators);
      var j := FirstBadOperator(sequence, ops, 0);
      assert forall l :: 0 <= l < |sequence| ==> ops[l] == operators[sequence[l]];
    }
  }

  ghost predicate SourceEdge(sequence: seq<string>, ops: seq<OperatorConfig>, i: nat, j: nat) {
    j < |ops| && exists src :: src in ops[j].sources && LastIndex(sequence, src) == i
  }

  ghost function SourceEdges(sequence: seq<string>, ops: seq<OperatorConfig>): Edges {
    set i: nat, j: nat | i < j < |ops| && SourceEdge(sequence, ops, i, j) :: (i, j)
  }

  /** What must be ordered: conflicting operators, and operators after their declared sources. */
  ghost function RequiredOrder(sequence: seq<string>, ops: seq<OperatorConfig>): Edges {
    ConflictEdges(ops) + SourceEdges(sequence, ops)
  }

  ghost predicate Indexed(graph: Graph, sequence: seq<string>)
    reads graph
  {
    |graph.nodes| == |sequence| && IndexOf(graph.nameToIndex, sequence)
  }

  ghost predicate IndexOf(index: map<string, nat>, sequence: seq<string>) {
    && (forall name :: name in index <==> LastIndex(sequence, name) >= 0)
    && (forall name :: name in index ==> index[name] == LastIndex(sequence, name))
  }

  function FreshNode(name: string, operators: map<string, OperatorConfig>, subflowOf: map<string, string>): Node
    requires name in operators
  {
    Node(name, if name in subflowOf then subflowOf[name] else "", operators[name], [], [])
  }

  lemma {:induction false} LastIndexIsLast(s: seq<string>, x: string)
    ensures LastIndex(s, x) == -1 <==> x !in s
    ensures forall l :: LastIndex(s, x) < l < |s| ==> s[l] != x
  {
    if s != [] && s[|s| - 1] != x {
      LastIndexIsLast(s[..|s| - 1], x);
    }
  }

  lemma {:induction false} LastIndexAppend(s: seq<string>, name: string, x: string)
    ensures LastIndex(s + [name], x) == if x == name then |s| else LastIndex(s, x)
  {
    assert (s + [name])[..|s|] == s;
  }

  ghost predicate Loaded(graph: Graph, sequence: seq<string>, operators: map<string, OperatorConfig>, subflowOf: map<string, string>)
    reads graph
  {
    IndexOf(graph.nameToIndex, sequence) && FreshNodes(graph.nodes, sequence, operators, subflowOf)
  }

  ghost predicate FreshNodes(nodes: seq<Node>, sequence: seq<string>, operators: map<string, OperatorConfig>, subflowOf: map<string, string>) {
    && |nodes| == |sequence|
    && forall j :: 0 <= j < |sequence| ==> sequence[j] in operators && nodes[j] == FreshNode(sequence[j], operators, subflowOf)
  }

  lemma {:induction false} IndexAppend(index: map<string, nat>, sequence: seq<string>, name: string)
    requires IndexOf(index, sequence)
    ensures IndexOf(index[name := |sequence|], sequence + [name])
  {
    forall x
      ensures LastIndex(sequence + [name], x) == if x == name then |sequence| else LastIndex(sequence, x)
    {
      LastIndexAppend(sequence, name, x);
    }
  }

  lemma {:induction false} NodesAppend(nodes: seq<Node>, sequence: seq<string>, name: string, operators: map<string, OperatorConfig>,
                    subflowOf: map<string, string>)
    requires FreshNodes(nodes, sequence, operators, subflowOf) && name in operators
    ensures FreshNodes(nodes + [FreshNode(name, operators, subflowOf)], sequence + [name], operators, subflowOf)
  {
  }

  method AddNode(graph: Graph, ghost sequence: seq<string>, name: string, operators: map<string, OperatorConfig>,
                 subflowOf: map<string, string>)
    requires Loaded(graph, sequence, operators, subflowOf) && name in operators
    modifies graph
    ensures Loaded(graph, sequence + [name], operators, subflowOf)
  {
    IndexAppend(graph.nameToIndex, sequence, name);
    NodesAppend(graph.nodes, sequence, name, operators, subflowOf);
    var subflow := if name in subflowOf then subflowOf[name] else "";
    graph.nameToIndex := graph.nameToIndex[name := |graph.nodes|];
    graph.nodes := graph.nodes + [Node(name, subflow, operators[name], [], [])];
  }

  method AddNodes(graph: Graph, sequence: seq<string>, operators: map<string, OperatorConfig>, subflowOf: map<string, string>)
    returns (problem: Option<Error>)
    requires graph.nodes == [] && graph.nameToIndex == map[]
    modifies graph
    ensures problem == FirstMissing(sequence, operators)
    ensures problem.None? ==> Loaded(graph, sequence, operators, subflowOf)
  {
    for i := 0 to |sequence|
      invariant Loaded(graph, sequence[..i], operators, subflowOf)
      invariant FirstMissing(sequence, operators) == FirstMissing(sequence[i..], operators)
    {
      var name := sequence[i];
      assert sequence[i..][0] == name && sequence[i..][1..] == sequence[i + 1..];
      if name !in operators {
        return Some(OperatorNotFound(name));
      }
      AddNode(graph, sequence[..i], name, operators, subflowOf);
      assert sequence[..i + 1] == sequence[..i] + [name];
    }
    assert sequence[..|sequence|] == sequence && sequence[|sequence|..] == [];
    return None;
  }

  method AddSourcesOf(graph: Graph, sequence: seq<string>, i: nat) returns (problem: Option<Error>)
    requires graph.Valid() && Indexed(graph, sequence) && i < |sequence|
    modifies graph`nodes
    ensures graph.Valid() && SameOperators(old(graph.nodes), graph.nodes)
    ensures problem == SourceProblem(sequence, graph.nodes[i].config, graph.nodes[i].config.sources, i)
    ensures problem.None? ==>
              graph.Arrows() == old(graph.Arrows()) + SourcesInto(sequence, graph.nodes[i].config.sources, i)
  {
    var op := graph.nodes[i].config;
    for k := 0 to |op.sources|
      invariant graph.Valid() && SameOperators(old(graph.nodes), graph.nodes)
      invariant SourceProblem(sequence, op, op.sources, i) == SourceProblem(sequence, op, op.sources[k..], i)
      invariant graph.Arrows() == old(graph.Arrows()) + SourcesInto(sequence, op.sources[..k], i)
    {
      var src := op.sources[k];
      SourcesIntoAdd(sequence, op.sources, k, i);
      problem := AddSource(graph, sequence, op, src, i);
      if problem.Some? {
        return;
      }
    }
    SourcesIntoEnds(sequence, op, i);
    return None;
  }

  method AddSource(graph: Graph, sequence: seq<string>, op: OperatorConfig, src: string, i: nat) returns (problem: Option<Error>)
    requires graph.Valid() && Indexed(graph, sequence) && i < |sequence|
    modifies graph`nodes
    ensures graph.Valid() && SameOperators(old(graph.nodes), graph.nodes)
    ensures problem == OneSourceProblem(sequence, op, src, i)
    ensures problem.None? ==> graph.Arrows() == old(graph.Arrows()) + {(LastIndex(sequence, src), i)}
  {
    if src !in graph.nameToIndex {
      return Some(UnknownSource(op.name, src));
    }
    if graph.nameToIndex[src] >= i {
      return Some(ForwardReference(op.name, src));
    }
    var from := graph.nameToIndex[src];
    graph.AddEdge(from, i);
    assert from in [from];
    assert Arcs([from], i) == {(from, i)};
    return None;
  }

  method AddSources(graph: Graph, sequence: seq<string>) returns (problem: Option<Error>)
    requires graph.Valid() && Indexed(graph, sequence)
    modifies graph`nodes
    ensures problem == FirstSourceProblem(sequence, OpsOf(old(graph.nodes)), 0)
    ensures graph.Valid() && SameOperators(old(graph.nodes), graph.nodes)
    ensures problem.None? ==>
              graph.Arrows() == old(graph.Arrows()) + SourceEdges(sequence, OpsOf(old(graph.nodes)))
  {
    ghost var ops := OpsOf(graph.nodes);
    for i := 0 to |graph.nodes|
      invariant graph.Valid() && SameOperators(old(graph.nodes), graph.nodes)
      invariant FirstSourceProblem(sequence, ops, 0) == FirstSourceProblem(sequence, ops, i)
      invariant graph.Arrows() == old(graph.Arrows()) + SourceEdges(sequence, ops[..i])
    {
      assert graph.nodes[i].config == ops[i];
      problem := AddSourcesOf(graph, sequence, i);
      if problem.Some? {
        return;
      }
      SourceEdgesStep(sequence, ops, i);
    }
    assert ops[..|ops|] == ops;
    return None;
  }

  ghost function SourcesInto(sequence: seq<string>, sources: seq<string>, j: nat): Edges {
    set src | src in sources && 0 <= LastIndex(sequence, src) < j :: (LastIndex(sequence, src), j)
  }

  lemma {:induction false} SourcesIntoAdd(sequence: seq<string>, sources: seq<string>, k: nat, j: nat)
    requires k < |sources|
    ensures sources[k..][0] == sources[k] && sources[k..][1..] == sources[k + 1..]
    ensures 0 <= LastIndex(sequence, sources[k]) < j ==>
              SourcesInto(sequence, sources[..k + 1], j)
              == SourcesInto(sequence, sources[..k], j) + {(LastIndex(sequence, sources[k]), j)}
  {
    assert sources[..k + 1] == sources[..k] + [sources[k]];
    assert forall s :: s in sources[..k + 1] <==> s in sources[..k] || s == sources[k];
  }

  lemma {:induction false} SourcesIntoEnds(sequence: seq<string>, op: OperatorConfig, i: nat)
    ensures op.sources[|op.sources|..] == [] && op.sources[..|op.sources|] == op.sources
    ensures SourcesInto(sequence, [], i) == {}
  {
  }

  lemma {:induction false} SourceEdgesStep(sequence: seq<string>, ops: seq<OperatorConfig>, i: nat)
    requires i < |ops|
    ensures SourceEdges(sequence, ops[..i + 1]) == SourceEdges(sequence, ops[..i]) + SourcesInto(sequence, ops[i].sources, i)
  {
    forall u: nat, v: nat
      ensures (u, v) in SourceEdges(sequence, ops[..i + 1])
              <==> (u, v) in SourceEdges(sequence, ops[..i]) || (u, v) in SourcesInto(sequence, ops[i].sources, i)
    {
      if v < i {
        assert ops[..i + 1][v] == ops[..i][v];
        assert SourceEdge(sequence, ops[..i + 1], u, v) == SourceEdge(sequence, ops[..i], u, v);
      } else if v == i {
        assert ops[..i + 1][v] == ops[i];
        assert SourceEdge(sequence, ops[..i + 1], u, v)
               <==> exists src :: src in ops[i].sources && LastIndex(sequence, src) == u;
      }
    }
  }

  /** All edges of the graph, before reduction. */
  method AddHazards(graph: Graph, sequence: seq<string>) returns (problem: Option<Error>)
    requires graph.Valid() && Indexed(graph, sequence) && graph.Arrows() == {}
    modifies graph`nodes
    ensures graph.Valid() && SameOperators(old(graph.nodes), graph.nodes)
    ensures problem == FirstSourceProblem(sequence, OpsOf(graph.nodes), 0)
    ensures problem.None? ==> Increasing(graph.Arrows())
    ensures problem.None? ==> forall u, v ::
              Reaches(graph.Arrows(), u, v) <==> Reaches(RequiredOrder(sequence, OpsOf(graph.nodes)), u, v)
  {
    ghost var ops := OpsOf(graph.nodes);
    graph.ScanFields(true);
    ghost var first := graph.Arrows();
    assert OpsOf(graph.nodes) == ops;
    graph.ScanFields(false);
    ghost var both := graph.Arrows();
    assert OpsOf(graph.nodes) == ops;
    problem := AddSources(graph, sequence);
    assert OpsOf(graph.nodes) == ops;
    if problem.None? {
      RequiredOrderReached(sequence, ops, first, both, graph.Arrows());
    }
  }

  /** The nodes carry the names of the sequence, in its order, and the flows the operators were found in. */
  ghost predicate Labelled(nodes: seq<Node>, sequence: seq<string>, subflowOf: map<string, string>) {
    |nodes| == |sequence| && forall i :: 0 <= i < |nodes| ==>
      nodes[i].name == sequence[i] && nodes[i].subflow == (if sequence[i] in subflowOf then subflowOf[sequence[i]] else "")
  }

  lemma {:induction false} LoadedIsFresh(nodes: seq<Node>, sequence: seq<string>, operators: map<string, OperatorConfig>,
                                         subflowOf: map<string, string>)
    requires FreshNodes(nodes, sequence, operators, subflowOf)
    ensures nodes == Cleared(nodes) && Labelled(nodes, sequence, subflowOf)
    ensures forall name :: name in sequence ==> name in operators
    ensures OpsOf(nodes) == ConfigsOf(sequence, operators)
  {
  }

  lemma {:induction false} LabelsKept(a: seq<Node>, b: seq<Node>, sequence: seq<string>, subflowOf: map<string, string>)
    requires Labelled(a, sequence, subflowOf) && SameOperators(a, b)
    ensures Labelled(b, sequence, subflowOf) && OpsOf(b) == OpsOf(a)
  {
  }

  /** Builds, checks and reduces the graph of an expanded operator sequence. */
  method BuildDag(sequence: seq<string>, operators: map<string, OperatorConfig>, subflowOf: map<string, string>)
    returns (graph: Graph, problem: Option<Error>)
    ensures fresh(graph)
    ensures problem == BuildProblem(sequence, operators)
    ensures problem.None? ==> graph.Valid() && BuildProblem(sequence, operators).None?
    ensures problem.None? ==> forall i :: 0 <= i < |sequence| ==> sequence[i] in operators
    ensures problem.None? ==> OpsOf(graph.nodes) == ConfigsOf(sequence, operators) && Labelled(graph.nodes, sequence, subflowOf)
    ensures problem.None? ==> Increasing(graph.Arrows()) && graph.Arrows() == Irreplaceable(graph.Arrows())
    ensures problem.None? ==> forall u, v ::
              Reaches(graph.Arrows(), u, v) <==> Reaches(RequiredOrder(sequence, OpsOf(graph.nodes)), u, v)
    ensures problem.None? ==> Justly(sequence, OpsOf(graph.nodes), graph.Arrows())
  {
    graph := new Graph();
    problem := AddNodes(graph, sequence, operators, subflowOf);
    NoneMissing(sequence, operators);
    if problem.Some? {
      return;
    }
    ghost var loaded := graph.nodes;
    LoadedIsFresh(loaded, sequence, operators, subflowOf);
    ClearedIsEmpty(loaded);
    problem := AddHazards(graph, sequence);
    LabelsKept(loaded, graph.nodes, sequence, subflowOf);
    if problem.Some? {
      return;
    }
    CheckAndReduce(graph);
    LabelsKept(loaded, graph.nodes, sequence, subflowOf);
    ReducedJustly(sequence, OpsOf(graph.nodes), graph.Arrows());
  }

  /** The edges are the required ones without a detour: each joins two operators with a hazard or a declared source to its
      operator, and all such pairs are ordered. */
  ghost predicate Justly(sequence: seq<string>, ops: seq<OperatorConfig>, e: Edges) {
    && e == Irreplaceable(RequiredOrder(sequence, ops))
    && (forall i, j :: (i, j) in e ==> i < j < |ops| && (Hazard(ops[i], ops[j]) || SourceEdge(sequence, ops, i, j)))
    && (forall i: nat, j: nat :: i < j < |ops| && Hazard(ops[i], ops[j]) ==> Reaches(e, i, j))
    && (forall i: nat, j: nat :: i < j < |ops| && SourceEdge(sequence, ops, i, j) ==> Reaches(e, i, j))
  }

  lemma {:induction false} RequiredIsHazard(sequence: seq<string>, ops: seq<OperatorConfig>, i: nat, j: nat)
    ensures (i, j) in RequiredOrder(sequence, ops) <==>
            i < j < |ops| && (Hazard(ops[i], ops[j]) || SourceEdge(sequence, ops, i, j))
  {
    if i < j < |ops| { ConflictIffHazard(ops[i], ops[j]); }
  }

  lemma {:induction false} ReducedJustly(sequence: seq<string>, ops: seq<OperatorConfig>, e: Edges)
    requires Increasing(e) && e == Irreplaceable(e)
    requires forall u, v :: Reaches(e, u, v) <==> Reaches(RequiredOrder(sequence, ops), u, v)
    ensures Justly(sequence, ops, e)
  {
    var required := RequiredOrder(sequence, ops);
    ReductionIsUnique(e, required);
    forall i: nat, j: nat | (i, j) in required
      ensures Reaches(e, i, j)
    {
      EdgeReaches(required, i, j);
    }
    forall i: nat, j: nat
      ensures (i, j) in required <==> i < j < |ops| && (Hazard(ops[i], ops[j]) || SourceEdge(sequence, ops, i, j))
    {
      RequiredIsHazard(sequence, ops, i, j);
    }
  }

  /** On a graph whose edges all go forward the check passes and the reduction keeps reachability. */
  method CheckAndReduce(graph: Graph)
    requires graph.Valid() && Increasing(graph.Arrows())
    modifies graph`nodes
    ensures graph.Valid() && SameOperators(old(graph.nodes), graph.nodes)
    ensures Increasing(graph.Arrows()) && graph.Arrows() == Irreplaceable(graph.Arrows())
    ensures forall u, v :: Reaches(graph.Arrows(), u, v) <==> Reaches(old(graph.Arrows()), u, v)
  {
    ghost var full := graph.Arrows();
    IncreasingIsAcyclic(full);
    var stuck := TopologicalCheck(graph.nodes);
    if stuck != [] {
      assert false;
    }
    Reduce(graph);
    ReductionIsLeast(full);
    IrreplaceableTwice(full);
  }

  lemma {:induction false} RequiredOrderReached(sequence: seq<string>, ops: seq<OperatorConfig>, first: Edges, both: Edges, full: Edges)
    requires first <= ConflictEdgesIn(ops, true) && first <= both && both - first <= ConflictEdgesIn(ops, false)
    requires forall i, j :: (i, j) in ConflictEdgesIn(ops, true) ==> Reaches(first, i, j)
    requires forall i, j :: (i, j) in ConflictEdgesIn(ops, false) ==> Reaches(both, i, j)
    requires full == both + SourceEdges(sequence, ops)
    ensures Increasing(full)
    ensures forall u, v :: Reaches(full, u, v) <==> Reaches(RequiredOrder(sequence, ops), u, v)
  {
    var required := RequiredOrder(sequence, ops);
    assert full <= required;
    ReachesMonotone(full, required);
    ReachesMonotone(first, full);
    ReachesMonotone(both, full);
    forall i, j | (i, j) in required
      ensures Reaches(full, i, j)
    {
      if (i, j) in SourceEdges(sequence, ops) {
        EdgeReaches(full, i, j);
      }
    }
    ReachesTranslates(required, full);
  }

  lemma {:induction false} IrreplaceableTwice(e: Edges)
    requires Acyclic(e)
    ensures Irreplaceable(Irreplaceable(e)) == Irreplaceable(e)
  {
    ReductionIsLeast(e);
  }
}
