/** The dependency graph and the scan that derives its edges from declared reads and writes. */
module Graphs {
  import opened Reachability
  import opened Accesses
  import opened Trackers

  datatype Node = Node(name: string, subflow: string, config: OperatorConfig, succs: seq<nat>, preds: seq<nat>)

  ghost predicate Distinct(s: seq<nat>) {
    forall i, j :: 0 <= i < j < |s| ==> s[i] != s[j]
  }

  predicate HasSucc(nodes: seq<Node>, u: nat, v: nat) {
    u < |nodes| && v in nodes[u].succs
  }

  predicate HasPred(nodes: seq<Node>, v: nat, u: nat) {
    v < |nodes| && u in nodes[v].preds
  }

  /** Successor and predecessor lists are in range, without repetition or self-loops, and mirror each other. */
  ghost predicate Mirrored(nodes: seq<Node>) {
    && (forall u :: 0 <= u < |nodes| ==> Distinct(nodes[u].succs) && Distinct(nodes[u].preds))
    && (forall u: nat, v: nat :: HasSucc(nodes, u, v) ==> v < |nodes| && v != u)
    && (forall u: nat, v: nat :: HasSucc(nodes, u, v) <==> HasPred(nodes, v, u))
  }

  ghost function ArrowsOf(nodes: seq<Node>): Edges {
    set u: nat, v: nat | u < |nodes| && v in nodes[u].succs && HasSucc(nodes, u, v) :: (u, v)
  }

  ghost predicate SameOperators(a: seq<Node>, b: seq<Node>) {
    |a| == |b| && forall u :: 0 <= u < |a| ==> a[u].config == b[u].config && a[u].name == b[u].name && a[u].subflow == b[u].subflow
  }

  ghost function OpsOf(nodes: seq<Node>): seq<OperatorConfig> {
    seq(|nodes|, i requires 0 <= i < |nodes| => nodes[i].config)
  }

  function Linked(nodes: seq<Node>, from: nat, to: nat): seq<Node>
    requires from < |nodes| && to < |nodes|
  {
    var half := nodes[from := nodes[from].(succs := nodes[from].succs + [to])];
    half[to := half[to].(preds := half[to].preds + [from])]
  }

  lemma {:induction false} LinkedLists(nodes: seq<Node>, from: nat, to: nat)
    requires from < |nodes| && to < |nodes| && from != to
    ensures forall u: nat, v: nat :: HasSucc(Linked(nodes, from, to), u, v) <==> HasSucc(nodes, u, v) || (u, v) == (from, to)
    ensures forall u: nat, v: nat :: HasPred(Linked(nodes, from, to), v, u) <==> HasPred(nodes, v, u) || (u, v) == (from, to)
    ensures SameOperators(nodes, Linked(nodes, from, to))
  {
  }

  lemma {:induction false} LinkedAdds(nodes: seq<Node>, from: nat, to: nat)
    requires Mirrored(nodes) && from < |nodes| && to < |nodes| && from != to && !HasSucc(nodes, from, to)
    ensures Mirrored(Linked(nodes, from, to))
    ensures ArrowsOf(Linked(nodes, from, to)) == ArrowsOf(nodes) + {(from, to)}
  {
    LinkedLists(nodes, from, to);
    assert !HasPred(nodes, to, from);
    var after := Linked(nodes, from, to);
    assert forall u: nat, v: nat :: (u, v) in ArrowsOf(after) <==> HasSucc(after, u, v);
    assert forall u: nat, v: nat :: (u, v) in ArrowsOf(nodes) <==> HasSucc(nodes, u, v);
  }

  class Graph {
    var nodes: seq<Node>
    var nameToIndex: map<string, nat>

    ghost predicate Valid()
      reads this
    {
      Mirrored(nodes)
    }

    ghost function Arrows(): Edges
      reads this
    {
      ArrowsOf(nodes)
    }

    constructor ()
      ensures Valid() && nodes == [] && nameToIndex == map[]
    {
      nodes := [];
      nameToIndex := map[];
    }

    method AddEdge(from: nat, to: nat)
      requires Valid() && from < |nodes| && to < |nodes|
      modifies `nodes
      ensures Valid() && SameOperators(old(nodes), nodes)
      ensures Arrows() == old(Arrows()) + Arcs([from], to)
    {
      assert from in [from];
      if from == to || to in nodes[from].succs {
        assert from == to || HasSucc(nodes, from, to);
        return;
      }
      LinkedAdds(nodes, from, to);
      LinkedLists(nodes, from, to);
      nodes := nodes[from := nodes[from].(succs := nodes[from].succs + [to])];
      nodes := nodes[to := nodes[to].(preds := nodes[to].preds + [from])];
    }

    method AddEdges(from: seq<nat>, to: nat)
      requires Valid() && to < |nodes| && forall x :: x in from ==> x < |nodes|
      modifies `nodes
      ensures Valid() && SameOperators(old(nodes), nodes)
      ensures Arrows() == old(Arrows()) + Arcs(from, to)
    {
      for k := 0 to |from|
        invariant Valid() && SameOperators(old(nodes), nodes)
        invariant Arrows() == old(Arrows()) + Arcs(from[..k], to)
      {
        assert from[k] in from;
        AddEdge(from[k], to);
        assert from[..k + 1] == from[..k] + [from[k]];
        assert Arcs(from[..k + 1], to) == Arcs(from[..k], to) + Arcs([from[k]], to);
      }
      assert from[..|from|] == from;
    }

    /** The accesses of operator `i` to `fields`: an edge from every tracked access that clashes with it. */
    method TouchFields(i: nat, fields: seq<string>, kind: Kind, start: map<string, FieldTracker>,
                       ghost before: set<Access>, ghost e0: Edges)
      returns (trackers: map<string, FieldTracker>, ghost done: set<Access>)
      requires Valid() && i < |nodes|
      requires ScanInvariant(before, start, e0, Arrows()) && forall a :: a in before ==> a.op <= i
      modifies `nodes
      ensures Valid() && SameOperators(old(nodes), nodes)
      ensures ScanInvariant(done, trackers, e0, Arrows())
      ensures done == before + AccessesTo(fields, i, kind)
    {
      trackers, done := start, before;
      for k := 0 to |fields|
        invariant Valid() && SameOperators(old(nodes), nodes)
        invariant ScanInvariant(done, trackers, e0, Arrows())
        invariant done == before + AccessesTo(fields[..k], i, kind)
      {
        var f := fields[k];
        var tracker := TrackerOf(trackers, f);
        forall x | x in Incoming(tracker, kind)
          ensures x < |nodes|
        {
          var a := IncomingClashes(done, f, tracker, i, kind, x);
        }
        AccessStep(done, trackers, e0, Arrows(), Access(f, i, kind));
        AddEdges(Incoming(tracker, kind), i);
        trackers := trackers[f := AfterAccess(tracker, kind, i)];
        done := done + {Access(f, i, kind)};
        assert fields[..k + 1] == fields[..k] + [f];
        assert AccessesTo(fields[..k + 1], i, kind) == AccessesTo(fields[..k], i, kind) + {Access(f, i, kind)};
      }
      assert fields[..|fields|] == fields;
    }

    /** One operator of the scan: its reads, then its writes, then its effect on the row set. */
    method ScanOperator(i: nat, common: bool, start: map<string, FieldTracker>, ghost before: set<Access>, ghost e0: Edges)
      returns (trackers: map<string, FieldTracker>, ghost done: set<Access>)
      requires Valid() && i < |nodes|
      requires ScanInvariant(before, start, e0, Arrows()) && forall a :: a in before ==> a.op <= i
      modifies `nodes
      ensures Valid() && SameOperators(old(nodes), nodes)
      ensures ScanInvariant(done, trackers, e0, Arrows())
      ensures done == before + AccessesOf(nodes[i].config, i, common)
    {
      var op := nodes[i].config;
      var inputs, outputs := DeclaredFields(op, common);
      var writeKind := if !common && op.additiveWritesRowSet then Append else Mutate;
      trackers, done := TouchFields(i, inputs, Read, start, before, e0);
      trackers, done := TouchFields(i, outputs, writeKind, trackers, done, e0);
      if !common && op.mutatesRowSet {
        trackers, done := TouchFields(i, [ROW_SET], Mutate, trackers, done, e0);
      }
      AccessesCovered(op, i, common, inputs, outputs, writeKind);
    }

    /** Adds the edges of one name space: only between conflicting operators, and enough to order all of those. */
    method ScanFields(common: bool)
      requires Valid()
      modifies `nodes
      ensures Valid() && SameOperators(old(nodes), nodes)
      ensures old(Arrows()) <= Arrows()
      ensures Arrows() - old(Arrows()) <= ConflictEdgesIn(OpsOf(nodes), common)
      ensures forall i, j :: (i, j) in ConflictEdgesIn(OpsOf(nodes), common) ==> Reaches(Arrows(), i, j)
    {
      var trackers: map<string, FieldTracker> := map[];
      ghost var ops := OpsOf(nodes);
      ghost var done: set<Access> := {};
      for i := 0 to |nodes|
        invariant Valid() && SameOperators(old(nodes), nodes)
        invariant forall a :: a in done <==> AccessBefore(ops, common, i, a)
        invariant ScanInvariant(done, trackers, old(Arrows()), Arrows())
      {
        trackers, done := ScanOperator(i, common, trackers, done, old(Arrows()));
        assert nodes[i].config == ops[i];
      }
      assert OpsOf(nodes) == ops;
      ScanOrdersConflicts(ops, common, done, trackers, old(Arrows()), Arrows());
    }
  }

  /** The fields scanned as reads and as writes, with the row-set sentinel injected. */
  method DeclaredFields(op: OperatorConfig, common: bool) returns (inputs: seq<string>, outputs: seq<string>)
    ensures Elements(inputs) == Touched(op, common, Read)
    ensures Elements(outputs)
            == if common then Elements(op.metadata.commonOutput)
               else Elements(op.metadata.itemOutput) + (if op.additiveWritesRowSet then {ROW_SET} else {})
  {
    inputs, outputs := op.metadata.itemInput, op.metadata.itemOutput;
    if common {
      inputs := CommonReadFields(op.metadata);
      outputs := op.metadata.commonOutput;
    }
    var additive := !common && op.additiveWritesRowSet;
    if !common {
      if additive {
        outputs := outputs + [ROW_SET];
      }
      if op.consumesRowSet {
        inputs := inputs + [ROW_SET];
      }
      if !additive && !op.consumesRowSet && (inputs != [] || outputs != []) {
        inputs := inputs + [ROW_SET];
      }
    }
  }

  ghost function AccessesTo(fields: seq<string>, i: nat, kind: Kind): set<Access> {
    set f | f in fields :: Access(f, i, kind)
  }

  ghost function AccessesOf(op: OperatorConfig, i: nat, common: bool): set<Access> {
    set k: Kind, f | k in {Read, Append, Mutate} && f in Touched(op, common, k) :: Access(f, i, k)
  }

  lemma {:induction false} AccessesCovered(op: OperatorConfig, i: nat, common: bool, inputs: seq<string>, outputs: seq<string>, writeKind: Kind)
    requires Elements(inputs) == Touched(op, common, Read)
    requires Elements(outputs) == if common then Elements(op.metadata.commonOutput)
                                  else Elements(op.metadata.itemOutput) + (if op.additiveWritesRowSet then {ROW_SET} else {})
    requires writeKind == if !common && op.additiveWritesRowSet then Append else Mutate
    ensures AccessesOf(op, i, common)
            == AccessesTo(inputs, i, Read) + AccessesTo(outputs, i, writeKind)
               + (if !common && op.mutatesRowSet then AccessesTo([ROW_SET], i, Mutate) else {})
  {
    forall a
      ensures a in AccessesOf(op, i, common) <==> a.op == i && a.field in Touched(op, common, a.kind)
    {
    }
    assert forall f :: f in inputs <==> f in Elements(inputs);
    assert forall f :: f in outputs <==> f in Elements(outputs);
  }

  ghost predicate AccessBefore(ops: seq<OperatorConfig>, common: bool, i: nat, a: Access)
    requires i <= |ops|
  {
    a.op < i && a.field in Touched(ops[a.op], common, a.kind)
  }

  lemma {:induction false} ScanOrdersConflicts(ops: seq<OperatorConfig>, common: bool, done: set<Access>,
                            trackers: map<string, FieldTracker>, e0: Edges, e: Edges)
    requires forall a :: a in done <==> AccessBefore(ops, common, |ops|, a)
    requires ScanInvariant(done, trackers, e0, e)
    ensures e - e0 <= ConflictEdgesIn(ops, common)
    ensures forall i, j :: (i, j) in ConflictEdgesIn(ops, common) ==> Reaches(e, i, j)
  {
    forall p | p in e - e0
      ensures p in ConflictEdgesIn(ops, common)
    {
      assert (p.0, p.1) in e - e0;
      assert Justified(done, p.0, p.1);
      var a, b :| ClashPair(done, a, b) && a.op == p.0 && b.op == p.1;
      assert ClashOn(ops[a.op], ops[b.op], common, a.field, a.kind, b.kind);
    }
    forall i: nat, j: nat | (i, j) in ConflictEdgesIn(ops, common)
      ensures Reaches(e, i, j)
    {
      var f, ka, kb :| ClashOn(ops[i], ops[j], common, f, ka, kb);
      assert ClashPair(done, Access(f, i, ka), Access(f, j, kb));
    }
  }
}
