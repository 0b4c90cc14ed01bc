/** The runs of a graph agree for all operator behaviours exactly when its appending operators are ordered. */
module AppendOrder {
  import opened Options
  import opened Reachability
  import opened Accesses
  import opened Frames
  import opened Operators
  import opened Commute
  import opened Schedule

  /** What configuration checks and conventions demand of an operator whatever it computes. */
  predicate ConfigFine(c: OperatorConfig) {
    && (forall s :: s in c.skip ==> s in CommonReads(c.metadata))
    && !(c.additiveWritesRowSet && c.mutatesRowSet)
    && (c.additiveWritesRowSet && !c.consumesRowSet ==> c.metadata.itemInput == [])
  }

  ghost predicate Deterministic(e: Edges, configs: seq<OperatorConfig>) {
    forall ops, order, f :: Configs(ops) == configs && Suitable(true, ops) && Legal(e, |ops|, order) ==>
      Run(ops, order, Some(f)) == Run(ops, Declared(|ops|), Some(f))
  }

  function RowsOnly(items: seq<Row>): Frame {
    Frame(map[], items, [])
  }

  const ONE_ROW := NOTHING.(added := [[]])

  function Stamp(name: string): Row {
    map[SOURCE := Str(name)]
  }

  /** Operators that add one empty row where `chosen` says so and do nothing elsewhere. */
  function Recallers(configs: seq<OperatorConfig>, chosen: set<nat>): seq<Operator> {
    seq(|configs|, k requires 0 <= k < |configs| =>
      Operator(configs[k], if configs[k].additiveWritesRowSet then Recall else Transform,
               v => Some(if k in chosen then ONE_ROW else NOTHING)))
  }

  /** The rows operator `k` adds. */
  function Added(configs: seq<OperatorConfig>, chosen: set<nat>, k: nat): seq<Row> {
    if k < |configs| && k in chosen then [Stamp(configs[k].name)] else []
  }

  function Stamps(configs: seq<OperatorConfig>, chosen: set<nat>, order: seq<nat>): seq<Row> {
    if order == [] then [] else Added(configs, chosen, order[0]) + Stamps(configs, chosen, order[1..])
  }

  lemma {:induction false} RecallerStep(configs: seq<OperatorConfig>, chosen: set<nat>, k: nat, items: seq<Row>)
    requires k < |configs| && (k in chosen ==> configs[k].additiveWritesRowSet)
    ensures Step(Recallers(configs, chosen)[k], RowsOnly(items))
            == Some(RowsOnly(items + Added(configs, chosen, k)))
  {
    var op, f := Recallers(configs, chosen)[k], RowsOnly(items);
    var out := LogOf(op, f).value;
    AppendEffect(f, out, op.config.name, op.opType == Recall);
    assert f.common + CommonDelta([]) == f.common;
    if k in chosen {
      assert AddedProblem([]).None?;
      assert AddedRows(out.added, op.config.name, true) == [Stamp(configs[k].name)];
    } else {
      assert AddedRows(out.added, op.config.name, op.opType == Recall) == [];
    }
  }

  /** Each operator contributes its own block of rows whatever is in the frame. */
  ghost predicate AddsItsBlock(ops: seq<Operator>, configs: seq<OperatorConfig>, chosen: set<nat>) {
    forall k, items :: 0 <= k < |ops| ==>
      Step(ops[k], RowsOnly(items)) == Some(RowsOnly(items + Added(configs, chosen, k)))
  }

  lemma {:induction false} BlocksAccumulate(ops: seq<Operator>, configs: seq<OperatorConfig>, chosen: set<nat>,
                                            order: seq<nat>, items: seq<Row>)
    requires InRange(order, |ops|) && AddsItsBlock(ops, configs, chosen)
    ensures Run(ops, order, Some(RowsOnly(items))) == Some(RowsOnly(items + Stamps(configs, chosen, order)))
    decreases |order|
  {
    if order == [] {
      assert items + [] == items;
    } else {
      var added := Added(configs, chosen, order[0]);
      BlocksAccumulate(ops, configs, chosen, order[1..], items + added);
      ConcatAssociates(items, added, Stamps(configs, chosen, order[1..]));
    }
  }

  lemma {:induction false} ConcatAssociates<T>(a: seq<T>, b: seq<T>, c: seq<T>)
    ensures a + b + c == a + (b + c)
  {
  }

  lemma {:induction false} SplitAtTwo<T>(s: seq<T>, i: nat, j: nat)
    requires i < j < |s|
    ensures s == s[..i] + [s[i]] + s[i + 1..j] + [s[j]] + s[j + 1..]
  {
  }

  lemma {:induction false} RecallerRun(configs: seq<OperatorConfig>, chosen: set<nat>, order: seq<nat>)
    requires InRange(order, |configs|)
    requires forall k :: k in chosen && k < |configs| ==> configs[k].additiveWritesRowSet
    ensures Run(Recallers(configs, chosen), order, Some(RowsOnly([]))) == Some(RowsOnly(Stamps(configs, chosen, order)))
  {
    forall k: nat, items | k < |configs|
      ensures Step(Recallers(configs, chosen)[k], RowsOnly(items)) == Some(RowsOnly(items + Added(configs, chosen, k)))
    {
      RecallerStep(configs, chosen, k, items);
    }
    BlocksAccumulate(Recallers(configs, chosen), configs, chosen, order, []);
    assert [] + Stamps(configs, chosen, order) == Stamps(configs, chosen, order);
  }

  lemma {:induction false} StampsOfNone(configs: seq<OperatorConfig>, chosen: set<nat>, order: seq<nat>)
    requires forall l :: 0 <= l < |order| ==> order[l] !in chosen
    ensures Stamps(configs, chosen, order) == []
  {
    if order != [] {
      StampsOfNone(configs, chosen, order[1..]);
    }
  }

  lemma {:induction false} StampsConcat(configs: seq<OperatorConfig>, chosen: set<nat>, p: seq<nat>, q: seq<nat>)
    ensures Stamps(configs, chosen, p + q) == Stamps(configs, chosen, p) + Stamps(configs, chosen, q)
  {
    if p == [] {
      assert p + q == q;
    } else {
      StampsConcat(configs, chosen, p[1..], q);
      assert (p + q)[1..] == p[1..] + q && (p + q)[0] == p[0];
    }
  }

  lemma {:induction false} StampsOfPair(configs: seq<OperatorConfig>, x: nat, y: nat, order: seq<nat>)
    requires InRange(order, |configs|) && NoRepeat(order) && Before(order, x, y)
    ensures x < |configs| && y < |configs|
    ensures Stamps(configs, {x, y}, order) == [Stamp(configs[x].name), Stamp(configs[y].name)]
  {
    var i, j :| 0 <= i < j < |order| && order[i] == x && order[j] == y;
    SplitAtTwo(order, i, j);
    StampsAround(configs, order, i, j);
    StampsOfFive(configs, x, y, order[..i], order[i + 1..j], order[j + 1..]);
  }

  lemma {:induction false} StampsAround(configs: seq<OperatorConfig>, order: seq<nat>, i: nat, j: nat)
    requires i < j < |order| && NoRepeat(order)
    ensures Stamps(configs, {order[i], order[j]}, order[..i]) == []
    ensures Stamps(configs, {order[i], order[j]}, order[i + 1..j]) == []
    ensures Stamps(configs, {order[i], order[j]}, order[j + 1..]) == []
  {
    StampsOfNone(configs, {order[i], order[j]}, order[..i]);
    StampsOfNone(configs, {order[i], order[j]}, order[i + 1..j]);
    StampsOfNone(configs, {order[i], order[j]}, order[j + 1..]);
  }

  lemma {:induction false} StampsOfFive(configs: seq<OperatorConfig>, x: nat, y: nat, pre: seq<nat>, mid: seq<nat>, post: seq<nat>)
    requires x < |configs| && y < |configs|
    requires Stamps(configs, {x, y}, pre) == Stamps(configs, {x, y}, mid) == Stamps(configs, {x, y}, post) == []
    ensures Stamps(configs, {x, y}, pre + [x] + mid + [y] + post) == [Stamp(configs[x].name), Stamp(configs[y].name)]
  {
    var chosen := {x, y};
    StampsThenOne(configs, chosen, pre, x);
    StampsThenNone(configs, chosen, pre + [x], mid);
    StampsThenOne(configs, chosen, pre + [x] + mid, y);
    StampsThenNone(configs, chosen, pre + [x] + mid + [y], post);
  }

  lemma {:induction false} StampsThenNone(configs: seq<OperatorConfig>, chosen: set<nat>, p: seq<nat>, q: seq<nat>)
    requires Stamps(configs, chosen, q) == []
    ensures Stamps(configs, chosen, p + q) == Stamps(configs, chosen, p)
  {
    StampsConcat(configs, chosen, p, q);
  }

  lemma {:induction false} StampsThenOne(configs: seq<OperatorConfig>, chosen: set<nat>, p: seq<nat>, k: nat)
    ensures Stamps(configs, chosen, p + [k]) == Stamps(configs, chosen, p) + Added(configs, chosen, k)
  {
    StampsConcat(configs, chosen, p, [k]);
    assert [k][1..] == [];
  }

  /** The numbers below `n` inside (or outside) `s`, ascending. */
  function Pick(n: nat, s: set<nat>, inside: bool): seq<nat> {
    if n == 0 then [] else
      var m: nat := n - 1;
      Pick(m, s, inside) + (if (m in s) == inside then [m] else [])
  }

  lemma {:induction false} PickAscending(n: nat, s: set<nat>, inside: bool)
    ensures forall k: nat :: k in Pick(n, s, inside) <==> k < n && (k in s) == inside
    ensures forall i, j :: 0 <= i < j < |Pick(n, s, inside)| ==> Pick(n, s, inside)[i] < Pick(n, s, inside)[j]
  {
    if n > 0 {
      var m: nat := n - 1;
      PickAscending(m, s, inside);
      var p := Pick(m, s, inside);
      assert forall i :: 0 <= i < |p| ==> p[i] in p;
    }
  }

  lemma {:induction false} PickSizes(n: nat, s: set<nat>)
    ensures |Pick(n, s, true)| + |Pick(n, s, false)| == n
  {
    if n > 0 {
      PickSizes(n - 1, s);
    }
  }

  /** Everything `j` depends on, then `j`, then the rest: a legal run in which `j` precedes whatever does not reach it. */
  lemma {:induction false} EarlyRun(e: Edges, n: nat, j: nat) returns (order: seq<nat>)
    requires Increasing(e) && j < n && forall p :: p in e ==> p.1 < n
    ensures Legal(e, n, order)
    ensures forall i: nat :: i < n && i != j && !Reaches(e, i, j) ==> Before(order, j, i)
  {
    var s := Upstream(e, n, j);
    var first, second := Pick(n, s, true), Pick(n, s, false);
    PickAscending(n, s, true);
    PickAscending(n, s, false);
    PickSizes(n, s);
    order := first + second;
    BlocksDistinct(first, second, n);
    forall u, v | (u, v) in e
      ensures Before(order, u, v)
    {
      EdgeInBlocks(e, n, j, u, v);
    }
    forall i: nat | i < n
      ensures i in order
      ensures i != j && !Reaches(e, i, j) ==> Before(order, j, i)
    {
      assert i in first || i in second;
      if i in second {
        AcrossBlocks(first, second, j, i);
      }
    }
  }

  /** `j` and everything that reaches it. */
  ghost function Upstream(e: Edges, n: nat, j: nat): set<nat> {
    set x: nat | x < n && ReachesOrSame(e, x, j)
  }

  lemma {:induction false} BlocksDistinct(first: seq<nat>, second: seq<nat>, n: nat)
    requires forall i, j :: 0 <= i < j < |first| ==> first[i] < first[j]
    requires forall i, j :: 0 <= i < j < |second| ==> second[i] < second[j]
    requires forall k :: !(k in first && k in second)
    requires forall k :: k in first || k in second ==> k < n
    ensures NoRepeat(first + second) && InRange(first + second, n)
  {
    var order := first + second;
    forall k, l | 0 <= k < l < |order|
      ensures order[k] != order[l]
    {
      assert k < |first| ==> order[k] in first;
      assert l >= |first| ==> order[l] in second;
    }
    forall k | 0 <= k < |order|
      ensures order[k] < n
    {
      assert order[k] in first || order[k] in second;
    }
  }

  lemma {:induction false} EdgeInBlocks(e: Edges, n: nat, j: nat, u: nat, v: nat)
    requires Increasing(e) && j < n && (u, v) in e && v < n
    ensures Before(Pick(n, Upstream(e, n, j), true) + Pick(n, Upstream(e, n, j), false), u, v)
  {
    var s := Upstream(e, n, j);
    var first, second := Pick(n, s, true), Pick(n, s, false);
    PickAscending(n, s, true);
    PickAscending(n, s, false);
    EdgeReaches(e, u, v);
    if v in s {
      if v != j {
        ReachesTransitive(e, u, v, j);
      }
      InBlock(first, [], second, u, v);
      assert [] + first + second == first + second;
    } else if u in s {
      AcrossBlocks(first, second, u, v);
    } else {
      InBlock(second, first, [], u, v);
      assert first + second + [] == first + second;
    }
  }

  lemma {:induction false} InBlock(block: seq<nat>, left: seq<nat>, right: seq<nat>, u: nat, v: nat)
    requires forall i, j :: 0 <= i < j < |block| ==> block[i] < block[j]
    requires u in block && v in block && u < v
    ensures Before(left + block + right, u, v)
  {
    var i :| 0 <= i < |block| && block[i] == u;
    var j :| 0 <= j < |block| && block[j] == v;
    var all := left + block + right;
    assert all[|left| + i] == u && all[|left| + j] == v;
  }

  lemma {:induction false} AcrossBlocks(first: seq<nat>, second: seq<nat>, u: nat, v: nat)
    requires u in first && v in second
    ensures Before(first + second, u, v)
  {
    var i :| 0 <= i < |first| && first[i] == u;
    var j :| 0 <= j < |second| && second[j] == v;
    assert (first + second)[i] == u && (first + second)[|first| + j] == v;
  }

  /** Two appending operators the graph leaves unordered: some behaviours make two legal runs differ. */
  lemma {:induction false} UnorderedAppendsDiffer(e: Edges, configs: seq<OperatorConfig>, i: nat, j: nat)
    requires Covers(e, configs) && forall k :: 0 <= k < |configs| ==> ConfigFine(configs[k])
    requires BothAppend(configs, i, j) && !Reaches(e, i, j) && configs[i].name != configs[j].name
    ensures !Deterministic(e, configs)
  {
    var ops, chosen := Recallers(configs, {i, j}), {i, j};
    assert Configs(ops) == configs;
    var order := EarlyRun(e, |configs|, j);
    var declared := Declared(|configs|);
    RecallerRun(configs, chosen, order);
    RecallerRun(configs, chosen, declared);
    assert Before(order, j, i);
    assert declared[i] == i && declared[j] == j && Before(declared, i, j);
    StampsOfPair(configs, j, i, order);
    StampsOfPair(configs, i, j, declared);
    assert {j, i} == chosen;
    RecallersSuitable(configs, chosen);
    StampsDiffer(configs[i].name, configs[j].name);
    PairsDiffer(Stamp(configs[i].name), Stamp(configs[j].name));
    assert Run(ops, order, Some(RowsOnly([]))) != Run(ops, declared, Some(RowsOnly([])));
  }

  lemma {:induction false} RecallersSuitable(configs: seq<OperatorConfig>, chosen: set<nat>)
    requires forall k :: 0 <= k < |configs| ==> ConfigFine(configs[k])
    ensures Suitable(true, Recallers(configs, chosen))
  {
  }

  lemma {:induction false} PairsDiffer(a: Row, b: Row)
    requires a != b
    ensures [a, b] != [b, a]
  {
    assert [a, b][0] != [b, a][0];
  }

  lemma {:induction false} StampsDiffer(x: string, y: string)
    requires x != y
    ensures Stamp(x) != Stamp(y)
  {
    assert Stamp(x)[SOURCE] != Stamp(y)[SOURCE];
  }

  /** The exact condition for one outcome over all legal runs. */
  lemma {:induction false} DeterministicIffAppendsOrdered(e: Edges, configs: seq<OperatorConfig>)
    requires Covers(e, configs) && forall k :: 0 <= k < |configs| ==> ConfigFine(configs[k])
    requires forall i, j :: 0 <= i < j < |configs| ==> configs[i].name != configs[j].name
    ensures Deterministic(e, configs) <==> AppendsOrdered(e, configs)
  {
    if AppendsOrdered(e, configs) {
      forall ops, order, f | Configs(ops) == configs && Suitable(true, ops) && Legal(e, |ops|, order)
        ensures Run(ops, order, Some(f)) == Run(ops, Declared(|ops|), Some(f))
      {
        EveryRunIsTheDeclaredRun(e, ops, order, f);
      }
    } else {
      var i: nat, j: nat :| BothAppend(configs, i, j) && !Reaches(e, i, j);
      UnorderedAppendsDiffer(e, configs, i, j);
    }
  }
}
