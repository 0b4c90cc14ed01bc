/** The two traversals of the graph: the detour search behind the reduction, and the cycle check. */
module Traversal {
  import opened Reachability
  import opened Graphs

  /** Breadth-first search from `src` that starts on any edge but the one to `dst`. */
  method ReachableWithout(nodes: seq<Node>, src: nat, dst: nat) returns (found: bool)
    requires Mirrored(nodes) && src < |nodes| && dst < |nodes|
    ensures found <==> src != dst && Reaches(ArrowsOf(nodes) - {(src, dst)}, src, dst)
  {
    ghost var e := ArrowsOf(nodes) - {(src, dst)};
    var visited: set<nat> := {src};
    var queue: seq<nat> := [];
    var succs := nodes[src].succs;
    for k := 0 to |succs|
      invariant SearchInvariant(nodes, e, src, visited, queue)
      invariant forall x :: x in visited && x != src ==> x in queue
      invariant forall x :: x in succs[..k] && x != dst ==> x in visited
      invariant dst in visited ==> dst == src
    {
      var next := succs[k];
      assert HasSucc(nodes, src, next);
      if next != dst {
        EdgeReaches(e, src, next);
        visited := visited + {next};
        queue := queue + [next];
      }
    }
    assert forall y: nat :: (src, y) in e ==> HasSucc(nodes, src, y) && y in succs;
    while queue != []
      invariant SearchInvariant(nodes, e, src, visited, queue)
      invariant forall x: nat, y: nat :: x in visited && x !in queue && (x, y) in e ==> y in visited
      invariant dst in visited && dst != src ==> dst in queue
      decreases Unvisited(nodes, visited), |queue|
    {
      var current := queue[0];
      ghost var before, whole := visited, queue;
      queue := queue[1..];
      assert whole == [current] + queue;
      if current == dst {
        return true;
      }
      var nexts := nodes[current].succs;
      for k := 0 to |nexts|
        invariant SearchInvariant(nodes, e, src, visited, queue)
        invariant before <= visited && (visited == before ==> queue == whole[1..])
        invariant whole[1..] <= queue && forall x :: x in visited && x !in before ==> x in queue
        invariant forall x :: x in nexts[..k] ==> x in visited
        invariant dst in visited && dst != src ==> dst in queue
      {
        var next := nexts[k];
        assert HasSucc(nodes, current, next);
        if next !in visited {
          EdgeReaches(e, current, next);
          if current != src {
            ReachesTransitive(e, src, current, next);
          }
          visited := visited + {next};
          queue := queue + [next];
        }
      }
      forall x: nat, y: nat | x in visited && x !in queue && (x, y) in e
        ensures y in visited
      {
        if x == current {
          assert HasSucc(nodes, current, y);
        }
      }
      if visited != before {
        var x :| x in visited && x !in before;
        assert x in Unvisited(nodes, before) && x !in Unvisited(nodes, visited);
      }
    }
    if src != dst && Reaches(e, src, dst) {
      var p :| WalkFromTo(e, p, src, dst);
      ClosedSetContains(e, visited, p, src, dst);
    }
    return false;
  }

  ghost function Unvisited(nodes: seq<Node>, visited: set<nat>): set<nat> {
    set x: nat | x < |nodes| && x !in visited
  }

  ghost predicate SearchInvariant(nodes: seq<Node>, e: Edges, src: nat, visited: set<nat>, queue: seq<nat>) {
    && src in visited
    && (forall x :: x in visited ==> x < |nodes| && (x == src || Reaches(e, src, x)))
    && (forall x :: x in queue ==> x in visited && x != src)
  }

  /** Node `i` lies on a cycle or below one. */
  ghost predicate Stuck(e: Edges, i: nat) {
    exists c :: Reaches(e, c, c) && ReachesOrSame(e, c, i)
  }

  /** How many entries of `preds` are not in `done`. */
  function Pending(preds: seq<nat>, done: seq<nat>): nat {
    if preds == [] then 0 else (if preds[0] in done then 0 else 1) + Pending(preds[1..], done)
  }

  lemma {:induction false} PendingAfter(preds: seq<nat>, done: seq<nat>, x: nat)
    requires Distinct(preds) && x !in done
    ensures Pending(preds, done) == Pending(preds, done + [x]) + (if x in preds then 1 else 0)
  {
    if preds != [] {
      var tail := preds[1..];
      assert forall i :: 0 <= i < |tail| ==> tail[i] == preds[i + 1];
      assert x in preds <==> x == preds[0] || x in tail;
      PendingAfter(tail, done, x);
    }
  }

  lemma {:induction false} PendingZero(preds: seq<nat>, done: seq<nat>)
    ensures Pending(preds, done) == 0 <==> forall x :: x in preds ==> x in done
    ensures done == [] ==> Pending(preds, done) == |preds|
  {
    if preds != [] {
      PendingZero(preds[1..], done);
      assert forall x :: x in preds <==> x == preds[0] || x in preds[1..];
    }
  }

  /** State of the cycle check: `order` was taken off the queue, `rest` are edges still to be counted down. */
  ghost predicate KahnInvariant(nodes: seq<Node>, order: seq<nat>, queue: seq<nat>, indegree: seq<int>, rest: seq<nat>) {
    && |indegree| == |nodes|
    && Distinct(order + queue)
    && (forall v: nat :: v < |nodes| ==> indegree[v] == Pending(nodes[v].preds, order) + (if v in rest then 1 else 0))
    && (forall v: nat :: v in order + queue <==> v < |nodes| && indegree[v] == 0)
    && PredsFirst(nodes, order)
  }

  ghost predicate PredsFirst(nodes: seq<Node>, order: seq<nat>) {
    forall k, u: nat :: 0 <= k < |order| && HasPred(nodes, order[k], u) ==> u in order[..k]
  }

  /** Counts in-degrees down; reports the nodes left over. They are the nodes on a cycle and all nodes below one. */
  method TopologicalCheck(nodes: seq<Node>) returns (stuck: seq<nat>)
    requires Mirrored(nodes)
    ensures stuck == [] <==> Acyclic(ArrowsOf(nodes))
    ensures forall i: nat :: i in stuck <==> i < |nodes| && Stuck(ArrowsOf(nodes), i)
    ensures forall k, l :: 0 <= k < l < |stuck| ==> stuck[k] < stuck[l]
  {
    var indegree, queue := Roots(nodes);
    ghost var order: seq<nat> := [];
    var seen := 0;
    while queue != []
      invariant KahnInvariant(nodes, order, queue, indegree, [])
      invariant seen == |order|
      decreases Unvisited(nodes, Members(order))
    {
      TakeNext(nodes, order, queue, indegree);
      ghost var before := order;
      var current := queue[0];
      queue := queue[1..];
      order := order + [current];
      seen := seen + 1;
      queue, indegree := CountDownSuccessors(nodes, current, order, queue, indegree);
      assert current in Unvisited(nodes, Members(before)) && current !in Unvisited(nodes, Members(order));
    }
    assert order + queue == order;
    Leftovers(nodes, order, indegree);
    OrderSize(nodes, order);
    stuck := [];
    if seen == |nodes| {
      return;
    }
    for i := 0 to |nodes|
      invariant forall v: nat :: v in stuck <==> v < i && indegree[v] > 0
      invariant forall k :: 0 <= k < |stuck| ==> stuck[k] < i
      invariant forall k, l :: 0 <= k < l < |stuck| ==> stuck[k] < stuck[l]
    {
      if indegree[i] > 0 {
        stuck := stuck + [i];
      }
    }
  }

  method Roots(nodes: seq<Node>) returns (indegree: seq<int>, queue: seq<nat>)
    requires Mirrored(nodes)
    ensures KahnInvariant(nodes, [], queue, indegree, [])
  {
    indegree := [];
    for i := 0 to |nodes|
      invariant |indegree| == i && forall v :: 0 <= v < i ==> indegree[v] == |nodes[v].preds|
    {
      indegree := indegree + [|nodes[i].preds|];
    }
    queue := [];
    for i := 0 to |nodes|
      invariant Distinct(queue) && forall v: nat :: v in queue <==> v < i && indegree[v] == 0
    {
      if indegree[i] == 0 {
        queue := queue + [i];
      }
    }
    forall v: nat | v < |nodes|
      ensures indegree[v] == Pending(nodes[v].preds, [])
    {
      PendingZero(nodes[v].preds, []);
    }
    assert [] + queue == queue;
  }

  method CountDownSuccessors(nodes: seq<Node>, current: nat, ghost order: seq<nat>, queue0: seq<nat>, indegree0: seq<int>)
    returns (queue: seq<nat>, indegree: seq<int>)
    requires Mirrored(nodes) && current < |nodes|
    requires KahnInvariant(nodes, order, queue0, indegree0, nodes[current].succs)
    ensures KahnInvariant(nodes, order, queue, indegree, [])
  {
    queue, indegree := queue0, indegree0;
    var succs := nodes[current].succs;
    for k := 0 to |succs|
      invariant KahnInvariant(nodes, order, queue, indegree, succs[k..])
    {
      var succ := succs[k];
      assert HasSucc(nodes, current, succ);
      CountDown(nodes, order, queue, indegree, succs, k);
      indegree := indegree[succ := indegree[succ] - 1];
      if indegree[succ] == 0 {
        queue := queue + [succ];
      }
    }
    assert succs[|succs|..] == [];
  }

  lemma {:induction false} TakeNext(nodes: seq<Node>, order: seq<nat>, queue: seq<nat>, indegree: seq<int>)
    requires Mirrored(nodes) && queue != [] && KahnInvariant(nodes, order, queue, indegree, [])
    ensures queue[0] < |nodes| && queue[0] !in order
    ensures KahnInvariant(nodes, order + [queue[0]], queue[1..], indegree, nodes[queue[0]].succs)
  {
    var current := queue[0];
    assert (order + queue)[|order|] == current;
    assert current in order + queue;
    forall k | 0 <= k < |order|
      ensures order[k] != current
    {
      assert (order + queue)[k] == order[k];
    }
    forall v: nat | v < |nodes|
      ensures indegree[v] == Pending(nodes[v].preds, order + [current]) + (if v in nodes[current].succs then 1 else 0)
    {
      PendingAfter(nodes[v].preds, order, current);
      assert HasSucc(nodes, current, v) <==> HasPred(nodes, v, current);
    }
    PendingZero(nodes[current].preds, order);
    assert order + queue == (order + [current]) + queue[1..];
    assert PredsFirst(nodes, order + [current]) by {
      forall k, u: nat | 0 <= k < |order + [current]| && HasPred(nodes, (order + [current])[k], u)
        ensures u in (order + [current])[..k]
      {
        assert (order + [current])[..k] == order[..k];
        if k == |order| {
          assert order[..k] == order;
        }
      }
    }
  }

  lemma {:induction false} CountDown(nodes: seq<Node>, order: seq<nat>, queue: seq<nat>, indegree: seq<int>, succs: seq<nat>, k: nat)
    requires k < |succs| && Distinct(succs) && succs[k] < |nodes|
    requires KahnInvariant(nodes, order, queue, indegree, succs[k..])
    ensures
      var indegree' := indegree[succs[k] := indegree[succs[k]] - 1];
      var queue' := if indegree'[succs[k]] == 0 then queue + [succs[k]] else queue;
      KahnInvariant(nodes, order, queue', indegree', succs[k + 1..])
  {
    var succ := succs[k];
    assert succs[k..] == [succ] + succs[k + 1..];
    assert succ !in succs[k + 1..];
    assert indegree[succ] >= 1;
    assert order + (queue + [succ]) == (order + queue) + [succ];
    assert succ !in order + queue;
  }

  /** When the queue runs dry the nodes with a positive count are exactly the stuck ones. */
  lemma {:induction false} Leftovers(nodes: seq<Node>, order: seq<nat>, indegree: seq<int>)
    requires Mirrored(nodes) && KahnInvariant(nodes, order, [], indegree, [])
    ensures forall i: nat :: i < |nodes| && indegree[i] > 0 <==> i < |nodes| && Stuck(ArrowsOf(nodes), i)
    ensures Acyclic(ArrowsOf(nodes)) <==> forall i: nat :: i < |nodes| ==> indegree[i] == 0
  {
    var e := ArrowsOf(nodes);
    assert order + [] == order;
    var left := set i: nat | i < |nodes| && i !in order;
    forall x | x in left
      ensures HasPredecessorIn(e, left, x)
    {
      PendingZero(nodes[x].preds, order);
      var y :| y in nodes[x].preds && y !in order;
      assert HasPred(nodes, x, y);
      assert (y, x) in e && y in left;
    }
    forall i: nat | i < |nodes|
      ensures indegree[i] > 0 <==> Stuck(e, i)
    {
      if i in left {
        var c := BelowACycle(e, left, i);
      } else {
        OrderedNotStuck(nodes, order, i);
      }
    }
    forall u: nat | Reaches(e, u, u)
      ensures u < |nodes| && Stuck(e, u)
    {
      var w := FirstStep(e, u, u);
      assert (u, w) in e;
      assert ReachesOrSame(e, u, u);
    }
    forall i: nat | i < |nodes| && Stuck(e, i)
      ensures !Acyclic(e)
    {
    }
  }

  /** Whatever reaches an ordered node was ordered earlier. */
  lemma {:induction false} EarlierOnWalk(nodes: seq<Node>, order: seq<nat>, p: seq<nat>, u: nat, k: nat) returns (l: nat)
    requires Mirrored(nodes) && PredsFirst(nodes, order)
    requires k < |order| && WalkFromTo(ArrowsOf(nodes), p, u, order[k])
    ensures l < k && order[l] == u
    decreases |p|
  {
    var w := p[|p| - 2];
    assert (p[|p| - 2], p[|p| - 1]) in ArrowsOf(nodes);
    assert HasSucc(nodes, w, order[k]);
    l :| 0 <= l < k && order[..k][l] == w;
    if |p| > 2 {
      assert WalkFromTo(ArrowsOf(nodes), p[..|p| - 1], u, w);
      l := EarlierOnWalk(nodes, order, p[..|p| - 1], u, l);
    }
  }

  lemma {:induction false} OrderedNotStuck(nodes: seq<Node>, order: seq<nat>, i: nat)
    requires Mirrored(nodes) && PredsFirst(nodes, order) && Distinct(order) && i in order
    ensures !Stuck(ArrowsOf(nodes), i)
  {
    var e := ArrowsOf(nodes);
    if Stuck(e, i) {
      var c :| Reaches(e, c, c) && ReachesOrSame(e, c, i);
      var k :| 0 <= k < |order| && order[k] == i;
      if c != i {
        var p :| WalkFromTo(e, p, c, i);
        k := EarlierOnWalk(nodes, order, p, c, k);
      }
      var q :| WalkFromTo(e, q, c, c);
      var l := EarlierOnWalk(nodes, order, q, c, k);
    }
  }

  /** Every node was taken exactly when as many were taken as there are. */
  lemma {:induction false} OrderSize(nodes: seq<Node>, order: seq<nat>)
    requires Distinct(order) && forall v :: v in order ==> v < |nodes|
    ensures |order| == |nodes| <==> forall v: nat :: v < |nodes| ==> v in order
  {
    var taken, all := Members(order), Below(|nodes|);
    DistinctSize(order);
    assert taken <= all;
    assert |all - taken| == |all| - |taken|;
    if forall v: nat :: v < |nodes| ==> v in order {
      assert taken == all;
    }
    if |order| == |nodes| {
      assert all - taken == {};
      forall v: nat | v < |nodes|
        ensures v in order
      {
        assert v in all;
        assert v !in all - taken;
      }
    }
  }

  ghost function Members(s: seq<nat>): set<nat> {
    set v | v in s
  }

  ghost function Below(n: nat): (s: set<nat>)
    ensures |s| == n
    ensures forall v: nat :: v in s <==> v < n
  {
    if n == 0 then {} else
      var m: nat := n - 1;
      Below(m) + {m}
  }

  lemma {:induction false} DistinctSize(s: seq<nat>)
    requires Distinct(s)
    ensures |Members(s)| == |s|
  {
    if s != [] {
      var init, last := s[..|s| - 1], s[|s| - 1];
      DistinctSize(init);
      assert s == init + [last];
      assert last !in init;
      assert Members(s) == Members(init) + {last};
    }
  }
}
