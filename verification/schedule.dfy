/** Every run that respects the graph gives the frame of the declaration order. */
module Schedule {
  import opened Options
  import opened Reachability
  import opened Accesses
  import opened Frames
  import opened Operators
  import opened Commute

  predicate InRange(order: seq<nat>, n: nat) {
    forall k :: 0 <= k < |order| ==> order[k] < n
  }

  function Run(ops: seq<Operator>, order: seq<nat>, f: Option<Frame>): Option<Frame>
    requires InRange(order, |ops|)
  {
    if order == [] then f else
      Run(ops, order[1..], AndThen(f, ops[order[0]]))
  }

  ghost predicate Before(order: seq<nat>, x: nat, y: nat) {
    exists i, j :: 0 <= i < j < |order| && order[i] == x && order[j] == y
  }

  ghost predicate NoRepeat(order: seq<nat>) {
    forall i, j :: 0 <= i < j < |order| ==> order[i] != order[j]
  }

  /** Every operator once, none before one that the graph puts ahead of it. */
  ghost predicate Legal(e: Edges, n: nat, order: seq<nat>) {
    && |order| == n && NoRepeat(order) && InRange(order, n)
    && (forall i: nat :: i < n ==> i in order)
    && (forall i, j :: (i, j) in e ==> Before(order, i, j))
  }

  function Declared(n: nat): seq<nat> {
    seq(n, i => i)
  }

  /** Equality of outcomes: literally, or up to the order of rows. */
  ghost predicate Agree(exact: bool, f: Option<Frame>, g: Option<Frame>) {
    if exact then f == g else SameOutcome(f, g)
  }

  /** Reordering the rows an operator is given reorders its result and changes nothing else. */
  ghost predicate Equivariant(op: Operator) {
    forall f, g :: SameUpToRowOrder(f, g) ==> SameOutcome(Step(op, f), Step(op, g))
  }

  ghost predicate Suitable(exact: bool, ops: seq<Operator>) {
    forall i :: 0 <= i < |ops| ==> WellFormed(ops[i]) && (exact || Equivariant(ops[i]))
  }

  ghost predicate Swappable(exact: bool, a: Operator, b: Operator) {
    !Conflict(a.config, b.config) && (exact ==> !(a.config.additiveWritesRowSet && b.config.additiveWritesRowSet))
  }

  lemma {:induction false} RunRespectsAgreement(exact: bool, ops: seq<Operator>, order: seq<nat>, f: Option<Frame>, g: Option<Frame>)
    requires Suitable(exact, ops) && InRange(order, |ops|)
    requires Agree(exact, f, g)
    ensures Agree(exact, Run(ops, order, f), Run(ops, order, g))
  {
    if order != [] {
      var op := ops[order[0]];
      if !exact && f.Some? {
        assert Equivariant(op);
      }
      RunRespectsAgreement(exact, ops, order[1..], AndThen(f, op), AndThen(g, op));
    }
  }

  lemma {:induction false} SwapAgrees(exact: bool, a: Operator, b: Operator, f: Option<Frame>)
    requires WellFormed(a) && WellFormed(b) && Swappable(exact, a, b)
    ensures Agree(exact, AndThen(AndThen(f, a), b), AndThen(AndThen(f, b), a))
  {
    if f.Some? {
      StepsCommute(a, b, f.value);
    }
  }

  /** Entry `k` can be run first when it is swappable with everything before it. */
  lemma {:induction false} MoveToFront(exact: bool, ops: seq<Operator>, order: seq<nat>, k: nat, f: Option<Frame>)
    requires Suitable(exact, ops) && InRange(order, |ops|)
    requires k < |order| && forall l :: 0 <= l < k ==> Swappable(exact, ops[order[l]], ops[order[k]])
    ensures var moved := [order[k]] + order[..k] + order[k + 1..];
            InRange(moved, |ops|) && Agree(exact, Run(ops, order, f), Run(ops, moved, f))
    decreases k
  {
    var x := order[k];
    var moved := [x] + order[..k] + order[k + 1..];
    if k == 0 {
      assert moved == order;
    } else {
      var y, rest := order[0], order[1..];
      var tail := rest[..k - 1] + rest[k..];
      MoveToFront(exact, ops, rest, k - 1, AndThen(f, ops[y]));
      MovedParts(order, k);
      assert Run(ops, [x] + rest[..k - 1] + rest[k..], AndThen(f, ops[y])) == Run(ops, tail, AndThen(AndThen(f, ops[y]), ops[x]));
      SwapAgrees(exact, ops[y], ops[x], f);
      RunRespectsAgreement(exact, ops, tail, AndThen(AndThen(f, ops[y]), ops[x]), AndThen(AndThen(f, ops[x]), ops[y]));
      assert Run(ops, moved, f) == Run(ops, moved[1..], AndThen(f, ops[x]));
      assert Run(ops, moved[1..], AndThen(f, ops[x])) == Run(ops, tail, AndThen(AndThen(f, ops[x]), ops[y]));
    }
  }

  lemma {:induction false} MovedParts(order: seq<nat>, k: nat)
    requires 0 < k < |order|
    ensures
      var x, y, rest := order[k], order[0], order[1..];
      var moved, movedRest, tail := [x] + order[..k] + order[k + 1..], [x] + rest[..k - 1] + rest[k..], rest[..k - 1] + rest[k..];
      && movedRest != [] && movedRest[0] == x && movedRest[1..] == tail
      && moved[0] == x && moved[1..] != [] && moved[1..][0] == y && moved[1..][1..] == tail
  {
  }

  /** Two orders of the same operators that disagree only on swappable pairs give agreeing outcomes. */
  lemma {:induction false} OrdersAgree(exact: bool, ops: seq<Operator>, p: seq<nat>, q: seq<nat>, f: Option<Frame>)
    requires Suitable(exact, ops) && NoRepeat(p) && NoRepeat(q)
    requires |p| == |q| && forall i :: i in p <==> i in q
    requires InRange(p, |ops|) && InRange(q, |ops|)
    requires forall x: nat, y: nat :: Before(p, x, y) && Before(q, y, x) && x < |ops| && y < |ops| ==> Swappable(exact, ops[y], ops[x])
    ensures Agree(exact, Run(ops, p, f), Run(ops, q, f))
    decreases |p|
  {
    if p != [] {
      var x := p[0];
      assert x in p;
      var k :| 0 <= k < |q| && q[k] == x;
      forall l | 0 <= l < k
        ensures Swappable(exact, ops[q[l]], ops[x])
      {
        assert q[l] in q;
        var m :| 0 <= m < |p| && p[m] == q[l];
        assert Before(p, x, q[l]) && Before(q, q[l], x);
      }
      MoveToFront(exact, ops, q, k, f);
      var p', q' := p[1..], q[..k] + q[k + 1..];
      assert ([x] + q[..k] + q[k + 1..])[1..] == q';
      TailsMatch(p, q, k);
      OrdersAgree(exact, ops, p', q', AndThen(f, ops[x]));
    }
  }

  lemma {:induction false} TailsMatch(p: seq<nat>, q: seq<nat>, k: nat)
    requires NoRepeat(p) && NoRepeat(q) && |p| > 0 && k < |q| && q[k] == p[0]
    requires forall i :: i in p <==> i in q
    ensures
      var p', q' := p[1..], q[..k] + q[k + 1..];
      && NoRepeat(p') && NoRepeat(q')
      && (forall i :: i in p' <==> i in q')
      && (forall x, y :: Before(p', x, y) ==> Before(p, x, y))
      && (forall x, y :: Before(q', x, y) ==> Before(q, x, y))
  {
    var p', q' := p[1..], q[..k] + q[k + 1..];
    assert forall l :: 0 <= l < |q'| ==> q'[l] == q[if l < k then l else l + 1];
    forall i
      ensures i in p' <==> i in p && i != p[0]
      ensures i in q' <==> i in q && i != p[0]
    {
      if i in q && i != p[0] {
        var l :| 0 <= l < |q| && q[l] == i;
        assert q'[if l < k then l else l - 1] == i;
      }
      if i in p && i != p[0] {
        var l :| 0 <= l < |p| && p[l] == i;
        assert p'[l - 1] == i;
      }
    }
    forall x, y | Before(p', x, y)
      ensures Before(p, x, y)
    {
      var i, j :| 0 <= i < j < |p'| && p'[i] == x && p'[j] == y;
      assert p[i + 1] == x && p[j + 1] == y;
    }
    forall x, y | Before(q', x, y)
      ensures Before(q, x, y)
    {
      var i, j :| 0 <= i < j < |q'| && q'[i] == x && q'[j] == y;
      assert q[if i < k then i else i + 1] == x && q[if j < k then j else j + 1] == y;
    }
  }

  /** `e` orders every pair of conflicting operators as declared. */
  ghost predicate Covers(e: Edges, configs: seq<OperatorConfig>) {
    && Increasing(e)
    && (forall p :: p in e ==> p.1 < |configs|)
    && (forall i, j :: 0 <= i < j < |configs| && Conflict(configs[i], configs[j]) ==> Reaches(e, i, j))
  }

  predicate BothAppend(configs: seq<OperatorConfig>, i: nat, j: nat) {
    i < j < |configs| && configs[i].additiveWritesRowSet && configs[j].additiveWritesRowSet
  }

  function Configs(ops: seq<Operator>): seq<OperatorConfig> {
    seq(|ops|, i requires 0 <= i < |ops| => ops[i].config)
  }

  lemma {:induction false} BeforeTransitive(order: seq<nat>, x: nat, y: nat, z: nat)
    requires NoRepeat(order) && Before(order, x, y) && Before(order, y, z)
    ensures Before(order, x, z)
  {
    var i, j :| 0 <= i < j < |order| && order[i] == x && order[j] == y;
    var k, l :| 0 <= k < l < |order| && order[k] == y && order[l] == z;
    assert j == k;
  }

  lemma {:induction false} BeforeAsymmetric(order: seq<nat>, x: nat, y: nat)
    requires NoRepeat(order) && Before(order, x, y)
    ensures !Before(order, y, x)
  {
    if Before(order, y, x) {
      BeforeTransitive(order, x, y, x);
    }
  }

  lemma {:induction false} LegalOnWalk(e: Edges, n: nat, order: seq<nat>, p: seq<nat>, u: nat, v: nat)
    requires Legal(e, n, order) && WalkFromTo(e, p, u, v)
    ensures Before(order, u, v)
    decreases |p|
  {
    var w := p[|p| - 2];
    assert (p[|p| - 2], p[|p| - 1]) in e;
    assert Before(order, w, v);
    if |p| > 2 {
      assert WalkFromTo(e, p[..|p| - 1], u, w);
      LegalOnWalk(e, n, order, p[..|p| - 1], u, w);
      BeforeTransitive(order, u, w, v);
    }
  }

  lemma {:induction false} LegalRespectsReaches(e: Edges, n: nat, order: seq<nat>, u: nat, v: nat)
    requires Legal(e, n, order) && Reaches(e, u, v)
    ensures Before(order, u, v)
  {
    var p :| WalkFromTo(e, p, u, v);
    LegalOnWalk(e, n, order, p, u, v);
  }

  /** Any legal run against the declaration order; the rows of unordered appending operators must come in order for exactness. */
  lemma {:induction false} LegalRunAgrees(exact: bool, e: Edges, ops: seq<Operator>, order: seq<nat>, f: Frame)
    requires Covers(e, Configs(ops)) && Suitable(exact, ops) && Legal(e, |ops|, order)
    requires exact ==> forall i, j :: BothAppend(Configs(ops), i, j) ==> Before(order, i, j)
    ensures Agree(exact, Run(ops, order, Some(f)), Run(ops, Declared(|ops|), Some(f)))
  {
    var declared := Declared(|ops|);
    assert forall i: nat :: i < |ops| ==> declared[i] == i;
    forall i: nat
      ensures i in order <==> i in declared
    {
      if i < |ops| { assert declared[i] == i; }
    }
    forall x: nat, y: nat | Before(order, x, y) && Before(declared, y, x) && x < |ops| && y < |ops|
      ensures Swappable(exact, ops[y], ops[x])
    {
      BeforeAsymmetric(order, x, y);
      assert y < x;
      assert Configs(ops)[y] == ops[y].config && Configs(ops)[x] == ops[x].config;
      if Conflict(ops[y].config, ops[x].config) {
        LegalRespectsReaches(e, |ops|, order, y, x);
      }
      assert exact ==> !BothAppend(Configs(ops), y, x);
    }
    OrdersAgree(exact, ops, order, declared, Some(f));
  }

  /** No pair of appending operators is left unordered. */
  ghost predicate AppendsOrdered(e: Edges, configs: seq<OperatorConfig>) {
    forall i, j :: BothAppend(configs, i, j) ==> Reaches(e, i, j)
  }

  /** Main result: all legal runs end in the same frame, or all fail, when the appending operators are ordered. */
  lemma {:induction false} EveryRunIsTheDeclaredRun(e: Edges, ops: seq<Operator>, order: seq<nat>, f: Frame)
    requires Covers(e, Configs(ops)) && Suitable(true, ops) && Legal(e, |ops|, order) && AppendsOrdered(e, Configs(ops))
    ensures Run(ops, order, Some(f)) == Run(ops, Declared(|ops|), Some(f))
  {
    forall i, j | BothAppend(Configs(ops), i, j)
      ensures Before(order, i, j)
    {
      LegalRespectsReaches(e, |ops|, order, i, j);
    }
    LegalRunAgrees(true, e, ops, order, f);
  }
}
