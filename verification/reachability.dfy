/** Reachability over finite edge sets: the vocabulary in which the dependency graph is specified. */
module Reachability {

  type Edges = set<(nat, nat)>

  ghost predicate IsWalk(e: Edges, p: seq<nat>) {
    forall k :: 0 <= k < |p| - 1 ==> (p[k], p[k + 1]) in e
  }

  ghost predicate WalkFromTo(e: Edges, p: seq<nat>, u: nat, v: nat) {
    |p| >= 2 && p[0] == u && p[|p| - 1] == v && IsWalk(e, p)
  }

  /** There is a walk of at least one edge from `u` to `v`. */
  ghost predicate Reaches(e: Edges, u: nat, v: nat) {
    exists p :: WalkFromTo(e, p, u, v)
  }

  ghost predicate ReachesOrSame(e: Edges, u: nat, v: nat) {
    u == v || Reaches(e, u, v)
  }

  ghost predicate Acyclic(e: Edges) {
    forall u :: !Reaches(e, u, u)
  }

  /** Every edge goes from a lower to a higher number. */
  ghost predicate Increasing(e: Edges) {
    forall u, v :: (u, v) in e ==> u < v
  }

  lemma {:induction false} EdgeReaches(e: Edges, u: nat, v: nat)
    requires (u, v) in e
    ensures Reaches(e, u, v)
  {
    assert WalkFromTo(e, [u, v], u, v);
  }

  lemma {:induction false} ReachesTransitive(e: Edges, u: nat, v: nat, w: nat)
    requires Reaches(e, u, v) && Reaches(e, v, w)
    ensures Reaches(e, u, w)
  {
    var p :| WalkFromTo(e, p, u, v);
    var q :| WalkFromTo(e, q, v, w);
    var r := p + q[1..];
    forall k | 0 <= k < |r| - 1
      ensures (r[k], r[k + 1]) in e
    {
      if k >= |p| - 1 {
        assert r[k] == q[k - |p| + 1];
        assert r[k + 1] == q[k - |p| + 2];
      }
    }
    assert WalkFromTo(e, r, u, w);
  }

  /** The first edge of a walk. */
  lemma {:induction false} FirstStep(e: Edges, u: nat, v: nat) returns (w: nat)
    requires Reaches(e, u, v)
    ensures (u, w) in e && ReachesOrSame(e, w, v)
  {
    var p :| WalkFromTo(e, p, u, v);
    w := p[1];
    assert (p[0], p[1]) in e;
    if |p| > 2 {
      var q := p[1..];
      forall k | 0 <= k < |q| - 1
        ensures (q[k], q[k + 1]) in e
      {
        assert (p[k + 1], p[k + 2]) in e;
      }
      assert WalkFromTo(e, q, w, v);
    }
  }

  /** The last edge of a walk. */
  lemma {:induction false} LastStep(e: Edges, u: nat, v: nat) returns (w: nat)
    requires Reaches(e, u, v)
    ensures (w, v) in e && ReachesOrSame(e, u, w)
  {
    var p :| WalkFromTo(e, p, u, v);
    w := p[|p| - 2];
    assert (p[|p| - 2], p[|p| - 1]) in e;
    if |p| > 2 {
      assert WalkFromTo(e, p[..|p| - 1], u, w);
    }
  }

  /** A set that no edge leaves contains everything reachable from its members. */
  lemma {:induction false} ClosedSetContains(e: Edges, s: set<nat>, p: seq<nat>, u: nat, v: nat)
    requires forall x, y :: x in s && (x, y) in e ==> y in s
    requires u in s && WalkFromTo(e, p, u, v)
    ensures v in s
    decreases |p|
  {
    if |p| > 2 {
      var q := p[..|p| - 1];
      assert WalkFromTo(e, q, u, q[|q| - 1]);
      ClosedSetContains(e, s, q, u, q[|q| - 1]);
    }
    assert (p[|p| - 2], p[|p| - 1]) in e;
  }

  /** If every edge of `e` is matched by a walk of `f`, so is every walk of `e`. */
  lemma {:induction false} WalkTranslates(e: Edges, f: Edges, p: seq<nat>, u: nat, v: nat)
    requires forall x, y :: (x, y) in e ==> Reaches(f, x, y)
    requires WalkFromTo(e, p, u, v)
    ensures Reaches(f, u, v)
    decreases |p|
  {
    var w := p[|p| - 2];
    assert (p[|p| - 2], p[|p| - 1]) in e;
    if |p| > 2 {
      assert WalkFromTo(e, p[..|p| - 1], u, w);
      WalkTranslates(e, f, p[..|p| - 1], u, w);
      ReachesTransitive(f, u, w, v);
    }
  }

  lemma {:induction false} ReachesTranslates(e: Edges, f: Edges)
    requires forall x, y :: (x, y) in e ==> Reaches(f, x, y)
    ensures forall u, v :: Reaches(e, u, v) ==> Reaches(f, u, v)
  {
    forall u, v | Reaches(e, u, v)
      ensures Reaches(f, u, v)
    {
      var p :| WalkFromTo(e, p, u, v);
      WalkTranslates(e, f, p, u, v);
    }
  }

  lemma {:induction false} ReachesMonotone(e: Edges, f: Edges)
    requires e <= f
    ensures forall u, v :: Reaches(e, u, v) ==> Reaches(f, u, v)
  {
    forall x, y | (x, y) in e
      ensures Reaches(f, x, y)
    {
      EdgeReaches(f, x, y);
    }
    ReachesTranslates(e, f);
  }

  lemma {:induction false} IncreasingWalk(e: Edges, p: seq<nat>, u: nat, v: nat)
    requires Increasing(e) && WalkFromTo(e, p, u, v)
    ensures u < v
    decreases |p|
  {
    assert (p[|p| - 2], p[|p| - 1]) in e;
    if |p| > 2 {
      assert WalkFromTo(e, p[..|p| - 1], u, p[|p| - 2]);
      IncreasingWalk(e, p[..|p| - 1], u, p[|p| - 2]);
    }
  }

  lemma {:induction false} IncreasingIsAcyclic(e: Edges)
    requires Increasing(e)
    ensures Acyclic(e)
    ensures forall u, v :: Reaches(e, u, v) ==> u < v
  {
    forall u, v | Reaches(e, u, v)
      ensures u < v
    {
      var p :| WalkFromTo(e, p, u, v);
      IncreasingWalk(e, p, u, v);
    }
  }

  ghost predicate HasPredecessorIn(e: Edges, s: set<nat>, x: nat) {
    exists y :: y in s && (y, x) in e
  }

  /** In a finite set where everything has a predecessor inside the set, every member lies on a cycle or below one. */
  lemma {:induction false} BelowACycle(e: Edges, s: set<nat>, v: nat) returns (c: nat)
    requires v in s
    requires forall x :: x in s ==> HasPredecessorIn(e, s, x)
    ensures c in s && Reaches(e, c, c) && ReachesOrSame(e, c, v)
    decreases Above(e, s, v)
  {
    assert HasPredecessorIn(e, s, v);
    var w :| w in s && (w, v) in e;
    EdgeReaches(e, w, v);
    if Reaches(e, v, w) {
      ReachesTransitive(e, v, w, v);
      c := v;
    } else {
      forall x | x in Above(e, s, w)
        ensures x in Above(e, s, v)
      {
        ReachesTransitive(e, x, w, v);
      }
      if Reaches(e, w, w) {
        c := w;
      } else {
        assert w in Above(e, s, v) && w !in Above(e, s, w);
        c := BelowACycle(e, s, w);
        if c != w {
          ReachesTransitive(e, c, w, v);
        }
      }
    }
  }

  ghost function Above(e: Edges, s: set<nat>, v: nat): set<nat> {
    set x | x in s && Reaches(e, x, v)
  }

  /** The edges that no other walk replaces. */
  ghost function Irreplaceable(e: Edges): Edges {
    set p | p in e && !Reaches(e - {p}, p.0, p.1)
  }

  ghost function Between(e: Edges, u: nat, v: nat): set<nat> {
    set p | p in e && Reaches(e, u, p.1) && Reaches(e, p.1, v) :: p.1
  }

  lemma {:induction false} InBetween(e: Edges, u: nat, x: nat, v: nat)
    requires Reaches(e, u, x) && Reaches(e, x, v)
    ensures x in Between(e, u, v)
  {
    var w := LastStep(e, u, x);
    assert (w, x).1 in Between(e, u, v);
  }

  lemma {:induction false} IrreplaceableSuffices(e: Edges, u: nat, v: nat)
    requires Acyclic(e) && Reaches(e, u, v)
    ensures Reaches(Irreplaceable(e), u, v)
    decreases Between(e, u, v)
  {
    if Between(e, u, v) != {} {
      var x :| x in Between(e, u, v);
      BetweenShrinks(e, u, x, v);
      IrreplaceableSuffices(e, u, x);
      IrreplaceableSuffices(e, x, v);
      ReachesTransitive(Irreplaceable(e), u, x, v);
    } else {
      var w := FirstStep(e, u, v);
      EdgeReaches(e, u, w);
      assert (u, w) in e && w == v by {
        if w != v { InBetween(e, u, w, v); }
      }
      if Reaches(e - {(u, v)}, u, v) {
        var x := FirstStep(e - {(u, v)}, u, v);
        ReachesMonotone(e - {(u, v)}, e);
        EdgeReaches(e, u, x);
        InBetween(e, u, x, v);
      }
      EdgeReaches(Irreplaceable(e), u, v);
    }
  }

  lemma {:induction false} BetweenShrinks(e: Edges, u: nat, x: nat, v: nat)
    requires Acyclic(e) && Reaches(e, u, x) && Reaches(e, x, v)
    ensures Between(e, u, x) < Between(e, u, v) && Between(e, x, v) < Between(e, u, v)
  {
    forall p | p in e && Reaches(e, u, p.1) && Reaches(e, p.1, x)
      ensures p.1 in Between(e, u, v)
    {
      ReachesTransitive(e, p.1, x, v);
    }
    forall p | p in e && Reaches(e, x, p.1) && Reaches(e, p.1, v)
      ensures p.1 in Between(e, u, v)
    {
      ReachesTransitive(e, u, x, p.1);
    }
    InBetween(e, u, x, v);
    assert x !in Between(e, u, x) && x !in Between(e, x, v);
  }

  /** Transitive reduction: the irreplaceable edges keep reachability, and every other such choice contains them. */
  lemma {:induction false} ReductionIsLeast(e: Edges)
    requires Acyclic(e)
    ensures forall u, v :: Reaches(Irreplaceable(e), u, v) <==> Reaches(e, u, v)
    ensures forall p :: p in Irreplaceable(e) ==> !Reaches(Irreplaceable(e) - {p}, p.0, p.1)
    ensures forall f: Edges :: f <= e && (forall u, v :: Reaches(e, u, v) ==> Reaches(f, u, v)) ==> Irreplaceable(e) <= f
  {
    ReachesMonotone(Irreplaceable(e), e);
    forall u, v | Reaches(e, u, v)
      ensures Reaches(Irreplaceable(e), u, v)
    {
      IrreplaceableSuffices(e, u, v);
    }
    forall p | p in Irreplaceable(e)
      ensures !Reaches(Irreplaceable(e) - {p}, p.0, p.1)
    {
      ReachesMonotone(Irreplaceable(e) - {p}, e - {p});
    }
    forall f: Edges, p | f <= e && (forall u, v :: Reaches(e, u, v) ==> Reaches(f, u, v)) && p in Irreplaceable(e)
      ensures p in f
    {
      assert (p.0, p.1) in e;
      EdgeReaches(e, p.0, p.1);
      if p !in f {
        ReachesMonotone(f, e - {p});
      }
    }
  }

  lemma {:induction false} EdgesReachIn(b: Edges, a: Edges)
    requires forall u, v :: Reaches(b, u, v) ==> Reaches(a, u, v)
    ensures forall u, v :: Reaches(a + b, u, v) ==> Reaches(a, u, v)
  {
    forall x, y | (x, y) in a + b
      ensures Reaches(a, x, y)
    {
      if (x, y) in a { EdgeReaches(a, x, y); } else { EdgeReaches(b, x, y); }
    }
    ReachesTranslates(a + b, a);
  }

  /** On forward-going edges the reduction is determined by reachability alone. */
  lemma {:induction false} ReductionIsUnique(a: Edges, b: Edges)
    requires Increasing(a) && Increasing(b) && forall u, v :: Reaches(a, u, v) <==> Reaches(b, u, v)
    ensures Irreplaceable(a) == Irreplaceable(b)
  {
    var both := Irreplaceable(a + b);
    EdgesReachIn(b, a);
    ReachesMonotone(a, a + b);
    IncreasingIsAcyclic(a);
    IncreasingIsAcyclic(b);
    IncreasingIsAcyclic(a + b);
    ReductionIsLeast(a + b);
    ReductionIsLeast(a);
    ReductionIsLeast(b);
    assert both <= a && both <= b;
    assert Irreplaceable(a) <= both && Irreplaceable(b) <= both;
    assert Irreplaceable(a) <= a + b && Irreplaceable(b) <= a + b;
  }
}
