/** Per-field trackers of the dependency scan, and the invariant that makes their edges sufficient and necessary. */
module Trackers {
  import opened Reachability
  import opened Accesses

  /** `lastMutWriter` is -1 while no mutating write was seen; the lists hold what came after it. */
  datatype FieldTracker = FieldTracker(lastMutWriter: int, additiveWriters: seq<nat>, activeReaders: seq<nat>)

  const FRESH := FieldTracker(-1, [], [])

  datatype Access = Access(field: string, op: nat, kind: Kind)

  function TrackerOf(trackers: map<string, FieldTracker>, f: string): FieldTracker {
    if f in trackers then trackers[f] else FRESH
  }

  function LastWriter(t: FieldTracker): seq<nat> {
    if t.lastMutWriter >= 0 then [t.lastMutWriter] else []
  }

  /** The operators a new access of kind `k` gets an edge from. */
  function Incoming(t: FieldTracker, k: Kind): seq<nat> {
    LastWriter(t)
    + (if k != Append then t.additiveWriters else [])
    + (if k != Read then t.activeReaders else [])
  }

  function AfterAccess(t: FieldTracker, k: Kind, i: nat): FieldTracker {
    match k
    case Read => t.(activeReaders := t.activeReaders + [i])
    case Append => t.(additiveWriters := t.additiveWriters + [i])
    case Mutate => FieldTracker(i, [], [])
  }

  ghost function Arcs(from: seq<nat>, to: nat): Edges {
    set x | x in from && x != to :: (x, to)
  }

  /** Operator `i` comes no later than the last mutating writer of `t`. */
  ghost predicate Settled(e: Edges, t: FieldTracker, i: nat) {
    t.lastMutWriter >= 0 && ReachesOrSame(e, i, t.lastMutWriter)
  }

  ghost predicate Remembered(e: Edges, t: FieldTracker, a: Access) {
    Settled(e, t, a.op)
    || (a.kind == Read && a.op in t.activeReaders)
    || (a.kind == Append && a.op in t.additiveWriters)
  }

  /** Tracker entries stand for accesses that happened. */
  ghost predicate Honest(done: set<Access>, f: string, t: FieldTracker) {
    && (t.lastMutWriter >= 0 ==> Access(f, t.lastMutWriter, Mutate) in done)
    && (forall x :: x in t.additiveWriters ==> Access(f, x, Append) in done)
    && (forall x :: x in t.activeReaders ==> Access(f, x, Read) in done)
  }

  ghost predicate ClashPair(done: set<Access>, a: Access, b: Access) {
    a in done && b in done && a.field == b.field && a.op < b.op && Clash(a.kind, b.kind)
  }

  ghost predicate Justified(done: set<Access>, i: nat, j: nat) {
    exists a, b :: ClashPair(done, a, b) && a.op == i && b.op == j
  }

  /** The scan invariant: after the accesses in `done`, starting from the edges `e0`. */
  ghost predicate ScanInvariant(done: set<Access>, trackers: map<string, FieldTracker>, e0: Edges, e: Edges) {
    && e0 <= e
    && (forall f :: Honest(done, f, TrackerOf(trackers, f)))
    && (forall a :: a in done ==> Remembered(e, TrackerOf(trackers, a.field), a))
    && (forall a, b :: ClashPair(done, a, b) ==> Reaches(e, a.op, b.op))
    && (forall i, j :: (i, j) in e - e0 ==> Justified(done, i, j))
  }

  lemma {:induction false} IncomingClashes(done: set<Access>, f: string, t: FieldTracker, i: nat, k: Kind, x: nat) returns (a: Access)
    requires Honest(done, f, t) && x in Incoming(t, k)
    ensures a in done && a.field == f && a.op == x && Clash(a.kind, k)
  {
    if x in LastWriter(t) {
      a := Access(f, x, Mutate);
    } else if k != Append && x in t.additiveWriters {
      a := Access(f, x, Append);
    } else {
      a := Access(f, x, Read);
    }
  }

  lemma {:induction false} SettledReaches(e: Edges, e': Edges, t: FieldTracker, k: Kind, i: nat, x: nat)
    requires e' == e + Arcs(Incoming(t, k), i) && Settled(e, t, x)
    ensures x != i ==> Reaches(e', x, i)
    ensures Settled(e', AfterAccess(t, k, i), x)
  {
    var w: nat := t.lastMutWriter;
    assert LastWriter(t)[0] == w;
    assert w in Incoming(t, k);
    ReachesMonotone(e, e');
    if w != i {
      assert (w, i) in e';
      EdgeReaches(e', w, i);
      if x != w {
        ReachesTransitive(e', x, w, i);
      }
    }
  }

  /** One access: the edges added from the tracker order it after every earlier access it clashes with. */
  lemma {:induction false} AccessStep(done: set<Access>, trackers: map<string, FieldTracker>, e0: Edges, e: Edges, a: Access)
    requires ScanInvariant(done, trackers, e0, e)
    requires forall b :: b in done ==> b.op <= a.op
    ensures
      var t := TrackerOf(trackers, a.field);
      ScanInvariant(done + {a}, trackers[a.field := AfterAccess(t, a.kind, a.op)], e0,
                    e + Arcs(Incoming(t, a.kind), a.op))
  {
    var t := TrackerOf(trackers, a.field);
    var e' := e + Arcs(Incoming(t, a.kind), a.op);
    var trackers' := trackers[a.field := AfterAccess(t, a.kind, a.op)];
    var done' := done + {a};
    assert Honest(done, a.field, t);
    ReachesMonotone(e, e');
    forall f
      ensures Honest(done', f, TrackerOf(trackers', f))
    {
      assert Honest(done, f, TrackerOf(trackers, f));
    }
    forall b | b in done'
      ensures Remembered(e', TrackerOf(trackers', b.field), b)
      ensures b.field == a.field && b.op < a.op && Clash(b.kind, a.kind) ==> Reaches(e', b.op, a.op)
    {
      if b in done {
        StepRemembers(done, trackers, e0, e, a, b);
      }
    }
    forall b, c | ClashPair(done', b, c)
      ensures Reaches(e', b.op, c.op)
    {
      if c in done {
        assert b != a;
        assert ClashPair(done, b, c);
      } else {
        assert c == a;
      }
    }
    forall i, j | (i, j) in e' - e0
      ensures Justified(done', i, j)
    {
      if (i, j) in e {
        assert Justified(done, i, j);
        var b, c :| ClashPair(done, b, c) && b.op == i && c.op == j;
        assert ClashPair(done', b, c);
      } else {
        var b := IncomingClashes(done, a.field, t, a.op, a.kind, i);
        assert ClashPair(done', b, a);
      }
    }
  }

  lemma {:induction false} StepRemembers(done: set<Access>, trackers: map<string, FieldTracker>, e0: Edges, e: Edges, a: Access, b: Access)
    requires ScanInvariant(done, trackers, e0, e) && b in done
    ensures
      var t := TrackerOf(trackers, a.field);
      var e' := e + Arcs(Incoming(t, a.kind), a.op);
      var t' := TrackerOf(trackers[a.field := AfterAccess(t, a.kind, a.op)], b.field);
      && Remembered(e', t', b)
      && (b.field == a.field && b.op < a.op && Clash(b.kind, a.kind) ==> Reaches(e', b.op, a.op))
  {
    var t := TrackerOf(trackers, a.field);
    var e' := e + Arcs(Incoming(t, a.kind), a.op);
    ReachesMonotone(e, e');
    assert Remembered(e, TrackerOf(trackers, b.field), b);
    if b.field == a.field {
      if Settled(e, t, b.op) {
        SettledReaches(e, e', t, a.kind, a.op, b.op);
      } else if Clash(b.kind, a.kind) {
        assert b.op in Incoming(t, a.kind);
        if b.op != a.op {
          assert (b.op, a.op) in e';
          EdgeReaches(e', b.op, a.op);
        }
      }
    }
  }
}
