/** The ready-queue scheduler: operators start, commit and notify their successors in any interleaving. */
module Scheduler {
  import opened Options
  import opened Reachability
  import opened Accesses
  import opened Graphs
  import opened Traversal
  import opened Frames
  import opened Operators
  import opened Commute
  import opened Schedule
  import opened Dag

  /** `Running` holds the log computed from the frame as it was when the operator started. */
  datatype Phase = Waiting | Ready | Running(log: Option<Output>) | Notifying(rest: seq<nat>) | Done

  datatype State = State(frame: Option<Frame>, indegree: seq<int>, phases: seq<Phase>, finished: seq<nat>)

  datatype Event = Start(i: nat) | Apply(i: nat) | Notify(i: nat) | Retire(i: nat)

  function Init(nodes: seq<Node>, f: Frame): State {
    State(Some(f),
          seq(|nodes|, i requires 0 <= i < |nodes| => |nodes[i].preds|),
          seq(|nodes|, i requires 0 <= i < |nodes| => if nodes[i].preds == [] then Ready else Waiting),
          [])
  }

  predicate Enabled(s: State, ev: Event) {
    && ev.i < |s.phases|
    && match ev
       case Start(i) => s.phases[i].Ready?
       case Apply(i) => s.phases[i].Running?
       case Notify(i) => s.phases[i].Notifying? && s.phases[i].rest != []
       case Retire(i) => s.phases[i].Notifying? && s.phases[i].rest == []
  }

  predicate Shaped(nodes: seq<Node>, ops: seq<Operator>, s: State) {
    && |s.phases| == |s.indegree| == |nodes| == |ops|
    && (forall u, v :: 0 <= u < |nodes| && s.phases[u].Notifying? && v in s.phases[u].rest ==> v < |nodes| && v != u)
  }

  function Notified(phases: seq<Phase>, i: nat, ready: bool): seq<Phase>
    requires i < |phases| && phases[i].Notifying? && phases[i].rest != [] && phases[i].rest[0] < |phases|
  {
    var rest := phases[i].rest;
    var told := phases[i := Notifying(rest[1..])];
    if ready then told[rest[0] := Ready] else told
  }

  function Fire(nodes: seq<Node>, ops: seq<Operator>, s: State, ev: Event): (s': State)
    requires Shaped(nodes, ops, s) && Enabled(s, ev)
    ensures |s'.phases| == |s.phases|
  {
    match ev
    case Start(i) =>
      var log := if s.frame.Some? then LogOf(ops[i], s.frame.value) else None;
      s.(phases := s.phases[i := Running(log)])
    case Apply(i) =>
      var frame := if s.frame.Some? then Finish(ops[i], s.frame.value, s.phases[i].log) else None;
      s.(frame := frame, phases := s.phases[i := Notifying(nodes[i].succs)], finished := s.finished + [i])
    case Notify(i) =>
      var v := s.phases[i].rest[0];
      assert v in s.phases[i].rest;
      State(s.frame, s.indegree[v := s.indegree[v] - 1], Notified(s.phases, i, s.indegree[v] == 1), s.finished)
    case Retire(i) =>
      s.(phases := s.phases[i := Done])
  }

  /** `u` has already told `v` that it is finished. */
  predicate Told(phases: seq<Phase>, u: nat, v: nat) {
    u < |phases| && (phases[u].Done? || (phases[u].Notifying? && v !in phases[u].rest))
  }

  function Untold(phases: seq<Phase>, preds: seq<nat>, v: nat): nat {
    if preds == [] then 0 else (if Told(phases, preds[0], v) then 0 else 1) + Untold(phases, preds[1..], v)
  }

  ghost predicate Counted(nodes: seq<Node>, s: State)
    requires |s.phases| == |s.indegree| == |nodes|
  {
    forall v :: 0 <= v < |nodes| ==>
      s.indegree[v] == Untold(s.phases, nodes[v].preds, v) && (s.phases[v].Waiting? <==> s.indegree[v] > 0)
  }

  ghost predicate Recorded(nodes: seq<Node>, s: State) {
    && Distinct(s.finished)
    && (forall v: nat :: v in s.finished <==> v < |s.phases| && (s.phases[v].Notifying? || s.phases[v].Done?))
    && PredsFirst(nodes, s.finished)
  }

  /** A committed node has only successors left to notify, each once. */
  ghost predicate StillToTell(nodes: seq<Node>, phases: seq<Phase>) {
    forall u :: 0 <= u < |nodes| && u < |phases| && phases[u].Notifying? ==>
      Distinct(phases[u].rest) && forall v :: v in phases[u].rest ==> v in nodes[u].succs
  }

  ghost predicate Invariant(nodes: seq<Node>, ops: seq<Operator>, f: Frame, s: State) {
    && Shaped(nodes, ops, s) && Counted(nodes, s) && Recorded(nodes, s)
    && StillToTell(nodes, s.phases)
    && InRange(s.finished, |ops|) && s.frame == Run(ops, s.finished, Some(f))
    && (forall i :: 0 <= i < |ops| && s.phases[i].Running? && s.frame.Some? ==>
          s.phases[i].log == LogOf(ops[i], s.frame.value))
  }

  /** The graph a run is scheduled on. */
  ghost predicate Runnable(nodes: seq<Node>, ops: seq<Operator>) {
    && Mirrored(nodes) && |nodes| == |ops|
    && Covers(ArrowsOf(nodes), Configs(ops)) && Suitable(true, ops)
  }

  lemma {:induction false} UntoldZero(phases: seq<Phase>, preds: seq<nat>, v: nat)
    ensures Untold(phases, preds, v) == 0 <==> forall u :: u in preds ==> Told(phases, u, v)
    ensures (forall u :: u in preds ==> !Told(phases, u, v)) ==> Untold(phases, preds, v) == |preds|
  {
    if preds != [] {
      assert forall u :: u in preds <==> u == preds[0] || u in preds[1..];
      UntoldZero(phases, preds[1..], v);
    }
  }

  lemma {:induction false} UntoldSame(phases: seq<Phase>, phases': seq<Phase>, preds: seq<nat>, v: nat)
    requires forall u :: u in preds ==> Told(phases, u, v) == Told(phases', u, v)
    ensures Untold(phases, preds, v) == Untold(phases', preds, v)
  {
    if preds != [] {
      assert preds[0] in preds && forall u :: u in preds[1..] ==> u in preds;
      UntoldSame(phases, phases', preds[1..], v);
    }
  }

  lemma {:induction false} UntoldLess(phases: seq<Phase>, phases': seq<Phase>, preds: seq<nat>, v: nat, w: nat)
    requires Distinct(preds) && w in preds && !Told(phases, w, v) && Told(phases', w, v)
    requires forall u :: u in preds && u != w ==> Told(phases, u, v) == Told(phases', u, v)
    ensures Untold(phases, preds, v) == Untold(phases', preds, v) + 1
  {
    var tail := preds[1..];
    assert forall i :: 0 <= i < |tail| ==> tail[i] == preds[i + 1];
    assert forall u :: u in preds <==> u == preds[0] || u in tail;
    if preds[0] == w {
      UntoldSame(phases, phases', tail, v);
    } else {
      UntoldLess(phases, phases', tail, v, w);
    }
  }

  lemma {:induction false} InitInvariant(nodes: seq<Node>, ops: seq<Operator>, f: Frame)
    requires Runnable(nodes, ops)
    ensures Invariant(nodes, ops, f, Init(nodes, f))
  {
    var s := Init(nodes, f);
    forall v: nat | v < |nodes|
      ensures s.indegree[v] == Untold(s.phases, nodes[v].preds, v)
    {
      UntoldZero(s.phases, nodes[v].preds, v);
    }
  }

  /** A change of phases that tells nobody leaves the counts right. */
  lemma {:induction false} SameCounts(nodes: seq<Node>, s: State, s': State)
    requires |s.phases| == |s.indegree| == |nodes| == |s'.phases| && s'.indegree == s.indegree
    requires Counted(nodes, s)
    requires forall u, v :: Told(s.phases, u, v) == Told(s'.phases, u, v) || !HasPred(nodes, v, u)
    requires forall v :: 0 <= v < |nodes| ==> s.phases[v].Waiting? == s'.phases[v].Waiting?
    ensures Counted(nodes, s')
  {
    forall v: nat | v < |nodes|
      ensures Untold(s.phases, nodes[v].preds, v) == Untold(s'.phases, nodes[v].preds, v)
    {
      assert forall u :: u in nodes[v].preds ==> HasPred(nodes, v, u);
      UntoldSame(s.phases, s'.phases, nodes[v].preds, v);
    }
  }

  lemma {:induction false} StartKeeps(nodes: seq<Node>, ops: seq<Operator>, f: Frame, s: State, i: nat)
    requires Runnable(nodes, ops) && Invariant(nodes, ops, f, s) && Enabled(s, Start(i))
    ensures Invariant(nodes, ops, f, Fire(nodes, ops, s, Start(i)))
  {
    var s' := Fire(nodes, ops, s, Start(i));
    SameCounts(nodes, s, s');
  }

  lemma {:induction false} RetireKeeps(nodes: seq<Node>, ops: seq<Operator>, f: Frame, s: State, i: nat)
    requires Runnable(nodes, ops) && Invariant(nodes, ops, f, s) && Enabled(s, Retire(i))
    ensures Invariant(nodes, ops, f, Fire(nodes, ops, s, Retire(i)))
  {
    var s' := Fire(nodes, ops, s, Retire(i));
    SameCounts(nodes, s, s');
  }

  lemma {:induction false} NotifiedTells(phases: seq<Phase>, i: nat, ready: bool)
    requires i < |phases| && phases[i].Notifying? && phases[i].rest != [] && Distinct(phases[i].rest)
    requires phases[i].rest[0] < |phases| && phases[i].rest[0] != i && phases[phases[i].rest[0]].Waiting?
    ensures forall u: nat, v: nat ::
              Told(Notified(phases, i, ready), u, v) == (Told(phases, u, v) || (u == i && v == phases[i].rest[0]))
  {
    var rest := phases[i].rest;
    assert rest == [rest[0]] + rest[1..] && rest[0] !in rest[1..];
  }

  lemma {:induction false} NotifyCounts(nodes: seq<Node>, s: State, i: nat, w: nat, s': State)
    requires |s.phases| == |s.indegree| == |nodes| == |s'.phases| && w < |nodes| && i < |nodes|
    requires Counted(nodes, s) && s.phases[w].Waiting? && !Told(s.phases, i, w)
    requires Distinct(nodes[w].preds) && i in nodes[w].preds
    requires s'.indegree == s.indegree[w := s.indegree[w] - 1]
    requires forall u: nat, v: nat :: Told(s'.phases, u, v) == (Told(s.phases, u, v) || (u == i && v == w))
    requires forall v :: 0 <= v < |nodes| && v != w ==> s'.phases[v].Waiting? == s.phases[v].Waiting?
    requires s'.phases[w].Waiting? <==> s.indegree[w] != 1
    ensures Counted(nodes, s')
  {
    forall v: nat | v < |nodes|
      ensures s'.indegree[v] == Untold(s'.phases, nodes[v].preds, v)
    {
      if v == w {
        UntoldLess(s.phases, s'.phases, nodes[v].preds, v, i);
      } else {
        UntoldSame(s.phases, s'.phases, nodes[v].preds, v);
      }
    }
  }

  /** The node being notified is still waiting, and counts the notifier among those it waits for. */
  lemma {:induction false} NotifiedNodeWaits(nodes: seq<Node>, ops: seq<Operator>, f: Frame, s: State, i: nat)
    requires Runnable(nodes, ops) && Invariant(nodes, ops, f, s) && Enabled(s, Notify(i))
    ensures var w := s.phases[i].rest[0];
            && w < |nodes| && w != i && HasPred(nodes, w, i) && s.phases[w].Waiting? && !Told(s.phases, i, w)
  {
    var w := s.phases[i].rest[0];
    assert w in s.phases[i].rest;
    assert HasSucc(nodes, i, w) && HasPred(nodes, w, i);
    assert !Told(s.phases, i, w);
    UntoldZero(s.phases, nodes[w].preds, w);
  }

  lemma {:induction false} NotifiedStillToTell(nodes: seq<Node>, phases: seq<Phase>, i: nat, ready: bool)
    requires StillToTell(nodes, phases) && Mirrored(nodes) && |nodes| == |phases|
    requires i < |phases| && phases[i].Notifying? && phases[i].rest != []
    requires phases[i].rest[0] < |phases| && phases[i].rest[0] != i
    ensures StillToTell(nodes, Notified(phases, i, ready))
    ensures forall u, v :: 0 <= u < |nodes| && Notified(phases, i, ready)[u].Notifying? && v in Notified(phases, i, ready)[u].rest ==>
              v < |nodes| && v != u
  {
    var phases' := Notified(phases, i, ready);
    forall u: nat | u < |nodes| && phases'[u].Notifying?
      ensures Distinct(phases'[u].rest) && forall v :: v in phases'[u].rest ==> v in nodes[u].succs && v < |nodes| && v != u
    {
      assert forall v :: v in phases'[u].rest ==> v in phases[u].rest;
      assert forall v :: v in nodes[u].succs ==> HasSucc(nodes, u, v);
    }
  }

  lemma {:induction false} NotifyKeeps(nodes: seq<Node>, ops: seq<Operator>, f: Frame, s: State, i: nat)
    requires Runnable(nodes, ops) && Invariant(nodes, ops, f, s) && Enabled(s, Notify(i))
    ensures Invariant(nodes, ops, f, Fire(nodes, ops, s, Notify(i)))
  {
    var s' := Fire(nodes, ops, s, Notify(i));
    var rest := s.phases[i].rest;
    NotifiedNodeWaits(nodes, ops, f, s, i);
    NotifiedTells(s.phases, i, s.indegree[rest[0]] == 1);
    NotifyCounts(nodes, s, i, rest[0], s');
    NotifiedStillToTell(nodes, s.phases, i, s.indegree[rest[0]] == 1);
  }

  /** A node that left the queue has all its predecessors committed. */
  lemma {:induction false} PredsCommitted(nodes: seq<Node>, ops: seq<Operator>, f: Frame, s: State, v: nat, u: nat)
    requires Invariant(nodes, ops, f, s) && v < |nodes| && !s.phases[v].Waiting? && HasPred(nodes, v, u)
    ensures u in s.finished
  {
    UntoldZero(s.phases, nodes[v].preds, v);
    assert Told(s.phases, u, v);
  }

  /** Whatever reaches a started node is committed. */
  lemma {:induction false} AncestorsCommitted(nodes: seq<Node>, ops: seq<Operator>, f: Frame, s: State, u: nat, v: nat)
    requires Runnable(nodes, ops) && Invariant(nodes, ops, f, s) && v < |nodes| && !s.phases[v].Waiting?
    requires Reaches(ArrowsOf(nodes), u, v)
    ensures u in s.finished
  {
    var e := ArrowsOf(nodes);
    var w := LastStep(e, u, v);
    assert HasSucc(nodes, w, v) && HasPred(nodes, v, w);
    PredsCommitted(nodes, ops, f, s, v, w);
    if u != w {
      var k :| 0 <= k < |s.finished| && s.finished[k] == w;
      var p :| WalkFromTo(e, p, u, w);
      var l := EarlierOnWalk(nodes, s.finished, p, u, k);
    }
  }

  /** Operators that run side by side have no conflict. */
  lemma {:induction false} RunningApart(nodes: seq<Node>, ops: seq<Operator>, f: Frame, s: State, i: nat, j: nat)
    requires Runnable(nodes, ops) && Invariant(nodes, ops, f, s) && i < |ops| && j < |ops| && i != j
    requires s.phases[i].Running? && s.phases[j].Running?
    ensures !Conflict(ops[i].config, ops[j].config)
  {
    if Conflict(ops[i].config, ops[j].config) {
      ConflictSymmetric(ops[i].config, ops[j].config, true);
      ConflictSymmetric(ops[i].config, ops[j].config, false);
      var c := Configs(ops);
      assert c[i] == ops[i].config && c[j] == ops[j].config;
      if i < j {
        AncestorsCommitted(nodes, ops, f, s, i, j);
      } else {
        AncestorsCommitted(nodes, ops, f, s, j, i);
      }
    }
  }

  lemma {:induction false} RunSnoc(ops: seq<Operator>, order: seq<nat>, i: nat, f: Option<Frame>)
    requires InRange(order, |ops|) && i < |ops|
    ensures InRange(order + [i], |ops|)
    ensures Run(ops, order + [i], f) == AndThen(Run(ops, order, f), ops[i])
  {
    if order == [] {
      assert [i][1..] == [];
    } else {
      RunSnoc(ops, order[1..], i, AndThen(f, ops[order[0]]));
      assert (order + [i])[1..] == order[1..] + [i];
    }
  }

  lemma {:induction false} ApplyRecords(nodes: seq<Node>, ops: seq<Operator>, f: Frame, s: State, i: nat)
    requires Runnable(nodes, ops) && Invariant(nodes, ops, f, s) && Enabled(s, Apply(i))
    ensures Recorded(nodes, Fire(nodes, ops, s, Apply(i)))
  {
    var s' := Fire(nodes, ops, s, Apply(i));
    assert i !in s.finished;
    forall k, u: nat | 0 <= k < |s'.finished| && HasPred(nodes, s'.finished[k], u)
      ensures u in s'.finished[..k]
    {
      assert s'.finished[..k] == s.finished[..k];
      if k == |s.finished| {
        PredsCommitted(nodes, ops, f, s, i, u);
        assert s.finished[..k] == s.finished;
      }
    }
  }

  lemma {:induction false} ApplyKeeps(nodes: seq<Node>, ops: seq<Operator>, f: Frame, s: State, i: nat)
    requires Runnable(nodes, ops) && Invariant(nodes, ops, f, s) && Enabled(s, Apply(i))
    ensures Invariant(nodes, ops, f, Fire(nodes, ops, s, Apply(i)))
  {
    var s' := Fire(nodes, ops, s, Apply(i));
    ApplyRecords(nodes, ops, f, s, i);
    RunSnoc(ops, s.finished, i, Some(f));
    assert forall v :: v in nodes[i].succs ==> HasSucc(nodes, i, v);
    forall u: nat, v: nat
      ensures Told(s.phases, u, v) == Told(s'.phases, u, v) || !HasPred(nodes, v, u)
    {
      if u == i && HasPred(nodes, v, u) {
        assert HasSucc(nodes, i, v);
      }
    }
    SameCounts(nodes, s, s');
    forall j: nat | j < |ops| && s'.phases[j].Running? && s'.frame.Some?
      ensures s'.phases[j].log == LogOf(ops[j], s'.frame.value)
    {
      RunningApart(nodes, ops, f, s, i, j);
      LogUnaffected(ops[i], ops[j], s.frame.value);
    }
  }

  lemma {:induction false} FireKeeps(nodes: seq<Node>, ops: seq<Operator>, f: Frame, s: State, ev: Event)
    requires Runnable(nodes, ops) && Invariant(nodes, ops, f, s) && Enabled(s, ev)
    ensures Invariant(nodes, ops, f, Fire(nodes, ops, s, ev))
  {
    match ev
    case Start(i) => StartKeeps(nodes, ops, f, s, i);
    case Apply(i) => ApplyKeeps(nodes, ops, f, s, i);
    case Notify(i) => NotifyKeeps(nodes, ops, f, s, i);
    case Retire(i) => RetireKeeps(nodes, ops, f, s, i);
  }

  predicate AllDone(s: State) {
    forall i :: 0 <= i < |s.phases| ==> s.phases[i].Done?
  }

  /** As long as a node is unfinished, some event can happen. */
  lemma {:induction false} SomethingEnabled(nodes: seq<Node>, ops: seq<Operator>, f: Frame, s: State) returns (ev: Event)
    requires Runnable(nodes, ops) && Invariant(nodes, ops, f, s) && !AllDone(s)
    ensures Enabled(s, ev)
  {
    var i: nat :| i < |s.phases| && !s.phases[i].Done?;
    i := FirstUnfinished(s.phases, i);
    forall u | u in nodes[i].preds
      ensures Told(s.phases, u, i)
    {
      assert HasPred(nodes, i, u) && HasSucc(nodes, u, i);
      assert (u, i) in ArrowsOf(nodes);
    }
    UntoldZero(s.phases, nodes[i].preds, i);
    ev := match s.phases[i]
      case Ready => Start(i)
      case Running(_) => Apply(i)
      case Notifying(rest) => if rest == [] then Retire(i) else Notify(i)
      case _ => Retire(i);
  }

  lemma {:induction false} FirstUnfinished(phases: seq<Phase>, i: nat) returns (j: nat)
    requires i < |phases| && !phases[i].Done?
    ensures j <= i && !phases[j].Done? && forall u :: 0 <= u < j ==> phases[u].Done?
  {
    if u: nat :| u < i && !phases[u].Done? {
      j := FirstUnfinished(phases, u);
    } else {
      j := i;
    }
  }

  /** A bound on the events a node still has to go through. */
  function Rank(node: Node, phase: Phase): nat {
    match phase
    case Waiting => |node.succs| + 5
    case Ready => |node.succs| + 4
    case Running(_) => |node.succs| + 3
    case Notifying(rest) => |rest| + 1
    case Done => 0
  }

  function Work(nodes: seq<Node>, phases: seq<Phase>): nat
    requires |nodes| == |phases|
  {
    if phases == [] then 0 else Rank(nodes[0], phases[0]) + Work(nodes[1..], phases[1..])
  }

  lemma {:induction false} WorkUpdate(nodes: seq<Node>, phases: seq<Phase>, i: nat, phase: Phase)
    requires |nodes| == |phases| && i < |phases|
    ensures Work(nodes, phases[i := phase]) + Rank(nodes[i], phases[i]) == Work(nodes, phases) + Rank(nodes[i], phase)
  {
    var changed := phases[i := phase];
    if i == 0 {
      assert changed[1..] == phases[1..];
    } else {
      WorkUpdate(nodes[1..], phases[1..], i - 1, phase);
      assert changed[1..] == phases[1..][i - 1 := phase];
    }
  }

  lemma {:induction false} WorkShrinks(nodes: seq<Node>, ops: seq<Operator>, f: Frame, s: State, ev: Event)
    requires Runnable(nodes, ops) && Invariant(nodes, ops, f, s) && Enabled(s, ev)
    ensures Work(nodes, Fire(nodes, ops, s, ev).phases) < Work(nodes, s.phases)
  {
    var i := ev.i;
    match ev
    case Notify(_) =>
      NotifiedNodeWaits(nodes, ops, f, s, i);
      var told := Notifying(s.phases[i].rest[1..]);
      var w := s.phases[i].rest[0];
      WorkUpdate(nodes, s.phases, i, told);
      WorkUpdate(nodes, s.phases[i := told], w, Ready);
    case _ =>
      WorkUpdate(nodes, s.phases, i, Fire(nodes, ops, s, ev).phases[i]);
      assert Fire(nodes, ops, s, ev).phases == s.phases[i := Fire(nodes, ops, s, ev).phases[i]];
  }

  /** `events` can happen in this order, and lead from `s` to `t`. */
  ghost predicate Leads(nodes: seq<Node>, ops: seq<Operator>, s: State, events: seq<Event>, t: State)
    decreases |events|
  {
    if events == [] then s == t else
      && Shaped(nodes, ops, s) && Enabled(s, events[0])
      && Leads(nodes, ops, Fire(nodes, ops, s, events[0]), events[1..], t)
  }

  lemma {:induction false} EveryInterleavingKeeps(nodes: seq<Node>, ops: seq<Operator>, f: Frame, s: State, events: seq<Event>, t: State)
    requires Runnable(nodes, ops) && Invariant(nodes, ops, f, s) && Leads(nodes, ops, s, events, t)
    ensures Invariant(nodes, ops, f, t)
    ensures Work(nodes, t.phases) + |events| <= Work(nodes, s.phases)
    decreases |events|
  {
    if events != [] {
      assert Enabled(s, events[0]);
      FireKeeps(nodes, ops, f, s, events[0]);
      WorkShrinks(nodes, ops, f, s, events[0]);
      EveryInterleavingKeeps(nodes, ops, f, Fire(nodes, ops, s, events[0]), events[1..], t);
    }
  }

  /** Commits happen in an order the graph allows. */
  lemma {:induction false} FinishedIsLegal(nodes: seq<Node>, ops: seq<Operator>, f: Frame, s: State)
    requires Runnable(nodes, ops) && Invariant(nodes, ops, f, s) && AllDone(s)
    ensures Legal(ArrowsOf(nodes), |ops|, s.finished)
  {
    var order := s.finished;
    OrderSize(nodes, order);
    forall i, j | (i, j) in ArrowsOf(nodes)
      ensures Before(order, i, j)
    {
      assert HasSucc(nodes, i, j) && HasPred(nodes, j, i);
      assert j in order;
      var k :| 0 <= k < |order| && order[k] == j;
      assert i in order[..k];
    }
  }

  /** Main result: whatever the interleaving, a run stops after finitely many events with every operator committed
      once, and its frame is that of running the operators one by one in declaration order; literally when the
      appending operators are ordered, and otherwise up to the order of rows. */
  lemma {:induction false} EveryInterleavingEndsAsDeclared(nodes: seq<Node>, ops: seq<Operator>, f: Frame, events: seq<Event>, t: State)
    requires Runnable(nodes, ops) && Leads(nodes, ops, Init(nodes, f), events, t)
    ensures |events| <= Work(nodes, Init(nodes, f).phases)
    ensures (forall ev :: !Enabled(t, ev)) ==> AllDone(t) && Legal(ArrowsOf(nodes), |ops|, t.finished)
    ensures (forall ev :: !Enabled(t, ev)) && AppendsOrdered(ArrowsOf(nodes), Configs(ops)) ==>
              t.frame == Run(ops, Declared(|ops|), Some(f))
    ensures (forall ev :: !Enabled(t, ev)) && Suitable(false, ops) ==>
              SameOutcome(t.frame, Run(ops, Declared(|ops|), Some(f)))
  {
    InitInvariant(nodes, ops, f);
    EveryInterleavingKeeps(nodes, ops, f, Init(nodes, f), events, t);
    if forall ev :: !Enabled(t, ev) {
      if !AllDone(t) {
        var ev := SomethingEnabled(nodes, ops, f, t);
      } else {
        FinishedIsLegal(nodes, ops, f, t);
        FinalFrame(nodes, ops, f, t.finished);
      }
    }
  }

  lemma {:induction false} FinalFrame(nodes: seq<Node>, ops: seq<Operator>, f: Frame, order: seq<nat>)
    requires Runnable(nodes, ops) && Legal(ArrowsOf(nodes), |ops|, order)
    ensures AppendsOrdered(ArrowsOf(nodes), Configs(ops)) ==>
              Run(ops, order, Some(f)) == Run(ops, Declared(|ops|), Some(f))
    ensures Suitable(false, ops) ==> SameOutcome(Run(ops, order, Some(f)), Run(ops, Declared(|ops|), Some(f)))
  {
    if AppendsOrdered(ArrowsOf(nodes), Configs(ops)) {
      EveryRunIsTheDeclaredRun(ArrowsOf(nodes), ops, order, f);
    }
    if Suitable(false, ops) {
      LegalRunAgrees(false, ArrowsOf(nodes), ops, order, f);
    }
  }

  /** What graph construction promises is what the scheduler needs. */
  lemma {:induction false} BuiltGraphIsRunnable(sequence: seq<string>, nodes: seq<Node>, ops: seq<Operator>)
    requires Mirrored(nodes) && OpsOf(nodes) == Configs(ops) && Increasing(ArrowsOf(nodes)) && Suitable(true, ops)
    requires forall u, v :: Reaches(ArrowsOf(nodes), u, v) <==> Reaches(RequiredOrder(sequence, OpsOf(nodes)), u, v)
    ensures Runnable(nodes, ops)
  {
    var c, e := Configs(ops), ArrowsOf(nodes);
    assert |nodes| == |OpsOf(nodes)| == |c| == |ops|;
    forall p | p in e
      ensures p.1 < |c|
    {
      assert HasSucc(nodes, p.0, p.1);
    }
    forall i: nat, j: nat | i < j < |c| && Conflict(c[i], c[j])
      ensures Reaches(e, i, j)
    {
      assert (i, j) in RequiredOrder(sequence, c);
      EdgeReaches(RequiredOrder(sequence, c), i, j);
    }
  }
}
