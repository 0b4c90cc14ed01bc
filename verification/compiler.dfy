/** From a structured flow to any parallel run of its compiled operators. */
module Compiler {
  import opened Options
  import opened Reachability
  import opened Accesses
  import opened Graphs
  import opened Frames
  import opened Operators
  import opened Commute
  import opened Schedule
  import opened Calls
  import opened ControlFlow
  import opened Agreement
  import opened Naming
  import opened OperatorNames
  import opened SubFlows
  import F = Flows
  import E = Expansion
  import L = Flattening
  import S = Scheduler

  const TOP := Scope("", [], [])

  // ----- capture-free renaming -----

  /** Control calls are named, and write the field named, after their flow path and branch. */
  ghost predicate NamedByPath(calls: seq<OpCall>) {
    forall i :: 0 <= i < |calls| && calls[i].work.Control? ==>
      var w := calls[i].work;
      && calls[i].config.name == FinalName(calls[i].path, w.kind, w.index)
      && calls[i].config.metadata.commonOutput == [FinalField(calls[i].path, w.kind, w.index)]
  }

  lemma {:induction false} NamedConcat(a: seq<OpCall>, b: seq<OpCall>)
    requires NamedByPath(a) && NamedByPath(b)
    ensures NamedByPath(a + b)
  {
  }

  lemma {:induction false} BranchCallNamed(sc: Scope, kind: BranchKind, n: nat, priors: seq<string>, cond: Option<Condition>)
    ensures NamedByPath([BranchCall(sc, kind, n, priors, cond)])
  {
    GuardedAdds(ControlCall(FinalName(sc.path, kind, n), FinalField(sc.path, kind, n), kind, n, priors, cond), sc);
  }

  lemma {:induction false} CompiledNamed(code: Code, sc: Scope, n: nat)
    requires Plain(code)
    ensures NamedByPath(Compile(code, sc, n).0)
    decreases code
  {
    match code
    case Done =>
    case Do(call, next) =>
      GuardedAdds(call, sc);
      CompiledNamed(next, sc, n);
    case If(cond, body, more, next) =>
      var field := FinalField(sc.path, IfBranch, n + 1);
      var (inside, n1) := Compile(body, Within(sc, field), n + 1);
      var (others, n2) := CompileBranches(more, sc, [field], n1);
      var ctl := BranchCall(sc, IfBranch, n + 1, [], Some(cond));
      BranchCallNamed(sc, IfBranch, n + 1, [], Some(cond));
      CompiledNamed(body, Within(sc, field), n + 1);
      NamedConcat([ctl], inside);
      CompiledBranchesNamed(more, sc, [field], n1);
      NamedConcat([ctl] + inside, others);
      CompiledNamed(next, sc, n2);
      NamedConcat([ctl] + inside + others, Compile(next, sc, n2).0);
    case Include(name, body, next) =>
      CompiledNamed(body, Scope(Join(sc.path, name), sc.inherited + sc.local, []), 0);
      CompiledNamed(next, sc, n);
  }

  lemma {:induction false} CompiledBranchesNamed(branches: Branches, sc: Scope, priors: seq<string>, n: nat)
    requires PlainBranches(branches)
    ensures NamedByPath(CompileBranches(branches, sc, priors, n).0)
    decreases branches
  {
    match branches
    case EndIf =>
    case ElseIf(cond, body, more) =>
      var field := FinalField(sc.path, ElseIfBranch, n + 1);
      BranchCallNamed(sc, ElseIfBranch, n + 1, priors, Some(cond));
      CompiledNamed(body, Within(sc, field), n + 1);
      CompiledBranchesNamed(more, sc, priors + [field], Compile(body, Within(sc, field), n + 1).1);
    case Else(body) =>
      BranchCallNamed(sc, ElseBranch, n + 1, priors, None);
      CompiledNamed(body, Within(sc, FinalField(sc.path, ElseBranch, n + 1)), n + 1);
  }

  /** The flat list passes the check for duplicate explicit names. */
  predicate NamesAccepted(calls: seq<OpCall>) {
    AssignFrom(calls, map[]).Some?
  }

  /** Through any nesting of flows: when the name check passes, distinct control operators write distinct fields. */
  lemma {:induction false} CaptureFree(code: Code)
    requires Plain(code) && NamesAccepted(Compile(code, TOP, 0).0)
    ensures DistinctFields(Compile(code, TOP, 0).0)
  {
    var calls := Compile(code, TOP, 0).0;
    CompiledNamed(code, TOP, 0);
    Assigned(calls);
    forall i, j | 0 <= i < j < |calls| && calls[i].work.Control? && calls[j].work.Control?
      ensures Written(calls[i].config) != Written(calls[j].config)
    {
      var a, b := calls[i], calls[j];
      EarlierMeans(calls, j, b.config.name);
      assert !Refused(calls, j);
      if Written(a.config) == Written(b.config) {
        FieldDeterminesName(a.path, a.work.kind, a.work.index, b.path, b.work.kind, b.work.index);
      }
    }
  }

  // ----- where a guard comes from -----

  ghost predicate WrittenBy(calls: seq<OpCall>, j: nat, s: string) {
    j < |calls| && calls[j].work.Control? && Written(calls[j].config) == s
  }

  /** Each guard of call `k` outside `known` is written by an earlier control call whose own guards `k` carries too. */
  ghost predicate Guarantees(calls: seq<OpCall>, known: set<string>, k: nat)
    requires k < |calls|
  {
    forall s :: s in calls[k].config.skip ==>
      s in known || exists j: nat :: j < k && WrittenBy(calls, j, s) && Elements(calls[j].config.skip) <= Elements(calls[k].config.skip)
  }

  ghost predicate AllGuaranteed(calls: seq<OpCall>, known: set<string>) {
    forall k :: 0 <= k < |calls| ==> Guarantees(calls, known, k)
  }

  lemma {:induction false} GuaranteedConcat(a: seq<OpCall>, b: seq<OpCall>, known: set<string>)
    requires AllGuaranteed(a, known) && AllGuaranteed(b, known)
    ensures AllGuaranteed(a + b, known)
  {
    var c := a + b;
    forall k | 0 <= k < |c|
      ensures Guarantees(c, known, k)
    {
      forall s | s in c[k].config.skip && s !in known
        ensures exists j: nat :: j < k && WrittenBy(c, j, s) && Elements(c[j].config.skip) <= Elements(c[k].config.skip)
      {
        if k < |a| {
          assert Guarantees(a, known, k);
          var j: nat :| j < k && WrittenBy(a, j, s) && Elements(a[j].config.skip) <= Elements(a[k].config.skip);
          assert WrittenBy(c, j, s) && c[j] == a[j];
        } else {
          assert Guarantees(b, known, k - |a|);
          var j: nat :| j < k - |a| && WrittenBy(b, j, s) && Elements(b[j].config.skip) <= Elements(b[k - |a|].config.skip);
          assert WrittenBy(c, |a| + j, s) && c[|a| + j] == b[j];
        }
      }
    }
  }

  lemma {:induction false} BranchGuaranteed(ctl: OpCall, inside: seq<OpCall>, known: set<string>, field: string)
    requires ctl.work.Control? && Written(ctl.config) == field && Elements(ctl.config.skip) <= known
    requires AllGuaranteed(inside, known + {field}) && CarryAll(inside, known)
    ensures AllGuaranteed([ctl] + inside, known)
  {
    var c := [ctl] + inside;
    assert WrittenBy(c, 0, field);
    assert forall s :: s in ctl.config.skip ==> s in Elements(ctl.config.skip);
    forall k | 0 <= k < |c|
      ensures Guarantees(c, known, k)
    {
      forall s | s in c[k].config.skip && s !in known
        ensures exists j: nat :: j < k && WrittenBy(c, j, s) && Elements(c[j].config.skip) <= Elements(c[k].config.skip)
      {
        if k > 0 {
          assert Guarantees(inside, known + {field}, k - 1);
          if s == field {
            assert Elements(c[0].config.skip) <= Elements(c[k].config.skip);
          } else {
            var j: nat :| j < k - 1 && WrittenBy(inside, j, s) && Elements(inside[j].config.skip) <= Elements(inside[k - 1].config.skip);
            assert WrittenBy(c, j + 1, s) && c[j + 1] == inside[j];
          }
        }
      }
    }
  }

  lemma {:induction false} BranchCompiledGuaranteed(sc: Scope, kind: BranchKind, n: nat, priors: seq<string>, cond: Option<Condition>, body: Code)
    requires Plain(body)
    ensures AllGuaranteed(BranchCalls(sc, kind, n, priors, cond, body), GuardsOf(sc))
    decreases Weight(body), 1
  {
    var field := FinalField(sc.path, kind, n + 1);
    GuardedAdds(ControlCall(FinalName(sc.path, kind, n + 1), field, kind, n + 1, priors, cond), sc);
    var inside := Compile(body, Within(sc, field), n + 1).0;
    CompiledCarry(body, Within(sc, field), n + 1);
    CarryOuter(inside, sc, field);
    CompiledGuaranteed(body, Within(sc, field), n + 1);
    BranchGuaranteed(BranchCall(sc, kind, n + 1, priors, cond), inside, GuardsOf(sc), field);
  }

  /** Each guard that a compiled call carries is in force outside, or comes from a branch that encloses the call. */
  lemma {:induction false} CompiledGuaranteed(code: Code, sc: Scope, n: nat)
    requires Plain(code)
    ensures AllGuaranteed(Compile(code, sc, n).0, GuardsOf(sc))
    decreases Weight(code), 0
  {
    match code
    case Done =>
    case Do(call, next) =>
      GuardedAdds(call, sc);
      assert forall s :: s in Guarded(call, sc).config.skip ==> s in Elements(Guarded(call, sc).config.skip);
      assert AllGuaranteed([Guarded(call, sc)], GuardsOf(sc));
      CompiledGuaranteed(next, sc, n);
      GuaranteedConcat([Guarded(call, sc)], Compile(next, sc, n).0, GuardsOf(sc));
    case If(cond, body, more, next) =>
      var field := FinalField(sc.path, IfBranch, n + 1);
      var first := BranchCalls(sc, IfBranch, n, [], Some(cond), body);
      var n1 := Compile(body, Within(sc, field), n + 1).1;
      var (others, n2) := CompileBranches(more, sc, [field], n1);
      BranchCompiledGuaranteed(sc, IfBranch, n, [], Some(cond), body);
      BranchesGuaranteed(more, sc, [field], n1);
      GuaranteedConcat(first, others, GuardsOf(sc));
      CompiledGuaranteed(next, sc, n2);
      GuaranteedConcat(first + others, Compile(next, sc, n2).0, GuardsOf(sc));
    case Include(name, body, next) =>
      var inner := Scope(Join(sc.path, name), sc.inherited + sc.local, []);
      assert GuardsOf(inner) == GuardsOf(sc);
      CompiledGuaranteed(body, inner, 0);
      CompiledGuaranteed(next, sc, n);
      GuaranteedConcat(Compile(body, inner, 0).0, Compile(next, sc, n).0, GuardsOf(sc));
  }

  lemma {:induction false} BranchesGuaranteed(branches: Branches, sc: Scope, priors: seq<string>, n: nat)
    requires PlainBranches(branches)
    ensures AllGuaranteed(CompileBranches(branches, sc, priors, n).0, GuardsOf(sc))
    decreases WeightOf(branches), 0
  {
    match branches
    case EndIf =>
    case ElseIf(cond, body, more) =>
      var field := FinalField(sc.path, ElseIfBranch, n + 1);
      var n1 := Compile(body, Within(sc, field), n + 1).1;
      BranchCompiledGuaranteed(sc, ElseIfBranch, n, priors, Some(cond), body);
      BranchesGuaranteed(more, sc, priors + [field], n1);
      GuaranteedConcat(BranchCalls(sc, ElseIfBranch, n, priors, Some(cond), body), CompileBranches(more, sc, priors + [field], n1).0,
                       GuardsOf(sc));
    case Else(body) => BranchCompiledGuaranteed(sc, ElseBranch, n, priors, None, body);
  }

  /** In a whole pipeline: every guard of a call is written by exactly one control call, an earlier one,
      whose own guards the call carries as well. */
  lemma {:induction false} GuardsHaveOneWriter(code: Code, k: nat, s: string)
    requires Plain(code) && NamesAccepted(Compile(code, TOP, 0).0)
    requires k < |Compile(code, TOP, 0).0| && s in Compile(code, TOP, 0).0[k].config.skip
    ensures
      var calls := Compile(code, TOP, 0).0;
      exists j: nat ::
        && j < k && WrittenBy(calls, j, s) && Elements(calls[j].config.skip) <= Elements(calls[k].config.skip)
        && forall i: nat :: WrittenBy(calls, i, s) ==> i == j
  {
    var calls := Compile(code, TOP, 0).0;
    CaptureFree(code);
    CompiledGuaranteed(code, TOP, 0);
    assert GuardsOf(TOP) == {};
    assert Guarantees(calls, GuardsOf(TOP), k);
    var j: nat :| j < k && WrittenBy(calls, j, s) && Elements(calls[j].config.skip) <= Elements(calls[k].config.skip);
    assert forall i: nat :: WrittenBy(calls, i, s) ==> i == j;
  }

  // ----- meaning, from the recording calls to the flat run -----

  ghost predicate AllReserved(hidden: set<string>) {
    forall f :: f in hidden ==> Reserved(f)
  }

  lemma {:induction false} PlainIsClean(code: Code, hidden: set<string>)
    requires Plain(code) && AllReserved(hidden)
    ensures Clean(code, hidden)
    decreases code
  {
    match code
    case Done =>
    case Do(call, next) => PlainIsClean(next, hidden);
    case If(cond, body, more, next) =>
      PlainIsClean(body, hidden);
      PlainBranchesAreClean(more, hidden);
      PlainIsClean(next, hidden);
    case Include(_, body, next) =>
      PlainIsClean(body, hidden);
      PlainIsClean(next, hidden);
  }

  lemma {:induction false} PlainBranchesAreClean(branches: Branches, hidden: set<string>)
    requires PlainBranches(branches) && AllReserved(hidden)
    ensures CleanBranches(branches, hidden)
    decreases branches
  {
    match branches
    case EndIf =>
    case ElseIf(cond, body, more) =>
      PlainIsClean(body, hidden);
      PlainBranchesAreClean(more, hidden);
    case Else(body) => PlainIsClean(body, hidden);
  }

  lemma {:induction false} ControlFieldsAreReserved(calls: seq<OpCall>)
    requires NamedByPath(calls)
    ensures AllReserved(ControlFields(calls))
  {
    forall i | 0 <= i < |calls| && calls[i].work.Control?
      ensures Reserved(Written(calls[i].config))
    {
      ControlFieldsReserved(calls[i].path, calls[i].work.kind, calls[i].work.index);
    }
  }

  /** The flat list that the recording calls and the traversal produce for a structured flow. */
  lemma {:induction false} RecordedAndFlattened(code: Code)
    requires F.Declarable(code) && Plain(code)
    ensures
      var (flow, mistake) := F.RecordAll(F.EMPTY, F.Script(code));
      && mistake.None? && flow.stack == []
      && var (flat, problem) := Traverse(flow, "", [], Flat([], map[], []));
         && (problem.None? ==> flat.calls == Compile(code, TOP, 0).0)
         && (L.Titled(flow.children, "") ==> (problem.None? <==> E.NoRepeats(L.FlowPaths(flow.children, ""))))
  {
    F.ScriptRecords(code, F.EMPTY);
    TraverseCompiles(code, "", []);
    var r := F.Lower(code, [], 0);
    assert F.Extended(F.EMPTY, r) == F.Complete(r);
    assert [] + Compile(code, TOP, 0).0 == Compile(code, TOP, 0).0;
    if L.Titled(r.children, "") { L.RefusedIffPathsRepeat(F.Complete(r)); }
  }

  /** The flat run against the structured run. It fails unless, in each block that is entered, the conditions behind the
      branch that is taken find their fields; then it performs exactly the operators of the structured run, in order, with
      the same result apart from control fields. */
  lemma {:induction false} FlatRunMeansStructuredRun(code: Code, f: Frame)
    requires Plain(code) && NamesAccepted(Compile(code, TOP, 0).0)
    ensures
      var calls, start := Compile(code, TOP, 0).0, Outcome(Some(f), []);
      var flat, wanted := Exec(calls, start), Perform(code, start);
      && (if Provided(code, start) then AlikeOutcome(ControlFields(calls), flat, wanted) else flat.frame.None?)
      && (wanted.frame.Some? ==> (AlikeOutcome(ControlFields(calls), flat, wanted) <==> Provided(code, start)))
  {
    var calls, start := Compile(code, TOP, 0).0, Outcome(Some(f), []);
    CaptureFree(code);
    CompiledNamed(code, TOP, 0);
    ControlFieldsAreReserved(calls);
    PlainIsClean(code, ControlFields(calls));
    assert GuardsOf(TOP) == {};
    CompiledMeansEnacted(code, TOP, 0, ControlFields(calls), start, start);
    EnactedIffProvided(code, start);
  }

  // ----- on to the scheduler -----

  lemma {:induction false} ExecIsRun(calls: seq<OpCall>, k: nat, o: Outcome)
    requires k <= |calls|
    ensures InRange(Suffix(k, |calls|), |OperatorsOf(calls)|)
    ensures Exec(calls[k..], o).frame == Run(OperatorsOf(calls), Suffix(k, |calls|), o.frame)
    decreases |calls| - k
  {
    if k < |calls| {
      assert calls[k..][1..] == calls[k + 1..] && Suffix(k, |calls|)[1..] == Suffix(k + 1, |calls|);
      ExecIsRun(calls, k + 1, ExecOne(calls[k], o));
    }
  }

  function Suffix(k: nat, n: nat): seq<nat>
    requires k <= n
  {
    seq(n - k, i requires 0 <= i => k + i)
  }

  /** User operators satisfy the configuration checks. */
  ghost predicate UserOpsWellFormed(calls: seq<OpCall>) {
    forall i :: 0 <= i < |calls| && calls[i].work.UserOp? ==> WellFormed(OperatorOf(calls[i]))
  }

  ghost predicate SkipsAreReads(calls: seq<OpCall>) {
    forall i :: 0 <= i < |calls| ==> Elements(calls[i].config.skip) <= CommonReads(calls[i].config.metadata)
  }

  ghost predicate ControlsArePlain(calls: seq<OpCall>) {
    forall i :: 0 <= i < |calls| && calls[i].work.Control? ==>
      var c := calls[i].config;
      !c.consumesRowSet && !c.mutatesRowSet && !c.additiveWritesRowSet && c.metadata.itemInput == [] && c.metadata.itemOutput == []
  }

  ghost predicate Configured(calls: seq<OpCall>) {
    SkipsAreReads(calls) && ControlsArePlain(calls)
  }

  lemma {:induction false} ConfiguredConcat(a: seq<OpCall>, b: seq<OpCall>)
    requires Configured(a) && Configured(b)
    ensures Configured(a + b)
  {
  }

  lemma {:induction false} OneConfigured(call: OpCall, sc: Scope)
    requires call.config.skip == []
    requires call.work.Control? ==> ControlsArePlain([call])
    ensures Configured([Guarded(call, sc)])
  {
    GuardedAdds(call, sc);
    assert [call][0] == call;
    assert Elements(call.config.skip) == {};
  }

  lemma {:induction false} BranchConfigured(sc: Scope, kind: BranchKind, n: nat, priors: seq<string>, cond: Option<Condition>)
    ensures Configured([BranchCall(sc, kind, n, priors, cond)])
  {
    OneConfigured(ControlCall(FinalName(sc.path, kind, n), FinalField(sc.path, kind, n), kind, n, priors, cond), sc);
  }

  lemma {:induction false} CompiledConfigured(code: Code, sc: Scope, n: nat)
    requires Plain(code)
    ensures Configured(Compile(code, sc, n).0)
    decreases code
  {
    match code
    case Done =>
    case Do(call, next) =>
      OneConfigured(call, sc);
      CompiledConfigured(next, sc, n);
      ConfiguredConcat([Guarded(call, sc)], Compile(next, sc, n).0);
    case If(cond, body, more, next) =>
      var field := FinalField(sc.path, IfBranch, n + 1);
      var (inside, n1) := Compile(body, Within(sc, field), n + 1);
      var (others, n2) := CompileBranches(more, sc, [field], n1);
      var ctl := BranchCall(sc, IfBranch, n + 1, [], Some(cond));
      BranchConfigured(sc, IfBranch, n + 1, [], Some(cond));
      CompiledConfigured(body, Within(sc, field), n + 1);
      ConfiguredConcat([ctl], inside);
      CompiledBranchesConfigured(more, sc, [field], n1);
      ConfiguredConcat([ctl] + inside, others);
      CompiledConfigured(next, sc, n2);
      ConfiguredConcat([ctl] + inside + others, Compile(next, sc, n2).0);
    case Include(name, body, next) =>
      CompiledConfigured(body, Scope(Join(sc.path, name), sc.inherited + sc.local, []), 0);
      CompiledConfigured(next, sc, n);
  }

  lemma {:induction false} CompiledBranchesConfigured(branches: Branches, sc: Scope, priors: seq<string>, n: nat)
    requires PlainBranches(branches)
    ensures Configured(CompileBranches(branches, sc, priors, n).0)
    decreases branches
  {
    match branches
    case EndIf =>
    case ElseIf(cond, body, more) =>
      var field := FinalField(sc.path, ElseIfBranch, n + 1);
      BranchConfigured(sc, ElseIfBranch, n + 1, priors, Some(cond));
      CompiledConfigured(body, Within(sc, field), n + 1);
      CompiledBranchesConfigured(more, sc, priors + [field], Compile(body, Within(sc, field), n + 1).1);
    case Else(body) =>
      BranchConfigured(sc, ElseBranch, n + 1, priors, None);
      CompiledConfigured(body, Within(sc, FinalField(sc.path, ElseBranch, n + 1)), n + 1);
  }

  lemma {:induction false} CompiledSuitable(code: Code)
    requires Plain(code) && UserOpsWellFormed(Compile(code, TOP, 0).0)
    ensures Suitable(true, OperatorsOf(Compile(code, TOP, 0).0))
  {
    var calls := Compile(code, TOP, 0).0;
    CompiledConfigured(code, TOP, 0);
    forall i | 0 <= i < |calls|
      ensures WellFormed(OperatorOf(calls[i]))
    {
      assert forall s :: s in calls[i].config.skip ==> s in Elements(calls[i].config.skip);
    }
  }

  /** Main result. Take a structured flow, record it, flatten it, and run the operators on the graph inferred from their
      declared fields, in any interleaving that does not stop early: the structured meaning comes out, apart from control
      fields. Appending operators have to be ordered. */
  lemma {:induction false} AnyParallelRunMeansStructuredRun(code: Code, nodes: seq<Node>, f: Frame, events: seq<S.Event>, t: S.State)
    requires Plain(code) && NamesAccepted(Compile(code, TOP, 0).0) && UserOpsWellFormed(Compile(code, TOP, 0).0)
    requires
      var ops := OperatorsOf(Compile(code, TOP, 0).0);
      && Mirrored(nodes) && |nodes| == |ops| && Covers(ArrowsOf(nodes), Configs(ops)) && AppendsOrdered(ArrowsOf(nodes), Configs(ops))
      && S.Leads(nodes, ops, S.Init(nodes, f), events, t) && forall ev :: !S.Enabled(t, ev)
    ensures
      var start := Outcome(Some(f), []);
      var wanted := Perform(code, start).frame;
      && (t.frame.Some? <==> wanted.Some? && Provided(code, start))
      && (t.frame.Some? ==> Alike(ControlFields(Compile(code, TOP, 0).0), t.frame.value, wanted.value))
  {
    var calls := Compile(code, TOP, 0).0;
    var ops := OperatorsOf(calls);
    CompiledSuitable(code);
    S.EveryInterleavingEndsAsDeclared(nodes, ops, f, events, t);
    ExecIsRun(calls, 0, Outcome(Some(f), []));
    assert calls[0..] == calls && Suffix(0, |calls|) == Declared(|ops|);
    FlatRunMeansStructuredRun(code, f);
  }
}
