/** The test for mutually exclusive operators is sound: no run executes both. */
module Exclusion {
  import opened Options
  import opened Accesses
  import opened Frames
  import opened Operators
  import opened Commute
  import opened Calls
  import opened ControlFlow
  import opened SubFlows
  import opened Compiler
  import F = Flows

  /** Two skip lists hit one group in different, nonempty ways. */
  predicate MutuallyExclusive(groups: seq<set<string>>, skipA: seq<string>, skipB: seq<string>) {
    exists g :: 0 <= g < |groups| &&
      var a, b := groups[g] * Elements(skipA), groups[g] * Elements(skipB);
      a != {} && b != {} && a != b
  }

  /** Both lists name a field of the group, and some field of it is in one list only. */
  ghost predicate HitApart(group: set<string>, skipA: seq<string>, skipB: seq<string>) {
    && (exists f :: f in group && f in skipA) && (exists f :: f in group && f in skipB)
    && exists f :: f in group && (f in skipA <==> f !in skipB)
  }

  lemma {:induction false} HitsMean(group: set<string>, skipA: seq<string>, skipB: seq<string>)
    ensures HitApart(group, skipA, skipB) <==>
            var a, b := group * Elements(skipA), group * Elements(skipB); a != {} && b != {} && a != b
  {
    var a, b := group * Elements(skipA), group * Elements(skipB);
    assert forall f :: f in a <==> f in group && f in skipA;
    assert forall f :: f in b <==> f in group && f in skipB;
    if a != b {
      var f :| f in a <==> f !in b;
    }
  }

  method AreMutuallyExclusive(groups: seq<set<string>>, skipA: seq<string>, skipB: seq<string>) returns (exclusive: bool)
    ensures exclusive == MutuallyExclusive(groups, skipA, skipB)
    ensures exclusive <==> exists g :: 0 <= g < |groups| && HitApart(groups[g], skipA, skipB)
  {
    for g := 0 to |groups|
      invariant !MutuallyExclusive(groups[..g], skipA, skipB)
      invariant forall h :: 0 <= h < g ==> !HitApart(groups[h], skipA, skipB)
    {
      var a := set f | f in groups[g] && f in skipA;
      var b := set f | f in groups[g] && f in skipB;
      assert a == groups[g] * Elements(skipA) && b == groups[g] * Elements(skipB);
      HitsMean(groups[g], skipA, skipB);
      if a != {} && b != {} && a != b {
        return true;
      }
    }
    assert groups[..|groups|] == groups;
    exclusive := false;
  }

  // ----- facts about flat lists -----

  /** The control call of `later` reads `earlier`, which an earlier control call writes. */
  ghost predicate Chained(calls: seq<OpCall>, earlier: string, later: string) {
    exists i: nat, j: nat :: i < j && WrittenBy(calls, i, earlier) && WrittenBy(calls, j, later) && earlier in calls[j].work.priors
  }

  ghost predicate Grouped(calls: seq<OpCall>, group: set<string>) {
    forall f, h :: f in group && h in group && f != h ==> Chained(calls, f, h) || Chained(calls, h, f)
  }

  /** Control calls are made by the compiler: they write one field and list what they look at; user calls keep away. */
  ghost predicate WellMade(call: OpCall)
    requires call.work.Control?
  {
    && call.config.metadata.commonOutput == [Written(call.config)]
    && Elements(call.work.priors) + (if call.work.cond.Some? then Elements(call.work.cond.value.fields) else {})
       <= CommonReads(call.config.metadata)
  }

  ghost predicate Made(calls: seq<OpCall>) {
    forall i :: 0 <= i < |calls| ==>
      if calls[i].work.Control? then WellMade(calls[i])
      else Elements(calls[i].config.metadata.commonOutput) !! ControlFields(calls)
  }

  ghost predicate SameField(s: string, f: Frame, g: Frame) {
    (s in f.common <==> s in g.common) && (s in f.common ==> f.common[s] == g.common[s])
  }

  ghost predicate Executes(call: OpCall, before: Option<Frame>) {
    before.Some? && !Skipped(call.config, before.value.common)
  }

  /** One call leaves the control fields that it does not write. */
  ghost predicate Leaves(call: OpCall, fields: set<string>, before: Option<Frame>, after: Option<Frame>) {
    after.Some? ==> before.Some? && forall s :: s in fields && !(call.work.Control? && Written(call.config) == s) ==>
      SameField(s, before.value, after.value)
  }

  /** A control call that executes records whether its branch is passed over. */
  ghost predicate Records(call: OpCall, before: Option<Frame>, after: Option<Frame>) {
    call.work.Control? && Executes(call, before) ==>
      after.Some? ==>
      && Written(call.config) in after.value.common
      && after.value.common[Written(call.config)] == Bool(!Taken(call.work.priors, call.work.cond, before.value.common))
  }

  /** The frames along a run, as far as control fields are concerned. */
  ghost predicate Behaves(calls: seq<OpCall>, frames: seq<Option<Frame>>) {
    && |frames| == |calls| + 1
    && (forall k :: 0 <= k < |calls| ==> Leaves(calls[k], ControlFields(calls), frames[k], frames[k + 1]))
    && (forall k :: 0 <= k < |calls| ==> Records(calls[k], frames[k], frames[k + 1]))
  }

  /** After its control call, a control field keeps its value. */
  lemma {:induction false} FieldIsFinal(calls: seq<OpCall>, frames: seq<Option<Frame>>, s: string, j: nat, lo: nat, hi: nat)
    requires Behaves(calls, frames) && DistinctFields(calls) && WrittenBy(calls, j, s)
    requires j < lo <= hi <= |calls| && frames[hi].Some?
    ensures frames[lo].Some? && SameField(s, frames[lo].value, frames[hi].value)
    decreases hi
  {
    if lo < hi {
      assert s in ControlFields(calls);
      assert Leaves(calls[hi - 1], ControlFields(calls), frames[hi - 1], frames[hi]);
      assert calls[hi - 1].work.Control? ==> Written(calls[hi - 1].config) != Written(calls[j].config);
      FieldIsFinal(calls, frames, s, j, lo, hi - 1);
    }
  }

  /** When a guarded call executes, the control call behind each of its guards executed before it and took its branch. */
  lemma {:induction false} GuardWasTaken(calls: seq<OpCall>, frames: seq<Option<Frame>>, k: nat, s: string) returns (j: nat)
    requires Behaves(calls, frames) && DistinctFields(calls) && AllGuaranteed(calls, {})
    requires k < |calls| && Executes(calls[k], frames[k]) && s in calls[k].config.skip
    ensures j < k && WrittenBy(calls, j, s) && frames[j].Some? && frames[j + 1].Some?
    ensures Taken(calls[j].work.priors, calls[j].work.cond, frames[j].value.common)
    ensures s in frames[j + 1].value.common && frames[j + 1].value.common[s] == Bool(false)
  {
    assert Guarantees(calls, {}, k);
    j :| j < k && WrittenBy(calls, j, s) && Elements(calls[j].config.skip) <= Elements(calls[k].config.skip);
    FieldIsFinal(calls, frames, s, j, j + 1, k);
    assert Leaves(calls[j], ControlFields(calls), frames[j], frames[j + 1]);
    GuardsOff(calls, frames, j, k);
    assert Records(calls[j], frames[j], frames[j + 1]);
  }

  /** The guards of a control call were off when it was reached, if a later call that carries them executes. */
  lemma {:induction false} GuardsOff(calls: seq<OpCall>, frames: seq<Option<Frame>>, j: nat, k: nat)
    requires Behaves(calls, frames) && DistinctFields(calls) && AllGuaranteed(calls, {})
    requires j < k < |calls| && Executes(calls[k], frames[k]) && frames[j].Some?
    requires Elements(calls[j].config.skip) <= Elements(calls[k].config.skip)
    ensures Executes(calls[j], frames[j])
  {
    forall h | h in calls[j].config.skip
      ensures !(h in frames[j].value.common && Truthy(frames[j].value.common[h]))
    {
      assert Guarantees(calls, {}, j);
      var i: nat :| i < j && WrittenBy(calls, i, h);
      FieldIsFinal(calls, frames, h, i, j, k);
      assert h in Elements(calls[j].config.skip);
      assert h in Elements(calls[k].config.skip);
      assert h in calls[k].config.skip;
    }
  }

  lemma {:induction false} OneWriter(calls: seq<OpCall>, i: nat, j: nat, s: string)
    requires DistinctFields(calls) && WrittenBy(calls, i, s) && WrittenBy(calls, j, s)
    ensures i == j
  {
  }

  /** Of two chained branches at most one is taken. */
  lemma {:induction false} NotBothTaken(calls: seq<OpCall>, frames: seq<Option<Frame>>, a: nat, sa: string, b: nat, sb: string)
    requires Behaves(calls, frames) && DistinctFields(calls) && AllGuaranteed(calls, {})
    requires a < |calls| && b < |calls| && Executes(calls[a], frames[a]) && Executes(calls[b], frames[b])
    requires sa in calls[a].config.skip && sb in calls[b].config.skip
    ensures !Chained(calls, sa, sb)
  {
    var i := GuardWasTaken(calls, frames, a, sa);
    var j := GuardWasTaken(calls, frames, b, sb);
    if i < j {
      FieldIsFinal(calls, frames, sa, i, i + 1, j);
      assert sa !in calls[j].work.priors;
    }
    forall i': nat, j': nat | WrittenBy(calls, i', sa) && WrittenBy(calls, j', sb)
      ensures i' == i && j' == j
    {
      OneWriter(calls, i, i', sa);
      OneWriter(calls, j, j', sb);
    }
  }

  // ----- runs behave -----

  /** The frame before call `k`. */
  function FrameAt(calls: seq<OpCall>, f: Frame, k: nat): Option<Frame>
    requires k <= |calls|
  {
    Exec(calls[..k], Outcome(Some(f), [])).frame
  }

  lemma {:induction false} FrameAfter(calls: seq<OpCall>, f: Frame, k: nat)
    requires k < |calls|
    ensures FrameAt(calls, f, k + 1) == AndThen(FrameAt(calls, f, k), OperatorOf(calls[k]))
  {
    assert calls[..k + 1] == calls[..k] + [calls[k]];
    ExecConcat(calls[..k], [calls[k]], Outcome(Some(f), []));
    assert [calls[k]][1..] == [];
  }

  lemma {:induction false} StepLeaves(op: Operator, f: Frame, s: string)
    requires s !in op.config.metadata.commonOutput && Step(op, f).Some?
    ensures SameField(s, f, Step(op, f).value)
  {
    var out := LogOf(op, f).value;
    CommitSplits(op, f, out);
    CommonDeltaKeys(out.commonWrites, op.config.metadata.commonOutput);
    assert s !in CommonDelta(out.commonWrites);
  }

  lemma {:induction false} ControlRecords(call: OpCall, f: Frame)
    requires call.work.Control? && !Skipped(call.config, f.common) && WellMade(call) && Step(OperatorOf(call), f).Some?
    ensures Step(OperatorOf(call), f)
            == Some(f.(common := f.common[Written(call.config) := Bool(!Taken(call.work.priors, call.work.cond, f.common))]))
  {
    VerdictInView(f.common, CommonReads(call.config.metadata), call.work.priors, call.work.cond);
    OneWrite(OperatorOf(call), f, Written(call.config), !Taken(call.work.priors, call.work.cond, f.common));
  }

  lemma {:induction false} CallLeaves(call: OpCall, fields: set<string>, before: Option<Frame>)
    requires if call.work.Control? then call.config.metadata.commonOutput == [Written(call.config)]
             else Elements(call.config.metadata.commonOutput) !! fields
    ensures Leaves(call, fields, before, AndThen(before, OperatorOf(call)))
  {
    if AndThen(before, OperatorOf(call)).Some? {
      forall s | s in fields && !(call.work.Control? && Written(call.config) == s)
        ensures SameField(s, before.value, AndThen(before, OperatorOf(call)).value)
      {
        assert s !in call.config.metadata.commonOutput by {
          assert s in call.config.metadata.commonOutput ==> s in Elements(call.config.metadata.commonOutput);
        }
        StepLeaves(OperatorOf(call), before.value, s);
      }
    }
  }

  lemma {:induction false} RunsBehave(calls: seq<OpCall>, f: Frame)
    requires Made(calls)
    ensures Behaves(calls, FramesOf(calls, f))
  {
    var frames := FramesOf(calls, f);
    forall k | 0 <= k < |calls|
      ensures Leaves(calls[k], ControlFields(calls), frames[k], frames[k + 1])
      ensures Records(calls[k], frames[k], frames[k + 1])
    {
      FrameAfter(calls, f, k);
      CallLeaves(calls[k], ControlFields(calls), frames[k]);
      if calls[k].work.Control? && Executes(calls[k], frames[k]) && frames[k + 1].Some? {
        ControlRecords(calls[k], frames[k].value);
      }
    }
  }

  function FramesOf(calls: seq<OpCall>, f: Frame): seq<Option<Frame>> {
    seq(|calls| + 1, k requires 0 <= k <= |calls| => FrameAt(calls, f, k))
  }

  /** Main result on flat lists: operators judged exclusive never execute both, from any initial frame. */
  lemma {:induction false} ExclusiveNeverBothRun(calls: seq<OpCall>, groups: seq<set<string>>, f: Frame, a: nat, b: nat)
    requires Made(calls) && DistinctFields(calls) && AllGuaranteed(calls, {})
    requires forall g :: 0 <= g < |groups| ==> Grouped(calls, groups[g])
    requires a < |calls| && b < |calls| && MutuallyExclusive(groups, calls[a].config.skip, calls[b].config.skip)
    ensures !(Executes(calls[a], FrameAt(calls, f, a)) && Executes(calls[b], FrameAt(calls, f, b)))
  {
    var skipA, skipB, frames := calls[a].config.skip, calls[b].config.skip, FramesOf(calls, f);
    var g :| 0 <= g < |groups| &&
             var x, y := groups[g] * Elements(skipA), groups[g] * Elements(skipB); x != {} && y != {} && x != y;
    var x, y := groups[g] * Elements(skipA), groups[g] * Elements(skipB);
    var sa, sb := DifferentFields(x, y);
    assert Grouped(calls, groups[g]);
    RunsBehave(calls, f);
    assert frames[a] == FrameAt(calls, f, a) && frames[b] == FrameAt(calls, f, b);
    if Executes(calls[a], frames[a]) && Executes(calls[b], frames[b]) {
      NotBothTaken(calls, frames, a, sa, b, sb);
      NotBothTaken(calls, frames, b, sb, a, sa);
    }
  }

  lemma {:induction false} DifferentFields(x: set<string>, y: set<string>) returns (a: string, b: string)
    requires x != {} && y != {} && x != y
    ensures a in x && b in y && a != b
  {
    if s :| s in x && s !in y {
      a := s;
      b :| b in y;
    } else {
      b :| b in y && b !in x;
      a :| a in x;
    }
  }
}
