/** Flattening a flow with nested flows: control fields renamed by path, outer guards inherited, one global list. */
module SubFlows {
  import opened Options
  import opened Accesses
  import opened Operators
  import opened Calls
  import opened ControlFlow
  import opened Flows
  import opened Naming

  // ----- renaming control fields -----

  function Renamed(m: map<string, string>, f: string): string {
    if f in m then m[f] else f
  }

  function RenamedAll(m: map<string, string>, fields: seq<string>): (r: seq<string>)
    ensures |r| == |fields|
  {
    seq(|fields|, i requires 0 <= i < |fields| => Renamed(m, fields[i]))
  }

  /** All occurrences in the call, the variables of a control script included. */
  function RenamedCall(m: map<string, string>, call: OpCall): OpCall {
    var md := call.config.metadata;
    var md' := md.(commonInput := RenamedAll(m, md.commonInput), commonInputSkip := RenamedAll(m, md.commonInputSkip),
                   commonInputTemplate := RenamedAll(m, md.commonInputTemplate), commonOutput := RenamedAll(m, md.commonOutput));
    call.(config := call.config.(skip := RenamedAll(m, call.config.skip), metadata := md'),
          work := if call.work.Control? then call.work.(priors := RenamedAll(m, call.work.priors)) else call.work)
  }

  function RenameField(call: OpCall, from: string, to: string): OpCall {
    RenamedCall(map[from := to], call)
  }

  function WithName(call: OpCall, name: string): OpCall {
    call.(config := call.config.(name := name))
  }

  /** The list after the control call at `i` has had its turn. */
  function Turn(calls: seq<OpCall>, i: nat, from: string, to: string, name: string): (after: seq<OpCall>)
    requires i < |calls|
    ensures |after| == |calls|
  {
    var after := seq(|calls|, j requires 0 <= j < |calls| => RenameField(calls[j], from, to));
    after[i := WithName(after[i], name)]
  }

  /** Control fields get the flow's path in front, one control call after the other; at the root nothing changes. */
  function RenameFrom(calls: seq<OpCall>, i: nat, path: string, renames: map<string, string>): (seq<OpCall>, map<string, string>)
    requires i <= |calls|
    decreases |calls| - i
  {
    if i == |calls| || path == "" then (calls, renames)
    else if !calls[i].work.Control? then RenameFrom(calls, i + 1, path, renames)
    else
      var from := Written(calls[i].config);
      var name := Prefix(path) + calls[i].config.name;
      var to := "_" + name;
      if from == to then RenameFrom(calls, i + 1, path, renames) else
        RenameFrom(Turn(calls, i, from, to, name), i + 1, path, renames[from := to])
  }

  method RenameControlFields(localOps: seq<OpCall>, path: string) returns (calls: seq<OpCall>, renames: map<string, string>)
    ensures (calls, renames) == RenameFrom(localOps, 0, path, map[])
  {
    calls, renames := localOps, map[];
    if path == "" {
      return;
    }
    for i := 0 to |localOps|
      invariant |calls| == |localOps|
      invariant RenameFrom(localOps, 0, path, map[]) == RenameFrom(calls, i, path, renames)
    {
      if calls[i].work.Control? {
        var from := Written(calls[i].config);
        var name := Prefix(path) + calls[i].config.name;
        var to := "_" + name;
        if from != to {
          calls := Turn(calls, i, from, to, name);
          renames := renames[from := to];
        }
      }
    }
  }

  // ----- traversal -----

  datatype Entry = OpEntry(index: nat) | FlowEntry(path: string)

  datatype Problem = DuplicatePath(path: string)

  /** The global operator list, the entries of each flow, and the exclusion groups. */
  datatype Flat = Flat(calls: seq<OpCall>, structures: map<string, seq<Entry>>, groups: seq<set<string>>)

  function CallsOf(children: seq<Child>): seq<OpCall> {
    if children == [] then []
    else (if children[0].Op? then [children[0].call] else []) + CallsOf(children[1..])
  }

  function Inherit(call: OpCall, path: string, inherited: seq<string>): OpCall {
    WithSkips(call.(path := path), inherited)
  }

  function GroupsOf(closed: seq<Block>, renames: map<string, string>): seq<set<string>> {
    if closed == [] then [] else
      var group := Elements(RenamedAll(renames, FieldsOf(closed[0].branches)));
      (if |group| > 1 then [group] else []) + GroupsOf(closed[1..], renames)
  }

  /** One flow: rename, walk over the children, collect exclusion groups, record the entries. */
  function Traverse(flow: Flow, path: string, inherited: seq<string>, acc: Flat): (Flat, Option<Problem>)
    decreases flow, 0
  {
    var (locals, renames) := RenameFrom(CallsOf(flow.children), 0, path, map[]);
    RenameKeepsLength(CallsOf(flow.children), 0, path, map[]);
    var (acc', entries, problem) := Walk(flow.children, locals, path, renames, inherited, acc, []);
    if problem.Some? then (acc', problem) else
      (Flat(acc'.calls, acc'.structures[path := entries], acc'.groups + GroupsOf(flow.closed, renames)), None)
  }

  function Walk(children: seq<Child>, locals: seq<OpCall>, path: string, renames: map<string, string>, inherited: seq<string>,
                acc: Flat, entries: seq<Entry>): (Flat, seq<Entry>, Option<Problem>)
    requires |locals| == |CallsOf(children)|
    decreases children, |children|
  {
    if children == [] then (acc, entries, None) else
      match children[0]
      case Op(_) =>
        Walk(children[1..], locals[1..], path, renames, inherited,
             acc.(calls := acc.calls + [Inherit(locals[0], path, inherited)]), entries + [OpEntry(|acc.calls|)])
      case Sub(name, inner, parentSkips) =>
        var innerPath := Join(path, name);
        if innerPath in acc.structures then (acc, entries, Some(DuplicatePath(innerPath))) else
          var (acc', problem) := Traverse(inner, innerPath, inherited + RenamedAll(renames, parentSkips), acc);
          if problem.Some? then (acc', entries, problem)
          else Walk(children[1..], locals, path, renames, inherited, acc', entries + [FlowEntry(innerPath)])
  }

  lemma {:induction false} RenameKeepsLength(calls: seq<OpCall>, i: nat, path: string, renames: map<string, string>)
    requires i <= |calls|
    ensures |RenameFrom(calls, i, path, renames).0| == |calls|
    decreases |calls| - i
  {
    if i < |calls| && path != "" {
      if calls[i].work.Control? {
        var name := Prefix(path) + calls[i].config.name;
        var from, to := Written(calls[i].config), "_" + name;
        if from == to {
          RenameKeepsLength(calls, i + 1, path, renames);
        } else {
          RenameKeepsLength(Turn(calls, i, from, to, name), i + 1, path, renames[from := to]);
        }
      } else {
        RenameKeepsLength(calls, i + 1, path, renames);
      }
    }
  }

  // ----- the renaming, all at once -----

  /** A control call as the recording interface makes it. */
  predicate Native(call: OpCall) {
    call.work.Control? ==>
      && call.config.name == CtrlName(call.work.kind, call.work.index)
      && call.config.metadata.commonOutput == [RawField(call.work.kind, call.work.index)]
  }

  ghost predicate Numbered(calls: seq<OpCall>) {
    && (forall i :: 0 <= i < |calls| ==> Native(calls[i]))
    && (forall i, j :: 0 <= i < j < |calls| && calls[i].work.Control? && calls[j].work.Control? ==>
          calls[i].work.index != calls[j].work.index)
  }

  function Renames(calls: seq<OpCall>, path: string, i: nat): map<string, string>
    requires i <= |calls|
  {
    if i == 0 then map[] else
      var w := calls[i - 1].work;
      if !w.Control? then Renames(calls, path, i - 1)
      else Renames(calls, path, i - 1)[RawField(w.kind, w.index) := FinalField(path, w.kind, w.index)]
  }

  /** The final form of a call of this flow. */
  function Settled(m: map<string, string>, path: string, call: OpCall, named: bool): OpCall {
    var r := RenamedCall(m, call);
    if named && call.work.Control? then WithName(r, FinalName(path, call.work.kind, call.work.index)) else r
  }

  function SettledAll(m: map<string, string>, path: string, calls: seq<OpCall>): (r: seq<OpCall>)
    ensures |r| == |calls|
  {
    seq(|calls|, j requires 0 <= j < |calls| => Settled(m, path, calls[j], true))
  }

  lemma {:induction false} RenamedTwice(m: map<string, string>, from: string, to: string, call: OpCall)
    requires from !in m && forall f :: f in m ==> m[f] != from
    ensures RenameField(RenamedCall(m, call), from, to) == RenamedCall(m[from := to], call)
  {
    var one, both := map[from := to], m[from := to];
    forall fields: seq<string>
      ensures RenamedAll(one, RenamedAll(m, fields)) == RenamedAll(both, fields)
    {
      assert forall i :: 0 <= i < |fields| ==> RenamedAll(m, fields)[i] == Renamed(m, fields[i]);
    }
  }

  lemma {:induction false} RenamesOrigin(calls: seq<OpCall>, path: string, i: nat, f: string) returns (j: nat)
    requires i <= |calls| && Numbered(calls) && f in Renames(calls, path, i)
    ensures j < i && calls[j].work.Control? && f == RawField(calls[j].work.kind, calls[j].work.index)
    ensures Renames(calls, path, i)[f] == FinalField(path, calls[j].work.kind, calls[j].work.index)
  {
    var w := calls[i - 1].work;
    if w.Control? && f == RawField(w.kind, w.index) {
      j := i - 1;
    } else {
      j := RenamesOrigin(calls, path, i - 1, f);
    }
  }

  /** The old and the new name of a control call's field. */
  function OldName(call: OpCall): string
    requires call.work.Control?
  {
    RawField(call.work.kind, call.work.index)
  }

  function NewName(path: string, call: OpCall): string
    requires call.work.Control?
  {
    FinalField(path, call.work.kind, call.work.index)
  }

  lemma {:induction false} RenamesNext(calls: seq<OpCall>, path: string, i: nat, f: string)
    requires 0 < i <= |calls|
    ensures
      var c, m, m' := calls[i - 1], Renames(calls, path, i - 1), Renames(calls, path, i);
      if c.work.Control? && f == OldName(c) then f in m' && m'[f] == NewName(path, c)
      else (f in m' <==> f in m) && (f in m ==> m'[f] == m[f])
  {
  }

  lemma {:induction false} RenamesHas(calls: seq<OpCall>, path: string, i: nat, j: nat)
    requires j < i <= |calls| && Numbered(calls) && calls[j].work.Control?
    ensures OldName(calls[j]) in Renames(calls, path, i) && Renames(calls, path, i)[OldName(calls[j])] == NewName(path, calls[j])
  {
    RenamesNext(calls, path, i, OldName(calls[j]));
    if j < i - 1 {
      RenamesHas(calls, path, i - 1, j);
      if calls[i - 1].work.Control? {
        RawFieldsDiffer(calls, j, i - 1);
      }
    }
  }

  lemma {:induction false} RawFieldsDiffer(calls: seq<OpCall>, j: nat, k: nat)
    requires Numbered(calls) && j < k < |calls| && calls[j].work.Control? && calls[k].work.Control?
    ensures RawField(calls[j].work.kind, calls[j].work.index) != RawField(calls[k].work.kind, calls[k].work.index)
  {
    if RawField(calls[j].work.kind, calls[j].work.index) == RawField(calls[k].work.kind, calls[k].work.index) {
      RawFieldInjective(calls[j].work.kind, calls[j].work.index, calls[k].work.kind, calls[k].work.index);
    }
  }

  /** Every old name is a raw field of an earlier control call; every new name has a colon in it. */
  lemma {:induction false} RenamesFacts(calls: seq<OpCall>, path: string, i: nat)
    requires i <= |calls| && Numbered(calls) && path != ""
    ensures forall f :: f in Renames(calls, path, i) ==> HasColon(Renames(calls, path, i)[f])
    ensures forall j :: i <= j < |calls| && calls[j].work.Control? ==>
              RawField(calls[j].work.kind, calls[j].work.index) !in Renames(calls, path, i)
  {
    forall f | f in Renames(calls, path, i)
      ensures HasColon(Renames(calls, path, i)[f])
      ensures forall j :: i <= j < |calls| && calls[j].work.Control? ==> f != RawField(calls[j].work.kind, calls[j].work.index)
    {
      var k := RenamesOrigin(calls, path, i, f);
      FinalFieldHasColon(path, calls[k].work.kind, calls[k].work.index);
      forall j | i <= j < |calls| && calls[j].work.Control?
        ensures f != RawField(calls[j].work.kind, calls[j].work.index)
      {
        RawFieldsDiffer(calls, k, j);
      }
    }
  }

  ghost predicate PartlySettled(orig: seq<OpCall>, calls: seq<OpCall>, i: nat, path: string)
    requires i <= |orig|
  {
    |calls| == |orig| && forall j :: 0 <= j < |orig| ==> calls[j] == Settled(Renames(orig, path, i), path, orig[j], j < i)
  }

  lemma {:induction false} TurnSettles(orig: seq<OpCall>, calls: seq<OpCall>, i: nat, path: string)
    requires path != "" && Numbered(orig) && i < |orig| && PartlySettled(orig, calls, i, path) && orig[i].work.Control?
    ensures
      var w := orig[i].work;
      var name := Prefix(path) + calls[i].config.name;
      && Written(calls[i].config) == RawField(w.kind, w.index) && "_" + name == FinalField(path, w.kind, w.index)
      && RawField(w.kind, w.index) != "_" + name && calls[i].work.Control?
      && PartlySettled(orig, Turn(calls, i, RawField(w.kind, w.index), "_" + name, name), i + 1, path)
  {
    var m, w := Renames(orig, path, i), orig[i].work;
    var from, to := RawField(w.kind, w.index), FinalField(path, w.kind, w.index);
    assert calls[i] == Settled(m, path, orig[i], false);
    RenamesFacts(orig, path, i);
    FinalFieldHasColon(path, w.kind, w.index);
    RawFieldHasNoColon(w.kind, w.index);
    forall j | 0 <= j < |orig|
      ensures RenameField(calls[j], from, to) == Settled(m[from := to], path, orig[j], j < i)
    {
      RenamedTwice(m, from, to, orig[j]);
    }
  }

  /** One step of the renaming. */
  lemma {:induction false} RenameStep(orig: seq<OpCall>, calls: seq<OpCall>, i: nat, path: string) returns (after: seq<OpCall>)
    requires path != "" && Numbered(orig) && i < |orig| && PartlySettled(orig, calls, i, path)
    ensures PartlySettled(orig, after, i + 1, path)
    ensures RenameFrom(calls, i, path, Renames(orig, path, i)) == RenameFrom(after, i + 1, path, Renames(orig, path, i + 1))
  {
    var w := orig[i].work;
    assert calls[i] == Settled(Renames(orig, path, i), path, orig[i], false);
    if w.Control? {
      TurnSettles(orig, calls, i, path);
      var name := Prefix(path) + calls[i].config.name;
      after := Turn(calls, i, RawField(w.kind, w.index), "_" + name, name);
    } else {
      after := calls;
    }
  }

  function Simultaneous(calls: seq<OpCall>, path: string): (seq<OpCall>, map<string, string>) {
    var m := if path == "" then map[] else Renames(calls, path, |calls|);
    (SettledAll(m, path, calls), m)
  }

  lemma {:induction false} AllSettled(orig: seq<OpCall>, calls: seq<OpCall>, path: string)
    requires path != "" && PartlySettled(orig, calls, |orig|, path)
    ensures RenameFrom(calls, |orig|, path, Renames(orig, path, |orig|)) == Simultaneous(orig, path)
  {
    assert calls == SettledAll(Renames(orig, path, |orig|), path, orig);
  }

  lemma {:induction false} RenameIsSimultaneous(orig: seq<OpCall>, path: string)
    requires path != "" && Numbered(orig) && PartlySettled(orig, orig, 0, path)
    ensures RenameFrom(orig, 0, path, map[]) == Simultaneous(orig, path)
  {
    var calls, i := orig, 0;
    while i < |orig|
      invariant i <= |orig| && PartlySettled(orig, calls, i, path)
      invariant RenameFrom(orig, 0, path, map[]) == RenameFrom(calls, i, path, Renames(orig, path, i))
    {
      calls := RenameStep(orig, calls, i, path);
      i := i + 1;
    }
    AllSettled(orig, calls, path);
  }

  /** What renaming does to a whole flow. */
  lemma {:induction false} RenamesFlow(calls: seq<OpCall>, path: string)
    requires Numbered(calls)
    ensures RenameFrom(calls, 0, path, map[]) == Simultaneous(calls, path)
  {
    forall call: OpCall
      ensures RenamedCall(map[], call) == call
    {
      forall fields: seq<string>
        ensures RenamedAll(map[], fields) == fields
      {
      }
    }
    if path == "" {
      assert SettledAll(map[], path, calls) == calls by {
        assert forall j :: 0 <= j < |calls| ==> Settled(map[], path, calls[j], true) == calls[j];
      }
    } else {
      RenameIsSimultaneous(calls, path);
    }
  }

  // ----- renaming commutes with attaching guards -----

  /** Names that control fields may have, before or after renaming. */
  predicate Reserved(f: string) {
    f != "" && f[0] == '_' && (HasColon(f) || "_if_" <= f || "_elif_" <= f || "_else_" <= f)
  }

  lemma {:induction false} ControlFieldsReserved(path: string, kind: BranchKind, n: nat)
    ensures Reserved(RawField(kind, n)) && Reserved(FinalField(path, kind, n))
  {
    if path != "" { FinalFieldHasColon(path, kind, n); }
  }

  /** A renaming table of control fields: no two old names get the same new one. */
  ghost predicate Table(m: map<string, string>) {
    && (forall f :: f in m ==> Reserved(f) && Reserved(m[f]))
    && (forall f, g :: f in m && g in m && m[f] == m[g] ==> f == g)
  }

  ghost predicate Known(m: map<string, string>, fields: seq<string>) {
    m != map[] ==> forall i :: 0 <= i < |fields| ==> fields[i] in m || !Reserved(fields[i])
  }

  lemma {:induction false} RenamedMember(m: map<string, string>, f: string, fields: seq<string>)
    requires Table(m) && Known(m, fields) && Known(m, [f])
    ensures Renamed(m, f) in RenamedAll(m, fields) <==> f in fields
  {
    assert [f][0] == f;
    if f in fields {
      var i :| 0 <= i < |fields| && fields[i] == f;
      assert RenamedAll(m, fields)[i] == Renamed(m, f);
    }
  }

  lemma {:induction false} RenamedDeduped(m: map<string, string>, fields: seq<string>)
    requires Table(m) && Known(m, fields)
    ensures RenamedAll(m, Deduped(fields)) == Deduped(RenamedAll(m, fields)) && Known(m, Deduped(fields))
  {
    if fields != [] {
      var front, last := fields[..|fields| - 1], fields[|fields| - 1];
      RenamedDeduped(m, front);
      assert RenamedAll(m, fields)[..|fields| - 1] == RenamedAll(m, front);
      RenamedMember(m, last, Deduped(front));
      assert RenamedAll(m, Deduped(front) + [last]) == RenamedAll(m, Deduped(front)) + [Renamed(m, last)];
    }
  }

  ghost predicate KnownCall(m: map<string, string>, call: OpCall) {
    Known(m, call.config.skip) && Known(m, call.config.metadata.commonInput) && Known(m, call.config.metadata.commonInputSkip)
  }

  lemma {:induction false} RenamedWithSkip(m: map<string, string>, call: OpCall, s: string)
    requires Table(m) && KnownCall(m, call) && Known(m, [s])
    ensures RenamedCall(m, WithSkip(call, s)) == WithSkip(RenamedCall(m, call), Renamed(m, s)) && KnownCall(m, WithSkip(call, s))
  {
    var c, md := call.config, call.config.metadata;
    assert [s][0] == s;
    RenamedMember(m, s, c.skip);
    RenamedMember(m, s, md.commonInput);
    RenamedMember(m, s, md.commonInputSkip);
    assert RenamedAll(m, c.skip + [s]) == RenamedAll(m, c.skip) + [Renamed(m, s)];
    assert RenamedAll(m, md.commonInputSkip + [s]) == RenamedAll(m, md.commonInputSkip) + [Renamed(m, s)];
  }

  lemma {:induction false} RenamedWithSkips(m: map<string, string>, call: OpCall, fields: seq<string>)
    requires Table(m) && KnownCall(m, call) && Known(m, fields)
    ensures RenamedCall(m, WithSkips(call, fields)) == WithSkips(RenamedCall(m, call), RenamedAll(m, fields))
    decreases |fields|
  {
    if fields != [] {
      assert [fields[0]][0] == fields[0] && Known(m, [fields[0]]) && Known(m, fields[1..]);
      RenamedWithSkip(m, call, fields[0]);
      RenamedWithSkips(m, WithSkip(call, fields[0]), fields[1..]);
      assert RenamedAll(m, fields)[0] == Renamed(m, fields[0]) && RenamedAll(m, fields)[1..] == RenamedAll(m, fields[1..]);
    }
  }

  /** Name and path play no part in attaching guards. */
  lemma {:induction false} LabelsStay(call: OpCall, name: string, path: string, fields: seq<string>)
    ensures WithName(WithSkips(call, fields), name) == WithSkips(WithName(call, name), fields)
    ensures WithSkips(call, fields).(path := path) == WithSkips(call.(path := path), fields)
    decreases |fields|
  {
    if fields != [] {
      LabelsStay(WithSkip(call, fields[0]), name, path, fields[1..]);
    }
  }

  // ----- a user call, and a branch call, after the traversal -----

  /** A user operator as declared, away from all names that control fields may have. */
  ghost predicate PlainCall(call: OpCall) {
    && call.work.UserOp? && call.config.skip == [] && call.config.metadata.commonInputSkip == []
    && (forall f :: f in call.config.metadata.commonInput ==> !Reserved(f))
    && (forall f :: f in call.config.metadata.commonInputTemplate ==> !Reserved(f))
    && (forall f :: f in call.config.metadata.commonOutput ==> !Reserved(f))
  }

  lemma {:induction false} UnaffectedFields(m: map<string, string>, fields: seq<string>)
    requires Table(m) && forall f :: f in fields ==> !Reserved(f)
    ensures RenamedAll(m, fields) == fields && Known(m, fields)
  {
  }

  lemma {:induction false} UserCallSettles(m: map<string, string>, path: string, inherited: seq<string>, local: seq<string>, call: OpCall)
    requires Table(m) && Known(m, local) && PlainCall(call)
    ensures Inherit(Settled(m, path, WithSkips(call, local), true), path, inherited)
            == Guarded(call, Scope(path, inherited, RenamedAll(m, local)))
  {
    var md := call.config.metadata;
    UnaffectedFields(m, md.commonInput);
    UnaffectedFields(m, md.commonInputTemplate);
    UnaffectedFields(m, md.commonOutput);
    assert RenamedCall(m, call) == call;
    RenamedWithSkips(m, call, local);
    WithSkipsAdds(call, local);
    LabelsStay(call, "", path, RenamedAll(m, local));
  }

  lemma {:induction false} KnownConcat(m: map<string, string>, a: seq<string>, b: seq<string>)
    requires Known(m, a) && Known(m, b)
    ensures Known(m, a + b)
  {
  }

  lemma {:induction false} RenamedConcat(m: map<string, string>, a: seq<string>, b: seq<string>)
    ensures RenamedAll(m, a + b) == RenamedAll(m, a) + RenamedAll(m, b)
  {
  }

  lemma {:induction false} RenamedInputs(m: map<string, string>, priors: seq<string>, fields: seq<string>)
    requires Table(m) && Known(m, priors) && forall f :: f in fields ==> !Reserved(f)
    ensures RenamedAll(m, Deduped(priors + fields)) == Deduped(RenamedAll(m, priors) + fields) && Known(m, Deduped(priors + fields))
  {
    UnaffectedFields(m, fields);
    KnownConcat(m, priors, fields);
    RenamedConcat(m, priors, fields);
    RenamedDeduped(m, priors + fields);
  }

  /** A control call without its guards. */
  lemma {:induction false} PlainBranchSettles(m: map<string, string>, path: string, kind: BranchKind, n: nat, priors: seq<string>, cond: Option<Condition>)
    requires Table(m) && Known(m, priors) && Renamed(m, RawField(kind, n)) == FinalField(path, kind, n)
    requires cond.Some? ==> forall f :: f in cond.value.fields ==> !Reserved(f)
    ensures
      var plain := ControlCall(CtrlName(kind, n), RawField(kind, n), kind, n, priors, cond);
      && KnownCall(m, plain)
      && WithName(RenamedCall(m, plain), FinalName(path, kind, n))
         == ControlCall(FinalName(path, kind, n), FinalField(path, kind, n), kind, n, RenamedAll(m, priors), cond)
  {
    RenamedInputs(m, priors, if cond.Some? then cond.value.fields else []);
    OneRenamed(m, RawField(kind, n), FinalField(path, kind, n));
  }

  lemma {:induction false} OneRenamed(m: map<string, string>, f: string, g: string)
    requires Renamed(m, f) == g
    ensures RenamedAll(m, [f]) == [g] && RenamedAll(m, []) == []
  {
  }

  lemma {:induction false} BranchCallSettles(m: map<string, string>, path: string, inherited: seq<string>, local: seq<string>,
                          kind: BranchKind, n: nat, priors: seq<string>, cond: Option<Condition>)
    requires Table(m) && Known(m, local) && Known(m, priors) && Renamed(m, RawField(kind, n)) == FinalField(path, kind, n)
    requires cond.Some? ==> forall f :: f in cond.value.fields ==> !Reserved(f)
    ensures Inherit(Settled(m, path, RawCall(kind, n, priors, cond, local), true), path, inherited)
            == BranchCall(Scope(path, inherited, RenamedAll(m, local)), kind, n, RenamedAll(m, priors), cond)
  {
    var plain := ControlCall(CtrlName(kind, n), RawField(kind, n), kind, n, priors, cond);
    PlainBranchSettles(m, path, kind, n, priors, cond);
    WithSkipsAdds(plain, local);
    SettledWithSkips(m, path, inherited, local, plain, FinalName(path, kind, n));
  }

  lemma {:induction false} SettledWithSkips(m: map<string, string>, path: string, inherited: seq<string>, local: seq<string>, call: OpCall, name: string)
    requires Table(m) && Known(m, local) && KnownCall(m, call)
    ensures Inherit(WithName(RenamedCall(m, WithSkips(call, local)), name), path, inherited)
            == Guarded(WithName(RenamedCall(m, call), name), Scope(path, inherited, RenamedAll(m, local)))
  {
    RenamedWithSkips(m, call, local);
    LabelsStay(RenamedCall(m, call), name, path, RenamedAll(m, local));
    LabelsStay(WithName(RenamedCall(m, call), name), name, path, RenamedAll(m, local));
  }

  // ----- traversing a recorded flow gives the compiled calls -----

  ghost predicate Plain(code: Code) {
    match code
    case Done => true
    case Do(call, next) => PlainCall(call) && Plain(next)
    case If(cond, body, more, next) => PlainCondition(cond) && Plain(body) && PlainBranches(more) && Plain(next)
    case Include(_, body, next) => Plain(body) && Plain(next)
  }

  ghost predicate PlainBranches(branches: Branches) {
    match branches
    case EndIf => true
    case ElseIf(cond, body, more) => PlainCondition(cond) && Plain(body) && PlainBranches(more)
    case Else(body) => Plain(body)
  }

  ghost predicate PlainCondition(cond: Condition) {
    forall f :: f in cond.fields ==> !Reserved(f)
  }

  lemma {:induction false} CallsConcat(a: seq<Child>, b: seq<Child>)
    ensures CallsOf(a + b) == CallsOf(a) + CallsOf(b)
    decreases |a|
  {
    if a == [] {
      assert a + b == b;
    } else {
      assert (a + b)[1..] == a[1..] + b && (a + b)[0] == a[0];
      CallsConcat(a[1..], b);
      var first := if a[0].Op? then [a[0].call] else [];
      assert first + (CallsOf(a[1..]) + CallsOf(b)) == first + CallsOf(a[1..]) + CallsOf(b);
    }
  }

  lemma {:induction false} WalkConcat(a: seq<Child>, la: seq<OpCall>, b: seq<Child>, lb: seq<OpCall>, path: string, m: map<string, string>,
                                      inherited: seq<string>, acc: Flat, entries: seq<Entry>)
    requires |la| == |CallsOf(a)| && |lb| == |CallsOf(b)|
    ensures |la + lb| == |CallsOf(a + b)|
    ensures
      var first := Walk(a, la, path, m, inherited, acc, entries);
      Walk(a + b, la + lb, path, m, inherited, acc, entries)
      == if first.2.Some? then first else Walk(b, lb, path, m, inherited, first.0, first.1)
    decreases |a|
  {
    CallsConcat(a, b);
    if a == [] {
      assert a + b == b && la + lb == lb;
    } else {
      assert (a + b)[1..] == a[1..] + b && (a + b)[0] == a[0];
      match a[0]
      case Op(_) =>
        assert (la + lb)[1..] == la[1..] + lb && (la + lb)[0] == la[0];
        WalkConcat(a[1..], la[1..], b, lb, path, m, inherited,
                   acc.(calls := acc.calls + [Inherit(la[0], path, inherited)]), entries + [OpEntry(|acc.calls|)]);
      case Sub(name, inner, parentSkips) =>
        if Join(path, name) !in acc.structures {
          var (acc', problem) := Traverse(inner, Join(path, name), inherited + RenamedAll(m, parentSkips), acc);
          if problem.None? {
            WalkConcat(a[1..], la, b, lb, path, m, inherited, acc', entries + [FlowEntry(Join(path, name))]);
          }
        }
    }
  }

  /** Walking over `children`, renamed by `m`, adds exactly `calls` to the global list. */
  ghost predicate WalksTo(children: seq<Child>, path: string, m: map<string, string>, inherited: seq<string>, calls: seq<OpCall>) {
    forall acc, entries ::
      var r := Walk(children, SettledAll(m, path, CallsOf(children)), path, m, inherited, acc, entries);
      r.2.None? ==> r.0.calls == acc.calls + calls
  }

  lemma {:induction false} SettledConcat(m: map<string, string>, path: string, a: seq<OpCall>, b: seq<OpCall>)
    ensures SettledAll(m, path, a + b) == SettledAll(m, path, a) + SettledAll(m, path, b)
  {
  }

  lemma {:induction false} JoinCalls(a: seq<OpCall>, b: seq<OpCall>, c: seq<OpCall>)
    ensures a + b + c == a + (b + c)
  {
  }

  lemma {:induction false} WalksConcat(a: seq<Child>, ca: seq<OpCall>, b: seq<Child>, cb: seq<OpCall>, path: string, m: map<string, string>, inherited: seq<string>)
    requires WalksTo(a, path, m, inherited, ca) && WalksTo(b, path, m, inherited, cb)
    ensures WalksTo(a + b, path, m, inherited, ca + cb)
  {
    var la, lb := SettledAll(m, path, CallsOf(a)), SettledAll(m, path, CallsOf(b));
    CallsConcat(a, b);
    SettledConcat(m, path, CallsOf(a), CallsOf(b));
    forall acc, entries
      ensures
        var r := Walk(a + b, la + lb, path, m, inherited, acc, entries);
        r.2.None? ==> r.0.calls == acc.calls + (ca + cb)
    {
      WalkConcat(a, la, b, lb, path, m, inherited, acc, entries);
      JoinCalls(acc.calls, ca, cb);
    }
  }

  lemma {:induction false} OneCallWalks(call: OpCall, path: string, m: map<string, string>, inherited: seq<string>, final: OpCall)
    requires final == Inherit(Settled(m, path, call, true), path, inherited)
    ensures WalksTo([Op(call)], path, m, inherited, [final])
  {
    assert CallsOf([Op(call)]) == [call] by { assert [Op(call)][1..] == []; }
    assert [Op(call)][1..] == [];
    assert SettledAll(m, path, [call])[1..] == [];
  }

  // ----- numbering -----

  ghost predicate NumberedIn(calls: seq<OpCall>, lo: nat, hi: nat) {
    lo <= hi && Numbered(calls) && forall i :: 0 <= i < |calls| && calls[i].work.Control? ==> lo < calls[i].work.index <= hi
  }

  lemma {:induction false} NumberedConcat(a: seq<OpCall>, lo: nat, mid: nat, b: seq<OpCall>, hi: nat)
    requires NumberedIn(a, lo, mid) && NumberedIn(b, mid, hi)
    ensures NumberedIn(a + b, lo, hi)
  {
  }

  lemma {:induction false} NumberedThen(a: Recorded, b: Recorded, lo: nat)
    requires NumberedIn(CallsOf(a.children), lo, a.counter) && NumberedIn(CallsOf(b.children), a.counter, b.counter)
    ensures NumberedIn(CallsOf(Then(a, b).children), lo, b.counter)
  {
    CallsConcat(a.children, b.children);
    NumberedConcat(CallsOf(a.children), lo, a.counter, CallsOf(b.children), b.counter);
  }

  lemma {:induction false} OneNumbered(child: Child, lo: nat, hi: nat)
    requires lo <= hi && (child.Op? ==> Native(child.call) && (child.call.work.Control? ==> lo < child.call.work.index <= hi))
    ensures NumberedIn(CallsOf(One(child, hi).children), lo, hi)
  {
    assert [child][1..] == [];
  }

  lemma {:induction false} LoweredNumbered(code: Code, local: seq<string>, n: nat)
    requires Plain(code)
    ensures NumberedIn(CallsOf(Lower(code, local, n).children), n, Lower(code, local, n).counter)
    decreases code, 0
  {
    match code
    case Done =>
    case Do(call, next) =>
      WithSkipsAdds(call, local);
      OneNumbered(Op(WithSkips(call, local)), n, n);
      LoweredNumbered(next, local, n);
      NumberedThen(One(Op(WithSkips(call, local)), n), Lower(next, local, n), n);
    case If(cond, body, more, next) =>
      var branch := Branch(IfBranch, Some(cond), RawField(IfBranch, n + 1), n + 1);
      var first := LowerBranch(IfBranch, Some(cond), body, [], local, n);
      var others := LowerBranches(more, [branch], local, first.counter);
      LoweredBranchNumbered(IfBranch, Some(cond), body, [], local, n);
      LoweredBranchesNumbered(more, [branch], local, first.counter);
      NumberedThen(first, others, n);
      LoweredNumbered(next, local, others.counter);
      NumberedThen(Then(first, others), Lower(next, local, others.counter), n);
    case Include(name, body, next) =>
      var child := Sub(name, Complete(Lower(body, [], 0)), local);
      OneNumbered(child, n, n);
      LoweredNumbered(next, local, n);
      NumberedThen(One(child, n), Lower(next, local, n), n);
  }

  lemma {:induction false} LoweredBranchNumbered(kind: BranchKind, cond: Option<Condition>, body: Code, priors: seq<string>,
                                                 local: seq<string>, n: nat)
    requires Plain(body)
    ensures var r := LowerBranch(kind, cond, body, priors, local, n); NumberedIn(CallsOf(r.children), n, r.counter)
    decreases body, 1
  {
    var call := RawCall(kind, n + 1, priors, cond, local);
    WithSkipsAdds(ControlCall(CtrlName(kind, n + 1), RawField(kind, n + 1), kind, n + 1, priors, cond), local);
    OneNumbered(Op(call), n, n + 1);
    LoweredNumbered(body, local + [RawField(kind, n + 1)], n + 1);
    NumberedThen(One(Op(call), n + 1), Lower(body, local + [RawField(kind, n + 1)], n + 1), n);
  }

  lemma {:induction false} LoweredBranchesNumbered(branches: Branches, before: seq<Branch>, local: seq<string>, n: nat)
    requires PlainBranches(branches)
    ensures var r := LowerBranches(branches, before, local, n); NumberedIn(CallsOf(r.children), n, r.counter)
    decreases branches
  {
    match branches
    case EndIf =>
    case ElseIf(cond, body, more) =>
      var first := LowerBranch(ElseIfBranch, Some(cond), body, FieldsOf(before), local, n);
      var before' := before + [Branch(ElseIfBranch, Some(cond), RawField(ElseIfBranch, n + 1), n + 1)];
      LoweredBranchNumbered(ElseIfBranch, Some(cond), body, FieldsOf(before), local, n);
      LoweredBranchesNumbered(more, before', local, first.counter);
      NumberedThen(first, LowerBranches(more, before', local, first.counter), n);
    case Else(body) => LoweredBranchNumbered(ElseBranch, None, body, FieldsOf(before), local, n);
  }

  // ----- the renaming table of a flow -----

  /** Every control call among `calls` gets the final name of its field. */
  ghost predicate Fits(m: map<string, string>, path: string, calls: seq<OpCall>) {
    forall i :: 0 <= i < |calls| && calls[i].work.Control? ==>
      var raw := RawField(calls[i].work.kind, calls[i].work.index);
      Renamed(m, raw) == FinalField(path, calls[i].work.kind, calls[i].work.index) && (m != map[] ==> raw in m)
  }

  lemma {:induction false} FlowTable(calls: seq<OpCall>, path: string)
    requires Numbered(calls)
    ensures Table(Simultaneous(calls, path).1) && Fits(Simultaneous(calls, path).1, path, calls)
  {
    if path != "" {
      var m := Renames(calls, path, |calls|);
      forall j | 0 <= j < |calls| && calls[j].work.Control?
        ensures
          var raw := RawField(calls[j].work.kind, calls[j].work.index);
          raw in m && m[raw] == FinalField(path, calls[j].work.kind, calls[j].work.index)
      {
        RenamesHas(calls, path, |calls|, j);
      }
      forall f | f in m
        ensures Reserved(f) && Reserved(m[f])
      {
        var j := RenamesOrigin(calls, path, |calls|, f);
        ControlFieldsReserved(path, calls[j].work.kind, calls[j].work.index);
      }
      forall f, g | f in m && g in m && m[f] == m[g]
        ensures f == g
      {
        var j := RenamesOrigin(calls, path, |calls|, f);
        var k := RenamesOrigin(calls, path, |calls|, g);
        FinalFieldInjective(path, calls[j].work.kind, calls[j].work.index, calls[k].work.kind, calls[k].work.index);
      }
    }
  }

  lemma {:induction false} FitsConcat(m: map<string, string>, path: string, a: seq<OpCall>, b: seq<OpCall>)
    requires Fits(m, path, a + b)
    ensures Fits(m, path, a) && Fits(m, path, b)
  {
    assert forall i :: 0 <= i < |a| ==> (a + b)[i] == a[i];
    assert forall i :: 0 <= i < |b| ==> (a + b)[|a| + i] == b[i];
  }

  // ----- the induction -----

  lemma {:induction false} LoweredWalks(code: Code, path: string, inherited: seq<string>, local: seq<string>, n: nat, m: map<string, string>)
    requires Plain(code) && Table(m) && Known(m, local) && Fits(m, path, CallsOf(Lower(code, local, n).children))
    ensures
      var (calls, n') := Compile(code, Scope(path, inherited, RenamedAll(m, local)), n);
      WalksTo(Lower(code, local, n).children, path, m, inherited, calls) && n' == Lower(code, local, n).counter
    decreases Weight(code), 3
  {
    var sc := Scope(path, inherited, RenamedAll(m, local));
    match code
    case Done =>
      assert forall acc: Flat :: acc.calls + [] == acc.calls;
    case Do(call, next) =>
      var first := Op(WithSkips(call, local));
      UserCallSettles(m, path, inherited, local, call);
      OneCallWalks(WithSkips(call, local), path, m, inherited, Guarded(call, sc));
      FitsThen(m, path, [first], Lower(next, local, n).children);
      LoweredWalks(next, path, inherited, local, n, m);
      WalksConcat([first], [Guarded(call, sc)], Lower(next, local, n).children, Compile(next, sc, n).0, path, m, inherited);
    case If(cond, body, more, next) => LoweredBlockWalks(code, path, inherited, local, n, m);
    case Include(name, body, next) =>
      var inner := Complete(Lower(body, [], 0));
      var child := Sub(name, inner, local);
      var scope := Scope(Join(path, name), inherited + RenamedAll(m, local), []);
      NestedWalks(name, body, path, inherited, local, m);
      FitsThen(m, path, [child], Lower(next, local, n).children);
      LoweredWalks(next, path, inherited, local, n, m);
      WalksConcat([child], Compile(body, scope, 0).0, Lower(next, local, n).children, Compile(next, sc, n).0, path, m, inherited);
  }

  lemma {:induction false} FitsThen(m: map<string, string>, path: string, a: seq<Child>, b: seq<Child>)
    requires Fits(m, path, CallsOf(a + b))
    ensures Fits(m, path, CallsOf(a)) && Fits(m, path, CallsOf(b))
  {
    CallsConcat(a, b);
    FitsConcat(m, path, CallsOf(a), CallsOf(b));
  }

  /** A nested flow: its own renaming, under the guards of the place where it is included. */
  lemma {:induction false} NestedWalks(name: string, body: Code, path: string, inherited: seq<string>, local: seq<string>, m: map<string, string>)
    requires Plain(body)
    ensures WalksTo([Sub(name, Complete(Lower(body, [], 0)), local)], path, m, inherited,
                    Compile(body, Scope(Join(path, name), inherited + RenamedAll(m, local), []), 0).0)
    decreases Weight(body), 5
  {
    var child := Sub(name, Complete(Lower(body, [], 0)), local);
    var inner := inherited + RenamedAll(m, local);
    assert [child][1..] == [] && CallsOf([child]) == [];
    TraverseCompiles(body, Join(path, name), inner);
  }

  /** Traversing a flow recorded from structured code gives the compiled calls. */
  lemma {:induction false} TraverseCompiles(code: Code, path: string, inherited: seq<string>)
    requires Plain(code)
    ensures forall acc ::
              var (after, problem) := Traverse(Complete(Lower(code, [], 0)), path, inherited, acc);
              problem.None? ==> after.calls == acc.calls + Compile(code, Scope(path, inherited, []), 0).0
    decreases Weight(code), 4
  {
    var flow := Complete(Lower(code, [], 0));
    var calls := CallsOf(flow.children);
    LoweredNumbered(code, [], 0);
    RenamesFlow(calls, path);
    FlowTable(calls, path);
    var m := Simultaneous(calls, path).1;
    LoweredWalks(code, path, inherited, [], 0, m);
    assert RenamedAll(m, []) == [];
  }

  lemma {:induction false} LoweredBlockWalks(code: Code, path: string, inherited: seq<string>, local: seq<string>, n: nat, m: map<string, string>)
    requires code.If?
    requires Plain(code) && Table(m) && Known(m, local) && Fits(m, path, CallsOf(Lower(code, local, n).children))
    ensures
      var (calls, n') := Compile(code, Scope(path, inherited, RenamedAll(m, local)), n);
      WalksTo(Lower(code, local, n).children, path, m, inherited, calls) && n' == Lower(code, local, n).counter
    decreases Weight(code), 2
  {
    var sc := Scope(path, inherited, RenamedAll(m, local));
    var raw, field := RawField(IfBranch, n + 1), FinalField(path, IfBranch, n + 1);
    var branch := Branch(IfBranch, Some(code.cond), raw, n + 1);
    var first := LowerBranch(IfBranch, Some(code.cond), code.body, [], local, n);
    var others := LowerBranches(code.more, [branch], local, first.counter);
    var rest := Lower(code.next, local, others.counter);
    FitsThen(m, path, first.children + others.children, rest.children);
    FitsThen(m, path, first.children, others.children);
    LoweredBranchWalks(IfBranch, Some(code.cond), code.body, [], path, inherited, local, n, m);
    assert FieldsOf([branch]) == [raw] && RenamedAll(m, [raw]) == [field] && RenamedAll(m, []) == [];
    LoweredBranchesWalk(code.more, [branch], path, inherited, local, first.counter, m);
    LoweredWalks(code.next, path, inherited, local, others.counter, m);
    var a := BranchCalls(sc, IfBranch, n, [], Some(code.cond), code.body);
    var b := CompileBranches(code.more, sc, [field], first.counter).0;
    WalksConcat(first.children, a, others.children, b, path, m, inherited);
    WalksConcat(first.children + others.children, a + b, rest.children, Compile(code.next, sc, others.counter).0, path, m, inherited);
  }

  lemma {:induction false} LoweredBranchWalks(kind: BranchKind, cond: Option<Condition>, body: Code, priors: seq<string>, path: string,
                                              inherited: seq<string>, local: seq<string>, n: nat, m: map<string, string>)
    requires Plain(body) && (cond.Some? ==> PlainCondition(cond.value)) && Table(m) && Known(m, local) && Known(m, priors)
    requires Fits(m, path, CallsOf(LowerBranch(kind, cond, body, priors, local, n).children))
    ensures
      var sc, raw, field := Scope(path, inherited, RenamedAll(m, local)), RawField(kind, n + 1), FinalField(path, kind, n + 1);
      var r := LowerBranch(kind, cond, body, priors, local, n);
      && WalksTo(r.children, path, m, inherited, BranchCalls(sc, kind, n, RenamedAll(m, priors), cond, body))
      && r.counter == Compile(body, Within(sc, field), n + 1).1 && Renamed(m, raw) == field && Known(m, [raw])
    decreases Weight(body), 4
  {
    var sc := Scope(path, inherited, RenamedAll(m, local));
    var raw, field := RawField(kind, n + 1), FinalField(path, kind, n + 1);
    var call := RawCall(kind, n + 1, priors, cond, local);
    var inside := Lower(body, local + [raw], n + 1).children;
    FitsThen(m, path, [Op(call)], inside);
    BranchFits(m, path, kind, n + 1, priors, cond, local);
    BranchCallSettles(m, path, inherited, local, kind, n + 1, priors, cond);
    var final := BranchCall(sc, kind, n + 1, RenamedAll(m, priors), cond);
    OneCallWalks(call, path, m, inherited, final);
    RenamedConcat(m, local, [raw]);
    OneRenamed(m, raw, field);
    KnownConcat(m, local, [raw]);
    LoweredWalks(body, path, inherited, local + [raw], n + 1, m);
    WalksConcat([Op(call)], [final], inside, Compile(body, Within(sc, field), n + 1).0, path, m, inherited);
  }

  lemma {:induction false} BranchFits(m: map<string, string>, path: string, kind: BranchKind, n: nat, priors: seq<string>, cond: Option<Condition>,
                   local: seq<string>)
    requires Fits(m, path, CallsOf([Op(RawCall(kind, n, priors, cond, local))]))
    ensures Renamed(m, RawField(kind, n)) == FinalField(path, kind, n) && Known(m, [RawField(kind, n)])
  {
    WithSkipsAdds(ControlCall(CtrlName(kind, n), RawField(kind, n), kind, n, priors, cond), local);
    assert CallsOf([Op(RawCall(kind, n, priors, cond, local))])[0] == RawCall(kind, n, priors, cond, local);
  }

  lemma {:induction false} LoweredBranchesWalk(branches: Branches, before: seq<Branch>, path: string, inherited: seq<string>,
                                               local: seq<string>, n: nat, m: map<string, string>)
    requires PlainBranches(branches) && Table(m) && Known(m, local) && Known(m, FieldsOf(before))
    requires Fits(m, path, CallsOf(LowerBranches(branches, before, local, n).children))
    ensures
      var (calls, n') := CompileBranches(branches, Scope(path, inherited, RenamedAll(m, local)), RenamedAll(m, FieldsOf(before)), n);
      var r := LowerBranches(branches, before, local, n);
      WalksTo(r.children, path, m, inherited, calls) && n' == r.counter
    decreases WeightOf(branches), 5
  {
    var sc, priors := Scope(path, inherited, RenamedAll(m, local)), RenamedAll(m, FieldsOf(before));
    match branches
    case EndIf =>
      assert forall acc: Flat :: acc.calls + [] == acc.calls;
    case ElseIf(cond, body, more) =>
      var raw, field := RawField(ElseIfBranch, n + 1), FinalField(path, ElseIfBranch, n + 1);
      var before' := before + [Branch(ElseIfBranch, Some(cond), raw, n + 1)];
      var first := LowerBranch(ElseIfBranch, Some(cond), body, FieldsOf(before), local, n);
      var others := LowerBranches(more, before', local, first.counter);
      FitsThen(m, path, first.children, others.children);
      LoweredBranchWalks(ElseIfBranch, Some(cond), body, FieldsOf(before), path, inherited, local, n, m);
      assert FieldsOf(before') == FieldsOf(before) + [raw] && RenamedAll(m, FieldsOf(before')) == priors + [field];
      LoweredBranchesWalk(more, before', path, inherited, local, first.counter, m);
      WalksConcat(first.children, BranchCalls(sc, ElseIfBranch, n, priors, Some(cond), body), others.children,
                  CompileBranches(more, sc, priors + [field], first.counter).0, path, m, inherited);
    case Else(body) => LoweredBranchWalks(ElseBranch, None, body, FieldsOf(before), path, inherited, local, n, m);
  }
}
