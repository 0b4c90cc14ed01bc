/** Recorded operator calls: user operators and the control operators of branches. */
module Calls {
  import opened Options
  import opened Accesses
  import opened Frames
  import opened Operators

  /** A branch condition: its text, the fields it refers to, and its value on them; None when its script raises. */
  datatype Condition = Condition(text: string, fields: seq<string>, holds: Row -> Option<bool>)

  datatype BranchKind = IfBranch | ElseIfBranch | ElseBranch

  function Digits(n: nat): string {
    if n < 10 then [('0' as int + n) as char] else Digits(n / 10) + [('0' as int + n % 10) as char]
  }

  function CtrlName(kind: BranchKind, n: nat): string {
    (match kind case IfBranch => "if_" case ElseIfBranch => "elseif_" case ElseBranch => "else_") + Digits(n)
  }

  /** The control field as the flow itself names it. */
  function RawField(kind: BranchKind, n: nat): string {
    (match kind case IfBranch => "_if_" case ElseIfBranch => "_elif_" case ElseBranch => "_else_") + Digits(n)
  }

  /** A user operator's name is explicit or generated. A control call knows its branch: kind, number, fields of the
      earlier branches, condition. */
  datatype Work =
    | UserOp(explicit: bool, opType: OpType, behave: View -> Option<Output>)
    | Control(kind: BranchKind, index: nat, priors: seq<string>, cond: Option<Condition>)

  datatype OpCall = OpCall(config: OperatorConfig, work: Work, path: string)

  const NO_METADATA := Metadata([], [], [], [], [], [])

  function Deduped(fields: seq<string>): (r: seq<string>)
    ensures Elements(r) == Elements(fields)
  {
    if fields == [] then [] else
      var last := fields[|fields| - 1];
      var rest := Deduped(fields[..|fields| - 1]);
      assert Elements(fields) == Elements(fields[..|fields| - 1]) + {last};
      assert Elements(rest + [last]) == Elements(rest) + {last};
      if last in rest then rest else rest + [last]
  }

  /** The fields are listed once each, in the order in which they are mentioned first. */
  lemma {:induction false} DedupedLists(fields: seq<string>)
    ensures Lists(Deduped(fields), fields)
  {
    if fields != [] {
      var before, last := fields[..|fields| - 1], fields[|fields| - 1];
      DedupedLists(before);
      ListsOneMore(Deduped(before), before, last);
      assert before + [last] == fields;
    }
  }

  /** The operator of one branch: it reads the earlier branches' fields and the condition's, and writes its own. */
  function ControlCall(name: string, field: string, kind: BranchKind, n: nat, priors: seq<string>, cond: Option<Condition>): OpCall {
    var fields := Deduped(priors + if cond.Some? then cond.value.fields else []);
    OpCall(OperatorConfig(name, NO_METADATA.(commonInput := fields, commonOutput := [field]), [], false, false, false, []),
           Control(kind, n, priors, cond), "")
  }

  /** The common fields shown to a user operator: skip fields are kept for ordering only. */
  function Shown(c: OperatorConfig): set<string> {
    (Elements(c.metadata.commonInput) + Elements(c.metadata.commonInputTemplate))
    - Elements(c.skip) - Elements(c.metadata.commonInputSkip)
  }

  predicate AllTruthy(common: Row, fields: seq<string>) {
    forall s :: s in fields ==> s in common && Truthy(common[s])
  }

  /** The value of a condition; None as well when one of its fields is missing. */
  function Judge(cond: Condition, common: Row): Option<bool> {
    if Elements(cond.fields) <= common.Keys then cond.holds(Restrict(common, Elements(cond.fields))) else None
  }

  /** Whether a branch is taken: when no earlier one was and its condition holds. */
  function Verdict(priors: seq<string>, cond: Option<Condition>, common: Row): Option<bool> {
    if !AllTruthy(common, priors) then Some(false) else if cond.None? then Some(true) else Judge(cond.value, common)
  }

  predicate Taken(priors: seq<string>, cond: Option<Condition>, common: Row) {
    Verdict(priors, cond, common) == Some(true)
  }

  function Written(c: OperatorConfig): string {
    if c.metadata.commonOutput == [] then "" else c.metadata.commonOutput[0]
  }

  /** The operator the engine runs for a call. */
  function OperatorOf(call: OpCall): Operator {
    match call.work
    case UserOp(_, opType, behave) =>
      Operator(call.config, opType, (v: View) => behave(View(Restrict(v.common, Shown(call.config)), v.items)))
    case Control(_, _, priors, cond) =>
      Operator(call.config, Transform, (v: View) => ControlLog(call.config, priors, cond, v.common))
  }

  /** A control operator raises when a field that it declares is missing, whether or not its condition comes to be evaluated. */
  function ControlLog(c: OperatorConfig, priors: seq<string>, cond: Option<Condition>, common: Row): Option<Output> {
    if !(Shown(c) <= common.Keys) then None else
      match Verdict(priors, cond, common)
      case None => None
      case Some(taken) => Some(NOTHING.(commonWrites := [(Written(c), Bool(!taken))]))
  }

  function OperatorsOf(calls: seq<OpCall>): seq<Operator> {
    seq(|calls|, i requires 0 <= i < |calls| => OperatorOf(calls[i]))
  }

  /** Adds one skip field, as a skip and as an ordering dependency. */
  function WithSkip(call: OpCall, s: string): OpCall {
    var c := call.config;
    var skip := if s in c.skip then c.skip else c.skip + [s];
    var bucket := c.metadata.commonInputSkip;
    var bucket' := if s in c.metadata.commonInput || s in bucket then bucket else bucket + [s];
    call.(config := c.(skip := skip, metadata := c.metadata.(commonInputSkip := bucket')))
  }

  function WithSkips(call: OpCall, fields: seq<string>): OpCall
    decreases |fields|
  {
    if fields == [] then call else WithSkips(WithSkip(call, fields[0]), fields[1..])
  }

  lemma {:induction false} WithSkipsAdds(call: OpCall, fields: seq<string>)
    ensures
      var after := WithSkips(call, fields);
      && Elements(after.config.skip) == Elements(call.config.skip) + Elements(fields)
      && Elements(after.config.metadata.commonInputSkip) <= Elements(call.config.metadata.commonInputSkip) + Elements(fields)
      && Elements(fields) <= CommonReads(after.config.metadata)
      && CommonReads(call.config.metadata) <= CommonReads(after.config.metadata)
      && after == call.(config := call.config.(skip := after.config.skip, metadata :=
                   call.config.metadata.(commonInputSkip := after.config.metadata.commonInputSkip)))
    decreases |fields|
  {
    if fields != [] {
      var one := WithSkip(call, fields[0]);
      assert Elements(one.config.skip) == Elements(call.config.skip) + {fields[0]};
      assert Elements(fields) == {fields[0]} + Elements(fields[1..]);
      WithSkipsAdds(one, fields[1..]);
    }
  }

  // ----- execution -----

  /** A frame, or none after a failure, and the names of the user operators that ran. */
  datatype Outcome = Outcome(frame: Option<Frame>, ran: seq<string>)

  function ExecOne(call: OpCall, o: Outcome): Outcome {
    if o.frame.None? then o else
      Outcome(Step(OperatorOf(call), o.frame.value),
              if call.work.UserOp? && !Skipped(call.config, o.frame.value.common) then o.ran + [call.config.name] else o.ran)
  }

  function Exec(calls: seq<OpCall>, o: Outcome): Outcome
    decreases |calls|
  {
    if calls == [] then o else Exec(calls[1..], ExecOne(calls[0], o))
  }

  lemma {:induction false} ExecConcat(a: seq<OpCall>, b: seq<OpCall>, o: Outcome)
    ensures Exec(a + b, o) == Exec(b, Exec(a, o))
    decreases |a|
  {
    if a == [] {
      assert a + b == b;
    } else {
      assert (a + b)[1..] == a[1..] + b;
      ExecConcat(a[1..], b, ExecOne(a[0], o));
    }
  }

  lemma {:induction false} SkippedStep(op: Operator, f: Frame)
    requires Skipped(op.config, f.common)
    ensures Step(op, f) == Some(f)
  {
    NothingRemoved(f.items);
    assert ApplyToRows(f.items, NOTHING) == (f.items, None);
  }

  /** An operator is passed over exactly when a field of its skip list holds anything but null and false. */
  lemma {:induction false} RunsUnlessSkipped(op: Operator, f: Frame)
    ensures Step(op, f)
         == if exists s :: s in op.config.skip && s in f.common && f.common[s] != Null && f.common[s] != Bool(false) then Some(f)
            else Finish(op, f, op.behave(ViewOf(op, f)))
  {
    if s :| s in op.config.skip && s in f.common && f.common[s] != Null && f.common[s] != Bool(false) {
      SkippedStep(op, f);
    }
  }

  /** Calls that all carry a skip field that holds anything but null and false do nothing. */
  lemma {:induction false} Dormant(calls: seq<OpCall>, s: string, o: Outcome)
    requires o.frame.Some? && s in o.frame.value.common && o.frame.value.common[s] != Null && o.frame.value.common[s] != Bool(false)
    requires forall i :: 0 <= i < |calls| ==> s in calls[i].config.skip
    ensures Exec(calls, o) == o
    decreases |calls|
  {
    if calls != [] {
      var f := o.frame.value;
      assert s in calls[0].config.skip;
      assert Skipped(calls[0].config, f.common);
      SkippedStep(OperatorOf(calls[0]), f);
      Dormant(calls[1..], s, o);
    }
  }

  lemma {:induction false} NothingAfterFailure(calls: seq<OpCall>, o: Outcome)
    requires o.frame.None?
    ensures Exec(calls, o) == o
    decreases |calls|
  {
    if calls != [] {
      NothingAfterFailure(calls[1..], o);
    }
  }

  // ----- equality apart from some common fields -----

  ghost predicate Alike(hidden: set<string>, f: Frame, g: Frame) {
    f.items == g.items && f.warnings == g.warnings && f.common - hidden == g.common - hidden
  }

  ghost predicate AlikeOutcome(hidden: set<string>, o: Outcome, p: Outcome) {
    && o.ran == p.ran && o.frame.None? == p.frame.None?
    && (o.frame.Some? ==> Alike(hidden, o.frame.value, p.frame.value))
  }

  /** `f` and `g` hold the same under every field of `fields`. */
  ghost predicate SameOn(fields: set<string>, f: Frame, g: Frame) {
    forall k :: k in fields ==> (k in f.common <==> k in g.common) && (k in f.common ==> f.common[k] == g.common[k])
  }

  /** A user operator as declared, before any guard is attached, that has no business with `hidden`. */
  ghost predicate Unguarded(call: OpCall, hidden: set<string>) {
    && call.work.UserOp? && call.config.skip == [] && call.config.metadata.commonInputSkip == []
    && CommonReads(call.config.metadata) !! hidden && Elements(call.config.metadata.commonOutput) !! hidden
  }

  lemma {:induction false} SameRestriction(f: Frame, g: Frame, hidden: set<string>, fields: set<string>)
    requires f.common - hidden == g.common - hidden && fields !! hidden
    ensures Restrict(f.common, fields) == Restrict(g.common, fields)
  {
    forall k | k in fields
      ensures k in f.common <==> k in g.common
      ensures k in f.common ==> f.common[k] == g.common[k]
    {
      assert k in f.common <==> k in f.common - hidden;
      assert k in g.common <==> k in g.common - hidden;
    }
  }
}
