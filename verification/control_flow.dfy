/** Structured pipelines, their compilation to a flat list of guarded calls, and why the two mean the same. */
module ControlFlow {
  import opened Options
  import opened Accesses
  import opened Frames
  import opened Operators
  import opened Commute
  import opened Calls

  /** A declared pipeline fragment; `Include` nests a sub-flow. */
  datatype Code =
    | Done
    | Do(call: OpCall, next: Code)
    | If(cond: Condition, body: Code, more: Branches, next: Code)
    | Include(name: string, body: Code, next: Code)

  datatype Branches = EndIf | ElseIf(cond: Condition, body: Code, more: Branches) | Else(body: Code)

  // ----- structured meaning -----

  function Fail(o: Outcome): Outcome {
    Outcome(None, o.ran)
  }

  /** What a fragment is meant to do: of a block, the first branch whose condition holds, and no condition after it. */
  function Perform(code: Code, o: Outcome): Outcome {
    match code
    case Done => o
    case Do(call, next) => Perform(next, ExecOne(call, o))
    case If(cond, body, more, next) =>
      Perform(next, if o.frame.None? then o else
                      match Judge(cond, o.frame.value.common)
                      case None => Fail(o)
                      case Some(holds) => if holds then Perform(body, o) else PerformBranches(more, o))
    case Include(_, body, next) => Perform(next, Perform(body, o))
  }

  function PerformBranches(branches: Branches, o: Outcome): Outcome {
    match branches
    case EndIf => o
    case ElseIf(cond, body, more) =>
      if o.frame.None? then o else
        (match Judge(cond, o.frame.value.common)
         case None => Fail(o)
         case Some(holds) => if holds then Perform(body, o) else PerformBranches(more, o))
    case Else(body) => Perform(body, o)
  }

  // ----- the meaning that is compiled -----

  predicate Knows(o: Outcome, cond: Condition) {
    o.frame.Some? ==> Elements(cond.fields) <= o.frame.value.common.Keys
  }

  /** Behind the branch that was taken, every condition still asks for its fields. */
  function Recheck(branches: Branches, o: Outcome): Outcome {
    match branches
    case ElseIf(cond, _, more) => if Knows(o, cond) then Recheck(more, o) else Fail(o)
    case _ => o
  }

  /** Like `Perform`, but a block also fails on fields missing for the conditions behind the branch that is taken. */
  function Enact(code: Code, o: Outcome): Outcome {
    match code
    case Done => o
    case Do(call, next) => Enact(next, ExecOne(call, o))
    case If(cond, body, more, next) =>
      Enact(next, if o.frame.None? then o else
                    match Judge(cond, o.frame.value.common)
                    case None => Fail(o)
                    case Some(holds) => if holds then Recheck(more, Enact(body, o)) else EnactBranches(more, o))
    case Include(_, body, next) => Enact(next, Enact(body, o))
  }

  function EnactBranches(branches: Branches, o: Outcome): Outcome {
    match branches
    case EndIf => o
    case ElseIf(cond, body, more) =>
      if o.frame.None? then o else
        (match Judge(cond, o.frame.value.common)
         case None => Fail(o)
         case Some(holds) => if holds then Recheck(more, Enact(body, o)) else EnactBranches(more, o))
    case Else(body) => Enact(body, o)
  }

  // ----- names -----

  /** Slashes become double colons. */
  function Colons(path: string): string {
    if path == "" then "" else (if path[0] == '/' then "::" else [path[0]]) + Colons(path[1..])
  }

  function Prefix(path: string): string {
    if path == "" then "" else Colons(path) + "::"
  }

  /** The name of a control operator and of its field after the flow path has been put in front. */
  function FinalName(path: string, kind: BranchKind, n: nat): string {
    Prefix(path) + CtrlName(kind, n)
  }

  function FinalField(path: string, kind: BranchKind, n: nat): string {
    if path == "" then RawField(kind, n) else "_" + FinalName(path, kind, n)
  }

  function Join(path: string, name: string): string {
    if path == "" then name else path + "/" + name
  }

  // ----- compilation -----

  /** The guards in force: those of the enclosing flows, and those of this flow's open branches. */
  datatype Scope = Scope(path: string, inherited: seq<string>, local: seq<string>)

  function GuardsOf(sc: Scope): set<string> {
    Elements(sc.local) + Elements(sc.inherited)
  }

  function Within(sc: Scope, field: string): Scope {
    sc.(local := sc.local + [field])
  }

  function Guarded(call: OpCall, sc: Scope): OpCall {
    WithSkips(WithSkips(call.(path := sc.path), sc.local), sc.inherited)
  }

  function BranchCall(sc: Scope, kind: BranchKind, n: nat, priors: seq<string>, cond: Option<Condition>): OpCall {
    Guarded(ControlCall(FinalName(sc.path, kind, n), FinalField(sc.path, kind, n), kind, n, priors, cond), sc)
  }

  /** The flat list of calls, and the branch counter afterwards. */
  function Compile(code: Code, sc: Scope, n: nat): (seq<OpCall>, nat) {
    match code
    case Done => ([], n)
    case Do(call, next) =>
      var (rest, n') := Compile(next, sc, n);
      ([Guarded(call, sc)] + rest, n')
    case If(cond, body, more, next) =>
      var field := FinalField(sc.path, IfBranch, n + 1);
      var (inside, n1) := Compile(body, Within(sc, field), n + 1);
      var (others, n2) := CompileBranches(more, sc, [field], n1);
      var (rest, n3) := Compile(next, sc, n2);
      ([BranchCall(sc, IfBranch, n + 1, [], Some(cond))] + inside + others + rest, n3)
    case Include(name, body, next) =>
      var (rest, n') := Compile(next, sc, n);
      (Compile(body, Scope(Join(sc.path, name), sc.inherited + sc.local, []), 0).0 + rest, n')
  }

  function CompileBranches(branches: Branches, sc: Scope, priors: seq<string>, n: nat): (seq<OpCall>, nat) {
    match branches
    case EndIf => ([], n)
    case ElseIf(cond, body, more) =>
      var field := FinalField(sc.path, ElseIfBranch, n + 1);
      var (inside, n1) := Compile(body, Within(sc, field), n + 1);
      var (others, n2) := CompileBranches(more, sc, priors + [field], n1);
      ([BranchCall(sc, ElseIfBranch, n + 1, priors, Some(cond))] + inside + others, n2)
    case Else(body) =>
      var field := FinalField(sc.path, ElseBranch, n + 1);
      var (inside, n1) := Compile(body, Within(sc, field), n + 1);
      ([BranchCall(sc, ElseBranch, n + 1, priors, None)] + inside, n1)
  }

  // ----- what the calls of a compiled fragment look like -----

  /** The fields that the control calls among `calls` write. */
  function ControlFields(calls: seq<OpCall>): set<string> {
    set i | 0 <= i < |calls| && calls[i].work.Control? :: Written(calls[i].config)
  }

  ghost predicate DistinctFields(calls: seq<OpCall>) {
    forall i, j :: 0 <= i < j < |calls| && calls[i].work.Control? && calls[j].work.Control? ==>
      Written(calls[i].config) != Written(calls[j].config)
  }

  lemma {:induction false} FieldsConcat(a: seq<OpCall>, b: seq<OpCall>)
    ensures ControlFields(a + b) == ControlFields(a) + ControlFields(b)
    ensures DistinctFields(a + b) <==> DistinctFields(a) && DistinctFields(b) && ControlFields(a) !! ControlFields(b)
  {
    var c := a + b;
    forall i | 0 <= i < |b| && b[i].work.Control?
      ensures Written(b[i].config) in ControlFields(c)
    {
      assert c[|a| + i] == b[i];
    }
    forall i | 0 <= i < |a| && a[i].work.Control?
      ensures Written(a[i].config) in ControlFields(c)
    {
      assert c[i] == a[i];
    }
    if DistinctFields(c) {
      forall i, j | 0 <= i < |a| && 0 <= j < |b| && a[i].work.Control? && b[j].work.Control?
        ensures Written(a[i].config) != Written(b[j].config)
      {
        assert c[i] == a[i] && c[|a| + j] == b[j];
      }
      forall i, j | 0 <= i < j < |b| && b[i].work.Control? && b[j].work.Control?
        ensures Written(b[i].config) != Written(b[j].config)
      {
        assert c[|a| + i] == b[i] && c[|a| + j] == b[j];
      }
      assert DistinctFields(a) by {
        assert forall i :: 0 <= i < |a| ==> c[i] == a[i];
      }
    }
  }

  /** `call'` is `call` with the guards of `sc` attached and nothing else changed. */
  lemma {:induction false} GuardedAdds(call: OpCall, sc: Scope)
    ensures
      var c, c' := call.config, Guarded(call, sc).config;
      && Elements(c'.skip) == Elements(c.skip) + GuardsOf(sc)
      && Elements(c'.metadata.commonInputSkip) <= Elements(c.metadata.commonInputSkip) + GuardsOf(sc)
      && GuardsOf(sc) <= CommonReads(c'.metadata)
      && c' == c.(skip := c'.skip, metadata := c.metadata.(commonInputSkip := c'.metadata.commonInputSkip))
      && Guarded(call, sc) == OpCall(c', call.work, sc.path)
  {
    WithSkipsAdds(call.(path := sc.path), sc.local);
    WithSkipsAdds(WithSkips(call.(path := sc.path), sc.local), sc.inherited);
  }

  ghost predicate CarryAll(calls: seq<OpCall>, guards: set<string>) {
    forall i :: 0 <= i < |calls| ==> guards <= Elements(calls[i].config.skip)
  }

  lemma {:induction false} CarryConcat(a: seq<OpCall>, b: seq<OpCall>, guards: set<string>)
    requires CarryAll(a, guards) && CarryAll(b, guards)
    ensures CarryAll(a + b, guards)
  {
  }

  /** Every call compiled under a scope carries the scope's guards. */
  lemma {:induction false} CompiledCarry(code: Code, sc: Scope, n: nat)
    ensures CarryAll(Compile(code, sc, n).0, GuardsOf(sc))
    decreases code
  {
    match code
    case Done =>
    case Do(call, next) =>
      GuardedAdds(call, sc);
      CompiledCarry(next, sc, n);
    case If(cond, body, more, next) =>
      var field := FinalField(sc.path, IfBranch, n + 1);
      var (inside, n1) := Compile(body, Within(sc, field), n + 1);
      var (others, n2) := CompileBranches(more, sc, [field], n1);
      var ctl := BranchCall(sc, IfBranch, n + 1, [], Some(cond));
      GuardedAdds(ControlCall(FinalName(sc.path, IfBranch, n + 1), field, IfBranch, n + 1, [], Some(cond)), sc);
      CompiledCarry(body, Within(sc, field), n + 1);
      CarryOuter(inside, sc, field);
      CarryConcat([ctl], inside, GuardsOf(sc));
      CompiledBranchesCarry(more, sc, [field], n1);
      CarryConcat([ctl] + inside, others, GuardsOf(sc));
      CompiledCarry(next, sc, n2);
      CarryConcat([ctl] + inside + others, Compile(next, sc, n2).0, GuardsOf(sc));
    case Include(name, body, next) =>
      CompiledCarry(body, Scope(Join(sc.path, name), sc.inherited + sc.local, []), 0);
      CompiledCarry(next, sc, n);
      assert GuardsOf(Scope(Join(sc.path, name), sc.inherited + sc.local, [])) == GuardsOf(sc);
  }

  lemma {:induction false} CarryOuter(calls: seq<OpCall>, sc: Scope, field: string)
    requires CarryAll(calls, GuardsOf(Within(sc, field)))
    ensures CarryAll(calls, GuardsOf(sc)) && CarryAll(calls, {field})
    ensures GuardsOf(Within(sc, field)) == GuardsOf(sc) + {field}
  {
    assert Elements(sc.local + [field]) == Elements(sc.local) + {field};
  }

  lemma {:induction false} CompiledBranchesCarry(branches: Branches, sc: Scope, priors: seq<string>, n: nat)
    ensures CarryAll(CompileBranches(branches, sc, priors, n).0, GuardsOf(sc))
    decreases branches
  {
    match branches
    case EndIf =>
    case ElseIf(cond, body, more) =>
      var field := FinalField(sc.path, ElseIfBranch, n + 1);
      var (inside, n1) := Compile(body, Within(sc, field), n + 1);
      GuardedAdds(ControlCall(FinalName(sc.path, ElseIfBranch, n + 1), field, ElseIfBranch, n + 1, priors, Some(cond)), sc);
      CompiledCarry(body, Within(sc, field), n + 1);
      CarryOuter(inside, sc, field);
      CompiledBranchesCarry(more, sc, priors + [field], n1);
    case Else(body) =>
      var field := FinalField(sc.path, ElseBranch, n + 1);
      GuardedAdds(ControlCall(FinalName(sc.path, ElseBranch, n + 1), field, ElseBranch, n + 1, priors, None), sc);
      CompiledCarry(body, Within(sc, field), n + 1);
      CarryOuter(Compile(body, Within(sc, field), n + 1).0, sc, field);
  }

  // ----- single steps -----

  predicate Quiet(common: Row, guards: set<string>) {
    forall s :: s in guards ==> !(s in common && Truthy(common[s]))
  }

  /** A guarded user operator whose guards are off does what the unguarded one does, and leaves hidden fields alone. */
  lemma {:induction false} GuardedStep(call: OpCall, sc: Scope, hidden: set<string>, f: Frame, g: Frame)
    requires Unguarded(call, hidden) && Alike(hidden, f, g) && GuardsOf(sc) <= hidden && Quiet(f.common, GuardsOf(sc))
    ensures !Skipped(Guarded(call, sc).config, f.common) && !Skipped(call.config, g.common)
    ensures
      var after, plain := Step(OperatorOf(Guarded(call, sc)), f), Step(OperatorOf(call), g);
      && after.None? == plain.None?
      && (after.Some? ==> Alike(hidden, after.value, plain.value) && SameOn(hidden, f, after.value))
  {
    var call' := Guarded(call, sc);
    GuardedAdds(call, sc);
    var c, c' := call.config, call'.config;
    assert Elements(c.skip) == {} && Elements(c.metadata.commonInputSkip) == {};
    assert forall s :: s in c'.skip <==> s in Elements(c'.skip);
    var op, op' := OperatorOf(call), OperatorOf(call');
    assert Shown(c') == Shown(c) && Shown(c) <= CommonReads(c.metadata);
    ShownView(f, CommonReads(c'.metadata), Shown(c));
    ShownView(g, CommonReads(c.metadata), Shown(c));
    SameRestriction(f, g, hidden, Shown(c));
    if LogOf(op, g).Some? {
      SameCommit(op, op', f, g, LogOf(op, g).value, hidden);
    }
  }

  /** Two operators that write the same fields under the same name commit an output alike. */
  lemma {:induction false} SameCommit(op: Operator, op': Operator, f: Frame, g: Frame, out: Output, hidden: set<string>)
    requires op.opType == op'.opType && op.config.name == op'.config.name && op.config.mutatesRowSet == op'.config.mutatesRowSet
    requires op.config.metadata.(commonInputSkip := []) == op'.config.metadata.(commonInputSkip := [])
    requires Alike(hidden, f, g) && Elements(op.config.metadata.commonOutput) !! hidden
    ensures
      var after, plain := Commit(op', f, out), Commit(op, g, out);
      && after.None? == plain.None?
      && (after.Some? ==> Alike(hidden, after.value, plain.value) && SameOn(hidden, f, after.value))
  {
    assert OutputAllowed(op, out) == OutputAllowed(op', out);
    CommitSplits(op, g, out);
    CommitSplits(op', f, out);
    assert ItemStages(op, g.items, out) == ItemStages(op', f.items, out);
    if OutputAllowed(op, out) {
      CommonDeltaKeys(out.commonWrites, op.config.metadata.commonOutput);
      MergeKeeps(f.common, g.common, CommonDelta(out.commonWrites), hidden);
    }
  }

  lemma {:induction false} ShownView(f: Frame, reads': set<string>, shown: set<string>)
    requires shown <= reads'
    ensures Restrict(Restrict(f.common, reads'), shown) == Restrict(f.common, shown)
  {
  }

  lemma {:induction false} MergeKeeps(a: Row, b: Row, d: Row, hidden: set<string>)
    requires a - hidden == b - hidden && d.Keys !! hidden
    ensures (a + d) - hidden == (b + d) - hidden
    ensures forall k :: k in hidden ==> (k in a + d <==> k in a) && (k in a ==> (a + d)[k] == a[k])
  {
    forall k
      ensures k in (a + d) - hidden <==> k in (b + d) - hidden
      ensures k in (a + d) - hidden ==> ((a + d) - hidden)[k] == ((b + d) - hidden)[k]
    {
      assert k in a - hidden <==> k in b - hidden;
      assert k in a - hidden ==> (a - hidden)[k] == (b - hidden)[k];
    }
  }

  /** What a control operator decides; None when it raises. */
  function Decision(priors: seq<string>, cond: Option<Condition>, common: Row): Option<bool> {
    if cond.Some? && !(Elements(cond.value.fields) <= common.Keys) then None else Verdict(priors, cond, common)
  }

  /** A control operator whose guards are off fails when a field of its condition is missing, though an earlier branch was
      taken; otherwise it records in its field whether its branch is passed over. */
  lemma {:induction false} ControlStep(sc: Scope, kind: BranchKind, n: nat, priors: seq<string>, cond: Option<Condition>, f: Frame)
    requires Quiet(f.common, GuardsOf(sc)) && Elements(priors) <= f.common.Keys
    requires cond.Some? ==> Elements(cond.value.fields) !! GuardsOf(sc)
    ensures
      var call, decision := BranchCall(sc, kind, n, priors, cond), Decision(priors, cond, f.common);
      && call.work == Control(kind, n, priors, cond) && Written(call.config) == FinalField(sc.path, kind, n)
      && !Skipped(call.config, f.common)
      && Step(OperatorOf(call), f)
         == if decision.None? then None
            else Some(f.(common := f.common[FinalField(sc.path, kind, n) := Bool(!decision.value)]))
  {
    var plain := ControlCall(FinalName(sc.path, kind, n), FinalField(sc.path, kind, n), kind, n, priors, cond);
    var call := BranchCall(sc, kind, n, priors, cond);
    GuardedAdds(plain, sc);
    var op, seen := OperatorOf(call), CommonReads(call.config.metadata);
    assert forall s :: s in call.config.skip <==> s in Elements(call.config.skip);
    assert Elements(plain.config.skip) == {} && Elements(plain.config.metadata.commonInputSkip) == {};
    var asked := if cond.Some? then cond.value.fields else [];
    assert Elements(priors + asked) == Elements(priors) + Elements(asked);
    assert Elements(asked) <= Shown(call.config) <= Elements(priors) + Elements(asked);
    assert Shown(call.config) <= Restrict(f.common, seen).Keys <==> Elements(asked) <= f.common.Keys;
    VerdictInView(f.common, seen, priors, cond);
    if Decision(priors, cond, f.common).Some? {
      OneWrite(op, f, FinalField(sc.path, kind, n), !Decision(priors, cond, f.common).value);
    }
  }

  lemma {:induction false} OneWrite(op: Operator, f: Frame, field: string, b: bool)
    requires op.opType == Transform && field in op.config.metadata.commonOutput
    ensures Commit(op, f, NOTHING.(commonWrites := [(field, Bool(b))])) == Some(f.(common := f.common[field := Bool(b)]))
  {
    var out := NOTHING.(commonWrites := [(field, Bool(b))]);
    assert out.commonWrites[1..] == [];
    CommitSplits(op, f, out);
    NothingRemoved(f.items);
    assert ItemStages(op, f.items, out) == (f.items, None);
    assert f.common + CommonDelta(out.commonWrites) == f.common[field := Bool(b)];
  }

  lemma {:induction false} VerdictInView(common: Row, fields: set<string>, priors: seq<string>, cond: Option<Condition>)
    requires Elements(priors) + (if cond.Some? then Elements(cond.value.fields) else {}) <= fields
    ensures Verdict(priors, cond, Restrict(common, fields)) == Verdict(priors, cond, common)
  {
    assert forall s :: s in priors ==> s in Elements(priors);
    if cond.Some? {
      assert Restrict(Restrict(common, fields), Elements(cond.value.fields)) == Restrict(common, Elements(cond.value.fields));
      assert Elements(cond.value.fields) <= Restrict(common, fields).Keys <==> Elements(cond.value.fields) <= common.Keys;
    }
  }

  // ----- the main result -----

  /** User operators and conditions have no business with the hidden fields. */
  ghost predicate Clean(code: Code, hidden: set<string>) {
    match code
    case Done => true
    case Do(call, next) => Unguarded(call, hidden) && Clean(next, hidden)
    case If(cond, body, more, next) =>
      Elements(cond.fields) !! hidden && Clean(body, hidden) && CleanBranches(more, hidden) && Clean(next, hidden)
    case Include(_, body, next) => Clean(body, hidden) && Clean(next, hidden)
  }

  ghost predicate CleanBranches(branches: Branches, hidden: set<string>) {
    match branches
    case EndIf => true
    case ElseIf(cond, body, more) =>
      Elements(cond.fields) !! hidden && Clean(body, hidden) && CleanBranches(more, hidden)
    case Else(body) => Clean(body, hidden)
  }

  /** The control fields of `calls` are distinct, hidden, and none of them is a guard already in force. */
  ghost predicate Fresh(calls: seq<OpCall>, guards: set<string>, hidden: set<string>) {
    DistinctFields(calls) && ControlFields(calls) <= hidden && ControlFields(calls) !! guards && guards <= hidden
  }

  ghost predicate QuietOutcome(o: Outcome, guards: set<string>) {
    o.frame.Some? ==> Quiet(o.frame.value.common, guards)
  }

  /** Unless it failed, the outcome `b` has the hidden fields of `a`, except those in `changed`. */
  ghost predicate Preserves(hidden: set<string>, changed: set<string>, a: Outcome, b: Outcome) {
    a.frame.Some? && b.frame.Some? ==> SameOn(hidden - changed, a.frame.value, b.frame.value)
  }

  lemma {:induction false} FreshConcat(a: seq<OpCall>, b: seq<OpCall>, guards: set<string>, hidden: set<string>)
    requires Fresh(a + b, guards, hidden)
    ensures Fresh(a, guards, hidden) && Fresh(b, guards, hidden) && ControlFields(a) !! ControlFields(b)
    ensures ControlFields(a + b) == ControlFields(a) + ControlFields(b)
  {
    FieldsConcat(a, b);
  }

  lemma {:induction false} StaysQuiet(guards: set<string>, hidden: set<string>, changed: set<string>, a: Outcome, b: Outcome)
    requires a.frame.Some? && QuietOutcome(a, guards) && Preserves(hidden, changed, a, b) && guards <= hidden && guards !! changed
    ensures QuietOutcome(b, guards)
  {
    if b.frame.Some? {
      assert forall s :: s in guards ==> s in hidden - changed;
    }
  }

  lemma {:induction false} PreservesBoth(hidden: set<string>, c: set<string>, d: set<string>, o: Outcome, o1: Outcome, o2: Outcome)
    requires Preserves(hidden, c, o, o1) && Preserves(hidden, d, o1, o2) && (o1.frame.None? ==> o2.frame.None?)
    ensures Preserves(hidden, c + d, o, o2)
  {
    if o2.frame.Some? {
      assert forall k :: k in hidden - (c + d) ==> k in hidden - c && k in hidden - d;
    }
  }

  lemma {:induction false} GuardedRuns(call: OpCall, sc: Scope, hidden: set<string>, o: Outcome, p: Outcome)
    requires Unguarded(call, hidden) && AlikeOutcome(hidden, o, p) && o.frame.Some?
    requires GuardsOf(sc) <= hidden && QuietOutcome(o, GuardsOf(sc))
    ensures var o1 := ExecOne(Guarded(call, sc), o);
            AlikeOutcome(hidden, o1, ExecOne(call, p)) && Preserves(hidden, {}, o, o1)
  {
    GuardedAdds(call, sc);
    GuardedStep(call, sc, hidden, o.frame.value, p.frame.value);
    assert hidden - {} == hidden;
  }

  lemma {:induction false} OneField(call: OpCall)
    ensures ControlFields([call]) == if call.work.Control? then {Written(call.config)} else {}
  {
    assert [call][0] == call;
  }

  /** The effects of two stretches of calls, put together. */
  lemma {:induction false} Composes(first: seq<OpCall>, rest: seq<OpCall>, hidden: set<string>, o: Outcome)
    requires Preserves(hidden, ControlFields(first), o, Exec(first, o))
    requires Preserves(hidden, ControlFields(rest), Exec(first, o), Exec(rest, Exec(first, o)))
    ensures Exec(first + rest, o) == Exec(rest, Exec(first, o))
    ensures Preserves(hidden, ControlFields(first + rest), o, Exec(first + rest, o))
  {
    var o1 := Exec(first, o);
    ExecConcat(first, rest, o);
    FieldsConcat(first, rest);
    if o1.frame.None? {
      NothingAfterFailure(rest, o1);
    }
    PreservesBoth(hidden, ControlFields(first), ControlFields(rest), o, o1, Exec(rest, o1));
  }

  /** The outcome `o` once a control operator has decided. */
  ghost predicate Decided(hidden: set<string>, field: string, decision: Option<bool>, o: Outcome, o1: Outcome, p: Outcome) {
    if decision.None? then o1 == Fail(o) else
      && o1.frame.Some? && AlikeOutcome(hidden, o1, p)
      && field in o1.frame.value.common && o1.frame.value.common[field] == Bool(!decision.value)
  }

  lemma {:induction false} ControlRuns(sc: Scope, kind: BranchKind, n: nat, priors: seq<string>, cond: Option<Condition>, hidden: set<string>,
                    o: Outcome, p: Outcome)
    requires o.frame.Some? && AlikeOutcome(hidden, o, p) && QuietOutcome(o, GuardsOf(sc)) && FinalField(sc.path, kind, n) in hidden
    requires Elements(priors) <= o.frame.value.common.Keys
    requires cond.Some? ==> Elements(cond.value.fields) !! GuardsOf(sc)
    ensures
      var ctl, field := BranchCall(sc, kind, n, priors, cond), FinalField(sc.path, kind, n);
      var o1 := ExecOne(ctl, o);
      && Decided(hidden, field, Decision(priors, cond, o.frame.value.common), o, o1, p)
      && Preserves(hidden, {field}, o, o1) && ControlFields([ctl]) == {field}
  {
    var f, decision := o.frame.value, Decision(priors, cond, o.frame.value.common);
    ControlStep(sc, kind, n, priors, cond, f);
    OneField(BranchCall(sc, kind, n, priors, cond));
    if decision.Some? {
      HiddenWrite(f, p.frame.value, hidden, FinalField(sc.path, kind, n), Bool(!decision.value));
    }
  }

  lemma {:induction false} HiddenWrite(f: Frame, g: Frame, hidden: set<string>, field: string, v: Value)
    requires Alike(hidden, f, g) && field in hidden
    ensures var f1 := f.(common := f.common[field := v]); Alike(hidden, f1, g) && SameOn(hidden - {field}, f, f1)
  {
    assert f.common[field := v] - hidden == f.common - hidden;
  }

  lemma {:induction false} EnactNothing(code: Code, p: Outcome)
    requires p.frame.None?
    ensures Enact(code, p) == p
    decreases code
  {
    match code
    case Done =>
    case Do(call, next) => EnactNothing(next, p);
    case If(cond, body, more, next) => EnactNothing(next, p);
    case Include(_, body, next) =>
      EnactNothing(body, p);
      EnactNothing(next, p);
  }

  lemma {:induction false} RecheckNothing(branches: Branches, p: Outcome)
    requires p.frame.None?
    ensures Recheck(branches, p) == p
    decreases branches
  {
    if branches.ElseIf? { RecheckNothing(branches.more, p); }
  }

  function Weight(code: Code): (w: nat)
    ensures w > 0
  {
    match code
    case Done => 1
    case Do(_, next) => 1 + Weight(next)
    case If(_, body, more, next) => 1 + Weight(body) + WeightOf(more) + Weight(next)
    case Include(_, body, next) => 1 + Weight(body) + Weight(next)
  }

  function WeightOf(branches: Branches): (w: nat)
    ensures w > 0
  {
    match branches
    case EndIf => 1
    case ElseIf(_, body, more) => 1 + Weight(body) + WeightOf(more)
    case Else(body) => 1 + Weight(body)
  }

  /** The compiled calls of a fragment run the operators that enacting the fragment runs, in that order, and end in the
      same frame apart from control fields; of those, only the fragment's own change. */
  lemma {:induction false} CompiledMeansEnacted(code: Code, sc: Scope, n: nat, hidden: set<string>, o: Outcome, p: Outcome)
    requires Clean(code, hidden) && Fresh(Compile(code, sc, n).0, GuardsOf(sc), hidden)
    requires QuietOutcome(o, GuardsOf(sc)) && AlikeOutcome(hidden, o, p)
    ensures AlikeOutcome(hidden, Exec(Compile(code, sc, n).0, o), Enact(code, p))
    ensures Preserves(hidden, ControlFields(Compile(code, sc, n).0), o, Exec(Compile(code, sc, n).0, o))
    decreases Weight(code), 3
  {
    var calls := Compile(code, sc, n).0;
    if o.frame.None? {
      NothingAfterFailure(calls, o);
      EnactNothing(code, p);
      return;
    }
    match code
    case Done =>
    case Do(call, next) =>
      var first, rest := [Guarded(call, sc)], Compile(next, sc, n).0;
      FreshConcat(first, rest, GuardsOf(sc), hidden);
      GuardedRuns(call, sc, hidden, o, p);
      var o1 := ExecOne(Guarded(call, sc), o);
      assert Exec(first, o) == o1;
      GuardedAdds(call, sc);
      OneField(Guarded(call, sc));
      StaysQuiet(GuardsOf(sc), hidden, {}, o, o1);
      CompiledMeansEnacted(next, sc, n, hidden, o1, ExecOne(call, p));
      Composes(first, rest, hidden, o);
    case If(cond, body, more, next) => BlockMeans(code, sc, n, hidden, o, p);
    case Include(name, body, next) =>
      var inner := Scope(Join(sc.path, name), sc.inherited + sc.local, []);
      assert GuardsOf(inner) == GuardsOf(sc);
      var inside, rest := Compile(body, inner, 0).0, Compile(next, sc, n).0;
      FreshConcat(inside, rest, GuardsOf(sc), hidden);
      CompiledMeansEnacted(body, inner, 0, hidden, o, p);
      StaysQuiet(GuardsOf(sc), hidden, ControlFields(inside), o, Exec(inside, o));
      CompiledMeansEnacted(next, sc, n, hidden, Exec(inside, o), Enact(body, p));
      Composes(inside, rest, hidden, o);
  }

  lemma {:induction false} BlockMeans(code: Code, sc: Scope, n: nat, hidden: set<string>, o: Outcome, p: Outcome)
    requires code.If? && Clean(code, hidden) && Fresh(Compile(code, sc, n).0, GuardsOf(sc), hidden)
    requires o.frame.Some? && QuietOutcome(o, GuardsOf(sc)) && AlikeOutcome(hidden, o, p)
    ensures AlikeOutcome(hidden, Exec(Compile(code, sc, n).0, o), Enact(code, p))
    ensures Preserves(hidden, ControlFields(Compile(code, sc, n).0), o, Exec(Compile(code, sc, n).0, o))
    decreases Weight(code), 2
  {
    var (block, n2) := BlockCalls(code, sc, n);
    var rest := Compile(code.next, sc, n2).0;
    FreshConcat(block, rest, GuardsOf(sc), hidden);
    GuardlessFresh(block, GuardsOf(sc), hidden);
    assert [] + [FinalField(sc.path, IfBranch, n + 1)] == [FinalField(sc.path, IfBranch, n + 1)];
    BranchAndOthersMean(sc, IfBranch, n, [], Some(code.cond), code.body, code.more, hidden, o, p);
    var o2 := Exec(block, o);
    StaysQuiet(GuardsOf(sc), hidden, ControlFields(block), o, o2);
    CompiledMeansEnacted(code.next, sc, n2, hidden, o2, EnactBlock(code, p));
    Composes(block, rest, hidden, o);
  }

  /** The calls of the leading block of `code`, without what follows it. */
  function BlockCalls(code: Code, sc: Scope, n: nat): (r: (seq<OpCall>, nat))
    requires code.If?
    ensures Compile(code, sc, n).0 == r.0 + Compile(code.next, sc, r.1).0
  {
    var field := FinalField(sc.path, IfBranch, n + 1);
    var (inside, n1) := Compile(code.body, Within(sc, field), n + 1);
    var (others, n2) := CompileBranches(code.more, sc, [field], n1);
    ([BranchCall(sc, IfBranch, n + 1, [], Some(code.cond))] + inside + others, n2)
  }

  /** A branch that is due, and the branches after it. */
  function EnactFrom(cond: Option<Condition>, body: Code, more: Branches, o: Outcome): Outcome {
    if o.frame.None? then o
    else if cond.None? then Recheck(more, Enact(body, o))
    else
      match Judge(cond.value, o.frame.value.common)
      case None => Fail(o)
      case Some(holds) => if holds then Recheck(more, Enact(body, o)) else EnactBranches(more, o)
  }

  function EnactBlock(code: Code, o: Outcome): (r: Outcome)
    requires code.If?
    ensures Enact(code, o) == Enact(code.next, r)
  {
    EnactFrom(Some(code.cond), code.body, code.more, o)
  }

  /** One branch: `due` unless an earlier one was taken. */
  function EnactBranch(due: bool, cond: Option<Condition>, body: Code, o: Outcome): Outcome {
    if cond.Some? && !Knows(o, cond.value) then Fail(o)
    else if !due || o.frame.None? then o
    else if cond.None? then Enact(body, o)
    else
      match Judge(cond.value, o.frame.value.common)
      case None => Fail(o)
      case Some(holds) => if holds then Enact(body, o) else o
  }

  lemma {:induction false} SameCondition(cond: Condition, hidden: set<string>, f: Frame, g: Frame)
    requires Alike(hidden, f, g) && Elements(cond.fields) !! hidden
    ensures Judge(cond, f.common) == Judge(cond, g.common)
    ensures Elements(cond.fields) <= f.common.Keys <==> Elements(cond.fields) <= g.common.Keys
  {
    SameRestriction(f, g, hidden, Elements(cond.fields));
    assert Elements(cond.fields) <= f.common.Keys <==> Elements(cond.fields) <= Restrict(f.common, Elements(cond.fields)).Keys;
    assert Elements(cond.fields) <= g.common.Keys <==> Elements(cond.fields) <= Restrict(g.common, Elements(cond.fields)).Keys;
  }

  /** The fields of the earlier branches of a block, all of them written. */
  ghost predicate Listed(o: Outcome, priors: seq<string>) {
    o.frame.Some? ==> Elements(priors) <= o.frame.value.common.Keys
  }

  function BranchCalls(sc: Scope, kind: BranchKind, n: nat, priors: seq<string>, cond: Option<Condition>, body: Code): seq<OpCall> {
    [BranchCall(sc, kind, n + 1, priors, cond)] + Compile(body, Within(sc, FinalField(sc.path, kind, n + 1)), n + 1).0
  }

  /** One branch: its control call records whether it is taken, and its body runs exactly in that case. */
  lemma {:induction false} BranchMeans(sc: Scope, kind: BranchKind, n: nat, priors: seq<string>, cond: Option<Condition>, body: Code,
                    hidden: set<string>, o: Outcome, p: Outcome)
    requires Fresh(BranchCalls(sc, kind, n, priors, cond, body), GuardsOf(sc) + Elements(priors), hidden)
    requires Clean(body, hidden) && (cond.Some? ==> Elements(cond.value.fields) !! hidden)
    requires o.frame.Some? && QuietOutcome(o, GuardsOf(sc)) && AlikeOutcome(hidden, o, p) && Listed(o, priors)
    ensures
      var field, calls := FinalField(sc.path, kind, n + 1), BranchCalls(sc, kind, n, priors, cond, body);
      var after, due := Exec(calls, o), AllTruthy(o.frame.value.common, priors);
      && AlikeOutcome(hidden, after, EnactBranch(due, cond, body, p))
      && Preserves(hidden, ControlFields(calls), o, after) && field in ControlFields(calls) && Listed(after, priors + [field])
      && (after.frame.Some? ==> (AllTruthy(after.frame.value.common, priors + [field])
                                 <==> due && !Taken(priors, cond, o.frame.value.common)))
    decreases Weight(body), 5
  {
    var field := FinalField(sc.path, kind, n + 1);
    var ctl := BranchCall(sc, kind, n + 1, priors, cond);
    var inside := Compile(body, Within(sc, field), n + 1).0;
    var f, decision := o.frame.value, Decision(priors, cond, o.frame.value.common);
    FreshConcat([ctl], inside, GuardsOf(sc) + Elements(priors), hidden);
    GuardedAdds(ControlCall(FinalName(sc.path, kind, n + 1), field, kind, n + 1, priors, cond), sc);
    OneField(ctl);
    ControlRuns(sc, kind, n + 1, priors, cond, hidden, o, p);
    var o1 := ExecOne(ctl, o);
    assert Exec([ctl], o) == o1;
    BranchByDecision(priors, cond, body, hidden, f, p);
    BodyMeans(sc, field, n + 1, body, decision, hidden, o, o1, p);
    Composes([ctl], inside, hidden, o);
    if Exec(inside, o1).frame.Some? {
      NextPriors(priors, field, f, Exec(inside, o1).frame.value, hidden - ControlFields([ctl] + inside), decision.value);
    }
  }

  lemma {:induction false} BranchByDecision(priors: seq<string>, cond: Option<Condition>, body: Code, hidden: set<string>, f: Frame, p: Outcome)
    requires p.frame.Some? && Alike(hidden, f, p.frame.value) && (cond.Some? ==> Elements(cond.value.fields) !! hidden)
    ensures var decision := Decision(priors, cond, f.common);
            EnactBranch(AllTruthy(f.common, priors), cond, body, p)
            == if decision.None? then Fail(p) else if decision.value then Enact(body, p) else p
  {
    if cond.Some? { SameCondition(cond.value, hidden, f, p.frame.value); }
  }

  /** What a body does once its control call has decided. */
  lemma {:induction false} BodyMeans(sc: Scope, field: string, n: nat, body: Code, decision: Option<bool>, hidden: set<string>,
                                     o: Outcome, o1: Outcome, p: Outcome)
    requires Clean(body, hidden) && Fresh(Compile(body, Within(sc, field), n).0, GuardsOf(sc) + {field}, hidden)
    requires o.frame.Some? && QuietOutcome(o, GuardsOf(sc)) && Preserves(hidden, {field}, o, o1) && field !in GuardsOf(sc)
    requires AlikeOutcome(hidden, o, p) && Decided(hidden, field, decision, o, o1, p)
    ensures
      var inside := Compile(body, Within(sc, field), n).0;
      var after := Exec(inside, o1);
      && AlikeOutcome(hidden, after, if decision.None? then Fail(p) else if decision.value then Enact(body, p) else p)
      && Preserves(hidden, ControlFields(inside), o1, after)
      && (after.frame.Some? ==> decision.Some? && field in after.frame.value.common
                                && after.frame.value.common[field] == Bool(!decision.value))
    decreases Weight(body), 4
  {
    var inside := Compile(body, Within(sc, field), n).0;
    CompiledCarry(body, Within(sc, field), n);
    CarryOuter(inside, sc, field);
    if decision.None? {
      NothingAfterFailure(inside, o1);
    } else if decision.value {
      StaysQuiet(GuardsOf(sc), hidden, {field}, o, o1);
      CompiledMeansEnacted(body, Within(sc, field), n, hidden, o1, p);
      assert field in hidden - ControlFields(inside);
    } else {
      Dormant(inside, field, o1);
    }
  }

  lemma {:induction false} GuardlessFresh(calls: seq<OpCall>, guards: set<string>, hidden: set<string>)
    requires Fresh(calls, guards, hidden)
    ensures Fresh(calls, guards + Elements([]), hidden)
  {
    assert guards + Elements([]) == guards;
  }

  function BranchAndOthers(sc: Scope, kind: BranchKind, n: nat, priors: seq<string>, cond: Option<Condition>, body: Code, more: Branches)
    : seq<OpCall>
  {
    var field := FinalField(sc.path, kind, n + 1);
    var n1 := Compile(body, Within(sc, field), n + 1).1;
    BranchCalls(sc, kind, n, priors, cond, body) + CompileBranches(more, sc, priors + [field], n1).0
  }

  /** A branch and the ones after it: the first that is due runs, unless an earlier branch was taken. */
  lemma {:induction false} BranchAndOthersMean(sc: Scope, kind: BranchKind, n: nat, priors: seq<string>, cond: Option<Condition>, body: Code,
                                               more: Branches, hidden: set<string>, o: Outcome, p: Outcome)
    requires Clean(body, hidden) && CleanBranches(more, hidden) && (cond.Some? ==> Elements(cond.value.fields) !! hidden)
    requires Fresh(BranchAndOthers(sc, kind, n, priors, cond, body, more), GuardsOf(sc) + Elements(priors), hidden)
    requires o.frame.Some? && QuietOutcome(o, GuardsOf(sc)) && AlikeOutcome(hidden, o, p) && Listed(o, priors)
    ensures
      var calls, due := BranchAndOthers(sc, kind, n, priors, cond, body, more), AllTruthy(o.frame.value.common, priors);
      && AlikeOutcome(hidden, Exec(calls, o),
           if due then EnactFrom(cond, body, more, p) else Recheck(more, EnactBranch(false, cond, body, p)))
      && Preserves(hidden, ControlFields(calls), o, Exec(calls, o))
    decreases Weight(body) + WeightOf(more), 6
  {
    var field := FinalField(sc.path, kind, n + 1);
    var n1 := Compile(body, Within(sc, field), n + 1).1;
    var first := BranchCalls(sc, kind, n, priors, cond, body);
    var others := CompileBranches(more, sc, priors + [field], n1).0;
    var due := AllTruthy(o.frame.value.common, priors);
    OthersFresh(first, others, GuardsOf(sc), priors, hidden);
    BranchMeans(sc, kind, n, priors, cond, body, hidden, o, p);
    OneMorePrior(others, GuardsOf(sc), priors, field, hidden);
    var o1, p1 := Exec(first, o), EnactBranch(due, cond, body, p);
    StaysQuiet(GuardsOf(sc), hidden, ControlFields(first), o, o1);
    BranchesMean(more, sc, priors + [field], n1, hidden, o1, p1);
    if o1.frame.None? {
      NothingAfterFailure(others, o1);
    }
    EnactInTwoSteps(priors, cond, body, more, hidden, o.frame.value, p);
    Composes(first, others, hidden, o);
  }

  lemma {:induction false} OthersFresh(first: seq<OpCall>, others: seq<OpCall>, guards: set<string>, priors: seq<string>, hidden: set<string>)
    requires Fresh(first + others, guards + Elements(priors), hidden)
    ensures Fresh(first, guards + Elements(priors), hidden) && ControlFields(first) !! guards && guards <= hidden
    ensures forall field :: field in ControlFields(first) ==> Fresh(others, guards + Elements(priors) + {field}, hidden)
  {
    FreshConcat(first, others, guards + Elements(priors), hidden);
  }

  lemma {:induction false} OneMorePrior(others: seq<OpCall>, guards: set<string>, priors: seq<string>, field: string, hidden: set<string>)
    requires Fresh(others, guards + Elements(priors) + {field}, hidden)
    ensures Fresh(others, guards + Elements(priors + [field]), hidden)
  {
    assert guards + Elements(priors + [field]) == guards + Elements(priors) + {field};
  }

  /** A branch and the ones behind it, put together from the branch alone. */
  lemma {:induction false} EnactInTwoSteps(priors: seq<string>, cond: Option<Condition>, body: Code, more: Branches, hidden: set<string>,
                                           f: Frame, p: Outcome)
    requires p.frame.Some? && Alike(hidden, f, p.frame.value) && (cond.Some? ==> Elements(cond.value.fields) !! hidden)
    ensures
      var due := AllTruthy(f.common, priors);
      var p1 := EnactBranch(due, cond, body, p);
      (if due then EnactFrom(cond, body, more, p) else Recheck(more, EnactBranch(false, cond, body, p)))
      == if p1.frame.None? then p1
         else if due && !Taken(priors, cond, f.common) then EnactBranches(more, p1) else Recheck(more, p1)
  {
    var p1 := EnactBranch(AllTruthy(f.common, priors), cond, body, p);
    BranchByDecision(priors, cond, body, hidden, f, p);
    if cond.Some? { SameCondition(cond.value, hidden, f, p.frame.value); }
    if p1.frame.None? { RecheckNothing(more, p1); }
  }

  /** The remaining branches of a block: when an earlier branch was taken they only ask for the fields of their conditions. */
  lemma {:induction false} BranchesMean(branches: Branches, sc: Scope, priors: seq<string>, n: nat, hidden: set<string>, o: Outcome, p: Outcome)
    requires CleanBranches(branches, hidden) && Listed(o, priors)
    requires Fresh(CompileBranches(branches, sc, priors, n).0, GuardsOf(sc) + Elements(priors), hidden)
    requires QuietOutcome(o, GuardsOf(sc)) && AlikeOutcome(hidden, o, p)
    ensures
      var after := Exec(CompileBranches(branches, sc, priors, n).0, o);
      && (o.frame.Some? ==>
            AlikeOutcome(hidden, after, if AllTruthy(o.frame.value.common, priors) then EnactBranches(branches, p) else Recheck(branches, p)))
      && Preserves(hidden, ControlFields(CompileBranches(branches, sc, priors, n).0), o, after)
    decreases WeightOf(branches), 7
  {
    if o.frame.Some? {
      match branches
      case EndIf =>
      case ElseIf(cond, body, more) =>
        BranchAndOthersMean(sc, ElseIfBranch, n, priors, Some(cond), body, more, hidden, o, p);
        if !Knows(p, cond) { RecheckNothing(more, Fail(p)); }
      case Else(body) =>
        var calls := CompileBranches(branches, sc, priors, n).0;
        assert BranchAndOthers(sc, ElseBranch, n, priors, None, body, EndIf) == calls;
        BranchAndOthersMean(sc, ElseBranch, n, priors, None, body, EndIf, hidden, o, p);
    }
  }

  lemma {:induction false} NextPriors(priors: seq<string>, field: string, f: Frame, f1: Frame, same: set<string>, taken: bool)
    requires Elements(priors) <= same && SameOn(same, f, f1)
    requires field in f1.common && f1.common[field] == Bool(!taken)
    ensures AllTruthy(f1.common, priors + [field]) <==> AllTruthy(f.common, priors) && !taken
    ensures Elements(priors) <= f.common.Keys ==> Elements(priors + [field]) <= f1.common.Keys
  {
    assert forall s :: s in priors <==> s in Elements(priors);
    assert forall s :: s in priors + [field] <==> s in priors || s == field;
    assert forall s :: s in f.common <==> s in f.common.Keys;
  }
}
