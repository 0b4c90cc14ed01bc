/** Which scripts of recording calls are accepted. */
module Recordings {
  import opened Options
  import opened Accesses
  import opened Calls
  import opened ControlFlow
  import opened Naming
  import opened Flows

  // ----- the numbering of control fields -----

  ghost predicate IsControlField(s: string) {
    exists kind, n: nat :: s == RawField(kind, n)
  }

  /** A user operator that carries no control field yet. */
  ghost predicate Unbranded(call: OpCall) {
    call.work.UserOp? && forall s :: s in call.config.skip ==> !IsControlField(s)
  }

  ghost predicate Plainly(e: Event) {
    e.AddOp? ==> Unbranded(e.call)
  }

  ghost predicate AllPlainly(script: seq<Event>) {
    forall i :: 0 <= i < |script| ==> Plainly(script[i])
  }

  function SkipsOf(child: Child): seq<string> {
    if child.Op? then child.call.config.skip else child.parentSkips
  }

  /** A control field on a child has a number that is in use. */
  ghost predicate Counted(child: Child, counter: nat) {
    forall kind, n: nat :: RawField(kind, n) in SkipsOf(child) ==> n <= counter
  }

  ghost predicate Numbered(branch: Branch, counter: nat) {
    branch.field == RawField(branch.kind, branch.index) && branch.index <= counter
  }

  ghost predicate OpenFor(block: Block, counter: nat) {
    !block.closed && block.branches != [] && forall k :: 0 <= k < |block.branches| ==> Numbered(block.branches[k], counter)
  }

  ghost predicate Tidy(f: Flow) {
    && (forall b :: 0 <= b < |f.stack| ==> OpenFor(f.stack[b], f.counter))
    && (forall i :: 0 <= i < |f.children| ==> Counted(f.children[i], f.counter))
  }

  /** The branch that declarations in a block are made under. */
  function Current(block: Block): Branch
    requires block.branches != []
  {
    block.branches[|block.branches| - 1]
  }

  lemma {:induction false} ActiveIsCurrent(stack: seq<Block>, s: string) returns (b: nat)
    requires s in ActiveSkips(stack)
    ensures b < |stack| && stack[b].branches != [] && s == Current(stack[b]).field
  {
    b := |stack| - 1;
    if stack[b].branches == [] || s != Current(stack[b]).field {
      b := ActiveIsCurrent(stack[..b], s);
    }
  }

  /** What a new child is guarded by, control fields only. */
  lemma {:induction false} NewGuards(call: OpCall, skips: seq<string>, s: string)
    requires forall x :: x in call.config.skip ==> !IsControlField(x)
    requires IsControlField(s) && s in WithSkips(call, skips).config.skip
    ensures s in skips
  {
    WithSkipsAdds(call, skips);
    assert s in Elements(WithSkips(call, skips).config.skip);
  }

  lemma {:induction false} ActiveCounted(stack: seq<Block>, counter: nat, child: Child)
    requires forall b :: 0 <= b < |stack| ==> OpenFor(stack[b], counter)
    requires forall kind, n: nat :: RawField(kind, n) in SkipsOf(child) ==> RawField(kind, n) in ActiveSkips(stack)
    ensures Counted(child, counter)
  {
    forall kind, n: nat | RawField(kind, n) in SkipsOf(child)
      ensures n <= counter
    {
      var b := ActiveIsCurrent(stack, RawField(kind, n));
      assert OpenFor(stack[b], counter);
      assert Numbered(Current(stack[b]), counter);
      RawFieldInjective(kind, n, Current(stack[b]).kind, Current(stack[b]).index);
    }
  }

  /** What one call adds: a child under the active guards, and the number of a branch that it opens. */
  ghost predicate AddsChild(f: Flow, f': Flow, outer: seq<Block>) {
    && |f'.children| == |f.children| + 1 && f'.children[..|f.children|] == f.children
    && forall kind, n: nat :: RawField(kind, n) in SkipsOf(f'.children[|f.children|]) ==> RawField(kind, n) in ActiveSkips(outer)
  }

  lemma {:induction false} CallAdds(f: Flow, call: OpCall, outer: seq<Block>)
    requires forall x :: x in call.config.skip ==> !IsControlField(x)
    ensures AddsChild(f, WithCall(f, WithSkips(call, ActiveSkips(outer))), outer)
  {
    var child := Op(WithSkips(call, ActiveSkips(outer)));
    forall kind, n: nat | RawField(kind, n) in SkipsOf(child)
      ensures RawField(kind, n) in ActiveSkips(outer)
    {
      NewGuards(call, ActiveSkips(outer), RawField(kind, n));
    }
  }

  function OpenedKind(e: Event): Option<(BranchKind, Option<Condition>)> {
    match e
    case OpenIf(cond) => Some((IfBranch, Some(cond)))
    case OpenElseIf(cond) => Some((ElseIfBranch, Some(cond)))
    case OpenElse => Some((ElseBranch, None))
    case _ => None
  }

  lemma {:induction false} StepAdds(f: Flow, e: Event)
    requires Plainly(e) && Record(f, e).1.None? && !e.CloseIf?
    ensures
      var f' := Record(f, e).0;
      if OpenedKind(e).None? then AddsChild(f, f', f.stack) && f'.counter == f.counter && f'.stack == f.stack
      else
        var (kind, cond) := OpenedKind(e).value;
        && (kind != IfBranch ==> f.stack != [])
        && AddsChild(f, f', OuterStack(f, kind)) && f'.counter == f.counter + 1
        && f'.stack == OuterStack(f, kind) + [WithBranch(OpenBlock(f, kind), NewBranch(f, kind, cond))]
  {
    if OpenedKind(e).Some? {
      var (kind, cond) := OpenedKind(e).value;
      OpeningAdds(f, kind, cond);
    } else if e.AddOp? {
      CallAdds(f, e.call, f.stack);
    } else {
      assert Record(f, e).0.children[..|f.children|] == f.children;
    }
  }

  lemma {:induction false} OpeningAdds(f: Flow, kind: BranchKind, cond: Option<Condition>)
    requires kind != IfBranch ==> f.stack != []
    ensures
      var f' := Opened(f, kind, cond);
      && AddsChild(f, f', OuterStack(f, kind)) && f'.counter == f.counter + 1
      && f'.stack == OuterStack(f, kind) + [WithBranch(OpenBlock(f, kind), NewBranch(f, kind, cond))]
  {
    var block := OpenBlock(f, kind);
    var n := f.counter + 1;
    CallAdds(f, ControlCall(CtrlName(kind, n), RawField(kind, n), kind, n, FieldsOf(block.branches), cond), OuterStack(f, kind));
  }

  lemma {:induction false} ChildrenStayTidy(f: Flow, f': Flow, outer: seq<Block>)
    requires AddsChild(f, f', outer) && f.counter <= f'.counter
    requires forall b :: 0 <= b < |outer| ==> OpenFor(outer[b], f.counter)
    requires forall i :: 0 <= i < |f.children| ==> Counted(f.children[i], f.counter)
    ensures forall i :: 0 <= i < |f'.children| ==> Counted(f'.children[i], f'.counter)
  {
    ActiveCounted(outer, f.counter, f'.children[|f.children|]);
    forall i | 0 <= i < |f'.children|
      ensures Counted(f'.children[i], f'.counter)
    {
      if i < |f.children| { assert f'.children[i] == f'.children[..|f.children|][i]; }
      assert Counted(f'.children[i], f.counter);
    }
  }

  lemma {:induction false} OpenLater(block: Block, counter: nat, later: nat)
    requires OpenFor(block, counter) && counter <= later
    ensures OpenFor(block, later)
  {
    assert forall k :: 0 <= k < |block.branches| ==> Numbered(block.branches[k], counter);
  }

  lemma {:induction false} StackStaysTidy(f: Flow, kind: BranchKind, cond: Option<Condition>, stack: seq<Block>)
    requires Tidy(f) && (kind != IfBranch ==> f.stack != [])
    requires stack == OuterStack(f, kind) + [WithBranch(OpenBlock(f, kind), NewBranch(f, kind, cond))]
    ensures forall b :: 0 <= b < |stack| ==> OpenFor(stack[b], f.counter + 1)
  {
    forall b | 0 <= b < |stack|
      ensures OpenFor(stack[b], f.counter + 1)
    {
      if b < |f.stack| { OpenLater(f.stack[b], f.counter, f.counter + 1); }
    }
  }

  lemma {:induction false} StaysTidy(f: Flow, e: Event)
    requires Tidy(f) && Plainly(e) && Record(f, e).1.None?
    ensures Tidy(Record(f, e).0)
  {
    var f' := Record(f, e).0;
    if !e.CloseIf? {
      StepAdds(f, e);
      var outer := if OpenedKind(e).None? then f.stack else OuterStack(f, OpenedKind(e).value.0);
      ChildrenStayTidy(f, f', outer);
      if OpenedKind(e).Some? {
        StackStaysTidy(f, OpenedKind(e).value.0, OpenedKind(e).value.1, f'.stack);
      }
    }
  }

  // ----- a branch without anything in it -----

  /** No declaration carries `field`, and none is going to: it is not the current branch of any open block. */
  ghost predicate Silent(f: Flow, branch: Branch) {
    && Numbered(branch, f.counter) && !Occupied(f.children, branch.field)
    && forall b :: 0 <= b < |f.stack| ==> f.stack[b].branches != [] && Current(f.stack[b]).field != branch.field
  }

  lemma {:induction false} UnguardedAfter(f: Flow, f': Flow, outer: seq<Block>, branch: Branch)
    requires AddsChild(f, f', outer) && !Occupied(f.children, branch.field) && branch.field == RawField(branch.kind, branch.index)
    requires branch.field !in ActiveSkips(outer)
    ensures !Occupied(f'.children, branch.field)
  {
    forall i | 0 <= i < |f'.children|
      ensures !Guards(f'.children[i], branch.field)
    {
      if i < |f.children| { assert f'.children[i] == f'.children[..|f.children|][i]; }
    }
  }

  lemma {:induction false} InactiveUnder(stack: seq<Block>, field: string)
    requires forall b :: 0 <= b < |stack| ==> stack[b].branches != [] && Current(stack[b]).field != field
    ensures field !in ActiveSkips(stack)
  {
    if field in ActiveSkips(stack) {
      var b := ActiveIsCurrent(stack, field);
    }
  }

  lemma {:induction false} StaysSilent(f: Flow, e: Event, branch: Branch)
    requires Plainly(e) && Record(f, e).1.None? && Silent(f, branch)
    ensures Silent(Record(f, e).0, branch)
  {
    var f' := Record(f, e).0;
    if !e.CloseIf? {
      StepAdds(f, e);
      var outer := if OpenedKind(e).None? then f.stack else OuterStack(f, OpenedKind(e).value.0);
      InactiveUnder(outer, branch.field);
      UnguardedAfter(f, f', outer, branch);
      if OpenedKind(e).Some? {
        StackStaysSilent(f, OpenedKind(e).value.0, OpenedKind(e).value.1, f'.stack, branch);
      }
    }
  }

  lemma {:induction false} StackStaysSilent(f: Flow, kind: BranchKind, cond: Option<Condition>, stack: seq<Block>, branch: Branch)
    requires Silent(f, branch) && (kind != IfBranch ==> f.stack != [])
    requires stack == OuterStack(f, kind) + [WithBranch(OpenBlock(f, kind), NewBranch(f, kind, cond))]
    ensures forall b :: 0 <= b < |stack| ==> stack[b].branches != [] && Current(stack[b]).field != branch.field
  {
    if RawField(kind, f.counter + 1) == branch.field { RawFieldInjective(kind, f.counter + 1, branch.kind, branch.index); }
  }

  lemma {:induction false} ScriptStaysSilent(f: Flow, script: seq<Event>, branch: Branch)
    requires AllPlainly(script) && RecordAll(f, script).1.None? && Silent(f, branch)
    ensures Silent(RecordAll(f, script).0, branch)
    decreases |script|
  {
    if script != [] {
      StaysSilent(f, script[0], branch);
      ScriptStaysSilent(Record(f, script[0]).0, script[1..], branch);
    }
  }

  lemma {:induction false} ScriptStaysTidy(f: Flow, script: seq<Event>)
    requires AllPlainly(script) && RecordAll(f, script).1.None? && Tidy(f)
    ensures Tidy(RecordAll(f, script).0)
    decreases |script|
  {
    if script != [] {
      StaysTidy(f, script[0]);
      ScriptStaysTidy(Record(f, script[0]).0, script[1..]);
    }
  }

  /** No block around the innermost one is in the branch of `field`. */
  ghost predicate Inactive(stack: seq<Block>, field: string) {
    forall b :: 0 <= b < |stack| - 1 ==> stack[b].branches != [] && Current(stack[b]).field != field
  }

  /** A branch that has just been opened: nothing is in it, and it is inactive as soon as the next one is opened. */
  lemma {:induction false} JustOpened(f: Flow, kind: BranchKind, cond: Option<Condition>)
    requires Tidy(f) && (kind != IfBranch ==> f.stack != [])
    ensures !Occupied(Opened(f, kind, cond).children, RawField(kind, f.counter + 1))
    ensures Opened(f, kind, cond).stack != [] && Inactive(Opened(f, kind, cond).stack, RawField(kind, f.counter + 1))
    ensures Opened(f, kind, cond).counter == f.counter + 1
  {
    var f1, outer := Opened(f, kind, cond), OuterStack(f, kind);
    OpeningAdds(f, kind, cond);
    ChildrenStayTidy(f, f1.(counter := f.counter), outer);
    forall i | 0 <= i < |f1.children|
      ensures !Guards(f1.children[i], RawField(kind, f.counter + 1))
    {
      assert Counted(f1.children[i], f.counter);
    }
    assert |f1.stack| == |outer| + 1;
    forall b | 0 <= b < |outer|
      ensures f1.stack[b].branches != [] && Current(f1.stack[b]).field != RawField(kind, f.counter + 1)
    {
      assert f1.stack[b] == f.stack[b];
      assert OpenFor(f.stack[b], f.counter);
      var current := Current(f.stack[b]);
      assert Numbered(current, f.counter);
      if current.field == RawField(kind, f.counter + 1) { RawFieldInjective(current.kind, current.index, kind, f.counter + 1); }
    }
  }

  lemma {:induction false} SilentAfterNext(f: Flow, branch: Branch, next: BranchKind, cond: Option<Condition>)
    requires f.stack != [] && next != IfBranch && Numbered(branch, f.counter) && !Occupied(f.children, branch.field)
    requires Inactive(f.stack, branch.field)
    ensures Silent(Opened(f, next, cond), branch)
  {
    var outer := OuterStack(f, next);
    OpeningAdds(f, next, cond);
    InactiveUnder(outer, branch.field);
    UnguardedAfter(f, Opened(f, next, cond), outer, branch);
    if RawField(next, f.counter + 1) == branch.field { RawFieldInjective(next, f.counter + 1, branch.kind, branch.index); }
  }

  function BranchEvent(branches: Branches): Event
    requires !branches.EndIf?
  {
    if branches.ElseIf? then OpenElseIf(branches.cond) else OpenElse
  }

  function RestScript(branches: Branches): seq<Event>
    requires !branches.EndIf?
  {
    Script(branches.body) + if branches.ElseIf? then BranchScript(branches.more) else []
  }

  lemma {:induction false} BranchScriptParts(branches: Branches)
    requires !branches.EndIf?
    ensures BranchScript(branches) == [BranchEvent(branches)] + RestScript(branches)
  {
    if branches.Else? { assert Script(branches.body) + [] == Script(branches.body); }
  }

  /** Recording two scripts in a row without an error. */
  lemma {:induction false} Splits(f: Flow, a: seq<Event>, b: seq<Event>)
    requires RecordAll(f, a + b).1.None?
    ensures RecordAll(f, a).1.None? && RecordAll(f, a + b) == RecordAll(RecordAll(f, a).0, b)
    decreases |a|
  {
    if a == [] {
      assert a + b == b;
    } else {
      assert (a + b)[1..] == a[1..] + b && (a + b)[0] == a[0];
      Splits(Record(f, a[0]).0, a[1..], b);
    }
  }

  lemma {:induction false} FirstOf(f: Flow, e: Event, rest: seq<Event>)
    requires RecordAll(f, [e] + rest).1.None? && AllPlainly([e] + rest)
    ensures Record(f, e).1.None? && RecordAll(f, [e] + rest) == RecordAll(Record(f, e).0, rest) && AllPlainly(rest)
  {
    Splits(f, [e], rest);
    RecordOne(f, e);
    assert forall i :: 0 <= i < |rest| ==> rest[i] == ([e] + rest)[i + 1];
  }

  lemma {:induction false} EventOpens(f: Flow, e: Event, kind: BranchKind, cond: Option<Condition>)
    requires Record(f, e).1.None? && OpenedKind(e) == Some((kind, cond))
    ensures (kind != IfBranch ==> f.stack != []) && Record(f, e).0 == Opened(f, kind, cond)
  {
  }

  lemma {:induction false} NextOpens(f: Flow, more: Branches, next: BranchKind, cond: Option<Condition>)
    requires !more.EndIf? && AllPlainly(BranchScript(more)) && RecordAll(f, BranchScript(more)).1.None?
    requires OpenedKind(BranchEvent(more)) == Some((next, cond)) && f.stack != []
    ensures AllPlainly(RestScript(more)) && RecordAll(f, BranchScript(more)) == RecordAll(Opened(f, next, cond), RestScript(more))
  {
    BranchScriptParts(more);
    FirstOf(f, BranchEvent(more), RestScript(more));
    EventOpens(f, BranchEvent(more), next, cond);
  }

  lemma {:induction false} SilentToTheEnd(f1: Flow, branch: Branch, more: Branches, next: BranchKind, cond: Option<Condition>)
    requires !more.EndIf? && AllPlainly(BranchScript(more)) && RecordAll(f1, BranchScript(more)).1.None?
    requires OpenedKind(BranchEvent(more)) == Some((next, cond)) && f1.stack != []
    requires Silent(Opened(f1, next, cond), branch)
    ensures !Occupied(RecordAll(f1, BranchScript(more)).0.children, branch.field)
  {
    NextOpens(f1, more, next, cond);
    ScriptStaysSilent(Opened(f1, next, cond), RestScript(more), branch);
  }

  lemma {:induction false} UnoccupiedRefused(f: Flow, branch: Branch)
    requires f.stack != [] && branch in f.stack[|f.stack| - 1].branches && !Occupied(f.children, branch.field)
    ensures Record(f, CloseIf).1.Some?
  {
    NoneEmpty(f.children, f.stack[|f.stack| - 1].branches);
  }

  lemma {:induction false} StaysEmpty(f: Flow, branch: Branch, more: Branches)
    requires f.stack != [] && Numbered(branch, f.counter) && !Occupied(f.children, branch.field) && Inactive(f.stack, branch.field)
    requires AllPlainly(BranchScript(more)) && RecordAll(f, BranchScript(more)).1.None?
    ensures !Occupied(RecordAll(f, BranchScript(more)).0.children, branch.field)
  {
    if !more.EndIf? {
      var (next, cond) := OpenedKind(BranchEvent(more)).value;
      SilentAfterNext(f, branch, next, cond);
      SilentToTheEnd(f, branch, more, next, cond);
    }
  }

  /** A branch that nothing was declared in is found when its block is closed, whatever other branches record. */
  lemma {:induction false} EmptyIsFound(f: Flow, kind: BranchKind, cond: Option<Condition>, f1: Flow, more: Branches, f': Flow)
    requires Tidy(f) && (kind != IfBranch ==> f.stack != []) && f1 == Opened(f, kind, cond) && AllPlainly(BranchScript(more))
    requires RecordAll(f1, BranchScript(more)) == (f', None)
    requires f1.stack != [] && Continued(f1.stack, f'.stack)
    ensures Record(f', CloseIf).1.Some?
  {
    var branch := NewBranch(f, kind, cond);
    JustOpened(f, kind, cond);
    StaysEmpty(f1, branch, more);
    OpenedLast(f, kind, cond);
    KeepsBranch(f1.stack, f'.stack, branch);
    UnoccupiedRefused(f', branch);
  }

  lemma {:induction false} OpenedLast(f: Flow, kind: BranchKind, cond: Option<Condition>)
    requires kind != IfBranch ==> f.stack != []
    ensures var stack := Opened(f, kind, cond).stack; stack != [] && NewBranch(f, kind, cond) in stack[|stack| - 1].branches
  {
    OpeningAdds(f, kind, cond);
    var block := WithBranch(OpenBlock(f, kind), NewBranch(f, kind, cond));
    assert block.branches[|block.branches| - 1] == NewBranch(f, kind, cond);
  }

  // ----- accepted scripts are declarable -----

  /** No user call of the pipeline carries a control field yet. */
  ghost predicate UnbrandedCode(code: Code) {
    match code
    case Done => true
    case Do(call, next) => Unbranded(call) && UnbrandedCode(next)
    case If(_, body, more, next) => UnbrandedCode(body) && UnbrandedBranches(more) && UnbrandedCode(next)
    case Include(_, body, next) => UnbrandedCode(body) && UnbrandedCode(next)
  }

  ghost predicate UnbrandedBranches(branches: Branches) {
    match branches
    case EndIf => true
    case ElseIf(_, body, more) => UnbrandedCode(body) && UnbrandedBranches(more)
    case Else(body) => UnbrandedCode(body)
  }

  lemma {:induction false} PlainlyConcat(a: seq<Event>, b: seq<Event>)
    requires AllPlainly(a) && AllPlainly(b)
    ensures AllPlainly(a + b)
  {
  }

  lemma {:induction false} ScriptPlainly(code: Code)
    requires UnbrandedCode(code)
    ensures AllPlainly(Script(code))
    decreases code
  {
    match code
    case Done =>
    case Do(call, next) =>
      ScriptPlainly(next);
      PlainlyConcat([AddOp(call)], Script(next));
    case If(cond, body, more, next) =>
      ScriptPlainly(body);
      BranchScriptPlainly(more);
      ScriptPlainly(next);
      PlainlyConcat([OpenIf(cond)], Script(body));
      PlainlyConcat([OpenIf(cond)] + Script(body), BranchScript(more));
      PlainlyConcat([OpenIf(cond)] + Script(body) + BranchScript(more), [CloseIf]);
      PlainlyConcat([OpenIf(cond)] + Script(body) + BranchScript(more) + [CloseIf], Script(next));
    case Include(name, body, next) =>
      ScriptPlainly(next);
      PlainlyConcat([AddSub(name, Script(body))], Script(next));
  }

  lemma {:induction false} BranchScriptPlainly(branches: Branches)
    requires UnbrandedBranches(branches)
    ensures AllPlainly(BranchScript(branches))
    decreases branches
  {
    match branches
    case EndIf =>
    case ElseIf(cond, body, more) =>
      ScriptPlainly(body);
      BranchScriptPlainly(more);
      PlainlyConcat([OpenElseIf(cond)], Script(body));
      PlainlyConcat([OpenElseIf(cond)] + Script(body), BranchScript(more));
    case Else(body) =>
      ScriptPlainly(body);
      PlainlyConcat([OpenElse], Script(body));
  }

  lemma {:induction false} OneTidy(f: Flow, e: Event)
    requires Tidy(f) && Plainly(e) && RecordAll(f, [e]).1.None?
    ensures RecordAll(f, [e]) == Record(f, e) && Tidy(Record(f, e).0)
  {
    RecordOne(f, e);
    StaysTidy(f, e);
  }

  /** Only declarable pipelines are recorded without an error, and open blocks are as before then. */
  lemma {:induction false} AcceptedIsDeclarable(code: Code, f: Flow)
    requires Tidy(f) && UnbrandedCode(code) && RecordAll(f, Script(code)).1.None?
    ensures Declarable(code) && RecordAll(f, Script(code)).0.stack == f.stack
    decreases code, 2
  {
    match code
    case Done =>
    case Do(call, next) =>
      Splits(f, [AddOp(call)], Script(next));
      OneTidy(f, AddOp(call));
      AcceptedIsDeclarable(next, Record(f, AddOp(call)).0);
    case If(cond, body, more, next) => AcceptedBlock(code, f);
    case Include(name, body, next) =>
      var e := AddSub(name, Script(body));
      Splits(f, [e], Script(next));
      OneTidy(f, e);
      AcceptedIsDeclarable(body, EMPTY);
      AcceptedIsDeclarable(next, Record(f, e).0);
  }

  /** A branch and its body. */
  lemma {:induction false} AcceptedBranch(f: Flow, e: Event, kind: BranchKind, cond: Option<Condition>, body: Code)
    requires Tidy(f) && OpenedKind(e) == Some((kind, cond)) && UnbrandedCode(body) && RecordAll(f, [e] + Script(body)).1.None?
    ensures Declarable(body) && (kind != IfBranch ==> f.stack != []) && (cond.Some? ==> !Blank(cond.value.text))
    ensures
      var f' := RecordAll(f, [e] + Script(body)).0;
      && Tidy(f') && (body == Done ==> f' == Opened(f, kind, cond))
      && f'.stack == OuterStack(f, kind) + [WithBranch(OpenBlock(f, kind), NewBranch(f, kind, cond))]
    decreases body, 3
  {
    Splits(f, [e], Script(body));
    OneTidy(f, e);
    var f1 := Record(f, e).0;
    assert f1 == Opened(f, kind, cond);
    OpeningAdds(f, kind, cond);
    AcceptedIsDeclarable(body, f1);
    ScriptPlainly(body);
    ScriptStaysTidy(f1, Script(body));
  }

  lemma {:induction false} AcceptedBlock(code: Code, f: Flow)
    requires code.If? && Tidy(f) && UnbrandedCode(code) && RecordAll(f, Script(code)).1.None?
    ensures Declarable(code) && RecordAll(f, Script(code)).0.stack == f.stack
    decreases code, 1
  {
    var begun := [OpenIf(code.cond)] + Script(code.body) + BranchScript(code.more);
    Splits(f, begun + [CloseIf], Script(code.next));
    Splits(f, begun, [CloseIf]);
    ClosedBlock(code, f);
    var f3 := RecordAll(f, begun).0;
    OneTidy(f3, CloseIf);
    AcceptedIsDeclarable(code.next, Record(f3, CloseIf).0);
  }

  lemma {:induction false} ClosedBlock(code: Code, f: Flow)
    requires code.If? && Tidy(f) && UnbrandedCode(code)
    requires RecordAll(f, [OpenIf(code.cond)] + Script(code.body) + BranchScript(code.more)).1.None?
    ensures
      var f3 := RecordAll(f, [OpenIf(code.cond)] + Script(code.body) + BranchScript(code.more)).0;
      && Tidy(f3) && f3.stack != [] && f3.stack[..|f3.stack| - 1] == f.stack
      && (Record(f3, CloseIf).1.None? ==>
            !Blank(code.cond.text) && code.body != Done && Declarable(code.body) && DeclarableBranches(code.more))
    decreases code, 0
  {
    var If(cond, body, more, _) := code;
    Splits(f, [OpenIf(cond)] + Script(body), BranchScript(more));
    AcceptedBranch(f, OpenIf(cond), IfBranch, Some(cond), body);
    var f2 := RecordAll(f, [OpenIf(cond)] + Script(body)).0;
    AcceptedBranches(more, f2);
    var f3 := RecordAll(f2, BranchScript(more)).0;
    BranchScriptPlainly(more);
    ScriptStaysTidy(f2, BranchScript(more));
    if body == Done {
      EmptyIsFound(f, IfBranch, Some(cond), f2, more, f3);
    }
  }

  /** The innermost block only gains branches. */
  ghost predicate Continued(stack: seq<Block>, stack': seq<Block>) {
    && |stack| == |stack'| > 0 && stack'[..|stack| - 1] == stack[..|stack| - 1]
    && stack[|stack| - 1].branches <= stack'[|stack| - 1].branches
  }

  lemma {:induction false} KeepsBranch(stack: seq<Block>, stack': seq<Block>, branch: Branch)
    requires Continued(stack, stack') && branch in stack[|stack| - 1].branches
    ensures branch in stack'[|stack'| - 1].branches
  {
    var k :| 0 <= k < |stack[|stack| - 1].branches| && stack[|stack| - 1].branches[k] == branch;
    assert stack'[|stack'| - 1].branches[k] == branch;
  }

  lemma {:induction false} ContinuedTwice(a: seq<Block>, b: seq<Block>, c: seq<Block>)
    requires Continued(a, b) && Continued(b, c)
    ensures Continued(a, c)
  {
  }

  lemma {:induction false} AcceptedBranches(branches: Branches, f: Flow)
    requires Tidy(f) && f.stack != [] && UnbrandedBranches(branches) && RecordAll(f, BranchScript(branches)).1.None?
    ensures
      var f' := RecordAll(f, BranchScript(branches)).0;
      Continued(f.stack, f'.stack) && (Record(f', CloseIf).1.None? ==> DeclarableBranches(branches))
    decreases branches, 1
  {
    match branches
    case EndIf =>
    case ElseIf(cond, body, more) =>
      Splits(f, [OpenElseIf(cond)] + Script(body), BranchScript(more));
      AcceptedBranch(f, OpenElseIf(cond), ElseIfBranch, Some(cond), body);
      var f2 := RecordAll(f, [OpenElseIf(cond)] + Script(body)).0;
      AcceptedBranches(more, f2);
      var f3 := RecordAll(f2, BranchScript(more)).0;
      ContinuedTwice(f.stack, f2.stack, f3.stack);
      if body == Done {
        BranchScriptPlainly(more);
        EmptyIsFound(f, ElseIfBranch, Some(cond), f2, more, f3);
      }
    case Else(body) =>
      AcceptedBranch(f, OpenElse, ElseBranch, None, body);
      var f2 := RecordAll(f, [OpenElse] + Script(body)).0;
      if body == Done {
        assert RecordAll(f2, BranchScript(EndIf)) == (f2, None);
        EmptyIsFound(f, ElseBranch, None, f2, EndIf, f2);
      }
  }

  /** Recording a pipeline raises an error exactly when it is not declarable. */
  lemma {:induction false} AcceptedIffDeclarable(code: Code)
    requires UnbrandedCode(code)
    ensures RecordAll(EMPTY, Script(code)).1.None? <==> Declarable(code)
  {
    if Declarable(code) { ScriptRecords(code, EMPTY); }
    if RecordAll(EMPTY, Script(code)).1.None? { AcceptedIsDeclarable(code, EMPTY); }
  }

  // ----- where the declarations of a branch stand -----

  /** The control call that opens `branch`. */
  predicate Marks(child: Child, branch: Branch) {
    child.Op? && child.call.work.Control? && child.call.work.kind == branch.kind && child.call.work.index == branch.index
  }

  ghost predicate MarkedBefore(children: seq<Child>, branch: Branch, i: nat) {
    exists p :: 0 <= p < i && p < |children| && Marks(children[p], branch)
  }

  /** Child `i` comes after the opening of branch `k` and before the opening of any later one. */
  ghost predicate Inside(children: seq<Child>, branches: seq<Branch>, k: nat, i: nat)
    requires k < |branches|
  {
    && MarkedBefore(children, branches[k], i)
    && forall l, q :: k < l < |branches| && 0 <= q < |children| && Marks(children[q], branches[l]) ==> i < q
  }

  /** Each branch of the block is opened somewhere, and its field is carried inside it only. */
  ghost predicate PlacedAt(children: seq<Child>, branches: seq<Branch>, k: nat)
    requires k < |branches|
  {
    && MarkedBefore(children, branches[k], |children|)
    && forall i :: 0 <= i < |children| && Guards(children[i], branches[k].field) ==> Inside(children, branches, k, i)
  }

  ghost predicate Placed(children: seq<Child>, branches: seq<Branch>) {
    forall k :: 0 <= k < |branches| ==> PlacedAt(children, branches, k)
  }

  ghost predicate MarksCounted(children: seq<Child>, counter: nat) {
    forall i, branch :: 0 <= i < |children| && Marks(children[i], branch) ==> branch.index <= counter
  }

  /** Branches are numbered in the order in which they were opened. */
  ghost predicate Rising(stack: seq<Block>) {
    && (forall b, k, l :: 0 <= b < |stack| && 0 <= k < l < |stack[b].branches| ==> stack[b].branches[k].index < stack[b].branches[l].index)
    && (forall b, c, k, l :: 0 <= b < c < |stack| && 0 <= k < |stack[b].branches| && 0 <= l < |stack[c].branches| ==>
          stack[b].branches[k].index < stack[c].branches[l].index)
  }

  /** An if first, then elseifs, and an else only at the end. */
  ghost predicate Shaped(branches: seq<Branch>) {
    && branches != [] && branches[0].kind == IfBranch
    && (forall k :: 1 <= k < |branches| ==> branches[k].kind != IfBranch)
    && (forall k :: 0 <= k < |branches| - 1 ==> branches[k].kind != ElseBranch)
  }

  ghost predicate Traced(f: Flow) {
    && Tidy(f) && Rising(f.stack) && MarksCounted(f.children, f.counter)
    && (forall b :: 0 <= b < |f.stack| ==> Placed(f.children, f.stack[b].branches))
    && (forall b :: 0 <= b < |f.stack| ==> Shaped(f.stack[b].branches))
  }

  /** Only the last branch of a block is active. */
  lemma {:induction false} ActiveIsLast(stack: seq<Block>, counter: nat, b: nat, k: nat)
    requires b < |stack| && k < |stack[b].branches| && Rising(stack)
    requires forall c :: 0 <= c < |stack| ==> OpenFor(stack[c], counter)
    requires stack[b].branches[k].field in ActiveSkips(stack)
    ensures k == |stack[b].branches| - 1
  {
    var branch := stack[b].branches[k];
    var c := ActiveIsCurrent(stack, branch.field);
    var current := Current(stack[c]);
    assert OpenFor(stack[b], counter) && OpenFor(stack[c], counter);
    assert Numbered(branch, counter) && Numbered(current, counter);
    RawFieldInjective(branch.kind, branch.index, current.kind, current.index);
  }

  lemma {:induction false} MarkedLater(children: seq<Child>, child: Child, branch: Branch, i: nat)
    requires MarkedBefore(children, branch, i)
    ensures forall j :: i <= j ==> MarkedBefore(children + [child], branch, j)
  {
    var p :| 0 <= p < i && p < |children| && Marks(children[p], branch);
    assert (children + [child])[p] == children[p];
  }

  /** A child that opens no branch of the block, and carries at most the field of its last one. */
  lemma {:induction false} PlacedAfter(children: seq<Child>, child: Child, branches: seq<Branch>, k: nat)
    requires k < |branches| && PlacedAt(children, branches, k)
    requires forall l :: 0 <= l < |branches| ==> !Marks(child, branches[l])
    requires Guards(child, branches[k].field) ==> k == |branches| - 1
    ensures PlacedAt(children + [child], branches, k)
  {
    var all := children + [child];
    MarkedLater(children, child, branches[k], |children|);
    forall i | 0 <= i < |all| && Guards(all[i], branches[k].field)
      ensures Inside(all, branches, k, i)
    {
      if i < |children| {
        assert Inside(children, branches, k, i);
        MarkedLater(children, child, branches[k], i);
      }
    }
  }

  /** The next branch of a block. */
  lemma {:induction false} PlacedNext(children: seq<Child>, child: Child, branches: seq<Branch>, k: nat, branch: Branch)
    requires k < |branches| && PlacedAt(children, branches, k)
    requires (forall l :: 0 <= l < |branches| ==> !Marks(child, branches[l])) && !Guards(child, branches[k].field)
    requires forall i :: 0 <= i < |children| ==> !Marks(children[i], branch)
    ensures PlacedAt(children + [child], branches + [branch], k)
  {
    var all, more := children + [child], branches + [branch];
    assert more[k] == branches[k];
    MarkedLater(children, child, branches[k], |children|);
    forall i | 0 <= i < |all| && Guards(all[i], more[k].field)
      ensures Inside(all, more, k, i)
    {
      assert Inside(children, branches, k, i);
      MarkedLater(children, child, branches[k], i);
    }
  }

  lemma {:induction false} PlacedFirst(children: seq<Child>, child: Child, branches: seq<Branch>, branch: Branch)
    requires Marks(child, branch) && !Occupied(children + [child], branch.field)
    ensures PlacedAt(children + [child], branches + [branch], |branches|)
  {
    var all, more := children + [child], branches + [branch];
    assert more[|branches|] == branch && all[|children|] == child;
    assert MarkedBefore(all, branch, |all|);
  }

  lemma {:induction false} BlockPlacedAfter(children: seq<Child>, child: Child, block: Block, counter: nat, outer: seq<Block>, b: nat)
    requires b < |outer| && outer[b] == block && Rising(outer) && Placed(children, block.branches)
    requires forall c :: 0 <= c < |outer| ==> OpenFor(outer[c], counter)
    requires forall l :: 0 <= l < |block.branches| ==> !Marks(child, block.branches[l])
    requires forall kind, n: nat :: RawField(kind, n) in SkipsOf(child) ==> RawField(kind, n) in ActiveSkips(outer)
    ensures Placed(children + [child], block.branches)
  {
    assert OpenFor(block, counter);
    forall k | 0 <= k < |block.branches|
      ensures PlacedAt(children + [child], block.branches, k)
    {
      var branch := block.branches[k];
      assert Numbered(branch, counter) && PlacedAt(children, block.branches, k);
      if Guards(child, branch.field) {
        assert RawField(branch.kind, branch.index) in SkipsOf(child);
        ActiveIsLast(outer, counter, b, k);
      }
      PlacedAfter(children, child, block.branches, k);
    }
  }

  lemma {:induction false} TracedChild(f: Flow, f': Flow)
    requires Traced(f) && Tidy(f') && AddsChild(f, f', f.stack) && f'.stack == f.stack && f'.counter == f.counter
    requires var child := f'.children[|f.children|]; child.Op? ==> child.call.work.UserOp?
    ensures Traced(f')
  {
    var child := f'.children[|f.children|];
    assert f'.children == f.children + [child];
    forall b | 0 <= b < |f.stack|
      ensures Placed(f'.children, f.stack[b].branches)
    {
      BlockPlacedAfter(f.children, child, f.stack[b], f.counter, f.stack, b);
    }
  }

  lemma {:induction false} RisingPrefix(stack: seq<Block>, n: nat)
    requires n <= |stack| && Rising(stack)
    ensures Rising(stack[..n])
  {
  }

  lemma {:induction false} RisingMore(outer: seq<Block>, block: Block, branch: Branch, counter: nat)
    requires Rising(outer) && (block.branches != [] ==> Rising(outer + [block]))
    requires forall b :: 0 <= b < |outer| ==> OpenFor(outer[b], counter)
    requires block.branches != [] ==> OpenFor(block, counter)
    requires branch.index == counter + 1
    ensures Rising(outer + [WithBranch(block, branch)])
  {
    var stack, with := outer + [block], outer + [WithBranch(block, branch)];
    forall b, k | 0 <= b < |stack| && 0 <= k < |stack[b].branches|
      ensures stack[b].branches[k].index <= counter
    {
      assert OpenFor(stack[b], counter) && Numbered(stack[b].branches[k], counter);
    }
    forall b, k, l | 0 <= b < |with| && 0 <= k < l < |with[b].branches|
      ensures with[b].branches[k].index < with[b].branches[l].index
    {
      if b < |outer| {
        assert with[b] == outer[b];
      } else {
        assert stack[b] == block && with[b].branches[k] == block.branches[k];
        if l < |block.branches| { assert with[b].branches[l] == stack[b].branches[l]; }
      }
    }
    forall b, c, k, l | 0 <= b < c < |with| && 0 <= k < |with[b].branches| && 0 <= l < |with[c].branches|
      ensures with[b].branches[k].index < with[c].branches[l].index
    {
      assert with[b] == outer[b] == stack[b];
      if c == |outer| {
        if l < |block.branches| { assert with[c].branches[l] == stack[c].branches[l]; }
      } else {
        assert with[c] == outer[c];
      }
    }
  }

  lemma {:induction false} NotOuter(outer: seq<Block>, block: Block, k: nat, counter: nat)
    requires Rising(outer + [block]) && k < |block.branches| && OpenFor(block, counter)
    requires forall b :: 0 <= b < |outer| ==> OpenFor(outer[b], counter)
    ensures block.branches[k].field !in ActiveSkips(outer)
  {
    var branch, stack := block.branches[k], outer + [block];
    assert Numbered(branch, counter) && stack[|outer|] == block;
    forall b | 0 <= b < |outer|
      ensures outer[b].branches != [] && Current(outer[b]).field != branch.field
    {
      assert OpenFor(outer[b], counter) && stack[b] == outer[b];
      var current := Current(outer[b]);
      assert Numbered(current, counter);
      assert stack[b].branches[|outer[b].branches| - 1].index < stack[|outer|].branches[k].index;
      if branch.field == current.field { RawFieldInjective(branch.kind, branch.index, current.kind, current.index); }
    }
    InactiveUnder(outer, branch.field);
  }

  /** The block that gains a branch. */
  lemma {:induction false} OpeningPlaced(children: seq<Child>, child: Child, outer: seq<Block>, block: Block, branch: Branch, counter: nat)
    requires Placed(children, block.branches) && MarksCounted(children, counter) && Marks(child, branch) && branch.index == counter + 1
    requires block.branches != [] ==> Rising(outer + [block]) && OpenFor(block, counter)
    requires forall b :: 0 <= b < |outer| ==> OpenFor(outer[b], counter)
    requires forall kind, n: nat :: RawField(kind, n) in SkipsOf(child) ==> RawField(kind, n) in ActiveSkips(outer)
    requires !Occupied(children + [child], branch.field)
    ensures Placed(children + [child], WithBranch(block, branch).branches)
  {
    forall k | 0 <= k < |block.branches| + 1
      ensures PlacedAt(children + [child], block.branches + [branch], k)
    {
      if k < |block.branches| {
        NotOuter(outer, block, k, counter);
        assert Numbered(block.branches[k], counter);
        assert forall l :: 0 <= l < |block.branches| ==> Numbered(block.branches[l], counter);
        PlacedNext(children, child, block.branches, k, branch);
      } else {
        PlacedFirst(children, child, block.branches, branch);
      }
    }
  }

  lemma {:induction false} OpeningMarks(f: Flow, kind: BranchKind, cond: Option<Condition>)
    requires kind != IfBranch ==> f.stack != []
    ensures var f' := Opened(f, kind, cond);
            && |f'.children| == |f.children| + 1 && f'.children == f.children + [f'.children[|f.children|]]
            && Marks(f'.children[|f.children|], NewBranch(f, kind, cond))
  {
    var n := f.counter + 1;
    WithSkipsAdds(ControlCall(CtrlName(kind, n), RawField(kind, n), kind, n, FieldsOf(OpenBlock(f, kind).branches), cond),
                  ActiveSkips(OuterStack(f, kind)));
  }

  lemma {:induction false} ShapedMore(block: Block, kind: BranchKind, branch: Branch)
    requires branch.kind == kind && (kind == IfBranch <==> block.branches == [])
    requires block.branches != [] ==> Shaped(block.branches) && !HasElse(block)
    ensures Shaped(WithBranch(block, branch).branches)
  {
    assert forall i :: 0 <= i < |block.branches| ==> block.branches[i].kind != ElseBranch;
  }

  lemma {:induction false} OuterPlaced(children: seq<Child>, child: Child, outer: seq<Block>, counter: nat, branch: Branch)
    requires Rising(outer) && Marks(child, branch) && branch.index == counter + 1
    requires forall b :: 0 <= b < |outer| ==> OpenFor(outer[b], counter) && Placed(children, outer[b].branches)
    requires forall kind, n: nat :: RawField(kind, n) in SkipsOf(child) ==> RawField(kind, n) in ActiveSkips(outer)
    ensures forall b :: 0 <= b < |outer| ==> Placed(children + [child], outer[b].branches)
  {
    forall b | 0 <= b < |outer|
      ensures Placed(children + [child], outer[b].branches)
    {
      assert OpenFor(outer[b], counter);
      assert forall l :: 0 <= l < |outer[b].branches| ==> Numbered(outer[b].branches[l], counter);
      BlockPlacedAfter(children, child, outer[b], counter, outer, b);
    }
  }

  lemma {:induction false} MarksCountedMore(children: seq<Child>, child: Child, branch: Branch, counter: nat)
    requires MarksCounted(children, counter) && Marks(child, branch) && branch.index == counter + 1
    ensures MarksCounted(children + [child], counter + 1)
  {
  }

  lemma {:induction false} TracedMore(f: Flow, f': Flow, child: Child, outer: seq<Block>, block: Block, branch: Branch)
    requires Traced(f) && Tidy(f') && f'.children == f.children + [child] && f'.counter == f.counter + 1
    requires f'.stack == outer + [WithBranch(block, branch)] && Marks(child, branch) && branch.index == f.counter + 1
    requires if block.branches == [] then outer == f.stack && branch.kind == IfBranch
             else f.stack == outer + [block] && branch.kind != IfBranch && !HasElse(block)
    requires forall kind, n: nat :: RawField(kind, n) in SkipsOf(child) ==> RawField(kind, n) in ActiveSkips(outer)
    requires !Occupied(f'.children, branch.field)
    ensures Traced(f')
  {
    RisingPrefix(f.stack, |outer|);
    assert outer == f.stack[..|outer|];
    assert forall b :: 0 <= b < |outer| ==> outer[b] == f.stack[b];
    if block.branches != [] {
      assert f.stack[|outer|] == block;
    }
    RisingMore(outer, block, branch, f.counter);
    OuterPlaced(f.children, child, outer, f.counter, branch);
    OpeningPlaced(f.children, child, outer, block, branch, f.counter);
    ShapedMore(block, branch.kind, branch);
    MarksCountedMore(f.children, child, branch, f.counter);
  }

  lemma {:induction false} TracedOpening(f: Flow, kind: BranchKind, cond: Option<Condition>)
    requires Traced(f) && (kind != IfBranch ==> f.stack != [] && !HasElse(f.stack[|f.stack| - 1])) && Tidy(Opened(f, kind, cond))
    ensures Traced(Opened(f, kind, cond))
  {
    var f' := Opened(f, kind, cond);
    OpeningAdds(f, kind, cond);
    OpeningMarks(f, kind, cond);
    JustOpened(f, kind, cond);
    if kind != IfBranch { assert Shaped(f.stack[|f.stack| - 1].branches); }
    TracedMore(f, f', f'.children[|f.children|], OuterStack(f, kind), OpenBlock(f, kind), NewBranch(f, kind, cond));
  }

  lemma {:induction false} TracedClosing(f: Flow)
    requires Traced(f) && f.stack != []
    ensures Traced(Record(f, CloseIf).0)
  {
    RisingPrefix(f.stack, |f.stack| - 1);
  }

  lemma {:induction false} TracedCall(f: Flow, e: Event)
    requires Traced(f) && Plainly(e) && Record(f, e).1.None? && (e.AddOp? || e.AddSub?)
    ensures Traced(Record(f, e).0)
  {
    StaysTidy(f, e);
    StepAdds(f, e);
    if e.AddOp? { WithSkipsAdds(e.call, ActiveSkips(f.stack)); }
    TracedChild(f, Record(f, e).0);
  }

  lemma {:induction false} StaysTraced(f: Flow, e: Event)
    requires Traced(f) && Plainly(e) && Record(f, e).1.None?
    ensures Traced(Record(f, e).0)
  {
    if e.CloseIf? {
      TracedClosing(f);
    } else if OpenedKind(e).Some? {
      StaysTidy(f, e);
      TracedOpening(f, OpenedKind(e).value.0, OpenedKind(e).value.1);
    } else {
      TracedCall(f, e);
    }
  }

  lemma {:induction false} ScriptStaysTraced(f: Flow, script: seq<Event>)
    requires AllPlainly(script) && RecordAll(f, script).1.None? && Traced(f)
    ensures Traced(RecordAll(f, script).0)
    decreases |script|
  {
    if script != [] {
      StaysTraced(f, script[0]);
      ScriptStaysTraced(Record(f, script[0]).0, script[1..]);
    }
  }

  // ----- when a call is accepted -----

  /** Some call or nested flow inside branch `k` carries its field. */
  ghost predicate Filled(children: seq<Child>, branches: seq<Branch>, k: nat)
    requires k < |branches|
  {
    exists i :: 0 <= i < |children| && Inside(children, branches, k, i) && branches[k].field in SkipsOf(children[i])
  }

  lemma {:induction false} FirstEmptyIs(children: seq<Child>, branches: seq<Branch>) returns (k: nat)
    ensures k <= |branches| && forall l :: 0 <= l < k ==> Occupied(children, branches[l].field)
    ensures k < |branches| ==> !Occupied(children, branches[k].field)
    ensures FirstEmpty(children, branches)
         == if k == |branches| then None else Some(EmptyBranch(branches[k].kind, branches[k].field))
  {
    k := 0;
    if branches != [] && Occupied(children, branches[0].field) {
      var rest := FirstEmptyIs(children, branches[1..]);
      k := rest + 1;
      forall l | 0 <= l < k
        ensures Occupied(children, branches[l].field)
      {
        if l > 0 { assert branches[l] == branches[1..][l - 1]; }
      }
    }
  }

  lemma {:induction false} FilledIsOccupied(f: Flow, branches: seq<Branch>, k: nat)
    requires Placed(f.children, branches) && k < |branches|
    ensures Occupied(f.children, branches[k].field) <==> Filled(f.children, branches, k)
  {
    assert PlacedAt(f.children, branches, k);
    if Filled(f.children, branches, k) {
      var i :| 0 <= i < |f.children| && Inside(f.children, branches, k, i) && branches[k].field in SkipsOf(f.children[i]);
      assert Guards(f.children[i], branches[k].field);
    }
  }

  /** The first branch with nothing in it is the one that is reported. */
  lemma {:induction false} EmptyBranchReported(script: seq<Event>, f: Flow) returns (k: nat)
    requires AllPlainly(script) && RecordAll(EMPTY, script) == (f, None) && f.stack != []
    ensures
      var branches := f.stack[|f.stack| - 1].branches;
      && k <= |branches| && (forall l :: 0 <= l < k ==> Filled(f.children, branches, l))
      && (k < |branches| ==> !Filled(f.children, branches, k))
      && Record(f, CloseIf).1 == if k == |branches| then None else Some(EmptyBranch(branches[k].kind, branches[k].field))
  {
    var branches := f.stack[|f.stack| - 1].branches;
    ScriptStaysTraced(EMPTY, script);
    assert Placed(f.children, branches);
    k := FirstEmptyIs(f.children, branches);
    forall l | 0 <= l < |branches|
      ensures Occupied(f.children, branches[l].field) <==> Filled(f.children, branches, l)
    {
      FilledIsOccupied(f, branches, l);
    }
  }

  /** After any script: a block can be closed exactly when one is open and each of its branches has something in it. */
  lemma {:induction false} EndIfAccepted(script: seq<Event>, f: Flow)
    requires AllPlainly(script) && RecordAll(EMPTY, script) == (f, None)
    ensures Record(f, CloseIf).1.None? <==>
              f.stack != [] && var branches := f.stack[|f.stack| - 1].branches;
                               forall k :: 0 <= k < |branches| ==> Filled(f.children, branches, k)
  {
    if f.stack != [] {
      var k := EmptyBranchReported(script, f);
    }
  }

  /** After any script: the next branch can be opened exactly when a block is open whose last branch is no else, and a
      condition, if there is one, is not blank. */
  lemma {:induction false} BranchAccepted(script: seq<Event>, f: Flow, e: Event)
    requires AllPlainly(script) && RecordAll(EMPTY, script) == (f, None) && OpenedKind(e).Some?
    ensures
      var (kind, cond) := OpenedKind(e).value;
      Record(f, e).1.None? <==>
        && (kind != IfBranch ==> f.stack != [] && var branches := f.stack[|f.stack| - 1].branches;
                                             branches != [] && branches[|branches| - 1].kind != ElseBranch)
        && (cond.Some? ==> exists i :: 0 <= i < |cond.value.text| && cond.value.text[i] !in {' ', '\t', '\n', '\r'})
  {
    ScriptStaysTraced(EMPTY, script);
    if f.stack != [] {
      var block := f.stack[|f.stack| - 1];
      assert Shaped(block.branches) && OpenFor(block, f.counter);
      assert HasElse(block) <==> Current(block).kind == ElseBranch;
    }
  }

  /** A nested flow is accepted exactly when its own script is, and its name has no slash and no two colons in a row. */
  lemma {:induction false} NestedAccepted(f: Flow, name: string, script: seq<Event>)
    ensures Record(f, AddSub(name, script)).1.None? <==>
              && RecordAll(EMPTY, script).1.None? && '/' !in name
              && forall i :: 0 <= i < |name| - 1 && name[i] == ':' ==> name[i + 1] != ':'
  {
    assert HasSlash(name) <==> '/' in name;
  }
}
