/** The chaining interface that records a flow: calls, nested flows and if / elseif / else / end_if blocks. */
module Flows {
  import opened Options
  import opened Accesses
  import opened Calls
  import opened ControlFlow

  datatype Branch = Branch(kind: BranchKind, cond: Option<Condition>, field: string, index: nat)

  datatype Block = Block(id: nat, branches: seq<Branch>, closed: bool)

  datatype Child = Op(call: OpCall) | Sub(name: string, flow: Flow, parentSkips: seq<string>)

  /** A flow as recorded so far. */
  datatype Flow = Flow(children: seq<Child>, counter: nat, stack: seq<Block>, closed: seq<Block>)

  datatype Event =
    | AddOp(call: OpCall)
    | AddSub(name: string, script: seq<Event>)
    | OpenIf(cond: Condition)
    | OpenElseIf(cond: Condition)
    | OpenElse
    | CloseIf

  datatype Error =
    | EmptyCondition
    | NoOpenIf
    | AlreadyClosed
    | AfterElse
    | DuplicateElse
    | EmptyBranch(kind: BranchKind, field: string)
    | SlashInName(name: string)
    | ColonsInName(name: string)

  const EMPTY := Flow([], 0, [], [])

  predicate Blank(text: string) {
    forall i :: 0 <= i < |text| ==> text[i] in {' ', '\t', '\n', '\r'}
  }

  predicate HasSlash(name: string) {
    exists i :: 0 <= i < |name| && name[i] == '/'
  }

  predicate HasColons(name: string) {
    exists i :: 0 <= i < |name| - 1 && name[i] == ':' && name[i + 1] == ':'
  }

  /** The fields guarding a declaration made now: the current branch of every open block, outermost first. */
  function ActiveSkips(stack: seq<Block>): seq<string> {
    if stack == [] then [] else
      var block := stack[|stack| - 1];
      ActiveSkips(stack[..|stack| - 1])
      + if block.branches == [] then [] else [block.branches[|block.branches| - 1].field]
  }

  function FieldsOf(branches: seq<Branch>): seq<string> {
    seq(|branches|, i requires 0 <= i < |branches| => branches[i].field)
  }

  predicate HasElse(block: Block) {
    exists i :: 0 <= i < |block.branches| && block.branches[i].kind == ElseBranch
  }

  function RawCall(kind: BranchKind, n: nat, priors: seq<string>, cond: Option<Condition>, local: seq<string>): OpCall {
    WithSkips(ControlCall(CtrlName(kind, n), RawField(kind, n), kind, n, priors, cond), local)
  }

  function WithCall(f: Flow, call: OpCall): Flow {
    f.(children := f.children + [Op(call)])
  }

  /** Opens a block, or the next branch of the innermost one. */
  function Opened(f: Flow, kind: BranchKind, cond: Option<Condition>): Flow
    requires kind != IfBranch ==> f.stack != []
  {
    var n := f.counter + 1;
    var branch := Branch(kind, cond, RawField(kind, n), n);
    var outer := if kind == IfBranch then f.stack else f.stack[..|f.stack| - 1];
    var block := if kind == IfBranch then Block(n, [], false) else f.stack[|f.stack| - 1];
    WithCall(f, RawCall(kind, n, FieldsOf(block.branches), cond, ActiveSkips(outer)))
      .(counter := n, stack := outer + [block.(branches := block.branches + [branch])])
  }

  predicate Guards(child: Child, field: string) {
    field in if child.Op? then child.call.config.skip else child.parentSkips
  }

  predicate Occupied(children: seq<Child>, field: string) {
    exists i :: 0 <= i < |children| && Guards(children[i], field)
  }

  function FirstEmpty(children: seq<Child>, branches: seq<Branch>): Option<Error> {
    if branches == [] then None
    else if !Occupied(children, branches[0].field) then Some(EmptyBranch(branches[0].kind, branches[0].field))
    else FirstEmpty(children, branches[1..])
  }

  /** One call of the recording interface: the flow afterwards, and the error raised if any. */
  function Record(f: Flow, e: Event): (Flow, Option<Error>)
    decreases e, 0
  {
    match e
    case AddOp(call) => (WithCall(f, WithSkips(call, ActiveSkips(f.stack))), None)
    case AddSub(name, script) =>
      var (inner, problem) := RecordAll(EMPTY, script);
      if problem.Some? then (f, problem)
      else if HasSlash(name) then (f, Some(SlashInName(name)))
      else if HasColons(name) then (f, Some(ColonsInName(name)))
      else (f.(children := f.children + [Sub(name, inner, ActiveSkips(f.stack))]), None)
    case OpenIf(cond) => if Blank(cond.text) then (f, Some(EmptyCondition)) else (Opened(f, IfBranch, Some(cond)), None)
    case OpenElseIf(cond) =>
      if Blank(cond.text) then (f, Some(EmptyCondition)) else
        var problem := BranchProblem(f, AfterElse);
        if problem.Some? then (f, problem) else (Opened(f, ElseIfBranch, Some(cond)), None)
    case OpenElse =>
      var problem := BranchProblem(f, DuplicateElse);
      if problem.Some? then (f, problem) else (Opened(f, ElseBranch, None), None)
    case CloseIf =>
      if f.stack == [] then (f, Some(NoOpenIf)) else
        var block := f.stack[|f.stack| - 1].(closed := true);
        (f.(stack := f.stack[..|f.stack| - 1], closed := f.closed + [block]), FirstEmpty(f.children, block.branches))
  }

  function BranchProblem(f: Flow, repeated: Error): (problem: Option<Error>)
    ensures problem.None? ==> f.stack != []
  {
    if f.stack == [] then Some(NoOpenIf)
    else if f.stack[|f.stack| - 1].closed then Some(AlreadyClosed)
    else if HasElse(f.stack[|f.stack| - 1]) then Some(repeated)
    else None
  }

  /** A script of calls, up to the first error. */
  function RecordAll(f: Flow, script: seq<Event>): (Flow, Option<Error>)
    decreases script, |script|
  {
    if script == [] then (f, None) else
      var (f', problem) := Record(f, script[0]);
      if problem.Some? then (f', problem) else RecordAll(f', script[1..])
  }

  // ----- the script of a structured fragment, and what it records -----

  function Script(code: Code): seq<Event> {
    match code
    case Done => []
    case Do(call, next) => [AddOp(call)] + Script(next)
    case If(cond, body, more, next) => [OpenIf(cond)] + Script(body) + BranchScript(more) + [CloseIf] + Script(next)
    case Include(name, body, next) => [AddSub(name, Script(body))] + Script(next)
  }

  function BranchScript(branches: Branches): seq<Event> {
    match branches
    case EndIf => []
    case ElseIf(cond, body, more) => [OpenElseIf(cond)] + Script(body) + BranchScript(more)
    case Else(body) => [OpenElse] + Script(body)
  }

  /** Conditions are not blank, branches not empty, and names keep the separators out. */
  predicate Declarable(code: Code) {
    match code
    case Done => true
    case Do(call, next) => Declarable(next)
    case If(cond, body, more, next) =>
      !Blank(cond.text) && body != Done && Declarable(body) && DeclarableBranches(more) && Declarable(next)
    case Include(name, body, next) => !HasSlash(name) && !HasColons(name) && Declarable(body) && Declarable(next)
  }

  predicate DeclarableBranches(branches: Branches) {
    match branches
    case EndIf => true
    case ElseIf(cond, body, more) => !Blank(cond.text) && body != Done && Declarable(body) && DeclarableBranches(more)
    case Else(body) => body != Done && Declarable(body)
  }

  /** What a fragment adds to a flow: children and closed blocks, and the branch counter it leaves. */
  datatype Recorded = Recorded(children: seq<Child>, counter: nat, closed: seq<Block>)

  function One(child: Child, n: nat): Recorded {
    Recorded([child], n, [])
  }

  function Then(a: Recorded, b: Recorded): Recorded {
    Recorded(a.children + b.children, b.counter, a.closed + b.closed)
  }

  function Closing(a: Recorded, block: Block): Recorded {
    a.(closed := a.closed + [block])
  }

  /** The same fragment lowered directly, under the local guards and from branch counter `n` on. */
  function Lower(code: Code, local: seq<string>, n: nat): Recorded
    decreases code, 0
  {
    match code
    case Done => Recorded([], n, [])
    case Do(call, next) => Then(One(Op(WithSkips(call, local)), n), Lower(next, local, n))
    case If(cond, body, more, next) =>
      var first := LowerBranch(IfBranch, Some(cond), body, [], local, n);
      var branch := Branch(IfBranch, Some(cond), RawField(IfBranch, n + 1), n + 1);
      var block := Block(n + 1, AllBranches(more, [branch], local, first.counter), true);
      var whole := Closing(Then(first, LowerBranches(more, [branch], local, first.counter)), block);
      Then(whole, Lower(next, local, whole.counter))
    case Include(name, body, next) => Then(One(Sub(name, Complete(Lower(body, [], 0)), local), n), Lower(next, local, n))
  }

  function Complete(r: Recorded): Flow {
    Flow(r.children, r.counter, [], r.closed)
  }

  function LowerBranch(kind: BranchKind, cond: Option<Condition>, body: Code, priors: seq<string>, local: seq<string>, n: nat): Recorded
    decreases body, 1
  {
    Then(One(Op(RawCall(kind, n + 1, priors, cond, local)), n + 1), Lower(body, local + [RawField(kind, n + 1)], n + 1))
  }

  function LowerBranches(branches: Branches, before: seq<Branch>, local: seq<string>, n: nat): Recorded
    decreases branches
  {
    match branches
    case EndIf => Recorded([], n, [])
    case ElseIf(cond, body, more) =>
      var first := LowerBranch(ElseIfBranch, Some(cond), body, FieldsOf(before), local, n);
      var others := LowerBranches(more, before + [Branch(ElseIfBranch, Some(cond), RawField(ElseIfBranch, n + 1), n + 1)], local, first.counter);
      Then(first, others)
    case Else(body) => LowerBranch(ElseBranch, None, body, FieldsOf(before), local, n)
  }

  /** The branches of a block, once those still to come have been declared from counter `n` on. */
  function AllBranches(branches: Branches, before: seq<Branch>, local: seq<string>, n: nat): seq<Branch>
    decreases branches
  {
    match branches
    case EndIf => before
    case ElseIf(cond, body, more) =>
      var branch := Branch(ElseIfBranch, Some(cond), RawField(ElseIfBranch, n + 1), n + 1);
      AllBranches(more, before + [branch], local,
                  LowerBranch(ElseIfBranch, Some(cond), body, FieldsOf(before), local, n).counter)
    case Else(body) => before + [Branch(ElseBranch, None, RawField(ElseBranch, n + 1), n + 1)]
  }

  /** `f` after a fragment has been recorded in it. */
  function Extended(f: Flow, r: Recorded): Flow {
    f.(children := f.children + r.children, counter := r.counter, closed := f.closed + r.closed)
  }

  lemma {:induction false} RecordAllConcat(f: Flow, a: seq<Event>, b: seq<Event>)
    requires RecordAll(f, a).1.None?
    ensures RecordAll(f, a + b) == RecordAll(RecordAll(f, a).0, b)
    decreases |a|
  {
    if a == [] {
      assert a + b == b;
    } else {
      assert (a + b)[1..] == a[1..] + b;
      RecordAllConcat(Record(f, a[0]).0, a[1..], b);
    }
  }

  lemma {:induction false} RecordOne(f: Flow, e: Event)
    ensures RecordAll(f, [e]) == Record(f, e)
  {
    assert [e][1..] == [];
  }

  /** Recording a script is recording its parts one after the other. */
  lemma {:induction false} InSequence(f: Flow, a: seq<Event>, b: seq<Event>, f1: Flow, f2: Flow)
    requires RecordAll(f, a) == (f1, None) && RecordAll(f1, b) == (f2, None)
    ensures RecordAll(f, a + b) == (f2, None)
  {
    RecordAllConcat(f, a, b);
  }

  lemma {:induction false} OccupiedGrows(children: seq<Child>, more: seq<Child>, field: string)
    requires Occupied(children, field)
    ensures Occupied(children + more, field) && Occupied(more + children, field)
  {
    var i :| 0 <= i < |children| && Guards(children[i], field);
    assert (children + more)[i] == children[i] && (more + children)[|more| + i] == children[i];
  }

  ghost predicate AllOccupied(children: seq<Child>, branches: seq<Branch>) {
    forall i :: 0 <= i < |branches| ==> Occupied(children, branches[i].field)
  }

  lemma {:induction false} NoneEmpty(children: seq<Child>, branches: seq<Branch>)
    ensures FirstEmpty(children, branches).None? <==> AllOccupied(children, branches)
  {
    if branches != [] {
      NoneEmpty(children, branches[1..]);
      assert AllOccupied(children, branches) <==> Occupied(children, branches[0].field) && AllOccupied(children, branches[1..]) by {
        assert forall i :: 1 <= i < |branches| ==> branches[i] == branches[1..][i - 1];
      }
    }
  }

  lemma {:induction false} ExtendedTwice(f: Flow, a: Recorded, b: Recorded)
    ensures Extended(Extended(f, a), b) == Extended(f, Then(a, b))
  {
    assert f.children + a.children + b.children == f.children + (a.children + b.children);
    assert f.closed + a.closed + b.closed == f.closed + (a.closed + b.closed);
  }

  /** A branch body that declares something occupies its branch. */
  lemma {:induction false} BodyOccupies(body: Code, local: seq<string>, field: string, n: nat)
    requires body != Done
    ensures Occupied(Lower(body, local + [field], n).children, field)
  {
    var guards := local + [field];
    assert guards[|local|] == field && field in Elements(guards);
    match body
    case Do(call, next) =>
      WithSkipsAdds(call, guards);
      FirstOccupies(One(Op(WithSkips(call, guards)), n), Lower(next, guards, n), field);
    case If(cond, inner, more, next) =>
      var call := RawCall(IfBranch, n + 1, [], Some(cond), guards);
      WithSkipsAdds(ControlCall(CtrlName(IfBranch, n + 1), RawField(IfBranch, n + 1), IfBranch, n + 1, [], Some(cond)), guards);
      assert field in Elements(call.config.skip) && Guards(Op(call), field);
      var branch := Branch(IfBranch, Some(cond), RawField(IfBranch, n + 1), n + 1);
      var first := LowerBranch(IfBranch, Some(cond), inner, [], guards, n);
      assert first.children[0] == Op(call);
      var others := LowerBranches(more, [branch], guards, first.counter);
      FirstOccupies(first, others, field);
      FirstOccupies(Then(first, others), Lower(next, guards, others.counter), field);
    case Include(name, inner, next) =>
      FirstOccupies(One(Sub(name, Complete(Lower(inner, [], 0)), guards), n), Lower(next, guards, n), field);
  }

  lemma {:induction false} FirstOccupies(a: Recorded, b: Recorded, field: string)
    requires a.children != [] && Guards(a.children[0], field)
    ensures Occupied(Then(a, b).children, field) && Then(a, b).children[0] == a.children[0]
  {
    assert Then(a, b).children[0] == a.children[0];
  }

  // ----- recording a script gives the lowered fragment -----

  lemma {:induction false} ScriptRecords(code: Code, f: Flow)
    requires Declarable(code)
    ensures RecordAll(f, Script(code)) == (Extended(f, Lower(code, ActiveSkips(f.stack), f.counter)), None)
    decreases code, 2
  {
    var local := ActiveSkips(f.stack);
    match code
    case Done => assert Extended(f, Lower(code, local, f.counter)) == f;
    case Do(call, next) =>
      OneRecords(f, AddOp(call), Op(WithSkips(call, local)), next);
    case If(cond, body, more, next) => BlockRecords(code, f);
    case Include(name, body, next) =>
      ScriptRecords(body, EMPTY);
      assert Extended(EMPTY, Lower(body, [], 0)) == Complete(Lower(body, [], 0));
      OneRecords(f, AddSub(name, Script(body)), Sub(name, Complete(Lower(body, [], 0)), local), next);
  }

  lemma {:induction false} OneRecords(f: Flow, e: Event, child: Child, next: Code)
    requires Declarable(next) && Record(f, e) == (f.(children := f.children + [child]), None)
    ensures
      var r := Then(One(child, f.counter), Lower(next, ActiveSkips(f.stack), f.counter));
      RecordAll(f, [e] + Script(next)) == (Extended(f, r), None)
    decreases next, 3
  {
    var f1 := Extended(f, One(child, f.counter));
    var rest := Lower(next, ActiveSkips(f.stack), f.counter);
    assert f1 == f.(children := f.children + [child]);
    RecordOne(f, e);
    ScriptRecords(next, f1);
    InSequence(f, [e], Script(next), f1, Extended(f1, rest));
    ExtendedTwice(f, One(child, f.counter), rest);
  }

  function OpenEvent(kind: BranchKind, cond: Option<Condition>): Event
    requires kind == ElseBranch <==> cond.None?
  {
    match kind
    case IfBranch => OpenIf(cond.value)
    case ElseIfBranch => OpenElseIf(cond.value)
    case ElseBranch => OpenElse
  }

  function OuterStack(f: Flow, kind: BranchKind): seq<Block>
    requires kind != IfBranch ==> f.stack != []
  {
    if kind == IfBranch then f.stack else f.stack[..|f.stack| - 1]
  }

  function OpenBlock(f: Flow, kind: BranchKind): Block
    requires kind != IfBranch ==> f.stack != []
  {
    if kind == IfBranch then Block(f.counter + 1, [], false) else f.stack[|f.stack| - 1]
  }

  function NewBranch(f: Flow, kind: BranchKind, cond: Option<Condition>): Branch {
    Branch(kind, cond, RawField(kind, f.counter + 1), f.counter + 1)
  }

  function WithBranch(block: Block, branch: Branch): Block {
    block.(branches := block.branches + [branch])
  }

  lemma {:induction false} ActiveInside(outer: seq<Block>, block: Block, branch: Branch)
    ensures ActiveSkips(outer + [WithBranch(block, branch)]) == ActiveSkips(outer) + [branch.field]
  {
    var stack := outer + [WithBranch(block, branch)];
    assert stack[..|stack| - 1] == outer;
  }

  /** The flow after a branch of the innermost block has been opened and its body recorded. */
  function AfterBranch(kind: BranchKind, cond: Option<Condition>, body: Code, f: Flow): Flow
    requires kind != IfBranch ==> f.stack != []
  {
    var outer, block := OuterStack(f, kind), OpenBlock(f, kind);
    Extended(f, LowerBranch(kind, cond, body, FieldsOf(block.branches), ActiveSkips(outer), f.counter))
      .(stack := outer + [WithBranch(block, NewBranch(f, kind, cond))])
  }

  lemma {:induction false} BranchRecords(kind: BranchKind, cond: Option<Condition>, body: Code, f: Flow)
    requires Declarable(body) && (kind == ElseBranch <==> cond.None?) && (cond.Some? ==> !Blank(cond.value.text))
    requires kind != IfBranch ==> BranchProblem(f, AfterElse).None?
    ensures RecordAll(f, [OpenEvent(kind, cond)] + Script(body)) == (AfterBranch(kind, cond, body, f), None)
    decreases body, 3
  {
    var outer, block, branch := OuterStack(f, kind), OpenBlock(f, kind), NewBranch(f, kind, cond);
    var n, local := f.counter + 1, ActiveSkips(outer);
    var call := Op(RawCall(kind, n, FieldsOf(block.branches), cond, local));
    var e := OpenEvent(kind, cond);
    var f1 := Opened(f, kind, cond);
    OpenRecords(kind, cond, f);
    RecordOne(f, e);
    ActiveInside(outer, block, branch);
    ScriptRecords(body, f1);
    var inside := Lower(body, local + [branch.field], n);
    InSequence(f, [e], Script(body), f1, Extended(f1, inside));
    ExtendedTwice(f, One(call, n), inside);
  }

  lemma {:induction false} OpenRecords(kind: BranchKind, cond: Option<Condition>, f: Flow)
    requires (kind == ElseBranch <==> cond.None?) && (cond.Some? ==> !Blank(cond.value.text))
    requires kind != IfBranch ==> BranchProblem(f, AfterElse).None?
    ensures Record(f, OpenEvent(kind, cond)) == (Opened(f, kind, cond), None)
    ensures
      var outer, block, branch := OuterStack(f, kind), OpenBlock(f, kind), NewBranch(f, kind, cond);
      var call := RawCall(kind, f.counter + 1, FieldsOf(block.branches), cond, ActiveSkips(outer));
      Opened(f, kind, cond)
      == Extended(f, One(Op(call), f.counter + 1)).(stack := outer + [WithBranch(block, branch)])
  {
    OpenedIsExtended(kind, cond, f);
    match kind
    case IfBranch =>
    case ElseIfBranch =>
    case ElseBranch =>
  }

  lemma {:induction false} OpenedIsExtended(kind: BranchKind, cond: Option<Condition>, f: Flow)
    requires kind != IfBranch ==> f.stack != []
    ensures
      var outer, block, branch := OuterStack(f, kind), OpenBlock(f, kind), NewBranch(f, kind, cond);
      var call := RawCall(kind, f.counter + 1, FieldsOf(block.branches), cond, ActiveSkips(outer));
      Opened(f, kind, cond)
      == Extended(f, One(Op(call), f.counter + 1)).(stack := outer + [WithBranch(block, branch)])
  {
    assert f.closed + [] == f.closed;
  }

  /** The flow after all remaining branches of the innermost block. */
  function AfterBranches(branches: Branches, f: Flow): Flow
    requires f.stack != []
  {
    var outer, block := f.stack[..|f.stack| - 1], f.stack[|f.stack| - 1];
    var local := ActiveSkips(outer);
    Extended(f, LowerBranches(branches, block.branches, local, f.counter))
      .(stack := outer + [block.(branches := AllBranches(branches, block.branches, local, f.counter))])
  }

  lemma {:induction false} AfterBranchesStep(branches: Branches, f: Flow)
    requires f.stack != [] && branches.ElseIf?
    ensures var f1 := AfterBranch(ElseIfBranch, Some(branches.cond), branches.body, f);
            AfterBranches(branches, f) == AfterBranches(branches.more, f1)
  {
    var outer, block := f.stack[..|f.stack| - 1], f.stack[|f.stack| - 1];
    var local := ActiveSkips(outer);
    var branch := NewBranch(f, ElseIfBranch, Some(branches.cond));
    var f1 := AfterBranch(ElseIfBranch, Some(branches.cond), branches.body, f);
    assert f1.stack[..|f1.stack| - 1] == outer;
    var r1 := LowerBranch(ElseIfBranch, Some(branches.cond), branches.body, FieldsOf(block.branches), local, f.counter);
    ExtendedTwice(f, r1, LowerBranches(branches.more, block.branches + [branch], local, r1.counter));
  }

  lemma {:induction false} BranchesRecord(branches: Branches, f: Flow)
    requires DeclarableBranches(branches) && BranchProblem(f, AfterElse).None?
    ensures RecordAll(f, BranchScript(branches)) == (AfterBranches(branches, f), None)
    decreases branches, 0
  {
    match branches
    case EndIf =>
      assert f.stack[..|f.stack| - 1] + [f.stack[|f.stack| - 1]] == f.stack;
      assert Extended(f, Recorded([], f.counter, [])) == f;
    case ElseIf(cond, body, more) =>
      var f1 := AfterBranch(ElseIfBranch, Some(cond), body, f);
      BranchRecords(ElseIfBranch, Some(cond), body, f);
      StillOpen(f, f1, NewBranch(f, ElseIfBranch, Some(cond)));
      BranchesRecord(more, f1);
      InSequence(f, [OpenElseIf(cond)] + Script(body), BranchScript(more), f1, AfterBranches(more, f1));
      AfterBranchesStep(branches, f);
    case Else(body) => BranchRecords(ElseBranch, None, body, f);
  }

  /** Every branch of a declarable block has something in it. */
  lemma {:induction false} BranchesOccupied(branches: Branches, before: seq<Branch>, local: seq<string>, n: nat, children: seq<Child>)
    requires DeclarableBranches(branches) && AllOccupied(children, before)
    ensures AllOccupied(children + LowerBranches(branches, before, local, n).children, AllBranches(branches, before, local, n))
    decreases branches
  {
    if branches.EndIf? {
      assert children + [] == children;
    } else {
      var (kind, cond) := if branches.ElseIf? then (ElseIfBranch, Some(branches.cond)) else (ElseBranch, None);
      var r1 := LowerBranch(kind, cond, branches.body, FieldsOf(before), local, n);
      var branch := Branch(kind, cond, RawField(kind, n + 1), n + 1);
      BranchOccupied(kind, cond, branches.body, before, local, n, children);
      if branches.ElseIf? {
        var r2 := LowerBranches(branches.more, before + [branch], local, r1.counter);
        BranchesOccupied(branches.more, before + [branch], local, r1.counter, children + r1.children);
        assert children + r1.children + r2.children == children + (r1.children + r2.children);
      }
    }
  }

  lemma {:induction false} BranchOccupied(kind: BranchKind, cond: Option<Condition>, body: Code, before: seq<Branch>, local: seq<string>, n: nat,
                       children: seq<Child>)
    requires body != Done && AllOccupied(children, before)
    ensures AllOccupied(children + LowerBranch(kind, cond, body, FieldsOf(before), local, n).children,
                        before + [Branch(kind, cond, RawField(kind, n + 1), n + 1)])
  {
    var field := RawField(kind, n + 1);
    var inside := Lower(body, local + [field], n + 1).children;
    var call := Op(RawCall(kind, n + 1, FieldsOf(before), cond, local));
    BodyOccupies(body, local, field, n + 1);
    OccupiedGrows(inside, [call], field);
    OccupiedGrows([call] + inside, children, field);
    forall i | 0 <= i < |before|
      ensures Occupied(children + ([call] + inside), before[i].field)
    {
      OccupiedGrows(children, [call] + inside, before[i].field);
    }
  }

  lemma {:induction false} StillOpen(f: Flow, f1: Flow, branch: Branch)
    requires BranchProblem(f, AfterElse).None? && branch.kind != ElseBranch
    requires f1.stack == f.stack[..|f.stack| - 1] + [WithBranch(f.stack[|f.stack| - 1], branch)]
    ensures BranchProblem(f1, AfterElse).None?
  {
    var block, block1 := f.stack[|f.stack| - 1], f1.stack[|f1.stack| - 1];
    assert forall i :: 0 <= i < |block.branches| ==> block1.branches[i] == block.branches[i];
  }

  /** What a whole block records, without what follows it. */
  function LowerBlock(code: Code, local: seq<string>, n: nat): (r: Recorded)
    requires code.If?
    ensures Lower(code, local, n) == Then(r, Lower(code.next, local, r.counter))
  {
    var first := LowerBranch(IfBranch, Some(code.cond), code.body, [], local, n);
    var branch := Branch(IfBranch, Some(code.cond), RawField(IfBranch, n + 1), n + 1);
    var block := Block(n + 1, AllBranches(code.more, [branch], local, first.counter), true);
    Closing(Then(first, LowerBranches(code.more, [branch], local, first.counter)), block)
  }

  function BlockScript(code: Code): seq<Event>
    requires code.If?
  {
    [OpenIf(code.cond)] + Script(code.body) + BranchScript(code.more) + [CloseIf]
  }

  lemma {:induction false} BlockRecords(code: Code, f: Flow)
    requires code.If? && Declarable(code)
    ensures RecordAll(f, Script(code)) == (Extended(f, Lower(code, ActiveSkips(f.stack), f.counter)), None)
    decreases code, 1
  {
    var local := ActiveSkips(f.stack);
    var whole := LowerBlock(code, local, f.counter);
    OpenAndCloseRecords(code, f);
    var f3 := Extended(f, whole);
    ScriptRecords(code.next, f3);
    var rest := Lower(code.next, local, whole.counter);
    InSequence(f, BlockScript(code), Script(code.next), f3, Extended(f3, rest));
    ExtendedTwice(f, whole, rest);
  }

  lemma {:induction false} OpenAndCloseRecords(code: Code, f: Flow)
    requires code.If? && Declarable(code)
    ensures RecordAll(f, BlockScript(code)) == (Extended(f, LowerBlock(code, ActiveSkips(f.stack), f.counter)), None)
    decreases code, 0
  {
    var f1 := AfterBranch(IfBranch, Some(code.cond), code.body, f);
    var f2 := AfterBranches(code.more, f1);
    var first := [OpenIf(code.cond)] + Script(code.body);
    BranchRecords(IfBranch, Some(code.cond), code.body, f);
    BranchesRecord(code.more, f1);
    InSequence(f, first, BranchScript(code.more), f1, f2);
    BeforeClosing(code, f);
    RecordOne(f2, CloseIf);
    InSequence(f, first + BranchScript(code.more), [CloseIf], f2, Extended(f, LowerBlock(code, ActiveSkips(f.stack), f.counter)));
  }

  /** The flow just before `end_if_`, and what that call makes of it. */
  lemma {:induction false} BeforeClosing(code: Code, f: Flow)
    requires code.If? && Declarable(code)
    ensures
      var f2 := AfterBranches(code.more, AfterBranch(IfBranch, Some(code.cond), code.body, f));
      Record(f2, CloseIf) == (Extended(f, LowerBlock(code, ActiveSkips(f.stack), f.counter)), None)
  {
    var local := ActiveSkips(f.stack);
    var branch := NewBranch(f, IfBranch, Some(code.cond));
    var f1 := AfterBranch(IfBranch, Some(code.cond), code.body, f);
    assert FieldsOf([]) == [] && [] + [branch] == [branch];
    assert f1.stack[..|f1.stack| - 1] == f.stack;
    var r1 := LowerBranch(IfBranch, Some(code.cond), code.body, [], local, f.counter);
    var r2 := LowerBranches(code.more, [branch], local, r1.counter);
    var all := AllBranches(code.more, [branch], local, r1.counter);
    ExtendedTwice(f, r1, r2);
    BranchOccupied(IfBranch, Some(code.cond), code.body, [], local, f.counter, f.children);
    BranchesOccupied(code.more, [branch], local, r1.counter, f.children + r1.children);
    ClosesBlock(f, AfterBranches(code.more, f1), Then(r1, r2), all);
  }

  lemma {:induction false} ClosesBlock(f: Flow, f2: Flow, r: Recorded, all: seq<Branch>)
    requires f2 == Extended(f, r).(stack := f.stack + [Block(f.counter + 1, all, false)])
    requires AllOccupied(f2.children, all)
    ensures Record(f2, CloseIf) == (Extended(f, Closing(r, Block(f.counter + 1, all, true))), None)
  {
    NoneEmpty(f2.children, all);
    assert f2.stack[..|f2.stack| - 1] == f.stack;
    assert f.closed + r.closed + [Block(f.counter + 1, all, true)] == f.closed + (r.closed + [Block(f.counter + 1, all, true)]);
  }
}
