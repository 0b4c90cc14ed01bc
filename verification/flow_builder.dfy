/** The recording object behind a flow, with the lists and stack it mutates. */
module FlowBuilders {
  import opened Options
  import opened Accesses
  import opened Calls
  import opened ControlFlow
  import opened Flows

  datatype ChildRef = OpRef(index: nat) | SubRef(index: nat)

  datatype SubEntry = SubEntry(name: string, flow: Flow, parentSkips: seq<string>)

  /** The order list refers to every recorded operator and nested flow. */
  predicate Ordered(ops: seq<OpCall>, subFlows: seq<SubEntry>, order: seq<ChildRef>) {
    && (forall k :: 0 <= k < |order| ==> match order[k] case OpRef(i) => i < |ops| case SubRef(i) => i < |subFlows|)
    && (forall i: nat :: i < |ops| ==> OpRef(i) in order)
    && (forall i: nat :: i < |subFlows| ==> SubRef(i) in order)
  }

  function ChildAt(ops: seq<OpCall>, subFlows: seq<SubEntry>, order: seq<ChildRef>, k: nat): Child
    requires Ordered(ops, subFlows, order) && k < |order|
  {
    match order[k]
    case OpRef(i) => Op(ops[i])
    case SubRef(i) => Sub(subFlows[i].name, subFlows[i].flow, subFlows[i].parentSkips)
  }

  function InOrder(ops: seq<OpCall>, subFlows: seq<SubEntry>, order: seq<ChildRef>): (children: seq<Child>)
    requires Ordered(ops, subFlows, order)
    ensures |children| == |order|
  {
    seq(|order|, k requires 0 <= k < |order| => ChildAt(ops, subFlows, order, k))
  }

  class FlowBuilder {
    var ops: seq<OpCall>
    var subFlows: seq<SubEntry>
    var childOrder: seq<ChildRef>
    var ctrlCounter: nat
    var ctrlStack: seq<Block>
    var closedBlocks: seq<Block>

    ghost predicate Valid()
      reads this`ops, this`subFlows, this`childOrder
    {
      Ordered(ops, subFlows, childOrder)
    }

    ghost function Children(): seq<Child>
      requires Valid()
      reads this`ops, this`subFlows, this`childOrder
    {
      InOrder(ops, subFlows, childOrder)
    }

    /** The flow recorded so far. */
    ghost function View(): Flow
      requires Valid()
      reads this
    {
      Flow(Children(), ctrlCounter, ctrlStack, closedBlocks)
    }

    constructor ()
      ensures Valid() && View() == EMPTY
    {
      ops, subFlows, childOrder, ctrlCounter, ctrlStack, closedBlocks := [], [], [], 0, [], [];
    }

    /** The flow as it stands, as a value. */
    method Snapshot() returns (flow: Flow)
      requires Valid()
      ensures flow == View()
    {
      flow := Flow(InOrder(ops, subFlows, childOrder), ctrlCounter, ctrlStack, closedBlocks);
    }

    method ActiveSkipFields(includeCurrent: bool) returns (fields: seq<string>)
      requires !includeCurrent ==> ctrlStack != []
      ensures fields == ActiveSkips(if includeCurrent then ctrlStack else ctrlStack[..|ctrlStack| - 1])
    {
      var stack := if includeCurrent then ctrlStack else ctrlStack[..|ctrlStack| - 1];
      fields := [];
      for k := 0 to |stack|
        invariant fields == ActiveSkips(stack[..k])
      {
        assert stack[..k + 1][..k] == stack[..k];
        var block := stack[k];
        if block.branches != [] {
          fields := fields + [block.branches[|block.branches| - 1].field];
        }
      }
      assert stack[..|stack|] == stack;
    }

    method PushOp(call: OpCall)
      requires Valid()
      modifies this`ops, this`childOrder
      ensures Valid() && View() == WithCall(old(View()), call)
    {
      ghost var before := View();
      var index := |ops|;
      ops := ops + [call];
      childOrder := childOrder + [OpRef(index)];
      assert childOrder[|childOrder| - 1] == OpRef(index);
      assert forall i: nat :: i < index ==> OpRef(i) in old(childOrder);
      assert Children() == before.children + [Op(call)];
    }

    method EmitControl(branch: Branch, priors: seq<string>, parentSkips: seq<string>)
      requires Valid() && branch.field == RawField(branch.kind, branch.index)
      modifies this`ops, this`childOrder
      ensures Valid()
      ensures View() == WithCall(old(View()), RawCall(branch.kind, branch.index, priors, branch.cond, parentSkips))
    {
      var call := MakeControlOp(branch, priors);
      call := ApplySkipFields(call, parentSkips);
      PushOp(call);
    }

    method AddOp(call: OpCall)
      requires Valid()
      modifies this
      ensures Valid() && (View(), None) == Record(old(View()), Event.AddOp(call))
    {
      var skips := ActiveSkipFields(true);
      var guarded := ApplySkipFields(call, skips);
      PushOp(guarded);
    }

    method AddSubFlow(name: string, flow: Flow, ghost script: seq<Event>) returns (problem: Option<Error>)
      requires Valid() && RecordAll(EMPTY, script) == (flow, None)
      modifies this
      ensures Valid() && (View(), problem) == Record(old(View()), AddSub(name, script))
    {
      if HasSlash(name) {
        return Some(SlashInName(name));
      }
      if HasColons(name) {
        return Some(ColonsInName(name));
      }
      ghost var before := View();
      var skips := ActiveSkipFields(true);
      var index := |subFlows|;
      subFlows := subFlows + [SubEntry(name, flow, skips)];
      childOrder := childOrder + [SubRef(index)];
      assert childOrder[|childOrder| - 1] == SubRef(index);
      assert Children() == before.children + [Sub(name, flow, skips)];
      problem := None;
    }

    method If(cond: Condition) returns (problem: Option<Error>)
      requires Valid()
      modifies this
      ensures Valid() && (View(), problem) == Record(old(View()), OpenIf(cond))
    {
      if Blank(cond.text) {
        return Some(EmptyCondition);
      }
      ghost var before := View();
      var parentSkips := ActiveSkipFields(true);
      ctrlCounter := ctrlCounter + 1;
      var branch := Branch(IfBranch, Some(cond), RawField(IfBranch, ctrlCounter), ctrlCounter);
      ctrlStack := ctrlStack + [Block(ctrlCounter, [branch], false)];
      assert View() == before.(counter := ctrlCounter, stack := ctrlStack);
      EmitControl(branch, [], parentSkips);
      problem := None;
      OpenedIf(before, cond, branch);
    }

    method ElseIf(cond: Condition) returns (problem: Option<Error>)
      requires Valid()
      modifies this
      ensures Valid() && (View(), problem) == Record(old(View()), OpenElseIf(cond))
    {
      if Blank(cond.text) {
        return Some(EmptyCondition);
      }
      problem := NextBranch(ElseIfBranch, Some(cond), AfterElse);
    }

    method Else() returns (problem: Option<Error>)
      requires Valid()
      modifies this
      ensures Valid() && (View(), problem) == Record(old(View()), OpenElse)
    {
      problem := NextBranch(ElseBranch, None, DuplicateElse);
    }

    /** The part that `elseif_` and `else_` share. */
    method NextBranch(kind: BranchKind, cond: Option<Condition>, repeated: Error) returns (problem: Option<Error>)
      requires Valid() && kind != IfBranch
      modifies this
      ensures Valid() && problem == BranchProblem(old(View()), repeated)
      ensures View() == if problem.Some? then old(View()) else Opened(old(View()), kind, cond)
    {
      if ctrlStack == [] {
        return Some(NoOpenIf);
      }
      var block := ctrlStack[|ctrlStack| - 1];
      if block.closed {
        return Some(AlreadyClosed);
      }
      if HasElse(block) {
        return Some(repeated);
      }
      AddBranch(kind, cond);
      problem := None;
    }

    method AddBranch(kind: BranchKind, cond: Option<Condition>)
      requires Valid() && kind != IfBranch && ctrlStack != []
      modifies this
      ensures Valid() && View() == Opened(old(View()), kind, cond)
    {
      ghost var before := View();
      var block := ctrlStack[|ctrlStack| - 1];
      var parentSkips := ActiveSkipFields(false);
      ctrlCounter := ctrlCounter + 1;
      var branch := Branch(kind, cond, RawField(kind, ctrlCounter), ctrlCounter);
      ctrlStack := ctrlStack[..|ctrlStack| - 1] + [block.(branches := block.branches + [branch])];
      EmitControl(branch, FieldsOf(block.branches), parentSkips);
      OpenedNext(before, kind, cond, block, branch);
    }

    method EndIf() returns (problem: Option<Error>)
      requires Valid()
      modifies this
      ensures Valid() && (View(), problem) == Record(old(View()), CloseIf)
    {
      if ctrlStack == [] {
        return Some(NoOpenIf);
      }
      var block := ctrlStack[|ctrlStack| - 1].(closed := true);
      ctrlStack := ctrlStack[..|ctrlStack| - 1];
      closedBlocks := closedBlocks + [block];
      ghost var children := old(View()).children;
      assert View() == old(View()).(stack := ctrlStack, closed := closedBlocks);
      assert Record(old(View()), CloseIf) == (View(), FirstEmpty(children, block.branches));
      for k := 0 to |block.branches|
        invariant Valid() && View() == Record(old(View()), CloseIf).0 && View().children == children
        invariant FirstEmpty(children, block.branches) == FirstEmpty(children, block.branches[k..])
      {
        var field := block.branches[k].field;
        OccupiedInLists(field);
        assert block.branches[k..][1..] == block.branches[k + 1..] && block.branches[k..][0] == block.branches[k];
        var hasOps := exists i :: 0 <= i < |ops| && field in ops[i].config.skip;
        var hasSubFlows := exists i :: 0 <= i < |subFlows| && field in subFlows[i].parentSkips;
        assert Occupied(children, field) == (hasOps || hasSubFlows);
        if !hasOps && !hasSubFlows {
          assert FirstEmpty(children, block.branches[k..]) == Some(EmptyBranch(block.branches[k].kind, field));
          return Some(EmptyBranch(block.branches[k].kind, field));
        }
      }
      problem := None;
    }

    lemma {:induction false} OccupiedInLists(field: string)
      requires Valid()
      ensures Occupied(View().children, field) <==>
              || (exists i :: 0 <= i < |ops| && field in ops[i].config.skip)
              || (exists i :: 0 <= i < |subFlows| && field in subFlows[i].parentSkips)
    {
      var children := View().children;
      if k :| 0 <= k < |children| && Flows.Guards(children[k], field) {
        assert children[k] == ChildAt(ops, subFlows, childOrder, k);
      }
      if i: nat :| i < |ops| && field in ops[i].config.skip {
        var k :| 0 <= k < |childOrder| && childOrder[k] == OpRef(i);
        assert Flows.Guards(children[k], field);
      }
      if i: nat :| i < |subFlows| && field in subFlows[i].parentSkips {
        var k :| 0 <= k < |childOrder| && childOrder[k] == SubRef(i);
        assert Flows.Guards(children[k], field);
      }
    }
  }

  lemma {:induction false} OpenedIf(f: Flow, cond: Condition, branch: Branch)
    requires branch == NewBranch(f, IfBranch, Some(cond))
    ensures
      var call := RawCall(IfBranch, branch.index, [], Some(cond), ActiveSkips(f.stack));
      Opened(f, IfBranch, Some(cond))
      == WithCall(f.(counter := branch.index, stack := f.stack + [Block(branch.index, [branch], false)]), call)
  {
    assert [] + [branch] == [branch] && FieldsOf([]) == [];
  }

  lemma {:induction false} OpenedNext(f: Flow, kind: BranchKind, cond: Option<Condition>, block: Block, branch: Branch)
    requires kind != IfBranch && f.stack != [] && block == f.stack[|f.stack| - 1] && branch == NewBranch(f, kind, cond)
    ensures
      var outer := f.stack[..|f.stack| - 1];
      var call := RawCall(kind, branch.index, FieldsOf(block.branches), cond, ActiveSkips(outer));
      Opened(f, kind, cond)
      == WithCall(f.(counter := branch.index, stack := outer + [block.(branches := block.branches + [branch])]), call)
  {
  }

  /** Attaches skip fields one by one. */
  method ApplySkipFields(call: OpCall, skips: seq<string>) returns (guarded: OpCall)
    ensures guarded == WithSkips(call, skips)
  {
    guarded := call;
    for k := 0 to |skips|
      invariant WithSkips(call, skips) == WithSkips(guarded, skips[k..])
    {
      assert skips[k..][1..] == skips[k + 1..];
      guarded := WithSkip(guarded, skips[k]);
    }
  }

  /** Builds the control call of a branch; its inputs are listed once each, in order of first mention. */
  method MakeControlOp(branch: Branch, priors: seq<string>) returns (call: OpCall)
    ensures call == ControlCall(CtrlName(branch.kind, branch.index), branch.field, branch.kind, branch.index, priors, branch.cond)
  {
    var inputs := priors + if branch.cond.Some? then branch.cond.value.fields else [];
    var deduped: seq<string> := [];
    for k := 0 to |inputs|
      invariant deduped == Deduped(inputs[..k])
    {
      assert inputs[..k + 1][..k] == inputs[..k];
      if inputs[k] !in deduped {
        deduped := deduped + [inputs[k]];
      }
    }
    assert inputs[..|inputs|] == inputs;
    var metadata := NO_METADATA.(commonInput := deduped, commonOutput := [branch.field]);
    call := OpCall(OperatorConfig(CtrlName(branch.kind, branch.index), metadata, [], false, false, false, []),
                   Control(branch.kind, branch.index, priors, branch.cond), "");
  }
}
