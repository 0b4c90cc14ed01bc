/** The groups collected from a structured flow really are the branches of one block each. */
module ExclusionGroups {
  import opened Options
  import opened Accesses
  import opened Frames
  import opened Calls
  import opened ControlFlow
  import opened SubFlows
  import opened Compiler
  import opened Exclusion
  import opened F = Flows

  // ----- compiled lists are well made -----

  ghost predicate MadeApart(calls: seq<OpCall>) {
    forall i :: 0 <= i < |calls| ==>
      if calls[i].work.Control? then WellMade(calls[i]) else forall f :: f in calls[i].config.metadata.commonOutput ==> !Reserved(f)
  }

  lemma {:induction false} MadeConcat(a: seq<OpCall>, b: seq<OpCall>)
    requires MadeApart(a) && MadeApart(b)
    ensures MadeApart(a + b)
  {
  }

  lemma {:induction false} BranchMade(sc: Scope, kind: BranchKind, n: nat, priors: seq<string>, cond: Option<Condition>)
    ensures MadeApart([BranchCall(sc, kind, n, priors, cond)])
  {
    var plain := ControlCall(FinalName(sc.path, kind, n), FinalField(sc.path, kind, n), kind, n, priors, cond);
    GuardedAdds(plain, sc);
    var fields := priors + if cond.Some? then cond.value.fields else [];
    assert Elements(plain.config.metadata.commonInput) == Elements(fields);
    assert forall f :: f in priors ==> f in fields;
    assert forall f :: cond.Some? && f in cond.value.fields ==> f in fields;
  }

  lemma {:induction false} CompiledMade(code: Code, sc: Scope, n: nat)
    requires Plain(code)
    ensures MadeApart(Compile(code, sc, n).0)
    decreases code
  {
    match code
    case Done =>
    case Do(call, next) =>
      GuardedAdds(call, sc);
      CompiledMade(next, sc, n);
      MadeConcat([Guarded(call, sc)], Compile(next, sc, n).0);
    case If(cond, body, more, next) =>
      var field := FinalField(sc.path, IfBranch, n + 1);
      var (inside, n1) := Compile(body, Within(sc, field), n + 1);
      var (others, n2) := CompileBranches(more, sc, [field], n1);
      var ctl := BranchCall(sc, IfBranch, n + 1, [], Some(cond));
      BranchMade(sc, IfBranch, n + 1, [], Some(cond));
      CompiledMade(body, Within(sc, field), n + 1);
      MadeConcat([ctl], inside);
      CompiledBranchesMade(more, sc, [field], n1);
      MadeConcat([ctl] + inside, others);
      CompiledMade(next, sc, n2);
      MadeConcat([ctl] + inside + others, Compile(next, sc, n2).0);
    case Include(name, body, next) =>
      CompiledMade(body, Scope(Join(sc.path, name), sc.inherited + sc.local, []), 0);
      CompiledMade(next, sc, n);
  }

  lemma {:induction false} CompiledBranchesMade(branches: Branches, sc: Scope, priors: seq<string>, n: nat)
    requires PlainBranches(branches)
    ensures MadeApart(CompileBranches(branches, sc, priors, n).0)
    decreases branches
  {
    match branches
    case EndIf =>
    case ElseIf(cond, body, more) =>
      var field := FinalField(sc.path, ElseIfBranch, n + 1);
      BranchMade(sc, ElseIfBranch, n + 1, priors, Some(cond));
      CompiledMade(body, Within(sc, field), n + 1);
      CompiledBranchesMade(more, sc, priors + [field], Compile(body, Within(sc, field), n + 1).1);
    case Else(body) =>
      BranchMade(sc, ElseBranch, n + 1, priors, None);
      CompiledMade(body, Within(sc, FinalField(sc.path, ElseBranch, n + 1)), n + 1);
  }

  // ----- the branches of a block are chained -----

  ghost predicate IsWritten(calls: seq<OpCall>, s: string) {
    exists k: nat :: WrittenBy(calls, k, s)
  }

  /** Every field is written, and each one's control call reads all the ones before it. */
  ghost predicate AllChained(calls: seq<OpCall>, fields: seq<string>) {
    && (forall i :: 0 <= i < |fields| ==> IsWritten(calls, fields[i]))
    && (forall i, j :: 0 <= i < j < |fields| ==> Chained(calls, fields[i], fields[j]))
  }

  lemma {:induction false} WrittenGrows(a: seq<OpCall>, b: seq<OpCall>, s: string)
    ensures IsWritten(a, s) ==> IsWritten(a + b, s)
    ensures IsWritten(b, s) ==> IsWritten(a + b, s)
  {
    if IsWritten(a, s) {
      var k: nat :| WrittenBy(a, k, s);
      assert WrittenBy(a + b, k, s);
    }
    if IsWritten(b, s) {
      var k: nat :| WrittenBy(b, k, s);
      assert WrittenBy(a + b, |a| + k, s);
    }
  }

  lemma {:induction false} ChainedGrows(a: seq<OpCall>, b: seq<OpCall>, s: string, t: string)
    ensures Chained(a, s, t) ==> Chained(a + b, s, t)
    ensures Chained(b, s, t) ==> Chained(a + b, s, t)
  {
    var c := a + b;
    if Chained(a, s, t) {
      var i: nat, j: nat :| i < j && WrittenBy(a, i, s) && WrittenBy(a, j, t) && s in a[j].work.priors;
      assert c[i] == a[i] && c[j] == a[j];
      assert WrittenBy(c, i, s) && WrittenBy(c, j, t);
    }
    if Chained(b, s, t) {
      var i: nat, j: nat :| i < j && WrittenBy(b, i, s) && WrittenBy(b, j, t) && s in b[j].work.priors;
      assert c[|a| + i] == b[i] && c[|a| + j] == b[j];
      assert WrittenBy(c, |a| + i, s) && WrittenBy(c, |a| + j, t);
    }
  }

  lemma {:induction false} AllChainedGrows(a: seq<OpCall>, b: seq<OpCall>, fields: seq<string>)
    requires AllChained(a, fields)
    ensures AllChained(a + b, fields)
  {
    forall i | 0 <= i < |fields|
      ensures IsWritten(a + b, fields[i])
    {
      WrittenGrows(a, b, fields[i]);
    }
    forall i, j | 0 <= i < j < |fields|
      ensures Chained(a + b, fields[i], fields[j])
    {
      ChainedGrows(a, b, fields[i], fields[j]);
    }
  }

  /** The next branch of a block joins the chain. */
  lemma {:induction false} ChainExtends(calls: seq<OpCall>, fields: seq<string>, ctl: OpCall, field: string)
    requires AllChained(calls, fields) && ctl.work.Control? && Written(ctl.config) == field && ctl.work.priors == fields
    ensures AllChained(calls + [ctl], fields + [field])
  {
    var c := calls + [ctl];
    AllChainedGrows(calls, [ctl], fields);
    assert WrittenBy(c, |calls|, field) && c[|calls|] == ctl;
    forall i | 0 <= i < |fields|
      ensures Chained(c, fields[i], field)
    {
      var k: nat :| WrittenBy(calls, k, fields[i]);
      assert WrittenBy(c, k, fields[i]) && fields[i] in c[|calls|].work.priors;
    }
    forall i, j | 0 <= i < j < |fields + [field]|
      ensures Chained(c, (fields + [field])[i], (fields + [field])[j])
    {
    }
  }

  lemma {:induction false} ChainIsGroup(calls: seq<OpCall>, fields: seq<string>)
    requires AllChained(calls, fields)
    ensures Grouped(calls, Elements(fields))
  {
    forall f, h | f in Elements(fields) && h in Elements(fields) && f != h
      ensures Chained(calls, f, h) || Chained(calls, h, f)
    {
      var i :| 0 <= i < |fields| && fields[i] == f;
      var j :| 0 <= j < |fields| && fields[j] == h;
      if i < j {
        assert Chained(calls, fields[i], fields[j]);
      } else {
        assert Chained(calls, fields[j], fields[i]);
      }
    }
  }

  lemma {:induction false} ControlWork(sc: Scope, kind: BranchKind, n: nat, priors: seq<string>, cond: Option<Condition>)
    ensures
      var ctl := BranchCall(sc, kind, n, priors, cond);
      ctl.work == Control(kind, n, priors, cond) && Written(ctl.config) == FinalField(sc.path, kind, n)
  {
    GuardedAdds(ControlCall(FinalName(sc.path, kind, n), FinalField(sc.path, kind, n), kind, n, priors, cond), sc);
  }

  lemma {:induction false} BranchChains(calls: seq<OpCall>, sc: Scope, kind: BranchKind, n: nat, priors: seq<string>, cond: Option<Condition>, body: Code)
    requires AllChained(calls, priors)
    ensures AllChained(calls + BranchCalls(sc, kind, n, priors, cond, body), priors + [FinalField(sc.path, kind, n + 1)])
  {
    var field := FinalField(sc.path, kind, n + 1);
    var ctl := BranchCall(sc, kind, n + 1, priors, cond);
    var inside := Compile(body, Within(sc, field), n + 1).0;
    ControlWork(sc, kind, n + 1, priors, cond);
    ChainExtends(calls, priors, ctl, field);
    AllChainedGrows(calls + [ctl], inside, priors + [field]);
    JoinCalls(calls, [ctl], inside);
  }

  /** The final fields of a block's branches, those still to come from counter `n` on included. */
  function FinalFields(branches: Branches, sc: Scope, priors: seq<string>, n: nat): seq<string>
    decreases branches
  {
    match branches
    case EndIf => priors
    case ElseIf(cond, body, more) =>
      var field := FinalField(sc.path, ElseIfBranch, n + 1);
      FinalFields(more, sc, priors + [field], Compile(body, Within(sc, field), n + 1).1)
    case Else(body) => priors + [FinalField(sc.path, ElseBranch, n + 1)]
  }

  lemma {:induction false} BranchesChain(calls: seq<OpCall>, branches: Branches, sc: Scope, priors: seq<string>, n: nat)
    requires AllChained(calls, priors)
    ensures AllChained(calls + CompileBranches(branches, sc, priors, n).0, FinalFields(branches, sc, priors, n))
    decreases branches
  {
    match branches
    case EndIf => assert calls + [] == calls;
    case ElseIf(cond, body, more) =>
      var field := FinalField(sc.path, ElseIfBranch, n + 1);
      var first := BranchCalls(sc, ElseIfBranch, n, priors, Some(cond), body);
      var n1 := Compile(body, Within(sc, field), n + 1).1;
      BranchChains(calls, sc, ElseIfBranch, n, priors, Some(cond), body);
      BranchesChain(calls + first, more, sc, priors + [field], n1);
      assert calls + first + CompileBranches(more, sc, priors + [field], n1).0 == calls + CompileBranches(branches, sc, priors, n).0;
    case Else(body) => BranchChains(calls, sc, ElseBranch, n, priors, None, body);
  }

  // ----- the recorded blocks -----

  lemma {:induction false} GroupedGrows(a: seq<OpCall>, b: seq<OpCall>, g: set<string>)
    ensures Grouped(a, g) ==> Grouped(a + b, g)
    ensures Grouped(b, g) ==> Grouped(a + b, g)
  {
    forall f, h
      ensures Chained(a, f, h) || Chained(b, f, h) ==> Chained(a + b, f, h)
    {
      ChainedGrows(a, b, f, h);
    }
  }

  function BlockGroup(m: map<string, string>, block: Block): set<string> {
    Elements(RenamedAll(m, FieldsOf(block.branches)))
  }

  ghost predicate BlocksGrouped(calls: seq<OpCall>, m: map<string, string>, blocks: seq<Block>) {
    forall i :: 0 <= i < |blocks| ==> Grouped(calls, BlockGroup(m, blocks[i]))
  }

  lemma {:induction false} BlocksConcat(a: seq<OpCall>, b: seq<OpCall>, m: map<string, string>, x: seq<Block>, y: seq<Block>)
    requires BlocksGrouped(a, m, x) && BlocksGrouped(b, m, y)
    ensures BlocksGrouped(a + b, m, x + y)
  {
    forall i | 0 <= i < |x + y|
      ensures Grouped(a + b, BlockGroup(m, (x + y)[i]))
    {
      GroupedGrows(a, b, BlockGroup(m, (x + y)[i]));
    }
  }

  lemma {:induction false} NextField(m: map<string, string>, before: seq<Branch>, branch: Branch, final: string)
    requires Known(m, FieldsOf(before)) && Known(m, [branch.field]) && Renamed(m, branch.field) == final
    ensures FieldsOf(before + [branch]) == FieldsOf(before) + [branch.field] && Known(m, FieldsOf(before + [branch]))
    ensures RenamedAll(m, FieldsOf(before + [branch])) == RenamedAll(m, FieldsOf(before)) + [final]
  {
    assert [branch.field][0] == branch.field;
    assert FieldsOf(before + [branch]) == FieldsOf(before) + [branch.field];
  }

  /** Raw and final fields of a block correspond. */
  lemma {:induction false} FinalBlock(branches: Branches, before: seq<Branch>, path: string, inherited: seq<string>, local: seq<string>,
                                      n: nat, m: map<string, string>)
    requires PlainBranches(branches) && Table(m) && Known(m, local) && Known(m, FieldsOf(before))
    requires Fits(m, path, CallsOf(LowerBranches(branches, before, local, n).children))
    ensures RenamedAll(m, FieldsOf(AllBranches(branches, before, local, n)))
            == FinalFields(branches, Scope(path, inherited, RenamedAll(m, local)), RenamedAll(m, FieldsOf(before)), n)
    decreases branches
  {
    match branches
    case EndIf =>
    case ElseIf(cond, body, more) =>
      var branch := Branch(ElseIfBranch, Some(cond), RawField(ElseIfBranch, n + 1), n + 1);
      var first := LowerBranch(ElseIfBranch, Some(cond), body, FieldsOf(before), local, n);
      FitsThen(m, path, first.children, LowerBranches(more, before + [branch], local, first.counter).children);
      LoweredBranchWalks(ElseIfBranch, Some(cond), body, FieldsOf(before), path, inherited, local, n, m);
      NextField(m, before, branch, FinalField(path, ElseIfBranch, n + 1));
      FinalBlock(more, before + [branch], path, inherited, local, first.counter, m);
    case Else(body) =>
      LoweredBranchWalks(ElseBranch, None, body, FieldsOf(before), path, inherited, local, n, m);
      NextField(m, before, Branch(ElseBranch, None, RawField(ElseBranch, n + 1), n + 1), FinalField(path, ElseBranch, n + 1));
  }

  lemma {:induction false} LoweredBlocks(code: Code, path: string, inherited: seq<string>, local: seq<string>, n: nat, m: map<string, string>)
    requires Plain(code) && Table(m) && Known(m, local) && Fits(m, path, CallsOf(Lower(code, local, n).children))
    ensures BlocksGrouped(Compile(code, Scope(path, inherited, RenamedAll(m, local)), n).0, m, Lower(code, local, n).closed)
    decreases Weight(code), 3
  {
    var sc := Scope(path, inherited, RenamedAll(m, local));
    match code
    case Done =>
    case Do(call, next) =>
      var rest := Lower(next, local, n);
      FitsThen(m, path, [Op(WithSkips(call, local))], rest.children);
      LoweredBlocks(next, path, inherited, local, n, m);
      BlocksConcat([Guarded(call, sc)], Compile(next, sc, n).0, m, [], rest.closed);
    case If(cond, body, more, next) => OneBlock(code, path, inherited, local, n, m);
    case Include(name, body, next) =>
      var rest := Lower(next, local, n);
      FitsThen(m, path, [Sub(name, Complete(Lower(body, [], 0)), local)], rest.children);
      LoweredBlocks(next, path, inherited, local, n, m);
      var inner := Scope(Join(path, name), inherited + sc.local, []);
      BlocksConcat(Compile(body, inner, 0).0, Compile(next, sc, n).0, m, [], rest.closed);
  }

  lemma {:induction false} OneBlock(code: Code, path: string, inherited: seq<string>, local: seq<string>, n: nat, m: map<string, string>)
    requires code.If?
    requires Plain(code) && Table(m) && Known(m, local) && Fits(m, path, CallsOf(Lower(code, local, n).children))
    ensures BlocksGrouped(Compile(code, Scope(path, inherited, RenamedAll(m, local)), n).0, m, Lower(code, local, n).closed)
    decreases Weight(code), 2
  {
    var sc := Scope(path, inherited, RenamedAll(m, local));
    var branch := Branch(IfBranch, Some(code.cond), RawField(IfBranch, n + 1), n + 1);
    var first := LowerBranch(IfBranch, Some(code.cond), code.body, [], local, n);
    var others := LowerBranches(code.more, [branch], local, first.counter);
    var block := Block(n + 1, AllBranches(code.more, [branch], local, first.counter), true);
    var whole := Closing(Then(first, others), block);
    var rest := Lower(code.next, local, whole.counter);
    FitsThen(m, path, whole.children, rest.children);
    var calls := WholeBlock(code.cond, code.body, code.more, path, inherited, local, n, m);
    LoweredBlocks(code.next, path, inherited, local, whole.counter, m);
    BlocksConcat(calls, Compile(code.next, sc, whole.counter).0, m, whole.closed, rest.closed);
    assert Compile(code, sc, n).0 == calls + Compile(code.next, sc, whole.counter).0;
  }

  /** One block with all its branches, without what follows it. */
  lemma {:induction false} WholeBlock(cond: Condition, body: Code, more: Branches, path: string, inherited: seq<string>, local: seq<string>,
                                      n: nat, m: map<string, string>)
    returns (calls: seq<OpCall>)
    requires PlainCondition(cond) && Plain(body) && PlainBranches(more) && Table(m) && Known(m, local)
    requires
      var first := LowerBranch(IfBranch, Some(cond), body, [], local, n);
      var branch := Branch(IfBranch, Some(cond), RawField(IfBranch, n + 1), n + 1);
      Fits(m, path, CallsOf(first.children + LowerBranches(more, [branch], local, first.counter).children))
    ensures
      var sc, field := Scope(path, inherited, RenamedAll(m, local)), FinalField(path, IfBranch, n + 1);
      var first := LowerBranch(IfBranch, Some(cond), body, [], local, n);
      var branch := Branch(IfBranch, Some(cond), RawField(IfBranch, n + 1), n + 1);
      var others := LowerBranches(more, [branch], local, first.counter);
      var block := Block(n + 1, AllBranches(more, [branch], local, first.counter), true);
      && calls == BranchCalls(sc, IfBranch, n, [], Some(cond), body) + CompileBranches(more, sc, [field], first.counter).0
      && BlocksGrouped(calls, m, first.closed + others.closed + [block])
      && first.counter == Compile(body, Within(sc, field), n + 1).1 && others.counter == CompileBranches(more, sc, [field], first.counter).1
    decreases Weight(body) + WeightOf(more), 6
  {
    var sc, field := Scope(path, inherited, RenamedAll(m, local)), FinalField(path, IfBranch, n + 1);
    var branch := Branch(IfBranch, Some(cond), RawField(IfBranch, n + 1), n + 1);
    var first := LowerBranch(IfBranch, Some(cond), body, [], local, n);
    var others := LowerBranches(more, [branch], local, first.counter);
    FitsThen(m, path, first.children, others.children);
    LoweredBranchWalks(IfBranch, Some(cond), body, [], path, inherited, local, n, m);
    assert RenamedAll(m, []) == [];
    SingleField(m, branch, field);
    LoweredBranchesWalk(more, [branch], path, inherited, local, first.counter, m);
    var a := BranchCalls(sc, IfBranch, n, [], Some(cond), body);
    var b := CompileBranches(more, sc, [field], first.counter).0;
    BranchBlocks(IfBranch, Some(cond), body, [], path, inherited, local, n, m);
    BranchesBlocks(more, [branch], path, inherited, local, first.counter, m);
    BlocksConcat(a, b, m, first.closed, others.closed);
    FirstBranchChains(sc, n, cond, body);
    BranchesChain(a, more, sc, [field], first.counter);
    FinalBlock(more, [branch], path, inherited, local, first.counter, m);
    ChainIsGroup(a + b, FinalFields(more, sc, [field], first.counter));
    WithBlock(a + b, m, first.closed + others.closed, Block(n + 1, AllBranches(more, [branch], local, first.counter), true));
    calls := a + b;
  }

  lemma {:induction false} SingleField(m: map<string, string>, branch: Branch, field: string)
    requires Known(m, [branch.field]) && Renamed(m, branch.field) == field
    ensures FieldsOf([branch]) == [branch.field] && RenamedAll(m, FieldsOf([branch])) == [field] && Known(m, FieldsOf([branch]))
  {
    assert FieldsOf([branch]) == [branch.field];
  }

  lemma {:induction false} FirstBranchChains(sc: Scope, n: nat, cond: Condition, body: Code)
    ensures AllChained(BranchCalls(sc, IfBranch, n, [], Some(cond), body), [FinalField(sc.path, IfBranch, n + 1)])
  {
    BranchChains([], sc, IfBranch, n, [], Some(cond), body);
    assert [] + BranchCalls(sc, IfBranch, n, [], Some(cond), body) == BranchCalls(sc, IfBranch, n, [], Some(cond), body);
    assert [] + [FinalField(sc.path, IfBranch, n + 1)] == [FinalField(sc.path, IfBranch, n + 1)];
  }

  lemma {:induction false} WithBlock(calls: seq<OpCall>, m: map<string, string>, blocks: seq<Block>, block: Block)
    requires BlocksGrouped(calls, m, blocks) && Grouped(calls, BlockGroup(m, block))
    ensures BlocksGrouped(calls, m, blocks + [block])
  {
  }

  lemma {:induction false} BranchBlocks(kind: BranchKind, cond: Option<Condition>, body: Code, priors: seq<string>, path: string,
                                        inherited: seq<string>, local: seq<string>, n: nat, m: map<string, string>)
    requires Plain(body) && (cond.Some? ==> PlainCondition(cond.value)) && Table(m) && Known(m, local) && Known(m, priors)
    requires Fits(m, path, CallsOf(LowerBranch(kind, cond, body, priors, local, n).children))
    ensures
      var sc, r := Scope(path, inherited, RenamedAll(m, local)), LowerBranch(kind, cond, body, priors, local, n);
      BlocksGrouped(BranchCalls(sc, kind, n, RenamedAll(m, priors), cond, body), m, r.closed)
    decreases Weight(body), 4
  {
    var sc := Scope(path, inherited, RenamedAll(m, local));
    var raw, field := RawField(kind, n + 1), FinalField(path, kind, n + 1);
    var inside := Lower(body, local + [raw], n + 1);
    LoweredBranchWalks(kind, cond, body, priors, path, inherited, local, n, m);
    FitsThen(m, path, [Op(RawCall(kind, n + 1, priors, cond, local))], inside.children);
    KnownConcat(m, local, [raw]);
    RenamedConcat(m, local, [raw]);
    OneRenamed(m, raw, field);
    LoweredBlocks(body, path, inherited, local + [raw], n + 1, m);
    BlocksConcat([BranchCall(sc, kind, n + 1, RenamedAll(m, priors), cond)], Compile(body, Within(sc, field), n + 1).0, m, [], inside.closed);
  }

  lemma {:induction false} BranchesBlocks(branches: Branches, before: seq<Branch>, path: string, inherited: seq<string>,
                                          local: seq<string>, n: nat, m: map<string, string>)
    requires PlainBranches(branches) && Table(m) && Known(m, local) && Known(m, FieldsOf(before))
    requires Fits(m, path, CallsOf(LowerBranches(branches, before, local, n).children))
    ensures
      var calls := CompileBranches(branches, Scope(path, inherited, RenamedAll(m, local)), RenamedAll(m, FieldsOf(before)), n).0;
      BlocksGrouped(calls, m, LowerBranches(branches, before, local, n).closed)
    decreases WeightOf(branches), 5
  {
    var sc, priors := Scope(path, inherited, RenamedAll(m, local)), RenamedAll(m, FieldsOf(before));
    match branches
    case EndIf =>
    case ElseIf(cond, body, more) =>
      var branch := Branch(ElseIfBranch, Some(cond), RawField(ElseIfBranch, n + 1), n + 1);
      var field := FinalField(path, ElseIfBranch, n + 1);
      var first := LowerBranch(ElseIfBranch, Some(cond), body, FieldsOf(before), local, n);
      var others := LowerBranches(more, before + [branch], local, first.counter);
      FitsThen(m, path, first.children, others.children);
      LoweredBranchWalks(ElseIfBranch, Some(cond), body, FieldsOf(before), path, inherited, local, n, m);
      NextField(m, before, branch, field);
      BranchBlocks(ElseIfBranch, Some(cond), body, FieldsOf(before), path, inherited, local, n, m);
      BranchesBlocks(more, before + [branch], path, inherited, local, first.counter, m);
      BlocksConcat(BranchCalls(sc, ElseIfBranch, n, priors, Some(cond), body), CompileBranches(more, sc, priors + [field], first.counter).0,
                   m, first.closed, others.closed);
    case Else(body) => BranchBlocks(ElseBranch, None, body, FieldsOf(before), path, inherited, local, n, m);
  }

  // ----- the groups of a whole traversal -----

  ghost predicate AllGrouped(flat: Flat) {
    forall i :: 0 <= i < |flat.groups| ==> Grouped(flat.calls, flat.groups[i])
  }

  ghost predicate KeepsGroups(flow: Flow) {
    forall path, inherited, acc :: AllGrouped(acc) ==>
      var (after, problem) := Traverse(flow, path, inherited, acc);
      problem.None? ==> AllGrouped(after) && acc.calls <= after.calls
  }

  ghost predicate ChildrenKeep(children: seq<Child>) {
    forall i :: 0 <= i < |children| && children[i].Sub? ==> KeepsGroups(children[i].flow)
  }

  lemma {:induction false} MoreCalls(a: Flat, b: Flat)
    requires AllGrouped(a) && a.calls <= b.calls && a.groups == b.groups
    ensures AllGrouped(b)
  {
    var rest := b.calls[|a.calls|..];
    assert b.calls == a.calls + rest;
    forall i | 0 <= i < |b.groups|
      ensures Grouped(b.calls, b.groups[i])
    {
      GroupedGrows(a.calls, rest, b.groups[i]);
    }
  }

  lemma {:induction false} WalkKeeps(children: seq<Child>, locals: seq<OpCall>, path: string, m: map<string, string>, inherited: seq<string>,
                                     acc: Flat, entries: seq<Entry>)
    requires |locals| == |CallsOf(children)| && ChildrenKeep(children) && AllGrouped(acc)
    ensures
      var r := Walk(children, locals, path, m, inherited, acc, entries);
      r.2.None? ==> AllGrouped(r.0) && acc.calls <= r.0.calls
    decreases |children|
  {
    if children != [] {
      assert ChildrenKeep(children[1..]) by {
        assert forall i :: 0 <= i < |children| - 1 ==> children[1..][i] == children[i + 1];
      }
      match children[0]
      case Op(_) =>
        var acc1 := acc.(calls := acc.calls + [Inherit(locals[0], path, inherited)]);
        MoreCalls(acc, acc1);
        WalkKeeps(children[1..], locals[1..], path, m, inherited, acc1, entries + [OpEntry(|acc.calls|)]);
      case Sub(name, inner, parentSkips) =>
        var innerPath, guards := Join(path, name), inherited + RenamedAll(m, parentSkips);
        if innerPath !in acc.structures {
          var (acc1, problem) := Traverse(inner, innerPath, guards, acc);
          assert KeepsGroups(children[0].flow);
          if problem.None? {
            WalkKeeps(children[1..], locals, path, m, inherited, acc1, entries + [FlowEntry(innerPath)]);
          }
        }
    }
  }

  lemma {:induction false} ChildrenConcat(a: seq<Child>, b: seq<Child>)
    requires ChildrenKeep(a) && ChildrenKeep(b)
    ensures ChildrenKeep(a + b)
  {
  }

  lemma {:induction false} LoweredKeep(code: Code, local: seq<string>, n: nat)
    requires Plain(code)
    ensures ChildrenKeep(Lower(code, local, n).children)
    decreases Weight(code), 0
  {
    match code
    case Done =>
    case Do(call, next) =>
      LoweredKeep(next, local, n);
      ChildrenConcat([Op(WithSkips(call, local))], Lower(next, local, n).children);
    case If(cond, body, more, next) =>
      var branch := Branch(IfBranch, Some(cond), RawField(IfBranch, n + 1), n + 1);
      var first := LowerBranch(IfBranch, Some(cond), body, [], local, n);
      var others := LowerBranches(more, [branch], local, first.counter);
      LoweredKeep(body, local + [branch.field], n + 1);
      ChildrenConcat([Op(RawCall(IfBranch, n + 1, [], Some(cond), local))], Lower(body, local + [branch.field], n + 1).children);
      LoweredBranchesKeep(more, [branch], local, first.counter);
      ChildrenConcat(first.children, others.children);
      LoweredKeep(next, local, others.counter);
      ChildrenConcat(first.children + others.children, Lower(next, local, others.counter).children);
    case Include(name, body, next) =>
      LoweredFlowKeeps(body);
      LoweredKeep(next, local, n);
      ChildrenConcat([Sub(name, Complete(Lower(body, [], 0)), local)], Lower(next, local, n).children);
  }

  lemma {:induction false} LoweredBranchesKeep(branches: Branches, before: seq<Branch>, local: seq<string>, n: nat)
    requires PlainBranches(branches)
    ensures ChildrenKeep(LowerBranches(branches, before, local, n).children)
    decreases WeightOf(branches), 0
  {
    if !branches.EndIf? {
      var (kind, cond) := if branches.ElseIf? then (ElseIfBranch, Some(branches.cond)) else (ElseBranch, None);
      var raw := RawField(kind, n + 1);
      var first := LowerBranch(kind, cond, branches.body, FieldsOf(before), local, n);
      LoweredKeep(branches.body, local + [raw], n + 1);
      ChildrenConcat([Op(RawCall(kind, n + 1, FieldsOf(before), cond, local))], Lower(branches.body, local + [raw], n + 1).children);
      if branches.ElseIf? {
        var before' := before + [Branch(kind, cond, raw, n + 1)];
        LoweredBranchesKeep(branches.more, before', local, first.counter);
        ChildrenConcat(first.children, LowerBranches(branches.more, before', local, first.counter).children);
      }
    }
  }

  lemma {:induction false} LoweredFlowKeeps(code: Code)
    requires Plain(code)
    ensures KeepsGroups(Complete(Lower(code, [], 0)))
    decreases Weight(code), 1
  {
    var flow := Complete(Lower(code, [], 0));
    var calls := CallsOf(flow.children);
    LoweredKeep(code, [], 0);
    LoweredNumbered(code, [], 0);
    forall path, inherited, acc | AllGrouped(acc) && Traverse(flow, path, inherited, acc).1.None?
      ensures AllGrouped(Traverse(flow, path, inherited, acc).0) && acc.calls <= Traverse(flow, path, inherited, acc).0.calls
    {
      RenamesFlow(calls, path);
      FlowTable(calls, path);
      var (locals, m) := Simultaneous(calls, path);
      WalkKeeps(flow.children, locals, path, m, inherited, acc, []);
      LoweredWalks(code, path, inherited, [], 0, m);
      LoweredBlocks(code, path, inherited, [], 0, m);
      var compiled := Compile(code, Scope(path, inherited, RenamedAll(m, [])), 0).0;
      var walked := Walk(flow.children, locals, path, m, inherited, acc, []).0;
      assert walked.calls == acc.calls + compiled;
      OwnGroups(acc.calls, compiled, m, flow.closed);
    }
  }

  lemma {:induction false} OwnGroups(before: seq<OpCall>, compiled: seq<OpCall>, m: map<string, string>, closed: seq<Block>)
    requires BlocksGrouped(compiled, m, closed)
    ensures forall i :: 0 <= i < |GroupsOf(closed, m)| ==> Grouped(before + compiled, GroupsOf(closed, m)[i])
  {
    if closed != [] {
      assert BlocksGrouped(compiled, m, closed[1..]) by {
        assert forall i :: 0 <= i < |closed| - 1 ==> closed[1..][i] == closed[i + 1];
      }
      OwnGroups(before, compiled, m, closed[1..]);
      assert Grouped(compiled, BlockGroup(m, closed[0]));
      GroupedGrows(before, compiled, BlockGroup(m, closed[0]));
    }
  }

  /** The compiled list of a whole pipeline has the properties that the test relies on. */
  lemma {:induction false} CompiledListIsGood(code: Code)
    requires Plain(code) && NamesAccepted(Compile(code, TOP, 0).0)
    ensures var calls := Compile(code, TOP, 0).0; Made(calls) && DistinctFields(calls) && AllGuaranteed(calls, {})
  {
    CaptureFree(code);
    CompiledGuaranteed(code, TOP, 0);
    assert GuardsOf(TOP) == {};
    CompiledMade(code, TOP, 0);
    CompiledNamed(code, TOP, 0);
    ControlFieldsAreReserved(Compile(code, TOP, 0).0);
  }

  /** What the traversal of a structured flow yields. */
  lemma {:induction false} TraversalIsGrouped(code: Code)
    requires Plain(code)
    ensures
      var (flat, problem) := Traverse(Complete(Lower(code, [], 0)), "", [], Flat([], map[], []));
      problem.None? ==> flat.calls == Compile(code, TOP, 0).0 && AllGrouped(flat)
  {
    var start := Flat([], map[], []);
    TraverseCompiles(code, "", []);
    assert [] + Compile(code, TOP, 0).0 == Compile(code, TOP, 0).0;
    LoweredFlowKeeps(code);
    assert AllGrouped(start);
  }

  /** Main result: over any nesting and any outcome of the conditions, two operators that the collected groups judge
      mutually exclusive never execute in the same run. */
  lemma {:induction false} ExclusionIsSound(code: Code, f: Frame, a: nat, b: nat)
    requires Plain(code) && NamesAccepted(Compile(code, TOP, 0).0)
    requires Traverse(Complete(Lower(code, [], 0)), "", [], Flat([], map[], [])).1.None?
    requires
      var flat := Traverse(Complete(Lower(code, [], 0)), "", [], Flat([], map[], [])).0;
      a < |flat.calls| && b < |flat.calls| && MutuallyExclusive(flat.groups, flat.calls[a].config.skip, flat.calls[b].config.skip)
    ensures
      var calls := Traverse(Complete(Lower(code, [], 0)), "", [], Flat([], map[], [])).0.calls;
      !(Executes(calls[a], FrameAt(calls, f, a)) && Executes(calls[b], FrameAt(calls, f, b)))
  {
    var flat := Traverse(Complete(Lower(code, [], 0)), "", [], Flat([], map[], [])).0;
    TraversalIsGrouped(code);
    CompiledListIsGood(code);
    ExclusiveNeverBothRun(flat.calls, flat.groups, f, a, b);
  }
}
