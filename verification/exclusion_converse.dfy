/** The test for mutually exclusive operators is complete: it recognises any two branches of one block. */
module ExclusionConverses {
  import opened Options
  import opened Accesses
  import opened Operators
  import opened Calls
  import opened ControlFlow
  import opened Flows
  import opened SubFlows
  import opened Compiler
  import opened Exclusion
  import opened ExclusionGroups

  /** The control call that writes `t` reads `s`, the field of an earlier branch of its block. */
  ghost predicate IsPair(calls: seq<OpCall>, s: string, t: string) {
    exists j: nat :: WrittenBy(calls, j, t) && s in calls[j].work.priors
  }

  lemma {:induction false} PairSplits(a: seq<OpCall>, b: seq<OpCall>, s: string, t: string)
    ensures IsPair(a + b, s, t) <==> IsPair(a, s, t) || IsPair(b, s, t)
  {
    var c := a + b;
    if IsPair(a, s, t) {
      var j: nat :| WrittenBy(a, j, t) && s in a[j].work.priors;
      assert WrittenBy(c, j, t) && c[j] == a[j];
    }
    if IsPair(b, s, t) {
      var j: nat :| WrittenBy(b, j, t) && s in b[j].work.priors;
      assert WrittenBy(c, |a| + j, t) && c[|a| + j] == b[j];
    }
    if IsPair(c, s, t) {
      var j: nat :| WrittenBy(c, j, t) && s in c[j].work.priors;
      if j < |a| { assert WrittenBy(a, j, t); } else { assert WrittenBy(b, j - |a|, t); }
    }
  }

  lemma {:induction false} PairIsWritten(calls: seq<OpCall>, s: string, t: string)
    requires IsPair(calls, s, t)
    ensures t in ControlFields(calls)
  {
    var j: nat :| WrittenBy(calls, j, t) && s in calls[j].work.priors;
  }

  lemma {:induction false} PairInBranch(sc: Scope, kind: BranchKind, n: nat, priors: seq<string>, cond: Option<Condition>, body: Code, s: string, t: string)
    requires IsPair(BranchCalls(sc, kind, n, priors, cond, body), s, t)
    ensures var field := FinalField(sc.path, kind, n + 1);
            (s in priors && t == field) || IsPair(Compile(body, Within(sc, field), n + 1).0, s, t)
  {
    var ctl := BranchCall(sc, kind, n + 1, priors, cond);
    ControlWork(sc, kind, n + 1, priors, cond);
    PairSplits([ctl], Compile(body, Within(sc, FinalField(sc.path, kind, n + 1)), n + 1).0, s, t);
    if IsPair([ctl], s, t) {
      var j: nat :| WrittenBy([ctl], j, t) && s in [ctl][j].work.priors;
      assert [ctl][j] == ctl;
    }
  }

  // ----- no call carries two fields of one block -----

  ghost predicate CarriesBoth(call: OpCall, s: string, t: string) {
    s in call.config.skip && t in call.config.skip
  }

  ghost predicate Apart(calls: seq<OpCall>) {
    forall k, s, t :: 0 <= k < |calls| && IsPair(calls, s, t) ==> !CarriesBoth(calls[k], s, t)
  }

  /** Guards come from outside or from the calls themselves, and these write fields of their own. */
  ghost predicate Bounded(calls: seq<OpCall>, guards: set<string>) {
    && (forall k :: 0 <= k < |calls| ==> Elements(calls[k].config.skip) <= guards + ControlFields(calls))
    && ControlFields(calls) !! guards
  }

  lemma {:induction false} GuaranteedIsBounded(calls: seq<OpCall>, guards: set<string>)
    requires AllGuaranteed(calls, guards) && ControlFields(calls) !! guards
    ensures Bounded(calls, guards)
  {
    forall k, s | 0 <= k < |calls| && s in calls[k].config.skip
      ensures s in guards + ControlFields(calls)
    {
      assert Guarantees(calls, guards, k);
      if s !in guards {
        var j: nat :| j < k && WrittenBy(calls, j, s) && Elements(calls[j].config.skip) <= Elements(calls[k].config.skip);
      }
    }
  }

  lemma {:induction false} ApartConcat(a: seq<OpCall>, b: seq<OpCall>, guards: set<string>)
    requires Apart(a) && Apart(b) && Bounded(a, guards) && Bounded(b, guards) && ControlFields(a) !! ControlFields(b)
    ensures Apart(a + b)
  {
    var c := a + b;
    forall k, s, t | 0 <= k < |c| && IsPair(c, s, t)
      ensures !CarriesBoth(c[k], s, t)
    {
      PairSplits(a, b, s, t);
      if IsPair(a, s, t) { PairIsWritten(a, s, t); }
      if IsPair(b, s, t) { PairIsWritten(b, s, t); }
      assert forall x :: x in c[k].config.skip ==> x in Elements(c[k].config.skip);
      if k < |a| { assert c[k] == a[k]; } else { assert c[k] == b[k - |a|]; }
    }
  }

  lemma {:induction false} UserCallApart(call: OpCall)
    requires call.work.UserOp?
    ensures Apart([call]) && forall s, t :: !IsPair([call], s, t)
  {
    assert forall j, s :: !WrittenBy([call], j, s);
  }

  /** What compiled calls satisfy in a place where `priors` are the fields of earlier branches. */
  ghost predicate Settling(calls: seq<OpCall>, sc: Scope, priors: seq<string>) {
    && AllGuaranteed(calls, GuardsOf(sc)) && DistinctFields(calls) && ControlFields(calls) !! GuardsOf(sc) + Elements(priors)
    && Elements(priors) !! GuardsOf(sc)
  }

  lemma {:induction false} SettlingBounded(calls: seq<OpCall>, sc: Scope, priors: seq<string>)
    requires Settling(calls, sc, priors)
    ensures Bounded(calls, GuardsOf(sc))
  {
    GuaranteedIsBounded(calls, GuardsOf(sc));
  }

  lemma {:induction false} BranchApart(sc: Scope, kind: BranchKind, n: nat, priors: seq<string>, cond: Option<Condition>, body: Code)
    requires Plain(body) && Settling(BranchCalls(sc, kind, n, priors, cond, body), sc, priors)
    ensures Apart(BranchCalls(sc, kind, n, priors, cond, body))
    decreases Weight(body), 1
  {
    var field := FinalField(sc.path, kind, n + 1);
    var ctl, inside := BranchCall(sc, kind, n + 1, priors, cond), Compile(body, Within(sc, field), n + 1).0;
    var calls := [ctl] + inside;
    GuardedAdds(ControlCall(FinalName(sc.path, kind, n + 1), field, kind, n + 1, priors, cond), sc);
    ControlWork(sc, kind, n + 1, priors, cond);
    FieldsConcat([ctl], inside);
    OneField(ctl);
    WithinGuards(sc, field);
    CompiledGuaranteed(body, Within(sc, field), n + 1);
    CompiledApart(body, Within(sc, field), n + 1);
    GuaranteedIsBounded(inside, GuardsOf(Within(sc, field)));
    forall k, s, t | 0 <= k < |calls| && IsPair(calls, s, t)
      ensures !CarriesBoth(calls[k], s, t)
    {
      assert forall x :: x in calls[k].config.skip <==> x in Elements(calls[k].config.skip);
      assert s in priors ==> s in Elements(priors);
      PairInBranch(sc, kind, n, priors, cond, body, s, t);
      if IsPair(inside, s, t) { PairIsWritten(inside, s, t); }
      if k > 0 { assert calls[k] == inside[k - 1]; }
    }
  }

  lemma {:induction false} WithinGuards(sc: Scope, field: string)
    ensures GuardsOf(Within(sc, field)) == GuardsOf(sc) + {field}
  {
    assert Elements(sc.local + [field]) == Elements(sc.local) + {field};
  }

  lemma {:induction false} SettlingConcat(a: seq<OpCall>, b: seq<OpCall>, sc: Scope, priors: seq<string>)
    requires DistinctFields(a + b) && ControlFields(a + b) !! GuardsOf(sc) + Elements(priors) && Elements(priors) !! GuardsOf(sc)
    requires AllGuaranteed(a, GuardsOf(sc)) && AllGuaranteed(b, GuardsOf(sc))
    ensures Settling(a, sc, priors) && Settling(b, sc, priors) && Settling(a + b, sc, priors) && ControlFields(a) !! ControlFields(b)
  {
    FieldsConcat(a, b);
    GuaranteedConcat(a, b, GuardsOf(sc));
  }

  lemma {:induction false} BothApart(a: seq<OpCall>, b: seq<OpCall>, sc: Scope)
    requires Settling(a, sc, []) && Settling(b, sc, []) && ControlFields(a) !! ControlFields(b) && Apart(a) && Apart(b)
    ensures Apart(a + b)
  {
    SettlingBounded(a, sc, []);
    SettlingBounded(b, sc, []);
    ApartConcat(a, b, GuardsOf(sc));
  }

  /** Over any nesting: no call is guarded by two branches of one block. */
  lemma {:induction false} CompiledApart(code: Code, sc: Scope, n: nat)
    requires Plain(code) && DistinctFields(Compile(code, sc, n).0) && ControlFields(Compile(code, sc, n).0) !! GuardsOf(sc)
    ensures Apart(Compile(code, sc, n).0)
    decreases Weight(code), 0
  {
    assert Elements([]) == {};
    match code
    case Done =>
    case Do(call, next) =>
      var a, b := [Guarded(call, sc)], Compile(next, sc, n).0;
      GuardedAdds(call, sc);
      assert forall s :: s in Guarded(call, sc).config.skip ==> s in Elements(Guarded(call, sc).config.skip);
      assert AllGuaranteed(a, GuardsOf(sc));
      CompiledGuaranteed(next, sc, n);
      SettlingConcat(a, b, sc, []);
      UserCallApart(Guarded(call, sc));
      CompiledApart(next, sc, n);
      BothApart(a, b, sc);
    case If(cond, body, more, next) =>
      var field := FinalField(sc.path, IfBranch, n + 1);
      var a, n1 := BranchCalls(sc, IfBranch, n, [], Some(cond), body), Compile(body, Within(sc, field), n + 1).1;
      var (b, n2) := CompileBranches(more, sc, [field], n1);
      var c := Compile(next, sc, n2).0;
      BranchCompiledGuaranteed(sc, IfBranch, n, [], Some(cond), body);
      BranchesGuaranteed(more, sc, [field], n1);
      CompiledGuaranteed(next, sc, n2);
      GuaranteedConcat(a, b, GuardsOf(sc));
      SettlingConcat(a + b, c, sc, []);
      SettlingConcat(a, b, sc, []);
      BranchApart(sc, IfBranch, n, [], Some(cond), body);
      FirstField(sc, IfBranch, n, [], Some(cond), body);
      BranchesApart(more, sc, [field], n1);
      CompiledApart(next, sc, n2);
      BothApart(a, b, sc);
      BothApart(a + b, c, sc);
    case Include(name, body, next) =>
      var inner := Scope(Join(sc.path, name), sc.inherited + sc.local, []);
      assert GuardsOf(inner) == GuardsOf(sc);
      var a, b := Compile(body, inner, 0).0, Compile(next, sc, n).0;
      CompiledGuaranteed(body, inner, 0);
      CompiledGuaranteed(next, sc, n);
      SettlingConcat(a, b, sc, []);
      CompiledApart(body, inner, 0);
      CompiledApart(next, sc, n);
      BothApart(a, b, sc);
  }

  lemma {:induction false} FirstField(sc: Scope, kind: BranchKind, n: nat, priors: seq<string>, cond: Option<Condition>, body: Code)
    ensures FinalField(sc.path, kind, n + 1) in ControlFields(BranchCalls(sc, kind, n, priors, cond, body))
  {
    var ctl := BranchCall(sc, kind, n + 1, priors, cond);
    ControlWork(sc, kind, n + 1, priors, cond);
    OneField(ctl);
    FieldsConcat([ctl], Compile(body, Within(sc, FinalField(sc.path, kind, n + 1)), n + 1).0);
  }

  lemma {:induction false} BranchesApart(branches: Branches, sc: Scope, priors: seq<string>, n: nat)
    requires PlainBranches(branches) && Settling(CompileBranches(branches, sc, priors, n).0, sc, priors)
    ensures Apart(CompileBranches(branches, sc, priors, n).0)
    decreases WeightOf(branches), 2
  {
    match branches
    case EndIf =>
    case ElseIf(cond, body, more) =>
      var field := FinalField(sc.path, ElseIfBranch, n + 1);
      var a, n1 := BranchCalls(sc, ElseIfBranch, n, priors, Some(cond), body), Compile(body, Within(sc, field), n + 1).1;
      var b := CompileBranches(more, sc, priors + [field], n1).0;
      BranchCompiledGuaranteed(sc, ElseIfBranch, n, priors, Some(cond), body);
      BranchesGuaranteed(more, sc, priors + [field], n1);
      SettlingConcat(a, b, sc, priors);
      BranchApart(sc, ElseIfBranch, n, priors, Some(cond), body);
      FirstField(sc, ElseIfBranch, n, priors, Some(cond), body);
      assert Elements(priors + [field]) == Elements(priors) + {field};
      BranchesApart(more, sc, priors + [field], n1);
      assert Elements([]) == {};
      BothApart(a, b, sc);
    case Else(body) => BranchApart(sc, ElseBranch, n, priors, None, body);
  }

  // ----- every block is collected -----

  ghost predicate InGroup(groups: seq<set<string>>, s: string, t: string) {
    exists g :: 0 <= g < |groups| && s in groups[g] && t in groups[g]
  }

  ghost predicate InBlocks(m: map<string, string>, blocks: seq<Block>, s: string, t: string) {
    exists i :: 0 <= i < |blocks| && s in BlockGroup(m, blocks[i]) && t in BlockGroup(m, blocks[i])
  }

  /** Wherever the traversal comes from, traversing the flow at `path` collects a group with both fields. */
  ghost predicate FlowCollects(flow: Flow, path: string, guards: seq<string>, s: string, t: string) {
    forall acc :: Traverse(flow, path, guards, acc).1.None? ==> InGroup(Traverse(flow, path, guards, acc).0.groups, s, t)
  }

  ghost predicate ChildCollects(child: Child, path: string, m: map<string, string>, inherited: seq<string>, s: string, t: string) {
    child.Sub? && FlowCollects(child.flow, Join(path, child.name), inherited + RenamedAll(m, child.parentSkips), s, t)
  }

  ghost predicate NestedCollects(children: seq<Child>, path: string, m: map<string, string>, inherited: seq<string>, s: string, t: string) {
    exists i :: 0 <= i < |children| && ChildCollects(children[i], path, m, inherited, s, t)
  }

  /** A block of the fragment or a flow nested in it has both fields. */
  ghost predicate Covers(r: Recorded, path: string, m: map<string, string>, inherited: seq<string>, s: string, t: string) {
    InBlocks(m, r.closed, s, t) || NestedCollects(r.children, path, m, inherited, s, t)
  }

  lemma {:induction false} CoversThen(a: Recorded, b: Recorded, path: string, m: map<string, string>, inherited: seq<string>, s: string, t: string)
    requires Covers(a, path, m, inherited, s, t) || Covers(b, path, m, inherited, s, t)
    ensures Covers(Then(a, b), path, m, inherited, s, t)
  {
    var children, closed := a.children + b.children, a.closed + b.closed;
    if i :| 0 <= i < |a.closed| && s in BlockGroup(m, a.closed[i]) && t in BlockGroup(m, a.closed[i]) {
      assert closed[i] == a.closed[i];
    } else if i :| 0 <= i < |b.closed| && s in BlockGroup(m, b.closed[i]) && t in BlockGroup(m, b.closed[i]) {
      assert closed[|a.closed| + i] == b.closed[i];
    } else if i :| 0 <= i < |a.children| && ChildCollects(a.children[i], path, m, inherited, s, t) {
      assert children[i] == a.children[i];
    } else {
      var i :| 0 <= i < |b.children| && ChildCollects(b.children[i], path, m, inherited, s, t);
      assert children[|a.children| + i] == b.children[i];
    }
  }

  lemma {:induction false} CoversClosing(r: Recorded, block: Block, path: string, m: map<string, string>, inherited: seq<string>, s: string, t: string)
    requires Covers(r, path, m, inherited, s, t) || (s in BlockGroup(m, block) && t in BlockGroup(m, block))
    ensures Covers(Closing(r, block), path, m, inherited, s, t)
  {
    var closed := r.closed + [block];
    if i :| 0 <= i < |r.closed| && s in BlockGroup(m, r.closed[i]) && t in BlockGroup(m, r.closed[i]) {
      assert closed[i] == r.closed[i];
    }
    assert closed[|r.closed|] == block;
  }

  /** The fields of a pair that spans two branches are among those of the block. */
  lemma {:induction false} AmongFinal(branches: Branches, sc: Scope, priors: seq<string>, n: nat, s: string)
    requires s in priors
    ensures s in FinalFields(branches, sc, priors, n)
    decreases branches
  {
    if branches.ElseIf? {
      var field := FinalField(sc.path, ElseIfBranch, n + 1);
      AmongFinal(branches.more, sc, priors + [field], Compile(branches.body, Within(sc, field), n + 1).1, s);
    }
  }

  lemma {:induction false} LoweredCovers(code: Code, path: string, inherited: seq<string>, local: seq<string>, n: nat, m: map<string, string>,
                                         s: string, t: string)
    requires Plain(code) && Table(m) && Known(m, local) && Fits(m, path, CallsOf(Lower(code, local, n).children)) && s != t
    requires IsPair(Compile(code, Scope(path, inherited, RenamedAll(m, local)), n).0, s, t)
    ensures Covers(Lower(code, local, n), path, m, inherited, s, t)
    decreases Weight(code), 3
  {
    var sc := Scope(path, inherited, RenamedAll(m, local));
    match code
    case Done =>
    case Do(call, next) =>
      var first := One(Op(WithSkips(call, local)), n);
      GuardedAdds(call, sc);
      UserCallApart(Guarded(call, sc));
      PairSplits([Guarded(call, sc)], Compile(next, sc, n).0, s, t);
      FitsThen(m, path, first.children, Lower(next, local, n).children);
      LoweredCovers(next, path, inherited, local, n, m, s, t);
      CoversThen(first, Lower(next, local, n), path, m, inherited, s, t);
    case If(cond, body, more, next) => BlockCovers(code, path, inherited, local, n, m, s, t);
    case Include(name, body, next) =>
      var child := Sub(name, Complete(Lower(body, [], 0)), local);
      var inner := Scope(Join(path, name), inherited + sc.local, []);
      var inside, rest := Compile(body, inner, 0).0, Compile(next, sc, n).0;
      PairSplits(inside, rest, s, t);
      FitsThen(m, path, [child], Lower(next, local, n).children);
      if IsPair(inside, s, t) {
        FlowCovers(body, Join(path, name), inherited + sc.local, s, t);
        assert ChildCollects([child][0], path, m, inherited, s, t);
      } else {
        LoweredCovers(next, path, inherited, local, n, m, s, t);
      }
      CoversThen(One(child, n), Lower(next, local, n), path, m, inherited, s, t);
  }

  lemma {:induction false} BranchCovers(kind: BranchKind, cond: Option<Condition>, body: Code, priors: seq<string>, path: string, inherited: seq<string>,
                                        local: seq<string>, n: nat, m: map<string, string>, s: string, t: string)
    requires Plain(body) && (cond.Some? ==> PlainCondition(cond.value)) && Table(m) && Known(m, local) && Known(m, priors) && s != t
    requires Fits(m, path, CallsOf(LowerBranch(kind, cond, body, priors, local, n).children))
    requires IsPair(BranchCalls(Scope(path, inherited, RenamedAll(m, local)), kind, n, RenamedAll(m, priors), cond, body), s, t)
    ensures (s in RenamedAll(m, priors) && t == FinalField(path, kind, n + 1))
            || Covers(LowerBranch(kind, cond, body, priors, local, n), path, m, inherited, s, t)
    decreases Weight(body), 4
  {
    var sc := Scope(path, inherited, RenamedAll(m, local));
    var raw, field := RawField(kind, n + 1), FinalField(path, kind, n + 1);
    var head, inside := One(Op(RawCall(kind, n + 1, priors, cond, local)), n + 1), Lower(body, local + [raw], n + 1);
    PairInBranch(sc, kind, n, RenamedAll(m, priors), cond, body, s, t);
    LoweredBranchWalks(kind, cond, body, priors, path, inherited, local, n, m);
    FitsThen(m, path, head.children, inside.children);
    KnownConcat(m, local, [raw]);
    RenamedConcat(m, local, [raw]);
    OneRenamed(m, raw, field);
    if !(s in RenamedAll(m, priors) && t == field) {
      LoweredCovers(body, path, inherited, local + [raw], n + 1, m, s, t);
      CoversThen(head, inside, path, m, inherited, s, t);
    }
  }

  lemma {:induction false} BranchesCover(branches: Branches, before: seq<Branch>, path: string, inherited: seq<string>, local: seq<string>, n: nat,
                                         m: map<string, string>, s: string, t: string)
    requires PlainBranches(branches) && Table(m) && Known(m, local) && Known(m, FieldsOf(before)) && s != t
    requires Fits(m, path, CallsOf(LowerBranches(branches, before, local, n).children))
    requires IsPair(CompileBranches(branches, Scope(path, inherited, RenamedAll(m, local)), RenamedAll(m, FieldsOf(before)), n).0, s, t)
    ensures
      var fields := FinalFields(branches, Scope(path, inherited, RenamedAll(m, local)), RenamedAll(m, FieldsOf(before)), n);
      (s in fields && t in fields) || Covers(LowerBranches(branches, before, local, n), path, m, inherited, s, t)
    decreases WeightOf(branches), 5
  {
    var sc, priors := Scope(path, inherited, RenamedAll(m, local)), RenamedAll(m, FieldsOf(before));
    match branches
    case EndIf =>
    case ElseIf(cond, body, more) =>
      var branch := Branch(ElseIfBranch, Some(cond), RawField(ElseIfBranch, n + 1), n + 1);
      var field := FinalField(path, ElseIfBranch, n + 1);
      var first := LowerBranch(ElseIfBranch, Some(cond), body, FieldsOf(before), local, n);
      var others := LowerBranches(more, before + [branch], local, first.counter);
      var a := BranchCalls(sc, ElseIfBranch, n, priors, Some(cond), body);
      FitsThen(m, path, first.children, others.children);
      LoweredBranchWalks(ElseIfBranch, Some(cond), body, FieldsOf(before), path, inherited, local, n, m);
      NextField(m, before, branch, field);
      PairSplits(a, CompileBranches(more, sc, priors + [field], first.counter).0, s, t);
      if IsPair(a, s, t) {
        BranchCovers(ElseIfBranch, Some(cond), body, FieldsOf(before), path, inherited, local, n, m, s, t);
        if s in priors && t == field {
          AmongFinal(more, sc, priors + [field], first.counter, s);
          AmongFinal(more, sc, priors + [field], first.counter, t);
        } else {
          CoversThen(first, others, path, m, inherited, s, t);
        }
      } else {
        BranchesCover(more, before + [branch], path, inherited, local, first.counter, m, s, t);
        if Covers(others, path, m, inherited, s, t) { CoversThen(first, others, path, m, inherited, s, t); }
      }
    case Else(body) =>
      BranchCovers(ElseBranch, None, body, FieldsOf(before), path, inherited, local, n, m, s, t);
  }

  lemma {:induction false} BlockCovers(code: Code, path: string, inherited: seq<string>, local: seq<string>, n: nat, m: map<string, string>,
                                       s: string, t: string)
    requires code.If? && Plain(code) && Table(m) && Known(m, local) && Fits(m, path, CallsOf(Lower(code, local, n).children)) && s != t
    requires IsPair(Compile(code, Scope(path, inherited, RenamedAll(m, local)), n).0, s, t)
    ensures Covers(Lower(code, local, n), path, m, inherited, s, t)
    decreases Weight(code), 2
  {
    var If(cond, body, more, next) := code;
    var sc, field := Scope(path, inherited, RenamedAll(m, local)), FinalField(path, IfBranch, n + 1);
    var branch := Branch(IfBranch, Some(cond), RawField(IfBranch, n + 1), n + 1);
    var first := LowerBranch(IfBranch, Some(cond), body, [], local, n);
    var others := LowerBranches(more, [branch], local, first.counter);
    var block := Block(n + 1, AllBranches(more, [branch], local, first.counter), true);
    var whole := Closing(Then(first, others), block);
    var rest := Lower(next, local, whole.counter);
    var a, b, c := BranchCalls(sc, IfBranch, n, [], Some(cond), body), CompileBranches(more, sc, [field], first.counter).0,
                   Compile(next, sc, whole.counter).0;
    FitsThen(m, path, whole.children, rest.children);
    FitsThen(m, path, first.children, others.children);
    LoweredBranchWalks(IfBranch, Some(cond), body, [], path, inherited, local, n, m);
    assert RenamedAll(m, []) == [];
    SingleField(m, branch, field);
    LoweredBranchesWalk(more, [branch], path, inherited, local, first.counter, m);
    assert Compile(code, sc, n).0 == a + b + c;
    PairSplits(a + b, c, s, t);
    PairSplits(a, b, s, t);
    if IsPair(c, s, t) {
      LoweredCovers(next, path, inherited, local, whole.counter, m, s, t);
    } else {
      if IsPair(a, s, t) {
        BranchCovers(IfBranch, Some(cond), body, [], path, inherited, local, n, m, s, t);
        CoversThen(first, others, path, m, inherited, s, t);
      } else {
        BranchesCover(more, [branch], path, inherited, local, first.counter, m, s, t);
        FinalBlock(more, [branch], path, inherited, local, first.counter, m);
        if Covers(others, path, m, inherited, s, t) { CoversThen(first, others, path, m, inherited, s, t); }
      }
      CoversClosing(Then(first, others), block, path, m, inherited, s, t);
    }
    CoversThen(whole, rest, path, m, inherited, s, t);
  }

  // ----- through the traversal -----

  lemma {:induction false} GroupsOfBlocks(m: map<string, string>, closed: seq<Block>, s: string, t: string)
    requires InBlocks(m, closed, s, t) && s != t
    ensures InGroup(GroupsOf(closed, m), s, t)
  {
    var i :| 0 <= i < |closed| && s in BlockGroup(m, closed[i]) && t in BlockGroup(m, closed[i]);
    var group, rest := BlockGroup(m, closed[0]), GroupsOf(closed[1..], m);
    if i == 0 {
      assert {s, t} <= group;
      PairIsSmall(group, s, t);
      assert GroupsOf(closed, m)[0] == group;
    } else {
      assert closed[1..][i - 1] == closed[i];
      GroupsOfBlocks(m, closed[1..], s, t);
      MoreGroups(if |group| > 1 then [group] else [], rest, s, t);
    }
  }

  lemma {:induction false} PairIsSmall(group: set<string>, s: string, t: string)
    requires s != t && s in group && t in group
    ensures |group| > 1
  {
    assert group == {s} + (group - {s});
    assert t in group - {s};
  }

  lemma {:induction false} MoreGroups(a: seq<set<string>>, b: seq<set<string>>, s: string, t: string)
    requires InGroup(a, s, t) || InGroup(b, s, t)
    ensures InGroup(a + b, s, t)
  {
    var c := a + b;
    if g :| 0 <= g < |a| && s in a[g] && t in a[g] {
      assert c[g] == a[g];
    } else {
      var g :| 0 <= g < |b| && s in b[g] && t in b[g];
      assert c[|a| + g] == b[g];
    }
  }

  lemma {:induction false} TraverseKeepsGroups(flow: Flow, path: string, inherited: seq<string>, acc: Flat, s: string, t: string)
    requires Traverse(flow, path, inherited, acc).1.None? && InGroup(acc.groups, s, t)
    ensures InGroup(Traverse(flow, path, inherited, acc).0.groups, s, t)
    decreases flow, 0
  {
    var (locals, m) := RenameFrom(CallsOf(flow.children), 0, path, map[]);
    RenameKeepsLength(CallsOf(flow.children), 0, path, map[]);
    WalkCollects(flow.children, locals, path, m, inherited, acc, [], s, t);
    MoreGroups(Walk(flow.children, locals, path, m, inherited, acc, []).0.groups, GroupsOf(flow.closed, m), s, t);
  }

  lemma {:induction false} WalkCollects(children: seq<Child>, locals: seq<OpCall>, path: string, m: map<string, string>, inherited: seq<string>,
                                        acc: Flat, entries: seq<Entry>, s: string, t: string)
    requires |locals| == |CallsOf(children)| && Walk(children, locals, path, m, inherited, acc, entries).2.None?
    requires InGroup(acc.groups, s, t) || NestedCollects(children, path, m, inherited, s, t)
    ensures InGroup(Walk(children, locals, path, m, inherited, acc, entries).0.groups, s, t)
    decreases children, |children|
  {
    if children != [] {
      NestedFirst(children, path, m, inherited, s, t);
      match children[0]
      case Op(_) =>
        WalkCollects(children[1..], locals[1..], path, m, inherited,
                     acc.(calls := acc.calls + [Inherit(locals[0], path, inherited)]), entries + [OpEntry(|acc.calls|)], s, t);
      case Sub(name, inner, parentSkips) =>
        var innerPath, guards := Join(path, name), inherited + RenamedAll(m, parentSkips);
        if InGroup(acc.groups, s, t) { TraverseKeepsGroups(inner, innerPath, guards, acc, s, t); }
        WalkCollects(children[1..], locals, path, m, inherited, Traverse(inner, innerPath, guards, acc).0, entries + [FlowEntry(innerPath)], s, t);
    }
  }

  lemma {:induction false} NestedFirst(children: seq<Child>, path: string, m: map<string, string>, inherited: seq<string>, s: string, t: string)
    requires children != []
    ensures NestedCollects(children, path, m, inherited, s, t) <==>
            ChildCollects(children[0], path, m, inherited, s, t) || NestedCollects(children[1..], path, m, inherited, s, t)
  {
    assert forall i :: 0 <= i < |children| - 1 ==> children[1..][i] == children[i + 1];
    if i :| 0 <= i < |children[1..]| && ChildCollects(children[1..][i], path, m, inherited, s, t) {
      assert ChildCollects(children[i + 1], path, m, inherited, s, t);
    }
    if i :| 0 <= i < |children| && ChildCollects(children[i], path, m, inherited, s, t) {
      if i > 0 { assert ChildCollects(children[1..][i - 1], path, m, inherited, s, t); }
    }
  }

  lemma {:induction false} FlowCovers(code: Code, path: string, inherited: seq<string>, s: string, t: string)
    requires Plain(code) && s != t && IsPair(Compile(code, Scope(path, inherited, []), 0).0, s, t)
    ensures FlowCollects(Complete(Lower(code, [], 0)), path, inherited, s, t)
    decreases Weight(code), 4
  {
    var flow := Complete(Lower(code, [], 0));
    var calls := CallsOf(flow.children);
    LoweredNumbered(code, [], 0);
    RenamesFlow(calls, path);
    FlowTable(calls, path);
    var (locals, m) := Simultaneous(calls, path);
    assert RenamedAll(m, []) == [];
    LoweredCovers(code, path, inherited, [], 0, m, s, t);
    forall acc | Traverse(flow, path, inherited, acc).1.None?
      ensures InGroup(Traverse(flow, path, inherited, acc).0.groups, s, t)
    {
      var walked := Walk(flow.children, locals, path, m, inherited, acc, []).0;
      if InBlocks(m, flow.closed, s, t) {
        GroupsOfBlocks(m, flow.closed, s, t);
      } else {
        WalkCollects(flow.children, locals, path, m, inherited, acc, [], s, t);
      }
      MoreGroups(walked.groups, GroupsOf(flow.closed, m), s, t);
    }
  }

  // ----- the test is exact -----

  /** Calls `a` and `b` are guarded by the fields of two different branches of one block. */
  ghost predicate InTwoBranches(calls: seq<OpCall>, a: nat, b: nat)
    requires a < |calls| && b < |calls|
  {
    exists s, t :: s in calls[a].config.skip && t in calls[b].config.skip && (Chained(calls, s, t) || Chained(calls, t, s))
  }

  lemma {:induction false} ChainedIsPair(calls: seq<OpCall>, s: string, t: string)
    requires Chained(calls, s, t) && DistinctFields(calls)
    ensures s != t && IsPair(calls, s, t)
  {
    var i: nat, j: nat :| i < j && WrittenBy(calls, i, s) && WrittenBy(calls, j, t) && s in calls[j].work.priors;
  }

  lemma {:induction false} CollectedJudged(flat: Flat, s: string, t: string, a: nat, b: nat)
    requires a < |flat.calls| && b < |flat.calls| && s in flat.calls[a].config.skip && t in flat.calls[b].config.skip
    requires InGroup(flat.groups, s, t) && !CarriesBoth(flat.calls[a], s, t)
    ensures MutuallyExclusive(flat.groups, flat.calls[a].config.skip, flat.calls[b].config.skip)
  {
    var g :| 0 <= g < |flat.groups| && s in flat.groups[g] && t in flat.groups[g];
    HitsMean(flat.groups[g], flat.calls[a].config.skip, flat.calls[b].config.skip);
  }

  lemma {:induction false} JudgedInBranches(flat: Flat, a: nat, b: nat)
    requires AllGrouped(flat) && a < |flat.calls| && b < |flat.calls|
    requires MutuallyExclusive(flat.groups, flat.calls[a].config.skip, flat.calls[b].config.skip)
    ensures InTwoBranches(flat.calls, a, b)
  {
    var skipA, skipB := flat.calls[a].config.skip, flat.calls[b].config.skip;
    var g :| 0 <= g < |flat.groups| &&
             var x, y := flat.groups[g] * Elements(skipA), flat.groups[g] * Elements(skipB); x != {} && y != {} && x != y;
    var s, t := DifferentFields(flat.groups[g] * Elements(skipA), flat.groups[g] * Elements(skipB));
    assert Grouped(flat.calls, flat.groups[g]);
  }

  /** Two fields of one block, in either order. */
  lemma {:induction false} ChainCollected(code: Code, calls: seq<OpCall>, s: string, t: string)
    requires Plain(code) && calls == Compile(code, TOP, 0).0 && DistinctFields(calls) && Apart(calls) && Chained(calls, s, t)
    requires Traverse(Complete(Lower(code, [], 0)), "", [], Flat([], map[], [])).1.None?
    ensures InGroup(Traverse(Complete(Lower(code, [], 0)), "", [], Flat([], map[], [])).0.groups, s, t)
    ensures forall k :: 0 <= k < |calls| ==> !CarriesBoth(calls[k], s, t)
  {
    ChainedIsPair(calls, s, t);
    FlowCovers(code, "", [], s, t);
  }

  lemma {:induction false} Swapped(groups: seq<set<string>>, s: string, t: string)
    requires InGroup(groups, t, s)
    ensures InGroup(groups, s, t)
  {
  }

  lemma {:induction false} BranchesJudged(code: Code, flat: Flat, a: nat, b: nat)
    requires Plain(code) && flat.calls == Compile(code, TOP, 0).0 && DistinctFields(flat.calls) && Apart(flat.calls)
    requires Traverse(Complete(Lower(code, [], 0)), "", [], Flat([], map[], [])) == (flat, None)
    requires a < |flat.calls| && b < |flat.calls| && InTwoBranches(flat.calls, a, b)
    ensures MutuallyExclusive(flat.groups, flat.calls[a].config.skip, flat.calls[b].config.skip)
  {
    var s, t :| s in flat.calls[a].config.skip && t in flat.calls[b].config.skip
                && (Chained(flat.calls, s, t) || Chained(flat.calls, t, s));
    if Chained(flat.calls, s, t) {
      ChainCollected(code, flat.calls, s, t);
    } else {
      ChainCollected(code, flat.calls, t, s);
      Swapped(flat.groups, s, t);
      assert !CarriesBoth(flat.calls[a], t, s);
    }
    CollectedJudged(flat, s, t, a, b);
  }

  /** Over any nesting: two operators are judged exclusive exactly when they stand in two branches of one block. */
  lemma {:induction false} ExclusiveIffInTwoBranches(code: Code, a: nat, b: nat)
    requires Plain(code) && NamesAccepted(Compile(code, TOP, 0).0)
    requires Traverse(Complete(Lower(code, [], 0)), "", [], Flat([], map[], [])).1.None?
    requires
      var calls := Traverse(Complete(Lower(code, [], 0)), "", [], Flat([], map[], [])).0.calls;
      a < |calls| && b < |calls|
    ensures
      var flat := Traverse(Complete(Lower(code, [], 0)), "", [], Flat([], map[], [])).0;
      MutuallyExclusive(flat.groups, flat.calls[a].config.skip, flat.calls[b].config.skip) <==> InTwoBranches(flat.calls, a, b)
  {
    var flat := Traverse(Complete(Lower(code, [], 0)), "", [], Flat([], map[], [])).0;
    TraversalIsGrouped(code);
    CompiledListIsGood(code);
    assert GuardsOf(TOP) == {};
    CompiledApart(code, TOP, 0);
    if MutuallyExclusive(flat.groups, flat.calls[a].config.skip, flat.calls[b].config.skip) {
      JudgedInBranches(flat, a, b);
    }
    if InTwoBranches(flat.calls, a, b) {
      BranchesJudged(code, flat, a, b);
    }
  }
}
