/** A pipeline that is accepted and, on some requests, fails on the condition of a branch that is not due. */
module Pitfall {
  import opened Options
  import opened Accesses
  import opened Frames
  import opened Operators
  import opened Calls
  import opened ControlFlow
  import opened Agreement
  import opened OperatorNames
  import opened SubFlows
  import opened Compiler

  function Compared(field: string, test: real -> bool): Row -> Option<bool> {
    (r: Row) => if field in r && r[field].Num? && r[field].n.Finite? then Some(test(r[field].n.r)) else None
  }

  function Condition1(): Condition { Condition("{{a}} > 0", ["a"], Compared("a", x => x > 0.0)) }
  function Condition2(): Condition { Condition("{{a}} <= 0", ["a"], Compared("a", x => x <= 0.0)) }
  function Condition3(): Condition { Condition("{{x}} > 1", ["x"], Compared("x", x => x > 1.0)) }

  function UserCall(name: string, outputs: seq<string>): OpCall {
    OpCall(OperatorConfig(name, NO_METADATA.(commonOutput := outputs), [], false, false, false, []),
           UserOp(true, Transform, v => Some(NOTHING)), "")
  }

  /** `if {{a}} > 0: t1 writes x`, then `if {{a}} <= 0: op1`, `elseif {{x}} > 1: op2`. */
  function Example(): Code {
    If(Condition1(), Do(UserCall("t1", ["x"]), Done), EndIf,
       If(Condition2(), Do(UserCall("op1", []), Done), ElseIf(Condition3(), Do(UserCall("op2", []), Done), EndIf), Done))
  }

  function Request(): Frame {
    Frame(map["a" := Num(Finite(0.0))], [], [])
  }

  lemma {:induction false} OnlyField(field: string, common: Row)
    ensures Elements([field]) == {field} && Restrict(common, {field}) == if field in common then map[field := common[field]] else map[]
  {
  }

  lemma {:induction false} NothingHappens(name: string, outputs: seq<string>, f: Frame, ran: seq<string>)
    ensures ExecOne(UserCall(name, outputs), Outcome(Some(f), ran)) == Outcome(Some(f), ran + [name])
  {
    var op := OperatorOf(UserCall(name, outputs));
    NothingRemoved(f.items);
    assert ApplyToRows(f.items, NOTHING) == (f.items, None);
  }

  /** As declared, only `op1` runs and the request succeeds; but the condition on `x` is not provided for. */
  lemma {:induction false} StructuredRunSucceeds()
    ensures var start := Outcome(Some(Request()), []);
            Perform(Example(), start) == Outcome(Some(Request()), ["op1"]) && !Provided(Example(), start)
  {
    var f := Request();
    var start := Outcome(Some(f), []);
    OnlyField("a", f.common);
    OnlyField("x", f.common);
    assert Judge(Condition1(), f.common) == Some(false);
    assert Judge(Condition2(), f.common) == Some(true);
    NothingHappens("op1", [], f, []);
    var after := ExecOne(UserCall("op1", []), start);
    assert after == Outcome(Some(f), ["op1"]);
    var second := Example().next;
    assert PerformBlock(Example(), start) == start;
    assert PerformBlock(second, start) == after;
    assert !Knows(after, Condition3());
  }

  lemma {:induction false} OneCall(call: OpCall, sc: Scope, n: nat)
    ensures Compile(Do(call, Done), sc, n) == ([Guarded(call, sc)], n)
  {
    assert Compile(Done, sc, n) == ([], n);
    assert [Guarded(call, sc)] + [] == [Guarded(call, sc)];
  }

  lemma {:induction false} OneElseIf(cond: Condition, call: OpCall, sc: Scope, priors: seq<string>, n: nat)
    ensures CompileBranches(ElseIf(cond, Do(call, Done), EndIf), sc, priors, n)
         == ([BranchCall(sc, ElseIfBranch, n + 1, priors, Some(cond)), Guarded(call, Within(sc, FinalField(sc.path, ElseIfBranch, n + 1)))], n + 1)
  {
    var field := FinalField(sc.path, ElseIfBranch, n + 1);
    OneCall(call, Within(sc, field), n + 1);
    assert CompileBranches(EndIf, sc, priors + [field], n + 1) == ([], n + 1);
    var ctl, inside := BranchCall(sc, ElseIfBranch, n + 1, priors, Some(cond)), Guarded(call, Within(sc, field));
    assert Compile(Do(call, Done), Within(sc, field), n + 1) == ([inside], n + 1);
    assert CompileBranches(ElseIf(cond, Do(call, Done), EndIf), sc, priors, n) == ([ctl] + [inside] + [], n + 1);
    assert [ctl] + [inside] + [] == [ctl, inside];
  }

  lemma {:induction false} OneIf(cond: Condition, call: OpCall, more: Branches, next: Code, sc: Scope, n: nat)
    ensures
      var field := FinalField(sc.path, IfBranch, n + 1);
      var (others, n2) := CompileBranches(more, sc, [field], n + 1);
      Compile(If(cond, Do(call, Done), more, next), sc, n).0
      == [BranchCall(sc, IfBranch, n + 1, [], Some(cond)), Guarded(call, Within(sc, field))] + others + Compile(next, sc, n2).0
  {
    var field := FinalField(sc.path, IfBranch, n + 1);
    OneCall(call, Within(sc, field), n + 1);
    var ctl, inside := BranchCall(sc, IfBranch, n + 1, [], Some(cond)), Guarded(call, Within(sc, field));
    assert [ctl] + [inside] == [ctl, inside];
  }

  lemma {:induction false} NamesKept(call: OpCall, kind: BranchKind, n: nat, priors: seq<string>, cond: Condition, sc: Scope)
    ensures Guarded(call, sc).config.name == call.config.name
    ensures BranchCall(TOP, kind, n, priors, Some(cond)).config.name == CtrlName(kind, n)
  {
    GuardedAdds(call, sc);
    GuardedAdds(ControlCall(FinalName("", kind, n), FinalField("", kind, n), kind, n, priors, Some(cond)), TOP);
    assert "" + CtrlName(kind, n) == CtrlName(kind, n);
  }

  lemma {:induction false} SecondBlockCalls()
    ensures
      var f2, f3 := FinalField("", IfBranch, 2), FinalField("", ElseIfBranch, 3);
      Compile(Example().next, TOP, 1).0
      == [BranchCall(TOP, IfBranch, 2, [], Some(Condition2())), Guarded(UserCall("op1", []), Within(TOP, f2)),
          BranchCall(TOP, ElseIfBranch, 3, [f2], Some(Condition3())), Guarded(UserCall("op2", []), Within(TOP, f3))]
  {
    var f2 := FinalField("", IfBranch, 2);
    OneIf(Condition2(), UserCall("op1", []), ElseIf(Condition3(), Do(UserCall("op2", []), Done), EndIf), Done, TOP, 1);
    OneElseIf(Condition3(), UserCall("op2", []), TOP, [f2], 2);
    assert Compile(Done, TOP, 3) == ([], 3);
  }

  lemma {:induction false} CompiledCalls()
    ensures
      var f1, f2, f3 := FinalField("", IfBranch, 1), FinalField("", IfBranch, 2), FinalField("", ElseIfBranch, 3);
      Compile(Example(), TOP, 0).0
      == [BranchCall(TOP, IfBranch, 1, [], Some(Condition1())), Guarded(UserCall("t1", ["x"]), Within(TOP, f1)),
          BranchCall(TOP, IfBranch, 2, [], Some(Condition2())), Guarded(UserCall("op1", []), Within(TOP, f2)),
          BranchCall(TOP, ElseIfBranch, 3, [f2], Some(Condition3())), Guarded(UserCall("op2", []), Within(TOP, f3))]
  {
    var f1 := FinalField("", IfBranch, 1);
    var rest := Compile(Example().next, TOP, 1).0;
    OneIf(Condition1(), UserCall("t1", ["x"]), EndIf, Example().next, TOP, 0);
    SecondBlockCalls();
    assert CompileBranches(EndIf, TOP, [f1], 1) == ([], 1);
    var a, b := BranchCall(TOP, IfBranch, 1, [], Some(Condition1())), Guarded(UserCall("t1", ["x"]), Within(TOP, f1));
    assert [a, b] + [] + rest == [a, b, rest[0], rest[1], rest[2], rest[3]];
  }

  function Names(calls: seq<OpCall>): seq<string> {
    seq(|calls|, i requires 0 <= i < |calls| => calls[i].config.name)
  }

  lemma {:induction false} CompiledNames()
    ensures Names(Compile(Example(), TOP, 0).0)
         == [CtrlName(IfBranch, 1), "t1", CtrlName(IfBranch, 2), "op1", CtrlName(ElseIfBranch, 3), "op2"]
  {
    var f1, f2, f3 := FinalField("", IfBranch, 1), FinalField("", IfBranch, 2), FinalField("", ElseIfBranch, 3);
    CompiledCalls();
    NamesKept(UserCall("t1", ["x"]), IfBranch, 1, [], Condition1(), Within(TOP, f1));
    NamesKept(UserCall("op1", []), IfBranch, 2, [], Condition2(), Within(TOP, f2));
    NamesKept(UserCall("op2", []), ElseIfBranch, 3, [f2], Condition3(), Within(TOP, f3));
  }

  lemma {:induction false} SixNamesDiffer(names: seq<string>)
    requires names == [CtrlName(IfBranch, 1), "t1", CtrlName(IfBranch, 2), "op1", CtrlName(ElseIfBranch, 3), "op2"]
    ensures forall i, j :: 0 <= i < j < |names| ==> names[i] != names[j]
  {
    assert Digits(1) == "1" && Digits(2) == "2" && Digits(3) == "3";
    assert names[0][0] == 'i' && names[1][0] == 't' && names[2][0] == 'i' && names[3][0] == 'o' && names[4][0] == 'e' && names[5][0] == 'o';
    assert names[0][3] == '1' && names[2][3] == '2' && names[3][2] == '1' && names[5][2] == '2';
  }

  lemma {:induction false} ExampleAccepted()
    ensures NamesAccepted(Compile(Example(), TOP, 0).0)
  {
    var calls := Compile(Example(), TOP, 0).0;
    CompiledNames();
    SixNamesDiffer(Names(calls));
    forall i, j | 0 <= i < j < |calls|
      ensures calls[i].config.name != calls[j].config.name
    {
      assert Names(calls)[i] != Names(calls)[j];
    }
    DistinctAccepted(calls);
  }

  lemma {:induction false} ExamplePlain()
    ensures Plain(Example())
  {
  }

  /** The example passes the check of names, and its flat run fails on this request. */
  lemma {:induction false} FlatRunFails()
    ensures Plain(Example()) && NamesAccepted(Compile(Example(), TOP, 0).0)
    ensures Exec(Compile(Example(), TOP, 0).0, Outcome(Some(Request()), [])).frame.None?
  {
    ExampleAccepted();
    ExamplePlain();
    StructuredRunSucceeds();
    FlatRunMeansStructuredRun(Example(), Request());
  }
}
