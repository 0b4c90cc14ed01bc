/** A structured pipeline in which every operator goes by the name it is finally given. */
module Christening {
  import opened Options
  import opened Accesses
  import opened Operators
  import opened Calls
  import opened ControlFlow
  import opened OperatorNames
  import opened SubFlows

  /** How many calls a fragment compiles to, control calls included. */
  function Count(code: Code): nat {
    match code
    case Done => 0
    case Do(_, next) => 1 + Count(next)
    case If(_, body, more, next) => 1 + Count(body) + CountBranches(more) + Count(next)
    case Include(_, body, next) => Count(body) + Count(next)
  }

  function CountBranches(branches: Branches): nat {
    match branches
    case EndIf => 0
    case ElseIf(_, body, more) => 1 + Count(body) + CountBranches(more)
    case Else(body) => 1 + Count(body)
  }

  function Called(call: OpCall, name: string): OpCall {
    call.(config := call.config.(name := name))
  }

  /** The operators of a fragment renamed; the names are those of its compiled calls, in their order. */
  function Christened(code: Code, names: seq<string>): Code
    requires |names| == Count(code)
  {
    match code
    case Done => Done
    case Do(call, next) => Do(Called(call, names[0]), Christened(next, names[1..]))
    case If(cond, body, more, next) =>
      var b := 1 + Count(body);
      var block, after := names[..b + CountBranches(more)], names[b + CountBranches(more)..];
      If(cond, Christened(body, block[..b][1..]), ChristenedBranches(more, block[b..]), Christened(next, after))
    case Include(name, body, next) =>
      Include(name, Christened(body, names[..Count(body)]), Christened(next, names[Count(body)..]))
  }

  function ChristenedBranches(branches: Branches, names: seq<string>): Branches
    requires |names| == CountBranches(branches)
  {
    match branches
    case EndIf => EndIf
    case ElseIf(cond, body, more) =>
      var b := 1 + Count(body);
      ElseIf(cond, Christened(body, names[..b][1..]), ChristenedBranches(more, names[b..]))
    case Else(body) => Else(Christened(body, names[1..]))
  }

  function NamedCalls(calls: seq<OpCall>, names: seq<string>): seq<OpCall>
    requires |names| == |calls|
  {
    seq(|calls|, i requires 0 <= i < |calls| => Called(calls[i], names[i]))
  }

  predicate KeepsAt(calls: seq<OpCall>, names: seq<string>, i: nat)
    requires i < |calls| == |names|
  {
    calls[i].work.Control? ==> names[i] == calls[i].config.name
  }

  /** Control calls keep their names. */
  predicate KeepsControls(calls: seq<OpCall>, names: seq<string>) {
    |names| == |calls| && forall i :: 0 <= i < |calls| ==> KeepsAt(calls, names, i)
  }

  lemma {:induction false} NamedConcat(a: seq<OpCall>, b: seq<OpCall>, names: seq<string>)
    requires KeepsControls(a + b, names)
    ensures KeepsControls(a, names[..|a|]) && KeepsControls(b, names[|a|..])
    ensures NamedCalls(a + b, names) == NamedCalls(a, names[..|a|]) + NamedCalls(b, names[|a|..])
  {
    forall i | 0 <= i < |a|
      ensures KeepsAt(a, names[..|a|], i)
    {
      assert KeepsAt(a + b, names, i);
    }
    var after := names[|a|..];
    forall i | 0 <= i < |b|
      ensures KeepsAt(b, after, i)
    {
      assert KeepsAt(a + b, names, |a| + i);
    }
  }

  lemma {:induction false} SkipsKeepName(call: OpCall, fields: seq<string>, name: string)
    ensures WithSkips(Called(call, name), fields) == Called(WithSkips(call, fields), name)
    decreases |fields|
  {
    if fields != [] {
      assert WithSkip(Called(call, name), fields[0]) == Called(WithSkip(call, fields[0]), name);
      SkipsKeepName(WithSkip(call, fields[0]), fields[1..], name);
    }
  }

  lemma {:induction false} GuardsKeepName(call: OpCall, sc: Scope, name: string)
    ensures Guarded(Called(call, name), sc) == Called(Guarded(call, sc), name)
  {
    var moved := call.(path := sc.path);
    assert Called(call, name).(path := sc.path) == Called(moved, name);
    SkipsKeepName(moved, sc.local, name);
    SkipsKeepName(WithSkips(moved, sc.local), sc.inherited, name);
  }

  /** A branch and its body. */
  lemma {:induction false} BranchChristened(sc: Scope, kind: BranchKind, n: nat, priors: seq<string>, cond: Option<Condition>, body: Code,
                                            names: seq<string>)
    requires KeepsControls(BranchCalls(sc, kind, n, priors, cond, body), names)
    ensures |names| == 1 + Count(body)
    ensures
      var scope := Within(sc, FinalField(sc.path, kind, n + 1));
      var named := Christened(body, names[1..]);
      && BranchCalls(sc, kind, n, priors, cond, named) == NamedCalls(BranchCalls(sc, kind, n, priors, cond, body), names)
      && Compile(named, scope, n + 1).1 == Compile(body, scope, n + 1).1
    decreases Weight(body), 2
  {
    var scope := Within(sc, FinalField(sc.path, kind, n + 1));
    var ctl, inside := BranchCall(sc, kind, n + 1, priors, cond), Compile(body, scope, n + 1).0;
    GuardedAdds(ControlCall(FinalName(sc.path, kind, n + 1), FinalField(sc.path, kind, n + 1), kind, n + 1, priors, cond), sc);
    NamedConcat([ctl], inside, names);
    assert KeepsAt([ctl], names[..1], 0);
    assert NamedCalls([ctl], names[..1]) == [ctl];
    CompiledChristened(body, scope, n + 1, names[1..]);
  }

  /** Compiling the renamed fragment gives the compiled calls renamed. */
  lemma {:induction false} CompiledChristened(code: Code, sc: Scope, n: nat, names: seq<string>)
    requires KeepsControls(Compile(code, sc, n).0, names)
    ensures |names| == Count(code)
    ensures Compile(Christened(code, names), sc, n) == (NamedCalls(Compile(code, sc, n).0, names), Compile(code, sc, n).1)
    decreases Weight(code), 1
  {
    match code
    case Done => assert NamedCalls([], names) == [];
    case Do(call, next) =>
      var first, rest := [Guarded(call, sc)], Compile(next, sc, n).0;
      NamedConcat(first, rest, names);
      GuardsKeepName(call, sc, names[0]);
      CompiledChristened(next, sc, n, names[1..]);
      assert NamedCalls(first, names[..1]) == [Guarded(Called(call, names[0]), sc)];
    case If(cond, body, more, next) => BlockChristened(code, sc, n, names);
    case Include(name, body, next) =>
      var inner := Scope(Join(sc.path, name), sc.inherited + sc.local, []);
      var inside, rest := Compile(body, inner, 0).0, Compile(next, sc, n).0;
      NamedConcat(inside, rest, names);
      CompiledChristened(body, inner, 0, names[..|inside|]);
      CompiledChristened(next, sc, n, names[|inside|..]);
  }

  /** A block without what follows it. */
  lemma {:induction false} HeadChristened(cond: Condition, body: Code, more: Branches, sc: Scope, n: nat, block: seq<string>)
    requires
      var n1 := Compile(body, Within(sc, FinalField(sc.path, IfBranch, n + 1)), n + 1).1;
      KeepsControls(BranchCalls(sc, IfBranch, n, [], Some(cond), body)
                    + CompileBranches(more, sc, [FinalField(sc.path, IfBranch, n + 1)], n1).0, block)
    ensures |block| == 1 + Count(body) + CountBranches(more)
    ensures
      var field, b := FinalField(sc.path, IfBranch, n + 1), 1 + Count(body);
      var n1 := Compile(body, Within(sc, field), n + 1).1;
      var (others, n2) := CompileBranches(more, sc, [field], n1);
      var body', more' := Christened(body, block[..b][1..]), ChristenedBranches(more, block[b..]);
      && Compile(body', Within(sc, field), n + 1).1 == n1 && CompileBranches(more', sc, [field], n1).1 == n2
      && BranchCalls(sc, IfBranch, n, [], Some(cond), body') + CompileBranches(more', sc, [field], n1).0
         == NamedCalls(BranchCalls(sc, IfBranch, n, [], Some(cond), body) + others, block)
    decreases Weight(body) + WeightOf(more), 1
  {
    var field := FinalField(sc.path, IfBranch, n + 1);
    var first := BranchCalls(sc, IfBranch, n, [], Some(cond), body);
    var n1 := Compile(body, Within(sc, field), n + 1).1;
    NamedConcat(first, CompileBranches(more, sc, [field], n1).0, block);
    BranchChristened(sc, IfBranch, n, [], Some(cond), body, block[..|first|]);
    BranchesChristened(more, sc, [field], n1, block[|first|..]);
  }

  lemma {:induction false} BlockChristened(code: Code, sc: Scope, n: nat, names: seq<string>)
    requires code.If? && KeepsControls(Compile(code, sc, n).0, names)
    ensures |names| == Count(code)
    ensures Compile(Christened(code, names), sc, n) == (NamedCalls(Compile(code, sc, n).0, names), Compile(code, sc, n).1)
    decreases Weight(code), 0
  {
    var If(cond, body, more, next) := code;
    var field := FinalField(sc.path, IfBranch, n + 1);
    var n1 := Compile(body, Within(sc, field), n + 1).1;
    var (others, n2) := CompileBranches(more, sc, [field], n1);
    var block, rest := BranchCalls(sc, IfBranch, n, [], Some(cond), body) + others, Compile(next, sc, n2).0;
    BlockCompiles(cond, body, more, next, sc, n);
    NamedConcat(block, rest, names);
    HeadChristened(cond, body, more, sc, n, names[..|block|]);
    CompiledChristened(next, sc, n2, names[|block|..]);
    var head, after, b := names[..|block|], names[|block|..], 1 + Count(body);
    BlockUnfolds(cond, body, more, next, names, head, after);
    BlockCompiles(cond, Christened(body, head[..b][1..]), ChristenedBranches(more, head[b..]), Christened(next, after), sc, n);
  }

  lemma {:induction false} BlockUnfolds(cond: Condition, body: Code, more: Branches, next: Code, names: seq<string>, head: seq<string>,
                                        after: seq<string>)
    requires |head| == 1 + Count(body) + CountBranches(more) && |after| == Count(next) && |names| == |head| + |after|
    requires head == names[..|head|] && after == names[|head|..]
    ensures |names| == Count(If(cond, body, more, next))
    ensures Christened(If(cond, body, more, next), names)
         == If(cond, Christened(body, head[..1 + Count(body)][1..]), ChristenedBranches(more, head[1 + Count(body)..]), Christened(next, after))
  {
  }

  lemma {:induction false} BlockCompiles(cond: Condition, body: Code, more: Branches, next: Code, sc: Scope, n: nat)
    ensures
      var field := FinalField(sc.path, IfBranch, n + 1);
      var n1 := Compile(body, Within(sc, field), n + 1).1;
      var (others, n2) := CompileBranches(more, sc, [field], n1);
      Compile(If(cond, body, more, next), sc, n)
      == (BranchCalls(sc, IfBranch, n, [], Some(cond), body) + others + Compile(next, sc, n2).0, Compile(next, sc, n2).1)
  {
  }

  lemma {:induction false} BranchesChristened(branches: Branches, sc: Scope, priors: seq<string>, n: nat, names: seq<string>)
    requires KeepsControls(CompileBranches(branches, sc, priors, n).0, names)
    ensures |names| == CountBranches(branches)
    ensures CompileBranches(ChristenedBranches(branches, names), sc, priors, n)
         == (NamedCalls(CompileBranches(branches, sc, priors, n).0, names), CompileBranches(branches, sc, priors, n).1)
    decreases WeightOf(branches), 0
  {
    match branches
    case EndIf => assert NamedCalls([], names) == [];
    case ElseIf(cond, body, more) =>
      var field := FinalField(sc.path, ElseIfBranch, n + 1);
      var first := BranchCalls(sc, ElseIfBranch, n, priors, Some(cond), body);
      var n1 := Compile(body, Within(sc, field), n + 1).1;
      var others := CompileBranches(more, sc, priors + [field], n1).0;
      var b := |first|;
      NamedConcat(first, others, names);
      BranchChristened(sc, ElseIfBranch, n, priors, Some(cond), body, names[..b]);
      BranchesChristened(more, sc, priors + [field], n1, names[b..]);
    case Else(body) =>
      BranchChristened(sc, ElseBranch, n, priors, None, body, names);
  }

  lemma {:induction false} ChristenedPlain(code: Code, names: seq<string>)
    requires |names| == Count(code) && Plain(code)
    ensures Plain(Christened(code, names))
    decreases code
  {
    match code
    case Done =>
    case Do(call, next) => ChristenedPlain(next, names[1..]);
    case If(cond, body, more, next) =>
      var b := 1 + Count(body);
      var block, after := names[..b + CountBranches(more)], names[b + CountBranches(more)..];
      ChristenedPlain(body, block[..b][1..]);
      ChristenedBranchesPlain(more, block[b..]);
      ChristenedPlain(next, after);
    case Include(_, body, next) =>
      ChristenedPlain(body, names[..Count(body)]);
      ChristenedPlain(next, names[Count(body)..]);
  }

  lemma {:induction false} ChristenedBranchesPlain(branches: Branches, names: seq<string>)
    requires |names| == CountBranches(branches) && PlainBranches(branches)
    ensures PlainBranches(ChristenedBranches(branches, names))
    decreases branches
  {
    match branches
    case EndIf =>
    case ElseIf(_, body, more) =>
      var b := 1 + Count(body);
      ChristenedPlain(body, names[..b][1..]);
      ChristenedBranchesPlain(more, names[b..]);
    case Else(body) => ChristenedPlain(body, names[1..]);
  }

  /** The names that the check assigns leave control calls alone. */
  lemma {:induction false} AssignedKeepsControls(calls: seq<OpCall>)
    requires AssignFrom(calls, map[]).Some?
    ensures KeepsControls(calls, AssignFrom(calls, map[]).value)
  {
    Assigned(calls);
    var names := AssignFrom(calls, map[]).value;
    forall i | 0 <= i < |calls|
      ensures KeepsAt(calls, names, i)
    {
      assert !Refused(calls, i);
    }
  }
}
