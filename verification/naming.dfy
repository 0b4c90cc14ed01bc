/** Control fields cannot be confused as long as the names of the control operators are distinct. */
module Naming {
  import opened Options
  import opened Accesses
  import opened Calls
  import opened ControlFlow

  predicate HasColon(s: string) {
    exists i :: 0 <= i < |s| && s[i] == ':'
  }

  lemma {:induction false} DigitsOnly(n: nat)
    ensures Digits(n) != [] && forall i :: 0 <= i < |Digits(n)| ==> '0' <= Digits(n)[i] <= '9'
  {
    if n >= 10 {
      DigitsOnly(n / 10);
    }
  }

  /** The names at an example: the twelfth branch of a flow, and of a flow nested in another. */
  lemma {:induction false} NamesAtExample()
    ensures CtrlName(IfBranch, 12) == "if_12" && CtrlName(ElseIfBranch, 12) == "elseif_12" && CtrlName(ElseBranch, 12) == "else_12"
    ensures RawField(IfBranch, 12) == "_if_12" && RawField(ElseIfBranch, 12) == "_elif_12" && RawField(ElseBranch, 12) == "_else_12"
    ensures Join("", "a") == "a" && Join("a", "b") == "a/b"
    ensures FinalName("a/b", ElseIfBranch, 12) == "a::b::elseif_12" && FinalField("a/b", ElseIfBranch, 12) == "_a::b::elseif_12"
  {
    assert Digits(1) == "1" && Digits(12) == "12";
    assert "a/b"[1..] == "/b" && "/b"[1..] == "b" && "b"[1..] == "";
    assert Colons("b") == "b" + "" && Colons("/b") == "::" + Colons("b") && Colons("a/b") == "a" + Colons("/b");
    assert "_a::b::elseif_12" == "_" + "a::b::elseif_12";
  }

  lemma {:induction false} DigitsInjective(a: nat, b: nat)
    requires Digits(a) == Digits(b)
    ensures a == b
  {
    DigitsOnly(a / 10);
    DigitsOnly(b / 10);
    var da, db := Digits(a), Digits(b);
    assert da[|da| - 1] == db[|db| - 1];
    if a >= 10 && b >= 10 {
      assert da[..|da| - 1] == Digits(a / 10) && db[..|db| - 1] == Digits(b / 10);
      DigitsInjective(a / 10, b / 10);
    }
  }

  lemma {:induction false} AfterPrefix(p: string, a: string, b: string)
    requires p + a == p + b
    ensures a == b
  {
    assert (p + a)[|p|..] == a && (p + b)[|p|..] == b;
  }

  lemma {:induction false} RawFieldInjective(k: BranchKind, n: nat, l: BranchKind, m: nat)
    requires RawField(k, n) == RawField(l, m)
    ensures k == l && n == m
  {
    var f, g := RawField(k, n), RawField(l, m);
    assert f[1] == g[1] && f[3] == g[3];
    AfterPrefix(match k case IfBranch => "_if_" case ElseIfBranch => "_elif_" case ElseBranch => "_else_", Digits(n), Digits(m));
    DigitsInjective(n, m);
  }

  lemma {:induction false} CtrlNameInjective(k: BranchKind, n: nat, l: BranchKind, m: nat)
    requires CtrlName(k, n) == CtrlName(l, m)
    ensures k == l && n == m
  {
    var f, g := CtrlName(k, n), CtrlName(l, m);
    DigitsOnly(n);
    DigitsOnly(m);
    assert k != IfBranch ==> f[0] == 'e' && f[4] == if k == ElseBranch then '_' else 'i';
    assert l != IfBranch ==> g[0] == 'e' && g[4] == if l == ElseBranch then '_' else 'i';
    if k == l {
      AfterPrefix(match k case IfBranch => "if_" case ElseIfBranch => "elseif_" case ElseBranch => "else_", Digits(n), Digits(m));
      DigitsInjective(n, m);
    }
  }

  lemma {:induction false} RawFieldHasNoColon(k: BranchKind, n: nat)
    ensures !HasColon(RawField(k, n))
  {
    DigitsOnly(n);
  }

  lemma {:induction false} FinalFieldHasColon(path: string, k: BranchKind, n: nat)
    requires path != ""
    ensures HasColon(FinalField(path, k, n))
  {
    var colons := Colons(path);
    var field := FinalField(path, k, n);
    assert field == "_" + ((colons + "::") + CtrlName(k, n));
    assert field[1 + |colons|] == ':';
  }

  lemma {:induction false} FinalFieldInjective(path: string, k: BranchKind, n: nat, l: BranchKind, m: nat)
    requires FinalField(path, k, n) == FinalField(path, l, m)
    ensures k == l && n == m
  {
    if path == "" {
      RawFieldInjective(k, n, l, m);
    } else {
      AfterPrefix("_", FinalName(path, k, n), FinalName(path, l, m));
      AfterPrefix(Prefix(path), CtrlName(k, n), CtrlName(l, m));
      CtrlNameInjective(k, n, l, m);
    }
  }

  /** Across all flows: one field, one operator name. */
  lemma {:induction false} FieldDeterminesName(p: string, k: BranchKind, n: nat, q: string, l: BranchKind, m: nat)
    requires FinalField(p, k, n) == FinalField(q, l, m)
    ensures FinalName(p, k, n) == FinalName(q, l, m)
  {
    RawFieldHasNoColon(k, n);
    RawFieldHasNoColon(l, m);
    if p != "" { FinalFieldHasColon(p, k, n); }
    if q != "" { FinalFieldHasColon(q, l, m); }
    if p == "" && q == "" {
      RawFieldInjective(k, n, l, m);
    } else {
      AfterPrefix("_", FinalName(p, k, n), FinalName(q, l, m));
    }
  }

  /** The path alone does not keep fields apart: "a:" with child "b", and "a" with child ":b". */
  lemma {:induction false} PathsMayCollide()
    ensures Join("a:", "b") != Join("a", ":b")
    ensures forall k, n :: FinalField(Join("a:", "b"), k, n) == FinalField(Join("a", ":b"), k, n)
  {
    var p, q := "a:/b", "a/:b";
    assert p[1..] == ":/b" && p[1..][1..] == "/b" && p[1..][1..][1..] == "b" && p[1..][1..][1..][1..] == "";
    assert q[1..] == "/:b" && q[1..][1..] == ":b" && q[1..][1..][1..] == "b" && q[1..][1..][1..][1..] == "";
    assert Colons("b") == "b" && Colons(":b") == ":b";
    assert Colons("/b") == "::b" && Colons("/:b") == ":::b";
    assert Colons(":/b") == ":::b";
    assert Colons(p) == "a:::b" && Colons(q) == "a:::b";
    assert Join("a:", "b") == p && Join("a", ":b") == q;
    assert p[1] != q[1];
  }
}
