/** Operator names: explicit ones must be new, generated ones get a number when they repeat. */
module OperatorNames {
  import opened Options
  import opened Frames
  import opened Operators
  import opened Calls
  import opened Naming

  predicate IsExplicit(call: OpCall) {
    call.work.Control? || call.work.explicit
  }

  /** The names from here on; None when an explicit name was used before. */
  function AssignFrom(calls: seq<OpCall>, counts: map<string, nat>): Option<seq<string>>
    decreases |calls|
  {
    if calls == [] then Some([]) else
      var name := calls[0].config.name;
      if IsExplicit(calls[0]) && name in counts then None else
        var n := if name in counts then counts[name] + 1 else 0;
        Prepend([Numbered(name, n)], AssignFrom(calls[1..], counts[name := n]))
  }

  function Prepend(first: seq<string>, rest: Option<seq<string>>): Option<seq<string>> {
    if rest.None? then None else Some(first + rest.value)
  }

  lemma {:induction false} PrependNothing(rest: Option<seq<string>>)
    ensures Prepend([], rest) == rest
  {
    if rest.Some? {
      assert [] + rest.value == rest.value;
    }
  }

  lemma {:induction false} PrependTwice(a: seq<string>, b: seq<string>, rest: Option<seq<string>>)
    ensures Prepend(a, Prepend(b, rest)) == Prepend(a + b, rest)
  {
    if rest.Some? {
      assert a + (b + rest.value) == a + b + rest.value;
    }
  }

  function Numbered(name: string, n: nat): string {
    if n == 0 then name else name + "_" + Digits(n)
  }

  method AssignNames(calls: seq<OpCall>) returns (names: Option<seq<string>>)
    ensures names == AssignFrom(calls, map[])
  {
    var counts: map<string, nat>, done: seq<string> := map[], [];
    assert calls[0..] == calls;
    PrependNothing(AssignFrom(calls, map[]));
    for k := 0 to |calls|
      invariant AssignFrom(calls, map[]) == Prepend(done, AssignFrom(calls[k..], counts))
    {
      assert calls[k..][1..] == calls[k + 1..];
      var name := calls[k].config.name;
      if IsExplicit(calls[k]) && name in counts {
        return None;
      }
      var n := if name in counts then counts[name] + 1 else 0;
      counts := counts[name := n];
      PrependTwice(done, [Numbered(name, n)], AssignFrom(calls[k + 1..], counts));
      done := done + [Numbered(name, n)];
    }
    assert done + [] == done;
    names := Some(done);
  }

  /** How often the name of call `i` occurs before it. */
  function Earlier(calls: seq<OpCall>, i: nat, name: string): nat
    requires i <= |calls|
  {
    if i == 0 then 0 else Earlier(calls, i - 1, name) + if calls[i - 1].config.name == name then 1 else 0
  }

  ghost predicate Counted(calls: seq<OpCall>, k: nat, counts: map<string, nat>)
    requires k <= |calls|
  {
    forall name :: if Earlier(calls, k, name) == 0 then name !in counts else name in counts && counts[name] + 1 == Earlier(calls, k, name)
  }

  /** An explicit name that an earlier operator has. */
  predicate Refused(calls: seq<OpCall>, j: nat)
    requires j < |calls|
  {
    IsExplicit(calls[j]) && Earlier(calls, j, calls[j].config.name) > 0
  }

  predicate AnyRefused(calls: seq<OpCall>, k: nat) {
    exists j: nat :: k <= j < |calls| && Refused(calls, j)
  }

  function NameAt(calls: seq<OpCall>, j: nat): string
    requires j < |calls|
  {
    Numbered(calls[j].config.name, Earlier(calls, j, calls[j].config.name))
  }

  function NamesFrom(calls: seq<OpCall>, k: nat): seq<string>
    requires k <= |calls|
  {
    seq(|calls| - k, i requires 0 <= i < |calls| - k => NameAt(calls, k + i))
  }

  lemma {:induction false} AssignedFrom(calls: seq<OpCall>, k: nat, counts: map<string, nat>)
    requires k <= |calls| && Counted(calls, k, counts)
    ensures AssignFrom(calls[k..], counts) == if AnyRefused(calls, k) then None else Some(NamesFrom(calls, k))
    decreases |calls| - k
  {
    if k == |calls| {
      assert calls[k..] == [] && NamesFrom(calls, k) == [];
    } else {
      assert calls[k..][1..] == calls[k + 1..] && calls[k..][0] == calls[k];
      var name := calls[k].config.name;
      var n := if name in counts then counts[name] + 1 else 0;
      assert n == Earlier(calls, k, name);
      if Refused(calls, k) {
        assert AnyRefused(calls, k) && AssignFrom(calls[k..], counts) == None;
      } else {
        AssignedFrom(calls, k + 1, counts[name := n]);
        assert AnyRefused(calls, k) <==> AnyRefused(calls, k + 1);
        assert NamesFrom(calls, k) == [NameAt(calls, k)] + NamesFrom(calls, k + 1);
        assert AssignFrom(calls[k..], counts) == Prepend([NameAt(calls, k)], AssignFrom(calls[k + 1..], counts[name := n]));
      }
    }
  }

  /** What the duplicate check guarantees: no explicit name was used by an earlier operator, and all names are as counted. */
  lemma {:induction false} Assigned(calls: seq<OpCall>)
    ensures AssignFrom(calls, map[]).None? <==> AnyRefused(calls, 0)
    ensures AssignFrom(calls, map[]).Some? ==>
              var names := AssignFrom(calls, map[]).value;
              |names| == |calls| && forall j :: 0 <= j < |calls| ==> names[j] == NameAt(calls, j)
  {
    assert calls[0..] == calls;
    AssignedFrom(calls, 0, map[]);
    assert forall j :: 0 <= j < |calls| ==> NamesFrom(calls, 0)[j] == NameAt(calls, j);
  }

  lemma {:induction false} EarlierMeans(calls: seq<OpCall>, j: nat, name: string)
    requires j <= |calls|
    ensures Earlier(calls, j, name) > 0 <==> exists i :: 0 <= i < j && calls[i].config.name == name
    ensures forall i :: 0 <= i < j && calls[i].config.name == name ==> Earlier(calls, i, name) < Earlier(calls, j, name)
    ensures forall i :: 0 <= i < j ==> Earlier(calls, i, name) <= Earlier(calls, j, name)
  {
    if j > 0 {
      EarlierMeans(calls, j - 1, name);
    }
  }

  lemma {:induction false} FirstUse(calls: seq<OpCall>, j: nat) returns (i: nat)
    requires j < |calls|
    ensures i <= j && calls[i].config.name == calls[j].config.name && Earlier(calls, i, calls[i].config.name) == 0
  {
    EarlierMeans(calls, j, calls[j].config.name);
    if Earlier(calls, j, calls[j].config.name) == 0 {
      i := j;
    } else {
      var k :| 0 <= k < j && calls[k].config.name == calls[j].config.name;
      i := FirstUse(calls, k);
    }
  }

  /** Names with different bases or numbers differ. */
  lemma {:induction false} NumberedInjective(a: string, k: nat, b: string, l: nat)
    requires k > 0 && l > 0 && Numbered(a, k) == Numbered(b, l)
    ensures a == b && k == l
  {
    DigitsOnly(k);
    DigitsOnly(l);
    var s, t := Numbered(a, k), Numbered(b, l);
    assert s == a + ("_" + Digits(k)) && t == b + ("_" + Digits(l));
    assert s[|a|] == '_' && t[|b|] == '_';
    assert forall i :: |a| < i < |s| ==> s[i] == Digits(k)[i - |a| - 1];
    assert forall i :: |b| < i < |t| ==> t[i] == Digits(l)[i - |b| - 1];
    assert |a| == |b|;
    assert s[..|a|] == a && t[..|b|] == b;
    assert s[|a| + 1..] == Digits(k) && t[|b| + 1..] == Digits(l);
    DigitsInjective(k, l);
  }

  ghost predicate Distinct(names: seq<string>) {
    forall i, j :: 0 <= i < j < |names| ==> names[i] != names[j]
  }

  /** Some repeated name, once it is numbered, is also the own name of an operator. */
  ghost predicate Clashes(calls: seq<OpCall>) {
    exists i, j :: 0 <= i < |calls| && 0 <= j < |calls|
                   && Earlier(calls, i, calls[i].config.name) > 0 && NameAt(calls, i) == calls[j].config.name
  }

  lemma {:induction false} NumberedIsLonger(name: string, n: nat)
    ensures Numbered(name, n) != name <==> n > 0
  {
    assert n > 0 ==> |Numbered(name, n)| > |name|;
  }

  /** The check does not make all names distinct: exactly when a numbered name meets another operator's own name, two
      operators end up with one name. */
  lemma {:induction false} DistinctUnlessClash(calls: seq<OpCall>)
    requires AssignFrom(calls, map[]).Some?
    ensures |AssignFrom(calls, map[]).value| == |calls|
    ensures Distinct(AssignFrom(calls, map[]).value) <==> !Clashes(calls)
  {
    var names := AssignFrom(calls, map[]).value;
    Assigned(calls);
    if Clashes(calls) {
      var i: nat, j: nat :| i < |calls| && j < |calls|
                            && Earlier(calls, i, calls[i].config.name) > 0 && NameAt(calls, i) == calls[j].config.name;
      var first := FirstUse(calls, j);
      assert names[first] == calls[first].config.name == names[i];
      assert first != i;
    } else {
      forall i, j | 0 <= i < j < |calls|
        ensures names[i] != names[j]
      {
        var a, b := calls[i].config.name, calls[j].config.name;
        EarlierMeans(calls, j, b);
        NumberedIsLonger(a, Earlier(calls, i, a));
        NumberedIsLonger(b, Earlier(calls, j, b));
        if a == b {
          NumberedDiffer(a, Earlier(calls, i, a), Earlier(calls, j, a));
        } else if names[i] != a && names[j] != b && names[i] == names[j] {
          NumberedInjective(a, Earlier(calls, i, a), b, Earlier(calls, j, b));
        }
      }
    }
  }

  lemma {:induction false} NumberedDiffer(name: string, k: nat, l: nat)
    requires k < l
    ensures Numbered(name, k) != Numbered(name, l)
  {
    if k > 0 {
      if Numbered(name, k) == Numbered(name, l) {
        NumberedInjective(name, k, name, l);
      }
    } else {
      assert |Numbered(name, l)| > |name|;
    }
  }

  lemma {:induction false} DistinctAccepted(calls: seq<OpCall>)
    requires forall i, j :: 0 <= i < j < |calls| ==> calls[i].config.name != calls[j].config.name
    ensures AssignFrom(calls, map[]).Some?
  {
    Assigned(calls);
    forall j: nat | j < |calls|
      ensures !Refused(calls, j)
    {
      EarlierMeans(calls, j, calls[j].config.name);
    }
  }

  /** A list with such a clash: two equal operators with a generated name, and one that is explicitly called the same with
      "_1" behind it. */
  lemma {:induction false} AcceptedListWithClash(call: OpCall, opType: OpType, behave: View -> Option<Output>)
    ensures
      var name := "transform_copy_3F9A2C";
      var generated := call.(config := call.config.(name := name), work := UserOp(false, opType, behave));
      var explicit := call.(config := call.config.(name := name + "_1"), work := UserOp(true, opType, behave));
      AssignFrom([generated, generated, explicit], map[]) == Some([name, name + "_1", name + "_1"])
  {
    ClashOn("transform_copy_3F9A2C", call, opType, behave);
  }

  lemma {:induction false} ClashOn(name: string, call: OpCall, opType: OpType, behave: View -> Option<Output>)
    ensures
      var generated := call.(config := call.config.(name := name), work := UserOp(false, opType, behave));
      var explicit := call.(config := call.config.(name := name + "_1"), work := UserOp(true, opType, behave));
      AssignFrom([generated, generated, explicit], map[]) == Some([name, name + "_1", name + "_1"])
  {
    var generated := call.(config := call.config.(name := name), work := UserOp(false, opType, behave));
    var explicit := call.(config := call.config.(name := name + "_1"), work := UserOp(true, opType, behave));
    var calls := [generated, generated, explicit];
    Assigned(calls);
    assert |name + "_1"| != |name|;
    assert Earlier(calls, 0, name) == 0 && Earlier(calls, 1, name) == 1;
    assert Earlier(calls, 1, name + "_1") == 0;
    assert Earlier(calls, 2, name + "_1") == 0;
    assert Digits(1) == "1";
    assert name + "_" + "1" == name + "_1";
    assert !Refused(calls, 0) && !Refused(calls, 1) && !Refused(calls, 2);
    var names := AssignFrom(calls, map[]).value;
    assert names == [names[0], names[1], names[2]];
  }
}
