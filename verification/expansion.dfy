/** Expansion of a pipeline tree into the sequence of its operators. */
module Expansion {
  import opened Options

  /** The operator names, and the entries of each nested flow. */
  datatype Config = Config(operators: set<string>, flows: map<string, seq<string>>)

  datatype Error = Repeated(name: string) | Cycle(path: string) | Unknown(name: string)

  /** The sequence so far, and the flow each operator was found in. */
  datatype Expanded = Expanded(sequence: seq<string>, flowOf: map<string, string>)

  const NOTHING_YET := Expanded([], map[])

  function Expand(c: Config, entries: seq<string>, parent: string, x: Expanded, visiting: set<string>): (r: (Expanded, Option<Error>))
    decreases |c.flows.Keys - visiting|, |entries|
  {
    if entries == [] then (x, None) else
      var e := entries[0];
      if e in c.operators then
        if e in x.sequence then (x, Some(Repeated(e)))
        else Expand(c, entries[1..], parent, Expanded(x.sequence + [e], x.flowOf[e := parent]), visiting)
      else if e in c.flows then
        if e in visiting then (x, Some(Cycle(e))) else
          Fewer(c.flows.Keys, visiting, e);
          var (x', problem) := Expand(c, c.flows[e], e, x, visiting + {e});
          if problem.Some? then (x', problem) else Expand(c, entries[1..], parent, x', visiting)
      else (x, Some(Unknown(e)))
  }

  lemma {:induction false} Fewer(keys: set<string>, visiting: set<string>, e: string)
    requires e in keys && e !in visiting
    ensures |keys - (visiting + {e})| < |keys - visiting|
  {
    assert keys - (visiting + {e}) == (keys - visiting) - {e};
  }

  /** Recursive expansion over shared collections; `visiting` is restored when a call returns. */
  method ExpandEntries(c: Config, entries: seq<string>, parent: string, x: Expanded, visiting: set<string>, seen: set<string>)
    returns (x': Expanded, seen': set<string>, problem: Option<Error>)
    requires seen == set e | e in x.sequence
    ensures (x', problem) == Expand(c, entries, parent, x, visiting)
    ensures seen' == set e | e in x'.sequence
    decreases |c.flows.Keys - visiting|
  {
    x', seen' := x, seen;
    for k := 0 to |entries|
      invariant seen' == set e | e in x'.sequence
      invariant Expand(c, entries, parent, x, visiting) == Expand(c, entries[k..], parent, x', visiting)
    {
      var entry := entries[k];
      assert entries[k..][1..] == entries[k + 1..];
      if entry in c.operators {
        if entry in seen' {
          return x', seen', Some(Repeated(entry));
        }
        seen' := seen' + {entry};
        x' := Expanded(x'.sequence + [entry], x'.flowOf[entry := parent]);
      } else if entry in c.flows {
        if entry in visiting {
          return x', seen', Some(Cycle(entry));
        }
        Fewer(c.flows.Keys, visiting, entry);
        x', seen', problem := ExpandEntries(c, c.flows[entry], entry, x', visiting + {entry}, seen');
        if problem.Some? {
          return;
        }
      } else {
        return x', seen', Some(Unknown(entry));
      }
    }
    problem := None;
  }

  // ----- the reference: a finite tree that the entries unfold into -----

  datatype Tree = Leaf(name: string) | Nested(path: string, kids: Forest)

  datatype Forest = Nil | Cons(head: Tree, tail: Forest)

  predicate Unfolds(c: Config, entries: seq<string>, f: Forest)
    decreases f
  {
    match f
    case Nil => entries == []
    case Cons(Leaf(name), tail) => entries != [] && name == entries[0] && name in c.operators && Unfolds(c, entries[1..], tail)
    case Cons(Nested(path, kids), tail) =>
      && entries != [] && path == entries[0] && path !in c.operators && path in c.flows
      && Unfolds(c, c.flows[path], kids) && Unfolds(c, entries[1..], tail)
  }

  /** The operators of a forest, depth first. */
  function Leaves(f: Forest): seq<string> {
    match f
    case Nil => []
    case Cons(Leaf(name), tail) => [name] + Leaves(tail)
    case Cons(Nested(_, kids), tail) => Leaves(kids) + Leaves(tail)
  }

  /** For each of them, the flow it is in. */
  function Homes(f: Forest, parent: string): seq<string> {
    match f
    case Nil => []
    case Cons(Leaf(_), tail) => [parent] + Homes(tail, parent)
    case Cons(Nested(path, kids), tail) => Homes(kids, path) + Homes(tail, parent)
  }

  lemma {:induction false} OneHomeEach(f: Forest, parent: string)
    ensures |Homes(f, parent)| == |Leaves(f)|
  {
    match f
    case Nil =>
    case Cons(Leaf(_), tail) => OneHomeEach(tail, parent);
    case Cons(Nested(path, kids), tail) =>
      OneHomeEach(kids, path);
      OneHomeEach(tail, parent);
  }

  function Size(f: Forest): nat {
    match f
    case Nil => 0
    case Cons(Leaf(_), tail) => 1 + Size(tail)
    case Cons(Nested(_, kids), tail) => 1 + Size(kids) + Size(tail)
  }

  /** `x` extended by the operators `names`, found in `homes`. */
  function Appended(x: Expanded, names: seq<string>, homes: seq<string>): Expanded
    requires |names| == |homes|
    decreases |names|
  {
    if names == [] then x
    else Appended(Expanded(x.sequence + [names[0]], x.flowOf[names[0] := homes[0]]), names[1..], homes[1..])
  }

  ghost predicate NoRepeats(s: seq<string>) {
    forall i, j :: 0 <= i < j < |s| ==> s[i] != s[j]
  }

  lemma {:induction false} AppendedTwice(x: Expanded, a: seq<string>, ha: seq<string>, b: seq<string>, hb: seq<string>)
    requires |a| == |ha| && |b| == |hb|
    ensures Appended(x, a + b, ha + hb) == Appended(Appended(x, a, ha), b, hb)
    ensures Appended(x, a, ha).sequence == x.sequence + a
    decreases |a|
  {
    if a == [] {
      assert a + b == b && ha + hb == hb && x.sequence + a == x.sequence;
    } else {
      assert (a + b)[1..] == a[1..] + b && (ha + hb)[1..] == ha[1..] + hb;
      var x1 := Expanded(x.sequence + [a[0]], x.flowOf[a[0] := ha[0]]);
      AppendedTwice(x1, a[1..], ha[1..], b, hb);
      assert x.sequence + [a[0]] + a[1..] == x.sequence + a;
    }
  }

  lemma {:induction false} AppendedFirst(x: Expanded, e: string, home: string, names: seq<string>, homes: seq<string>)
    requires |names| == |homes|
    ensures Appended(x, [e] + names, [home] + homes) == Appended(Expanded(x.sequence + [e], x.flowOf[e := home]), names, homes)
    ensures x.sequence + ([e] + names) == x.sequence + [e] + names
  {
    assert ([e] + names)[1..] == names && ([home] + homes)[1..] == homes;
  }

  lemma {:induction false} LeafFirst(x: Expanded, e: string, parent: string, tail: Forest)
    requires |Homes(tail, parent)| == |Leaves(tail)|
    ensures
      var f := Cons(Leaf(e), tail);
      && |Homes(f, parent)| == |Leaves(f)|
      && Appended(x, Leaves(f), Homes(f, parent))
         == Appended(Expanded(x.sequence + [e], x.flowOf[e := parent]), Leaves(tail), Homes(tail, parent))
      && x.sequence + Leaves(f) == x.sequence + [e] + Leaves(tail)
  {
    AppendedFirst(x, e, parent, Leaves(tail), Homes(tail, parent));
  }

  lemma {:induction false} NestedFirst(x: Expanded, e: string, parent: string, kids: Forest, tail: Forest)
    requires |Homes(kids, e)| == |Leaves(kids)| && |Homes(tail, parent)| == |Leaves(tail)|
    ensures
      var f, x1 := Cons(Nested(e, kids), tail), Appended(x, Leaves(kids), Homes(kids, e));
      && |Homes(f, parent)| == |Leaves(f)| && x1.sequence == x.sequence + Leaves(kids)
      && Appended(x, Leaves(f), Homes(f, parent)) == Appended(x1, Leaves(tail), Homes(tail, parent))
      && x.sequence + Leaves(f) == x1.sequence + Leaves(tail)
  {
    AppendedTwice(x, Leaves(kids), Homes(kids, e), Leaves(tail), Homes(tail, parent));
    assert x.sequence + (Leaves(kids) + Leaves(tail)) == x.sequence + Leaves(kids) + Leaves(tail);
  }

  /** What a successful expansion has produced. */
  lemma {:induction false} SuccessUnfolds(c: Config, entries: seq<string>, parent: string, x: Expanded, visiting: set<string>)
    returns (f: Forest)
    requires Expand(c, entries, parent, x, visiting).1.None? && NoRepeats(x.sequence)
    ensures Unfolds(c, entries, f) && |Homes(f, parent)| == |Leaves(f)|
    ensures Expand(c, entries, parent, x, visiting).0 == Appended(x, Leaves(f), Homes(f, parent))
    ensures NoRepeats(x.sequence + Leaves(f))
    decreases |c.flows.Keys - visiting|, |entries|
  {
    if entries == [] {
      f := Nil;
      assert x.sequence + [] == x.sequence;
    } else {
      var e := entries[0];
      if e in c.operators {
        var tail := SuccessUnfolds(c, entries[1..], parent, Expanded(x.sequence + [e], x.flowOf[e := parent]), visiting);
        f := Cons(Leaf(e), tail);
        LeafFirst(x, e, parent, tail);
      } else {
        Fewer(c.flows.Keys, visiting, e);
        var kids := SuccessUnfolds(c, c.flows[e], e, x, visiting + {e});
        NestedFirst(x, e, parent, kids, Nil);
        var x1 := Expand(c, c.flows[e], e, x, visiting + {e}).0;
        var tail := SuccessUnfolds(c, entries[1..], parent, x1, visiting);
        f := Cons(Nested(e, kids), tail);
        NestedFirst(x, e, parent, kids, tail);
      }
    }
  }

  lemma {:induction false} UnfoldsUnique(c: Config, entries: seq<string>, f: Forest, g: Forest)
    requires Unfolds(c, entries, f) && Unfolds(c, entries, g)
    ensures f == g
    decreases f
  {
    match f
    case Nil =>
    case Cons(Leaf(_), tail) => UnfoldsUnique(c, entries[1..], tail, g.tail);
    case Cons(Nested(path, kids), tail) =>
      UnfoldsUnique(c, c.flows[path], kids, g.head.kids);
      UnfoldsUnique(c, entries[1..], tail, g.tail);
  }

  /** The flows being visited enclose what is left: their own unfolding is no smaller. */
  ghost predicate Enclosing(c: Config, visiting: set<string>, size: nat) {
    forall v, g :: v in visiting && v in c.flows && Unfolds(c, c.flows[v], g) ==> Size(g) >= size
  }

  /** A finite forest with distinct operators can be expanded. */
  lemma {:induction false} ForestExpands(c: Config, entries: seq<string>, parent: string, x: Expanded, visiting: set<string>, f: Forest)
    requires Unfolds(c, entries, f) && NoRepeats(x.sequence + Leaves(f)) && Enclosing(c, visiting, Size(f))
    ensures Expand(c, entries, parent, x, visiting).1.None?
    decreases f
  {
    match f
    case Nil =>
    case Cons(Leaf(e), tail) =>
      assert x.sequence + Leaves(f) == x.sequence + [e] + Leaves(tail);
      NewName(x.sequence, e, Leaves(tail));
      ForestExpands(c, entries[1..], parent, Expanded(x.sequence + [e], x.flowOf[e := parent]), visiting, tail);
    case Cons(Nested(e, kids), tail) =>
      assert x.sequence + Leaves(f) == x.sequence + Leaves(kids) + Leaves(tail);
      PrefixNoRepeats(x.sequence + Leaves(kids), Leaves(tail));
      PrefixNoRepeats(x.sequence, Leaves(kids));
      assert e in visiting ==> Size(kids) >= Size(f);
      forall g | Unfolds(c, c.flows[e], g)
        ensures g == kids
      {
        UnfoldsUnique(c, c.flows[e], g, kids);
      }
      Fewer(c.flows.Keys, visiting, e);
      ForestExpands(c, c.flows[e], e, x, visiting + {e}, kids);
      var again := SuccessUnfolds(c, c.flows[e], e, x, visiting + {e});
      UnfoldsUnique(c, c.flows[e], again, kids);
      AppendedTwice(x, Leaves(kids), Homes(kids, e), [], []);
      ForestExpands(c, entries[1..], parent, Expand(c, c.flows[e], e, x, visiting + {e}).0, visiting, tail);
  }

  lemma {:induction false} NewName(s: seq<string>, e: string, rest: seq<string>)
    requires NoRepeats(s + [e] + rest)
    ensures e !in s
  {
    var all := s + [e] + rest;
    assert all[|s|] == e;
    assert forall i :: 0 <= i < |s| ==> all[i] == s[i];
  }

  lemma {:induction false} PrefixNoRepeats(a: seq<string>, b: seq<string>)
    requires NoRepeats(a + b)
    ensures NoRepeats(a)
  {
    assert forall i :: 0 <= i < |a| ==> (a + b)[i] == a[i];
  }

  lemma {:induction false} AppendedMap(x: Expanded, names: seq<string>, homes: seq<string>)
    requires |names| == |homes| && NoRepeats(names)
    ensures
      var m := Appended(x, names, homes).flowOf;
      && (forall i :: 0 <= i < |names| ==> names[i] in m && m[names[i]] == homes[i])
      && (forall n :: n !in names ==> (n in m <==> n in x.flowOf) && (n in m ==> m[n] == x.flowOf[n]))
    decreases |names|
  {
    if names != [] {
      var x1 := Expanded(x.sequence + [names[0]], x.flowOf[names[0] := homes[0]]);
      assert forall i :: 0 <= i < |names| - 1 ==> names[1..][i] == names[i + 1] && homes[1..][i] == homes[i + 1];
      AppendedMap(x1, names[1..], homes[1..]);
      assert names[0] !in names[1..];
      assert forall n :: n in names <==> n == names[0] || n in names[1..];
    }
  }

  /** Main result: expansion succeeds exactly when the entries unfold into a finite tree in which no operator occurs
      twice, and then lists the tree's operators depth first, each with the flow it is in. */
  lemma {:induction false} ExpansionIsDepthFirst(c: Config, entries: seq<string>, parent: string)
    ensures Expand(c, entries, parent, NOTHING_YET, {}).1.None? <==>
            exists f: Forest :: Unfolds(c, entries, f) && NoRepeats(Leaves(f))
    ensures forall f: Forest :: Unfolds(c, entries, f) && NoRepeats(Leaves(f)) ==>
              var (x, problem) := Expand(c, entries, parent, NOTHING_YET, {});
              && problem.None?
              && x.sequence == Leaves(f) && |Homes(f, parent)| == |Leaves(f)| && x.flowOf.Keys == (set n | n in Leaves(f))
              && forall i :: 0 <= i < |Leaves(f)| ==> x.flowOf[Leaves(f)[i]] == Homes(f, parent)[i]
  {
    if Expand(c, entries, parent, NOTHING_YET, {}).1.None? {
      var f := SuccessUnfolds(c, entries, parent, NOTHING_YET, {});
      assert [] + Leaves(f) == Leaves(f);
    }
    forall f: Forest | Unfolds(c, entries, f) && NoRepeats(Leaves(f))
      ensures
        var (x, problem) := Expand(c, entries, parent, NOTHING_YET, {});
        && problem.None?
        && x.sequence == Leaves(f) && |Homes(f, parent)| == |Leaves(f)| && x.flowOf.Keys == (set n | n in Leaves(f))
        && forall i :: 0 <= i < |Leaves(f)| ==> x.flowOf[Leaves(f)[i]] == Homes(f, parent)[i]
    {
      assert [] + Leaves(f) == Leaves(f);
      ForestExpands(c, entries, parent, NOTHING_YET, {}, f);
      var g := SuccessUnfolds(c, entries, parent, NOTHING_YET, {});
      UnfoldsUnique(c, entries, f, g);
      AppendedTwice(NOTHING_YET, Leaves(f), Homes(f, parent), [], []);
      AppendedMap(NOTHING_YET, Leaves(f), Homes(f, parent));
    }
  }

  predicate Mentions(f: Forest, path: string) {
    match f
    case Nil => false
    case Cons(Leaf(_), tail) => Mentions(tail, path)
    case Cons(Nested(p, kids), tail) => p == path || Mentions(kids, path) || Mentions(tail, path)
  }

  /** A nested flow that unfolds does not contain itself, directly or not. */
  lemma {:induction false} NoFlowInsideItself(c: Config, f: Forest, path: string, g: Forest)
    requires path in c.flows && Unfolds(c, c.flows[path], g)
    requires exists entries :: Unfolds(c, entries, f)
    requires Size(f) <= Size(g)
    ensures !Mentions(f, path)
    decreases f
  {
    var entries :| Unfolds(c, entries, f);
    match f
    case Nil =>
    case Cons(Leaf(_), tail) => NoFlowInsideItself(c, tail, path, g);
    case Cons(Nested(p, kids), tail) =>
      NoFlowInsideItself(c, kids, path, g);
      NoFlowInsideItself(c, tail, path, g);
      if p == path {
        UnfoldsUnique(c, c.flows[path], kids, g);
      }
  }
}
