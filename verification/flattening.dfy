/** Flattening a flow and expanding the emitted pipeline tree again gives the global operator order back. */
module Flattening {
  import opened Options
  import opened Calls
  import opened ControlFlow
  import opened Flows
  import opened SubFlows
  import E = Expansion

  /** Flows directly below the root have names; below a nested flow the path is longer anyway. */
  predicate Titled(children: seq<Child>, path: string) {
    path == "" ==> forall i :: 0 <= i < |children| && children[i].Sub? ==> children[i].name != ""
  }

  predicate InBounds(entries: seq<Entry>, n: nat) {
    forall i :: 0 <= i < |entries| && entries[i].OpEntry? ==> entries[i].index < n
  }

  function Resolve(entries: seq<Entry>, names: seq<string>): seq<string>
    requires InBounds(entries, |names|)
  {
    seq(|entries|, i requires 0 <= i < |entries| => if entries[i].OpEntry? then names[entries[i].index] else entries[i].path)
  }

  function Paths(calls: seq<OpCall>): seq<string> {
    seq(|calls|, i requires 0 <= i < |calls| => calls[i].path)
  }

  /** `b` came from `a` by adding calls, and entries for flows with longer paths than `path`, or for `path` if allowed. */
  ghost predicate Grew(a: Flat, b: Flat, path: string, itself: bool) {
    && a.calls <= b.calls
    && (forall p :: p in a.structures ==> p in b.structures && b.structures[p] == a.structures[p])
    && (forall p :: p in b.structures && p !in a.structures ==> |p| > |path| || (itself && p == path))
    && (forall p :: p in b.structures && p !in a.structures ==> InBounds(b.structures[p], |b.calls|))
  }

  lemma {:induction false} GrewTwice(a: Flat, b: Flat, c: Flat, path: string, itself: bool, later: bool)
    requires Grew(a, b, path, itself) && Grew(b, c, path, later)
    ensures Grew(a, c, path, itself || later)
  {
    forall p | p in c.structures && p !in a.structures
      ensures InBounds(c.structures[p], |c.calls|) && (|p| > |path| || ((itself || later) && p == path))
    {
      if p in b.structures {
        assert InBounds(b.structures[p], |b.calls|);
      }
    }
  }

  lemma {:induction false} JoinIsLonger(path: string, name: string)
    requires path != "" || name != ""
    ensures |Join(path, name)| > |path|
  {
  }

  lemma {:induction false} WalkGrows(children: seq<Child>, locals: seq<OpCall>, path: string, m: map<string, string>, inherited: seq<string>,
                                     acc: Flat, entries: seq<Entry>)
    requires |locals| == |CallsOf(children)| && Titled(children, path) && InBounds(entries, |acc.calls|)
    requires Walk(children, locals, path, m, inherited, acc, entries).2.None?
    ensures
      var r := Walk(children, locals, path, m, inherited, acc, entries);
      Grew(acc, r.0, path, false) && entries <= r.1 && InBounds(r.1, |r.0.calls|)
    decreases children, |children|
  {
    if children != [] {
      var r := Walk(children, locals, path, m, inherited, acc, entries).0;
      if children[0].Op? {
        var acc1, entries1 := acc.(calls := acc.calls + [Inherit(locals[0], path, inherited)]), entries + [OpEntry(|acc.calls|)];
        WalkGrows(children[1..], locals[1..], path, m, inherited, acc1, entries1);
        GrewTwice(acc, acc1, r, path, false, false);
      } else {
        var Sub(name, inner, parentSkips) := children[0];
        var innerPath, guards := Join(path, name), inherited + RenamedAll(m, parentSkips);
        var acc1 := Traverse(inner, innerPath, guards, acc).0;
        NestedGrows(inner, name, path, guards, acc);
        WalkGrows(children[1..], locals, path, m, inherited, acc1, entries + [FlowEntry(innerPath)]);
        GrewTwice(acc, acc1, r, path, false, false);
      }
    }
  }

  lemma {:induction false} NestedGrows(inner: Flow, name: string, path: string, guards: seq<string>, acc: Flat)
    requires (path != "" || name != "") && Titled(inner.children, Join(path, name)) && Join(path, name) !in acc.structures
    requires Traverse(inner, Join(path, name), guards, acc).1.None?
    ensures Grew(acc, Traverse(inner, Join(path, name), guards, acc).0, path, false)
    decreases inner, 1
  {
    JoinIsLonger(path, name);
    TraverseGrows(inner, Join(path, name), guards, acc);
    GrewInside(acc, Traverse(inner, Join(path, name), guards, acc).0, path, Join(path, name));
  }

  lemma {:induction false} GrewInside(a: Flat, b: Flat, path: string, inner: string)
    requires Grew(a, b, inner, true) && |inner| > |path|
    ensures Grew(a, b, path, false)
  {
  }

  lemma {:induction false} TraverseGrows(flow: Flow, path: string, inherited: seq<string>, acc: Flat)
    requires Titled(flow.children, path) && path !in acc.structures && Traverse(flow, path, inherited, acc).1.None?
    ensures Grew(acc, Traverse(flow, path, inherited, acc).0, path, true) && path in Traverse(flow, path, inherited, acc).0.structures
    decreases flow, 0
  {
    var (locals, m) := RenameFrom(CallsOf(flow.children), 0, path, map[]);
    RenameKeepsLength(CallsOf(flow.children), 0, path, map[]);
    WalkGrows(flow.children, locals, path, m, inherited, acc, []);
  }

  // ----- the emitted tree unfolds -----

  /** The loader's configuration has these operators, and the recorded entries for every nested flow. */
  ghost predicate Emitted(c: E.Config, names: seq<string>, flat: Flat) {
    && |flat.calls| <= |names|
    && (forall i :: 0 <= i < |names| ==> names[i] in c.operators)
    && (forall p :: p in flat.structures && p != "" ==>
          p in c.flows && p !in c.operators && InBounds(flat.structures[p], |names|) && c.flows[p] == Resolve(flat.structures[p], names))
  }

  lemma {:induction false} EmittedEarlier(c: E.Config, names: seq<string>, a: Flat, b: Flat, path: string, itself: bool)
    requires Emitted(c, names, b) && Grew(a, b, path, itself)
    ensures Emitted(c, names, a)
  {
    forall p | p in a.structures && p != ""
      ensures p in c.flows && p !in c.operators && InBounds(a.structures[p], |names|) && c.flows[p] == Resolve(a.structures[p], names)
    {
      assert b.structures[p] == a.structures[p];
    }
  }

  /** `f` is what the entries unfold into, and its leaves are the calls added between `a` and `b`. */
  ghost predicate Covers(c: E.Config, names: seq<string>, entries: seq<string>, f: E.Forest, a: Flat, b: Flat, path: string) {
    && |a.calls| <= |b.calls| <= |names|
    && E.Unfolds(c, entries, f) && E.Leaves(f) == names[|a.calls|..|b.calls|]
    && E.Homes(f, path) == Paths(b.calls[|a.calls|..])
  }

  lemma {:induction false} WalkUnfolds(children: seq<Child>, locals: seq<OpCall>, path: string, m: map<string, string>, inherited: seq<string>,
                                       acc: Flat, entries: seq<Entry>, c: E.Config, names: seq<string>) returns (f: E.Forest)
    requires |locals| == |CallsOf(children)| && Titled(children, path) && InBounds(entries, |acc.calls|)
    requires
      var r := Walk(children, locals, path, m, inherited, acc, entries);
      r.2.None? && Emitted(c, names, r.0) && entries <= r.1 && InBounds(r.1, |names|)
    ensures
      var r := Walk(children, locals, path, m, inherited, acc, entries);
      Covers(c, names, Resolve(r.1[|entries|..], names), f, acc, r.0, path)
    decreases children, |children|, 1
  {
    var r := Walk(children, locals, path, m, inherited, acc, entries);
    if children == [] {
      f := E.Nil;
      assert Resolve(r.1[|entries|..], names) == [];
      assert names[|acc.calls|..|acc.calls|] == [] && Paths(acc.calls[|acc.calls|..]) == [];
    } else if children[0].Op? {
      f := OpUnfolds(children, locals, path, m, inherited, acc, entries, c, names);
    } else {
      f := SubUnfolds(children, locals, path, m, inherited, acc, entries, c, names);
    }
  }

  lemma {:induction false} OpUnfolds(children: seq<Child>, locals: seq<OpCall>, path: string, m: map<string, string>, inherited: seq<string>,
                                       acc: Flat, entries: seq<Entry>, c: E.Config, names: seq<string>) returns (f: E.Forest)
    requires |locals| == |CallsOf(children)| && Titled(children, path) && InBounds(entries, |acc.calls|)
    requires children != [] && children[0].Op?
    requires
      var r := Walk(children, locals, path, m, inherited, acc, entries);
      r.2.None? && Emitted(c, names, r.0) && entries <= r.1 && InBounds(r.1, |names|)
    ensures
      var r := Walk(children, locals, path, m, inherited, acc, entries);
      Covers(c, names, Resolve(r.1[|entries|..], names), f, acc, r.0, path)
    decreases children, |children|, 0
  {
    var r := Walk(children, locals, path, m, inherited, acc, entries);
    var call := Inherit(locals[0], path, inherited);
    var acc1, entries1 := acc.(calls := acc.calls + [call]), entries + [OpEntry(|acc.calls|)];
    WalkGrows(children[1..], locals[1..], path, m, inherited, acc1, entries1);
    var tail := WalkUnfolds(children[1..], locals[1..], path, m, inherited, acc1, entries1, c, names);
    f := E.Cons(E.Leaf(names[|acc.calls|]), tail);
    WithSkipsAdds(locals[0].(path := path), inherited);
    FirstEntry(entries, OpEntry(|acc.calls|), r.1, names);
    LeafCovers(c, names, Resolve(r.1[|entries|..], names), tail, acc, acc1, r.0, call);
  }

  lemma {:induction false} SubUnfolds(children: seq<Child>, locals: seq<OpCall>, path: string, m: map<string, string>, inherited: seq<string>,
                                       acc: Flat, entries: seq<Entry>, c: E.Config, names: seq<string>) returns (f: E.Forest)
    requires |locals| == |CallsOf(children)| && Titled(children, path) && InBounds(entries, |acc.calls|)
    requires children != [] && children[0].Sub?
    requires
      var r := Walk(children, locals, path, m, inherited, acc, entries);
      r.2.None? && Emitted(c, names, r.0) && entries <= r.1 && InBounds(r.1, |names|)
    ensures
      var r := Walk(children, locals, path, m, inherited, acc, entries);
      Covers(c, names, Resolve(r.1[|entries|..], names), f, acc, r.0, path)
    decreases children, |children|, 0
  {
    var r := Walk(children, locals, path, m, inherited, acc, entries);
    var Sub(name, inner, parentSkips) := children[0];
    var innerPath, guards := Join(path, name), inherited + RenamedAll(m, parentSkips);
    var acc1, entries1 := Traverse(inner, innerPath, guards, acc).0, entries + [FlowEntry(innerPath)];
    JoinIsLonger(path, name);
    TraverseGrows(inner, innerPath, guards, acc);
    WalkGrows(children[1..], locals, path, m, inherited, acc1, entries1);
    EmittedEarlier(c, names, acc1, r.0, path, false);
    var kids := TraverseUnfolds(inner, innerPath, guards, acc, c, names);
    var tail := WalkUnfolds(children[1..], locals, path, m, inherited, acc1, entries1, c, names);
    f := E.Cons(E.Nested(innerPath, kids), tail);
    FirstEntry(entries, FlowEntry(innerPath), r.1, names);
    NestedCovers(c, names, Resolve(r.1[|entries|..], names), innerPath, kids, tail, acc, acc1, r.0, path);
  }

  lemma {:induction false} FirstEntry(entries: seq<Entry>, e: Entry, all: seq<Entry>, names: seq<string>)
    requires entries + [e] <= all && InBounds(all, |names|)
    ensures
      var rest := Resolve(all[|entries|..], names);
      && rest != [] && (e.OpEntry? ==> e.index < |names|) && rest[0] == (if e.OpEntry? then names[e.index] else e.path)
      && rest[1..] == Resolve(all[|entries| + 1..], names)
  {
    assert all[|entries|] == e;
  }

  lemma {:induction false} LeafCovers(c: E.Config, names: seq<string>, entries: seq<string>, tail: E.Forest, a: Flat, b: Flat, last: Flat, call: OpCall)
    requires b.calls == a.calls + [call] && b.calls <= last.calls && |last.calls| <= |names|
    requires entries != [] && entries[0] == names[|a.calls|] && entries[0] in c.operators
    requires Covers(c, names, entries[1..], tail, b, last, call.path)
    ensures Covers(c, names, entries, E.Cons(E.Leaf(names[|a.calls|]), tail), a, last, call.path)
  {
    assert last.calls[|a.calls|] == call;
    assert names[|a.calls|..|last.calls|] == [names[|a.calls|]] + names[|b.calls|..|last.calls|];
    assert Paths(last.calls[|a.calls|..]) == [call.path] + Paths(last.calls[|b.calls|..]);
  }

  lemma {:induction false} NestedCovers(c: E.Config, names: seq<string>, entries: seq<string>, inner: string, kids: E.Forest, tail: E.Forest,
                     a: Flat, b: Flat, last: Flat, path: string)
    requires a.calls <= b.calls <= last.calls && |last.calls| <= |names|
    requires entries != [] && entries[0] == inner && inner in c.flows && inner !in c.operators
    requires Covers(c, names, c.flows[inner], kids, a, b, inner) && Covers(c, names, entries[1..], tail, b, last, path)
    ensures Covers(c, names, entries, E.Cons(E.Nested(inner, kids), tail), a, last, path)
  {
    assert names[|a.calls|..|last.calls|] == names[|a.calls|..|b.calls|] + names[|b.calls|..|last.calls|];
    assert Paths(last.calls[|a.calls|..]) == Paths(b.calls[|a.calls|..]) + Paths(last.calls[|b.calls|..]);
  }

  lemma {:induction false} TraverseUnfolds(flow: Flow, path: string, inherited: seq<string>, acc: Flat, c: E.Config, names: seq<string>)
    returns (f: E.Forest)
    requires Titled(flow.children, path) && path !in acc.structures && Traverse(flow, path, inherited, acc).1.None?
    requires Emitted(c, names, Traverse(flow, path, inherited, acc).0)
    ensures
      var after := Traverse(flow, path, inherited, acc).0;
      && path in after.structures && InBounds(after.structures[path], |names|)
      && Covers(c, names, Resolve(after.structures[path], names), f, acc, after, path)
    decreases flow, 0
  {
    var (locals, m) := RenameFrom(CallsOf(flow.children), 0, path, map[]);
    RenameKeepsLength(CallsOf(flow.children), 0, path, map[]);
    WalkGrows(flow.children, locals, path, m, inherited, acc, []);
    var (acc', entries, _) := Walk(flow.children, locals, path, m, inherited, acc, []);
    var after := Traverse(flow, path, inherited, acc).0;
    assert Grew(acc', after, path, true);
    EmittedEarlier(c, names, acc', after, path, true);
    f := WalkUnfolds(flow.children, locals, path, m, inherited, acc, [], c, names);
    assert entries[0..] == entries;
  }

  /** Main result. Traverse a flow, emit the operators under their names and the entries of every flow; the loader's
      expansion of the root entries succeeds exactly when the names are distinct, and then lists exactly the operators of
      the traversal, in its order, each with its path. */
  lemma {:induction false} ExpansionUndoesFlattening(flow: Flow, c: E.Config, names: seq<string>)
    requires Titled(flow.children, "") && Traverse(flow, "", [], Flat([], map[], [])).1.None?
    requires
      var flat := Traverse(flow, "", [], Flat([], map[], [])).0;
      Emitted(c, names, flat) && |names| == |flat.calls|
    ensures
      var flat := Traverse(flow, "", [], Flat([], map[], [])).0;
      && "" in flat.structures && InBounds(flat.structures[""], |names|)
      && var (x, problem) := E.Expand(c, Resolve(flat.structures[""], names), "", E.NOTHING_YET, {});
         && (problem.None? <==> E.NoRepeats(names))
         && (problem.None? ==> x.sequence == names && x.flowOf.Keys == (set n | n in names)
                               && forall i :: 0 <= i < |names| ==> x.flowOf[names[i]] == flat.calls[i].path)
  {
    var start := Flat([], map[], []);
    var flat := Traverse(flow, "", [], start).0;
    var f := TraverseUnfolds(flow, "", [], start, c, names);
    assert names[0..|flat.calls|] == names && flat.calls[0..] == flat.calls;
    var entries := Resolve(flat.structures[""], names);
    E.ExpansionIsDepthFirst(c, entries, "");
    if E.NoRepeats(names) {
      assert E.Unfolds(c, entries, f) && E.NoRepeats(E.Leaves(f));
      assert forall i :: 0 <= i < |names| ==> Paths(flat.calls)[i] == flat.calls[i].path;
    } else if g :| E.Unfolds(c, entries, g) && E.NoRepeats(E.Leaves(g)) {
      E.UnfoldsUnique(c, entries, f, g);
    }
  }

  // ----- when paths repeat -----

  /** The paths of the nested flows, each before those inside it. */
  function FlowPaths(children: seq<Child>, path: string): seq<string> {
    if children == [] then []
    else if children[0].Op? then FlowPaths(children[1..], path)
    else PathsOfFirst(children[0], path) + FlowPaths(children[1..], path)
  }

  function PathsOfFirst(child: Child, path: string): seq<string>
    requires child.Sub?
  {
    var innerPath := Join(path, child.name);
    [innerPath] + FlowPaths(child.flow.children, innerPath)
  }

  lemma {:induction false} PathsAreLonger(children: seq<Child>, path: string)
    requires Titled(children, path)
    ensures forall p :: p in FlowPaths(children, path) ==> |p| > |path|
    decreases children, |children|
  {
    if children != [] {
      PathsAreLonger(children[1..], path);
      if children[0].Sub? {
        JoinIsLonger(path, children[0].name);
        PathsAreLonger(children[0].flow.children, Join(path, children[0].name));
      }
    }
  }

  /** The paths `paths` are new and differ from one another. */
  ghost predicate AllNew(paths: seq<string>, acc: Flat) {
    E.NoRepeats(paths) && forall p :: p in paths ==> p !in acc.structures
  }

  ghost predicate Added(a: Flat, b: Flat, paths: seq<string>) {
    forall p :: p in b.structures.Keys <==> p in a.structures.Keys || p in paths
  }

  lemma {:induction false} NewInTwo(a: seq<string>, b: seq<string>, acc: Flat, acc1: Flat)
    requires Added(acc, acc1, a)
    ensures AllNew(a + b, acc) <==> AllNew(a, acc) && AllNew(b, acc1)
  {
    var c := a + b;
    assert forall i :: 0 <= i < |a| ==> c[i] == a[i];
    assert forall i :: 0 <= i < |b| ==> c[|a| + i] == b[i];
    if AllNew(c, acc) {
      forall p | p in b
        ensures p !in acc1.structures
      {
        assert p in c;
        var j :| 0 <= j < |b| && b[j] == p;
        assert forall i :: 0 <= i < |a| ==> c[i] != c[|a| + j];
      }
      assert forall p :: p in a ==> p in c;
    } else if AllNew(a, acc) && AllNew(b, acc1) {
      forall i, j | 0 <= i < j < |c|
        ensures c[i] != c[j]
      {
        if i < |a| <= j { assert c[i] in a && c[j] in b; }
      }
    }
  }

  lemma {:induction false} NewFirst(path: string, inside: seq<string>, acc: Flat)
    requires path !in inside
    ensures AllNew([path] + inside, acc) <==> path !in acc.structures && AllNew(inside, acc)
  {
    var c := [path] + inside;
    assert c[1..] == inside;
    if AllNew(c, acc) {
      forall i, j | 0 <= i < j < |inside|
        ensures inside[i] != inside[j]
      {
        assert c[1 + i] != c[1 + j];
      }
      assert forall p :: p in inside ==> p in c;
      assert path in c;
    }
  }

  /** A walk is refused exactly when a path repeats. */
  lemma {:induction false} WalkRefused(children: seq<Child>, locals: seq<OpCall>, path: string, m: map<string, string>, inherited: seq<string>,
                                       acc: Flat, entries: seq<Entry>)
    requires |locals| == |CallsOf(children)| && Titled(children, path)
    ensures
      var (after, _, problem) := Walk(children, locals, path, m, inherited, acc, entries);
      && (problem.None? <==> AllNew(FlowPaths(children, path), acc))
      && (problem.None? ==> Added(acc, after, FlowPaths(children, path)))
    decreases children, |children|
  {
    if children != [] {
      match children[0]
      case Op(_) =>
        var acc1 := acc.(calls := acc.calls + [Inherit(locals[0], path, inherited)]);
        WalkRefused(children[1..], locals[1..], path, m, inherited, acc1, entries + [OpEntry(|acc.calls|)]);
      case Sub(name, inner, parentSkips) =>
        var innerPath, guards := Join(path, name), inherited + RenamedAll(m, parentSkips);
        var acc1 := Traverse(inner, innerPath, guards, acc).0;
        var first, others := PathsOfFirst(children[0], path), FlowPaths(children[1..], path);
        JoinIsLonger(path, name);
        TraverseRefused(inner, innerPath, guards, acc);
        PathsAreLonger(inner.children, innerPath);
        NewFirst(innerPath, FlowPaths(inner.children, innerPath), acc);
        WalkRefused(children[1..], locals, path, m, inherited, acc1, entries + [FlowEntry(innerPath)]);
        if AllNew(first, acc) {
          assert Added(acc, acc1, first);
          NewInTwo(first, others, acc, acc1);
        } else {
          FirstNotNew(first, others, acc);
        }
    }
  }

  lemma {:induction false} FirstNotNew(a: seq<string>, b: seq<string>, acc: Flat)
    requires !AllNew(a, acc)
    ensures !AllNew(a + b, acc)
  {
    assert forall i :: 0 <= i < |a| ==> (a + b)[i] == a[i];
    if E.NoRepeats(a) {
      var p :| p in a && p in acc.structures;
      assert p in a + b;
    }
  }

  /** The traversal of a flow at a path that is not recorded yet is refused exactly when a path inside repeats. */
  lemma {:induction false} TraverseRefused(flow: Flow, path: string, inherited: seq<string>, acc: Flat)
    requires Titled(flow.children, path)
    ensures
      var (after, problem) := Traverse(flow, path, inherited, acc);
      && (problem.None? <==> AllNew(FlowPaths(flow.children, path), acc))
      && (problem.None? ==> forall p :: p in after.structures <==> p in acc.structures || p == path || p in FlowPaths(flow.children, path))
    decreases flow, 0
  {
    var (locals, m) := RenameFrom(CallsOf(flow.children), 0, path, map[]);
    RenameKeepsLength(CallsOf(flow.children), 0, path, map[]);
    WalkRefused(flow.children, locals, path, m, inherited, acc, []);
    var (walked, entries, problem) := Walk(flow.children, locals, path, m, inherited, acc, []);
    if problem.None? {
      var after := Traverse(flow, path, inherited, acc).0;
      assert after.structures == walked.structures[path := entries];
      assert Added(acc, walked, FlowPaths(flow.children, path));
    }
  }

  /** A whole flow is flattened without an error exactly when the paths of its nested flows differ. */
  lemma {:induction false} RefusedIffPathsRepeat(flow: Flow)
    requires Titled(flow.children, "")
    ensures
      var (flat, problem) := Traverse(flow, "", [], Flat([], map[], []));
      && (problem.None? <==> E.NoRepeats(FlowPaths(flow.children, "")))
      && (problem.None? ==> forall p :: p in flat.structures <==> p == "" || p in FlowPaths(flow.children, ""))
  {
    TraverseRefused(flow, "", [], Flat([], map[], []));
  }

  // ----- a nameless flow below the root -----

  ghost predicate AllInBounds(flat: Flat) {
    forall p :: p in flat.structures ==> InBounds(flat.structures[p], |flat.calls|)
  }

  lemma {:induction false} WalkInBounds(children: seq<Child>, locals: seq<OpCall>, path: string, m: map<string, string>, inherited: seq<string>,
                                        acc: Flat, entries: seq<Entry>)
    requires |locals| == |CallsOf(children)| && InBounds(entries, |acc.calls|) && AllInBounds(acc)
    requires Walk(children, locals, path, m, inherited, acc, entries).2.None?
    ensures
      var r := Walk(children, locals, path, m, inherited, acc, entries);
      && acc.calls <= r.0.calls && entries <= r.1 && InBounds(r.1, |r.0.calls|) && AllInBounds(r.0)
      && forall i :: 0 <= i < |children| && children[i].Sub? ==> FlowEntry(Join(path, children[i].name)) in r.1
    decreases children, |children|
  {
    if children != [] {
      if children[0].Op? {
        var acc1 := acc.(calls := acc.calls + [Inherit(locals[0], path, inherited)]);
        WalkInBounds(children[1..], locals[1..], path, m, inherited, acc1, entries + [OpEntry(|acc.calls|)]);
      } else {
        var Sub(name, inner, parentSkips) := children[0];
        var acc1 := Traverse(inner, Join(path, name), inherited + RenamedAll(m, parentSkips), acc).0;
        TraverseInBounds(inner, Join(path, name), inherited + RenamedAll(m, parentSkips), acc);
        WalkInBounds(children[1..], locals, path, m, inherited, acc1, entries + [FlowEntry(Join(path, name))]);
        assert Walk(children, locals, path, m, inherited, acc, entries).1[|entries|] == FlowEntry(Join(path, name));
      }
      forall i | 0 <= i < |children| && children[i].Sub?
        ensures FlowEntry(Join(path, children[i].name)) in Walk(children, locals, path, m, inherited, acc, entries).1
      {
        if i > 0 { assert children[i] == children[1..][i - 1]; }
      }
    }
  }

  lemma {:induction false} TraverseInBounds(flow: Flow, path: string, inherited: seq<string>, acc: Flat)
    requires AllInBounds(acc) && Traverse(flow, path, inherited, acc).1.None?
    ensures
      var after := Traverse(flow, path, inherited, acc).0;
      && acc.calls <= after.calls && AllInBounds(after) && path in after.structures
      && forall i :: 0 <= i < |flow.children| && flow.children[i].Sub? ==>
           FlowEntry(Join(path, flow.children[i].name)) in after.structures[path]
    decreases flow, 0
  {
    var (locals, m) := RenameFrom(CallsOf(flow.children), 0, path, map[]);
    RenameKeepsLength(CallsOf(flow.children), 0, path, map[]);
    WalkInBounds(flow.children, locals, path, m, inherited, acc, []);
  }

  lemma {:induction false} EntriesAreKnown(c: E.Config, entries: seq<string>, f: E.Forest, e: string)
    requires E.Unfolds(c, entries, f) && e in entries
    ensures e in c.operators || e in c.flows
    decreases f
  {
    if e != entries[0] {
      EntriesAreKnown(c, entries[1..], f.tail, e);
    }
  }

  /** A flow without a name directly below the root: it is recorded and traversed, but the loader refuses the result. */
  lemma {:induction false} NamelessFlowRefused(flow: Flow, c: E.Config, names: seq<string>)
    requires !Titled(flow.children, "") && Traverse(flow, "", [], Flat([], map[], [])).1.None?
    requires "" !in c.operators && "" !in c.flows && |names| == |Traverse(flow, "", [], Flat([], map[], [])).0.calls|
    ensures
      var flat := Traverse(flow, "", [], Flat([], map[], [])).0;
      && "" in flat.structures && InBounds(flat.structures[""], |names|)
      && E.Expand(c, Resolve(flat.structures[""], names), "", E.NOTHING_YET, {}).1.Some?
  {
    var flat := Traverse(flow, "", [], Flat([], map[], [])).0;
    TraverseInBounds(flow, "", [], Flat([], map[], []));
    var entries := flat.structures[""];
    var i :| 0 <= i < |flow.children| && flow.children[i].Sub? && flow.children[i].name == "";
    assert FlowEntry("") in entries;
    var k :| 0 <= k < |entries| && entries[k] == FlowEntry("");
    assert Resolve(entries, names)[k] == "";
    E.ExpansionIsDepthFirst(c, Resolve(entries, names), "");
    if f :| E.Unfolds(c, Resolve(entries, names), f) && E.NoRepeats(E.Leaves(f)) {
      EntriesAreKnown(c, Resolve(entries, names), f, "");
    }
  }
}
