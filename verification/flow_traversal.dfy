/** The traversal as it is carried out, on lists that all levels of the recursion share. */
module FlowTraversal {
  import opened Options
  import opened Accesses
  import opened Calls
  import opened ControlFlow
  import opened Flows
  import opened SubFlows
  import opened FlowBuilders

  class Compilation {
    var calls: seq<OpCall>
    var structures: map<string, seq<Entry>>
    var groups: seq<set<string>>

    ghost function View(): Flat
      reads this
    {
      Flat(calls, structures, groups)
    }

    constructor ()
      ensures View() == Flat([], map[], [])
    {
      calls, structures, groups := [], map[], [];
    }

    /** Flattens one flow under its inherited guards: rename, walk over the children, collect groups, record the entries. */
    method Visit(flow: Flow, path: string, inherited: seq<string>) returns (problem: Option<Problem>)
      modifies this
      ensures (View(), problem) == Traverse(flow, path, inherited, old(View()))
      decreases flow, 1
    {
      var own := OwnCalls(flow.children);
      var locals, renames := RenameControlFields(own, path);
      RenameKeepsLength(own, 0, path, map[]);
      var entries;
      entries, problem := VisitChildren(flow, locals, path, renames, inherited);
      if problem.Some? {
        return;
      }
      var found := CollectExclusionGroups(flow.closed, renames);
      groups := groups + found;
      structures := structures[path := entries];
    }

    method VisitChildren(flow: Flow, locals: seq<OpCall>, path: string, renames: map<string, string>, inherited: seq<string>)
      returns (entries: seq<Entry>, problem: Option<Problem>)
      requires |locals| == |CallsOf(flow.children)|
      modifies this
      ensures (View(), entries, problem) == Walk(flow.children, locals, path, renames, inherited, old(View()), [])
      decreases flow, 0
    {
      entries := [];
      var j := 0;
      for k := 0 to |flow.children|
        invariant j <= |locals| && |locals| - j == |CallsOf(flow.children[k..])|
        invariant Walk(flow.children, locals, path, renames, inherited, old(View()), [])
                  == Walk(flow.children[k..], locals[j..], path, renames, inherited, View(), entries)
      {
        assert flow.children[k..][1..] == flow.children[k + 1..] && flow.children[k..][0] == flow.children[k];
        match flow.children[k] {
          case Op(_) =>
            assert locals[j..][1..] == locals[j + 1..];
            entries := entries + [OpEntry(|calls|)];
            var call := ApplySkipFields(locals[j].(path := path), inherited);
            calls := calls + [call];
            j := j + 1;
          case Sub(name, inner, parentSkips) =>
            var innerPath := Join(path, name);
            if innerPath in structures {
              return entries, Some(DuplicatePath(innerPath));
            }
            problem := Visit(inner, innerPath, inherited + RenamedAll(renames, parentSkips));
            if problem.Some? {
              return;
            }
            entries := entries + [FlowEntry(innerPath)];
        }
      }
      problem := None;
    }
  }

  /** The operator calls among the children, in order. */
  method OwnCalls(children: seq<Child>) returns (own: seq<OpCall>)
    ensures own == CallsOf(children)
  {
    own := [];
    for k := 0 to |children|
      invariant CallsOf(children) == own + CallsOf(children[k..])
    {
      assert children[k..][1..] == children[k + 1..] && children[k..][0] == children[k];
      if children[k].Op? {
        assert own + ([children[k].call] + CallsOf(children[k + 1..])) == own + [children[k].call] + CallsOf(children[k + 1..]);
        own := own + [children[k].call];
      } else {
        assert [] + CallsOf(children[k + 1..]) == CallsOf(children[k + 1..]);
      }
    }
  }

  /** The renamed fields of each closed block with more than one branch. */
  method CollectExclusionGroups(closed: seq<Block>, renames: map<string, string>) returns (found: seq<set<string>>)
    ensures found == GroupsOf(closed, renames)
  {
    found := [];
    for k := 0 to |closed|
      invariant GroupsOf(closed, renames) == found + GroupsOf(closed[k..], renames)
    {
      assert closed[k..][1..] == closed[k + 1..] && closed[k..][0] == closed[k];
      var fields := RenamedAll(renames, FieldsOf(closed[k].branches));
      var group := set f | f in fields;
      assert group == Elements(fields);
      ghost var rest := GroupsOf(closed[k + 1..], renames);
      if |group| > 1 {
        assert found + ([group] + rest) == found + [group] + rest;
        found := found + [group];
      } else {
        assert [] + rest == rest;
      }
    }
  }
}
