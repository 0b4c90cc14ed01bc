/** The row-oriented frame, and the checks that both frames make. */
module RowFrames {
  import opened Options
  import opened Frames
  import opened ColumnStores
  import E = Effects

  // ----- checks shared by both frames -----

  method WriteCommon(common: Row, writes: seq<(string, Value)>) returns (common': Row, problem: Option<Error>)
    ensures (common', problem) == ApplyCommon(common, writes)
  {
    common' := common;
    for k := 0 to |writes|
      invariant ApplyCommon(common, writes) == ApplyCommon(common', writes[k..])
    {
      assert writes[k..][1..] == writes[k + 1..];
      if ContainsNonFinite(writes[k].1, 0) {
        return common', Some(BadCommonWrite(writes[k].0));
      }
      common' := common'[writes[k].0 := writes[k].1];
    }
    problem := None;
  }

  method CheckColumn(w: ColumnWrite, count: nat) returns (problem: Option<Error>)
    ensures problem == ColumnWriteProblem(w, count)
  {
    if |w.vals| != count {
      return Some(ColumnLength(w.field, |w.vals|, count));
    }
    for i := 0 to |w.vals|
      invariant FirstNonFinite(w.vals, 0) == FirstNonFinite(w.vals, i)
    {
      if w.vals[i].NotFinite? {
        return Some(BadItemWrite(i, w.field));
      }
    }
    problem := None;
  }

  method CheckRemovals(removed: seq<int>, count: nat) returns (problem: Option<Error>)
    ensures problem == RemovalProblem(removed, count)
  {
    for k := 0 to |removed|
      invariant RemovalProblem(removed, count) == RemovalProblem(removed[k..], count)
    {
      assert removed[k..][1..] == removed[k + 1..];
      if removed[k] < 0 || removed[k] >= count {
        return Some(RemoveOutOfRange(removed[k], count));
      }
    }
    problem := None;
  }

  method CheckOrder(order: seq<int>, count: nat) returns (problem: Option<Error>)
    ensures problem == OrderProblem(order, count)
    ensures problem.None? <==> IsPermutation(order, count)
  {
    OrderAccepted(order, count);
    if |order| != count {
      return Some(OrderLength(|order|, count));
    }
    var seen := new bool[count](_ => false);
    for k := 0 to |order|
      invariant OrderEntryProblem(order, 0, count) == OrderEntryProblem(order, k, count)
      invariant forall x :: 0 <= x < count ==> (seen[x] <==> x in order[..k])
    {
      var x := order[k];
      if x < 0 || x >= count {
        return Some(OrderOutOfRange(x, count));
      }
      if seen[x] {
        return Some(OrderDuplicate(x));
      }
      seen[x] := true;
      assert order[..k + 1] == order[..k] + [x];
    }
    problem := None;
  }

  /** The first refused value among the fields of an added row. */
  method CheckAdded(fields: seq<(string, Value)>) returns (problem: Option<Error>)
    ensures problem == AddedProblem(fields)
  {
    for k := 0 to |fields|
      invariant AddedProblem(fields) == AddedProblem(fields[k..])
    {
      assert fields[k..][1..] == fields[k + 1..];
      if ContainsNonFinite(fields[k].1, 0) {
        return Some(BadAddedItem(fields[k].0));
      }
    }
    problem := None;
  }

  // ----- what a reader sees -----

  function ReadItem(f: Frame, i: nat, field: string): Value {
    if i < |f.items| && field in f.items[i] then f.items[i][field] else Null
  }

  predicate ReadHas(f: Frame, i: nat, field: string) {
    i < |f.items| && field in f.items[i]
  }

  function ReadColumn(f: Frame, field: string): seq<Value> {
    seq(|f.items|, i requires 0 <= i < |f.items| => ReadItem(f, i, field))
  }

  function Project(row: Row, fields: seq<string>): Row {
    map k | k in row && k in fields :: row[k]
  }

  datatype Result = Result(common: Row, items: seq<Row>)

  /** `shown` has the fields of `row` that are asked for, with their values, null values among them. */
  ghost predicate ShowsRow(shown: Row, row: Row, fields: seq<string>) {
    forall k :: (k in shown <==> k in row && k in fields) && (k in shown ==> shown[k] == row[k])
  }

  ghost predicate Shows(r: Result, f: Frame, commonOut: seq<string>, itemOut: seq<string>) {
    && ShowsRow(r.common, f.common, commonOut) && |r.items| == |f.items|
    && forall i :: 0 <= i < |f.items| ==> ShowsRow(r.items[i], f.items[i], itemOut)
  }

  function ReadResult(f: Frame, commonOut: seq<string>, itemOut: seq<string>): Result {
    Result(Project(f.common, commonOut), seq(|f.items|, i requires 0 <= i < |f.items| => Project(f.items[i], itemOut)))
  }

  /** The row without its null values. */
  function NonNull(row: Row): Row {
    map k | k in row && row[k] != Null :: row[k]
  }

  // ----- the frame -----

  class RowFrame {
    var common: Row
    var items: seq<Row>
    var warnings: seq<string>

    ghost function View(): Frame
      reads this
    {
      Frame(common, items, warnings)
    }

    constructor (common: Row, items: seq<Row>)
      ensures View() == Frame(common, items, [])
    {
      this.common, this.items, this.warnings := common, items, [];
    }

    method ApplyOutput(out: Output, opName: string, isRecall: bool) returns (problem: Option<Error>)
      modifies this
      ensures (View(), problem) == Apply(old(View()), out, opName, isRecall)
      ensures problem.None? <==> E.Acceptable(out, old(|items|))
    {
      E.AcceptedExactlyWhen(View(), out, opName, isRecall);
      common, problem := WriteCommon(common, out.commonWrites);
      if problem.Some? {
        return;
      }
      problem := WriteRows(out);
      if problem.Some? {
        return;
      }
      problem := Append(out.added, opName, isRecall);
      if problem.Some? {
        return;
      }
      if out.warning.Some? {
        warnings := warnings + ["operator \"" + opName + "\": " + out.warning.value];
      }
    }

    /** Item writes, column writes, removals and reorder. */
    method WriteRows(out: Output) returns (problem: Option<Error>)
      modifies this`items
      ensures (items, problem) == ApplyToRows(old(items), out)
    {
      problem := WriteItems(out.itemWrites);
      if problem.Some? {
        return;
      }
      problem := WriteColumns(out.columnWrites);
      if problem.Some? {
        return;
      }
      problem := Remove(out.removed);
      if problem.Some? {
        return;
      }
      problem := Reorder(out.order);
    }

    method WriteItems(writes: seq<ItemWrite>) returns (problem: Option<Error>)
      modifies this`items
      ensures (items, problem) == ApplyItems(old(items), writes)
    {
      for k := 0 to |writes|
        invariant ApplyItems(old(items), writes) == ApplyItems(items, writes[k..])
      {
        assert writes[k..][1..] == writes[k + 1..];
        var w := writes[k];
        if w.index < 0 || w.index >= |items| {
          return Some(ItemOutOfRange(w.index, |items|));
        }
        if ContainsNonFinite(w.value, 0) {
          return Some(BadItemWrite(w.index, w.field));
        }
        items := items[w.index := items[w.index][w.field := w.value]];
      }
      problem := None;
    }

    method WriteColumns(writes: seq<ColumnWrite>) returns (problem: Option<Error>)
      modifies this`items
      ensures (items, problem) == ApplyColumns(old(items), writes)
    {
      for k := 0 to |writes|
        invariant ApplyColumns(old(items), writes) == ApplyColumns(items, writes[k..])
      {
        assert writes[k..][1..] == writes[k + 1..];
        problem := CheckColumn(writes[k], |items|);
        if problem.Some? {
          return;
        }
        ghost var before := items;
        for i := 0 to |items|
          invariant |items| == |before|
          invariant forall l :: 0 <= l < |items| ==> items[l] == if l < i then SetColumn(before, writes[k])[l] else before[l]
        {
          items := items[i := items[i][writes[k].field := Num(writes[k].vals[i])]];
        }
        assert items == SetColumn(before, writes[k]);
      }
      problem := None;
    }

    method Remove(removed: seq<int>) returns (problem: Option<Error>)
      modifies this`items
      ensures (items, problem) == ApplyRemovals(old(items), removed)
    {
      if removed == [] {
        NothingDropped(items, |items|);
        return None;
      }
      problem := CheckRemovals(removed, |items|);
      if problem.Some? {
        return;
      }
      var kept: seq<Row> := [];
      for i := 0 to |items|
        invariant kept == Kept(items[..i], Bitmap(removed, |items|))
      {
        assert items[..i + 1][..i] == items[..i];
        if i !in removed {
          kept := kept + [items[i]];
        }
      }
      assert items[..|items|] == items;
      items := kept;
    }

    method Reorder(order: Option<seq<int>>) returns (problem: Option<Error>)
      modifies this`items
      ensures (items, problem) == ApplyOrder(old(items), order)
    {
      if order.None? {
        return None;
      }
      problem := CheckOrder(order.value, |items|);
      if problem.Some? {
        return;
      }
      var reordered: seq<Row> := [];
      for k := 0 to |order.value|
        invariant |reordered| == k && forall l :: 0 <= l < k ==> reordered[l] == items[order.value[l]]
      {
        reordered := reordered + [items[order.value[k]]];
      }
      assert reordered == Permuted(items, order.value);
      items := reordered;
    }

    method Append(added: seq<seq<(string, Value)>>, opName: string, isRecall: bool) returns (problem: Option<Error>)
      modifies this`items
      ensures (items, problem) == ApplyAdded(old(items), added, opName, isRecall)
    {
      for k := 0 to |added|
        invariant ApplyAdded(old(items), added, opName, isRecall) == ApplyAdded(items, added[k..], opName, isRecall)
      {
        assert added[k..][1..] == added[k + 1..];
        problem := CheckAdded(added[k]);
        if problem.Some? {
          return;
        }
        items := items + [AddedRow(added[k], opName, isRecall)];
      }
      problem := None;
    }

    method Item(index: nat, field: string) returns (v: Value)
      ensures v == ReadItem(View(), index, field)
      ensures v == if index < |items| && field in items[index] then items[index][field] else Null
    {
      if index >= |items| || field !in items[index] {
        return Null;
      }
      v := items[index][field];
    }

    method ItemHas(index: nat, field: string) returns (has: bool)
      ensures has == ReadHas(View(), index, field)
    {
      has := index < |items| && field in items[index];
    }

    method ItemColumn(field: string) returns (vals: seq<Value>)
      ensures vals == ReadColumn(View(), field)
      ensures |vals| == |items| && forall i :: 0 <= i < |items| ==> vals[i] == if field in items[i] then items[i][field] else Null
    {
      vals := [];
      for i := 0 to |items|
        invariant vals == ReadColumn(View(), field)[..i]
      {
        vals := vals + [if field in items[i] then items[i][field] else Null];
      }
    }

    method ToResult(commonOut: seq<string>, itemOut: seq<string>) returns (r: Result)
      ensures r == ReadResult(View(), commonOut, itemOut)
      ensures Shows(r, View(), commonOut, itemOut)
    {
      var rows: seq<Row> := [];
      for i := 0 to |items|
        invariant rows == ReadResult(View(), commonOut, itemOut).items[..i]
      {
        var row := ProjectRow(items[i], itemOut);
        rows := rows + [row];
      }
      var projected := ProjectRow(common, commonOut);
      r := Result(projected, rows);
    }

    /** Null values are left out here. */
    method ItemObject(index: nat) returns (row: Row)
      ensures index >= |items| ==> row == map[]
      ensures index < |items| ==> forall f ::
                && (f in row <==> f in items[index] && items[index][f] != Null)
                && (f in row ==> row[f] == items[index][f])
    {
      row := map[];
      if index < |items| {
        var source, rest := items[index], items[index].Keys;
        while rest != {}
          invariant rest <= source.Keys
          invariant forall f :: f in row <==> f in source && f !in rest && source[f] != Null
          invariant forall f :: f in row ==> row[f] == source[f]
          decreases rest
        {
          var f :| f in rest;
          if source[f] != Null {
            row := row[f := source[f]];
          }
          rest := rest - {f};
        }
      }
    }

    /** The first required field that some row lacks or has null in, with the first such row. */
    method ValidateStrictItems(fields: seq<string>) returns (bad: Option<(string, nat)>)
      ensures bad == FirstMissing(items, fields)
      ensures bad.None? <==> forall k, i :: 0 <= k < |fields| && 0 <= i < |items| ==> !Lacks(items[i], fields[k])
      ensures bad.Some? ==> bad.value.1 < |items| && exists k :: FirstLack(items, fields, k, bad.value.0, bad.value.1)
    {
      ghost var first := FirstMissingMeans(items, fields);
      for k := 0 to |fields|
        invariant FirstMissing(items, fields) == FirstMissing(items, fields[k..])
      {
        assert fields[k..][1..] == fields[k + 1..];
        for i := 0 to |items|
          invariant FirstRowWithout(items, fields[k], 0) == FirstRowWithout(items, fields[k], i)
        {
          if fields[k] !in items[i] || items[i][fields[k]] == Null {
            return Some((fields[k], i));
          }
        }
      }
      bad := None;
    }
  }

  function FirstRowWithout(rows: seq<Row>, field: string, from: nat): (i: nat)
    requires from <= |rows|
    ensures from <= i <= |rows|
    decreases |rows| - from
  {
    if from == |rows| || field !in rows[from] || rows[from][field] == Null then from else FirstRowWithout(rows, field, from + 1)
  }

  function FirstMissing(rows: seq<Row>, fields: seq<string>): Option<(string, nat)> {
    if fields == [] then None else
      var i := FirstRowWithout(rows, fields[0], 0);
      if i < |rows| then Some((fields[0], i)) else FirstMissing(rows, fields[1..])
  }

  ghost predicate Lacks(row: Row, field: string) {
    field !in row || row[field] == Null
  }

  /** `field` stands at `k`, all rows have the fields before it, and `i` is the first row that does not have it. */
  ghost predicate FirstLack(rows: seq<Row>, fields: seq<string>, k: nat, field: string, i: nat)
    requires i < |rows|
  {
    && k < |fields| && fields[k] == field && Lacks(rows[i], field) && (forall l :: 0 <= l < i ==> !Lacks(rows[l], field))
    && (forall j, l :: 0 <= j < k && 0 <= l < |rows| ==> !Lacks(rows[l], fields[j]))
  }

  lemma {:induction false} FirstRowLacks(rows: seq<Row>, field: string, from: nat)
    requires from <= |rows|
    ensures var i := FirstRowWithout(rows, field, from);
            (forall l :: from <= l < i ==> !Lacks(rows[l], field)) && (i < |rows| ==> Lacks(rows[i], field))
    decreases |rows| - from
  {
    if from < |rows| && !Lacks(rows[from], field) { FirstRowLacks(rows, field, from + 1); }
  }

  /** What is reported is the first field that some row lacks or has null in, with the first such row. */
  lemma {:induction false} FirstMissingMeans(rows: seq<Row>, fields: seq<string>) returns (k: nat)
    ensures k <= |fields| && forall j, l :: 0 <= j < k && 0 <= l < |rows| ==> !Lacks(rows[l], fields[j])
    ensures FirstMissing(rows, fields).None? <==> k == |fields|
    ensures k < |fields| ==>
              var bad := FirstMissing(rows, fields).value;
              bad.1 < |rows| && FirstLack(rows, fields, k, bad.0, bad.1)
  {
    k := 0;
    if fields != [] {
      FirstRowLacks(rows, fields[0], 0);
      if FirstRowWithout(rows, fields[0], 0) == |rows| {
        var rest := FirstMissingMeans(rows, fields[1..]);
        k := rest + 1;
        assert forall j :: 0 <= j < |fields[1..]| ==> fields[1..][j] == fields[j + 1];
        forall j, l | 0 <= j < k && 0 <= l < |rows|
          ensures !Lacks(rows[l], fields[j])
        {
          if j > 0 { assert fields[j] == fields[1..][j - 1]; }
        }
      }
    }
  }

  method ProjectRow(row: Row, fields: seq<string>) returns (r: Row)
    ensures r == Project(row, fields)
  {
    r := map[];
    for k := 0 to |fields|
      invariant r == Project(row, fields[..k])
    {
      assert fields[..k + 1] == fields[..k] + [fields[k]];
      if fields[k] in row {
        r := r[fields[k] := row[fields[k]]];
      }
    }
    assert fields[..|fields|] == fields;
  }
}
