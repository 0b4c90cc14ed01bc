/** The column-oriented frame: same meaning as rows, over typed columns. */
module ColumnFrames {
  import opened Options
  import opened Frames
  import opened Columns
  import opened ColumnStores
  import opened RowFrames
  import E = Effects

  // ----- building columns from rows -----

  function FieldCells(rows: seq<Row>, field: string): seq<Option<Value>> {
    seq(|rows|, i requires 0 <= i < |rows| => if field in rows[i] then Some(rows[i][field]) else None)
  }

  function UnionOfKeys(rows: seq<Row>): set<string> {
    set i, f | 0 <= i < |rows| && f in rows[i] :: f
  }

  method CollectFields(rows: seq<Row>) returns (fields: set<string>)
    ensures fields == UnionOfKeys(rows)
  {
    fields := {};
    for i := 0 to |rows|
      invariant fields == UnionOfKeys(rows[..i])
    {
      assert rows[..i + 1] == rows[..i] + [rows[i]];
      fields := fields + rows[i].Keys;
    }
    assert rows[..|rows|] == rows;
  }

  /** One column; its kind is inferred from the values present and fits them all, so that no append is refused. */
  method ColumnFor(rows: seq<Row>, field: string) returns (col: Column)
    ensures Sound(col) && Cells(col) == FieldCells(rows, field)
  {
    var anyNull, present := false, [];
    for i := 0 to |rows|
      invariant forall l :: 0 <= l < i && field in rows[l] ==> if rows[l][field] == Null then anyNull else rows[l][field] in present
      invariant Null !in present
    {
      if field in rows[i] {
        if rows[i][field] == Null {
          anyNull := true;
        } else {
          present := present + [rows[i][field]];
        }
      }
    }
    var kind := Json;
    if !anyNull {
      kind := InferKind(present);
    }
    assert forall l :: 0 <= l < |rows| && field in rows[l] ==> Accepts(kind, rows[l][field]);
    col := EmptyColumn(kind, 0);
    for i := 0 to |rows|
      invariant Sound(col) && KindOf(col) == kind && Cells(col) == FieldCells(rows, field)[..i]
    {
      assert FieldCells(rows, field)[..i + 1] == FieldCells(rows, field)[..i] + [FieldCells(rows, field)[i]];
      if field !in rows[i] {
        AppendAbsentStores(col);
        col := AppendAbsent(col);
      } else {
        AppendSlotStores(col, rows[i][field]);
        var next := AppendSlot(col, rows[i][field]);
        if next.None? {
          assert false;
        }
        col := next.value;
      }
    }
    assert FieldCells(rows, field)[..|rows|] == FieldCells(rows, field);
  }

  lemma {:induction false} ColumnsGiveRows(cols: Table, rows: seq<Row>)
    requires cols.Keys == UnionOfKeys(rows)
    requires forall f :: f in cols ==> Sound(cols[f]) && Cells(cols[f]) == FieldCells(rows, f)
    ensures SoundTable(cols, |rows|) && RowsOf(cols, |rows|) == rows
  {
    forall f | f in cols
      ensures Size(cols[f]) == |rows|
    {
      assert |Cells(cols[f])| == |FieldCells(rows, f)|;
    }
    forall i | 0 <= i < |rows|
      ensures RowAt(cols, |rows|, i) == rows[i]
    {
      assert forall f :: f in cols ==> Cells(cols[f])[i] == FieldCells(rows, f)[i];
      assert rows[i].Keys <= UnionOfKeys(rows);
    }
  }

  // ----- single writes on a table -----

  /** The kind of a new column, chosen by the first value written to it. */
  function KindForNew(v: Value): (kind: Kind)
    ensures Accepts(kind, v)
  {
    match v
    case Bool(_) => Boolean
    case Num(_) => Double
    case Str(_) => String
    case _ => Json
  }

  function Adopted(vals: seq<Number>): (c: Column)
    ensures Sound(c) && Size(c) == |vals|
  {
    DoubleColumn(vals, seq(|vals|, i => true))
  }

  lemma {:induction false} AdoptedRows(cols: Table, n: nat, w: ColumnWrite)
    requires SoundTable(cols, n) && |w.vals| == n
    ensures RowsOf(cols[w.field := Adopted(w.vals)], n) == Frames.SetColumn(RowsOf(cols, n), w)
  {
    var after := cols[w.field := Adopted(w.vals)];
    forall i | 0 <= i < n
      ensures RowAt(after, n, i) == Frames.SetColumn(RowsOf(cols, n), w)[i]
    {
      assert Cell(after[w.field], i) == Some(Num(w.vals[i]));
    }
  }

  // ----- additions -----

  /** How many leading fields of an added row are accepted. */
  function Accepted(fields: seq<(string, Value)>): (n: nat)
    ensures n <= |fields|
  {
    if fields == [] || ContainsNonFinite(fields[0].1, 0) then 0 else 1 + Accepted(fields[1..])
  }

  function Empties(n: nat): seq<Row> {
    seq(n, i => map[])
  }

  /** What a refused addition leaves behind here and not in the row frame: the accepted fields of the offending row, and
      an empty row for each one after it. */
  function Leftover(added: seq<seq<(string, Value)>>, i: nat): seq<Row>
    requires i < |added|
  {
    [RowOf(added[i][..Accepted(added[i])])] + Empties(|added| - i - 1)
  }

  lemma {:induction false} AddedUpTo(rows: seq<Row>, added: seq<seq<(string, Value)>>, opName: string, isRecall: bool)
    ensures var r := ApplyAdded(rows, added, opName, isRecall);
            |rows| <= |r.0| <= |rows| + |added| && (r.1.Some? ==> |r.0| < |rows| + |added|)
    decreases |added|
  {
    if added != [] {
      AddedUpTo(rows + [AddedRow(added[0], opName, isRecall)], added[1..], opName, isRecall);
    }
  }

  class ColumnFrame {
    var common: Row
    const items: TypedColumnStore
    var warnings: seq<string>

    ghost predicate Valid()
      reads this, items
    {
      items.Valid()
    }

    ghost function View(): Frame
      requires Valid()
      reads this, items
    {
      Frame(common, items.Rows(), warnings)
    }

    constructor (common: Row, rows: seq<Row>)
      ensures Valid() && fresh(items) && View() == Frame(common, rows, [])
    {
      this.common, this.warnings := common, [];
      this.items := new TypedColumnStore(|rows|);
      new;
      var fields := CollectFields(rows);
      var rest := fields;
      while rest != {}
        invariant rest <= fields && Valid() && items.rowCount == |rows| && items.cols.Keys == fields - rest
        invariant forall f :: f in items.cols ==> Cells(items.cols[f]) == FieldCells(rows, f)
        invariant this.common == common && this.warnings == []
        decreases rest
      {
        var f :| f in rest;
        var col := ColumnFor(rows, f);
        assert Size(col) == |Cells(col)| == |FieldCells(rows, f)|;
        var ok := items.SetColumn(f, col);
        rest := rest - {f};
      }
      ColumnsGiveRows(items.cols, rows);
    }

    method WriteItemField(index: nat, field: string, value: Value)
      requires Valid() && index < items.rowCount
      modifies items
      ensures Valid() && items.rowCount == old(items.rowCount)
      ensures items.Rows() == SetCell(old(items.Rows()), index, field, value)
    {
      if field !in items.cols {
        var empty := EmptyColumn(KindForNew(value), items.rowCount);
        SameContent(items.cols, items.rowCount, field, empty);
        var ok := items.SetColumn(field, empty);
      }
      if value == Null && KindOf(items.cols[field]) != Json {
        Promote(field);
      }
      if SetSlot(items.cols[field], index, value).None? {
        Promote(field);
      }
      OneCell(items.cols, items.rowCount, field, index, value);
      items.cols := items.cols[field := SetSlot(items.cols[field], index, value).value];
    }

    /** Replaces a typed column by one that can hold anything. */
    method Promote(field: string)
      requires Valid() && field in items.cols
      modifies items
      ensures Valid() && items.rowCount == old(items.rowCount) && items.Rows() == old(items.Rows())
      ensures field in items.cols && KindOf(items.cols[field]) == Json
    {
      var promoted := ToJsonColumn(items.cols[field]);
      SameCells(promoted, items.cols[field]);
      SameContent(items.cols, items.rowCount, field, promoted);
      var ok := items.SetColumn(field, promoted);
    }

    /** Agrees with the row frame on the outcome, and on the frame unless an addition is refused; then it has the rows
        of `Leftover` as well. */
    method ApplyOutput(out: Output, opName: string, isRecall: bool) returns (problem: Option<Error>)
      requires Valid() && Ascending(out.removed)
      modifies this, items
      ensures Valid() && problem == Apply(old(View()), out, opName, isRecall).1
      ensures problem.None? <==> E.Acceptable(out, |old(View()).items|)
      ensures problem.None? ==> View() == Apply(old(View()), out, opName, isRecall).0
      ensures
        var (rows, early) := ApplyToRows(old(View()).items, out);
        var after := Apply(old(View()), out, opName, isRecall).0;
        problem.Some? ==>
          if problem.value.BadCommonWrite? || early.Some? then View() == after
          else |rows| <= |after.items| < |rows| + |out.added|
               && View() == after.(items := after.items + Leftover(out.added, |after.items| - |rows|))
    {
      E.AcceptedExactlyWhen(View(), out, opName, isRecall);
      problem := Stages(out, opName, isRecall);
    }

    method Stages(out: Output, opName: string, isRecall: bool) returns (problem: Option<Error>)
      requires Valid() && Ascending(out.removed)
      modifies this, items
      ensures Valid() && problem == Apply(old(View()), out, opName, isRecall).1
      ensures problem.None? ==> View() == Apply(old(View()), out, opName, isRecall).0
      ensures
        var (rows, early) := ApplyToRows(old(View()).items, out);
        var after := Apply(old(View()), out, opName, isRecall).0;
        problem.Some? ==>
          if problem.value.BadCommonWrite? || early.Some? then View() == after
          else |rows| <= |after.items| < |rows| + |out.added|
               && View() == after.(items := after.items + Leftover(out.added, |after.items| - |rows|))
    {
      ghost var before := View();
      common, problem := WriteCommon(common, out.commonWrites);
      if problem.Some? {
        CommonProblem(before.common, out.commonWrites);
        return;
      }
      problem := WriteRows(out);
      if problem.Some? {
        return;
      }
      ghost var rows := items.Rows();
      AddedUpTo(rows, out.added, opName, isRecall);
      problem := Append(out.added, opName, isRecall);
      if problem.Some? {
        AddedProblems(rows, out.added, opName, isRecall);
        return;
      }
      if out.warning.Some? {
        warnings := warnings + ["operator \"" + opName + "\": " + out.warning.value];
      }
    }

    method WriteRows(out: Output) returns (problem: Option<Error>)
      requires Valid() && Ascending(out.removed)
      modifies items
      ensures Valid() && (items.Rows(), problem) == ApplyToRows(old(items.Rows()), out)
    {
      problem := WriteItems(out.itemWrites);
      if problem.Some? {
        return;
      }
      problem := WriteColumns(out.columnWrites);
      if problem.Some? {
        return;
      }
      problem := Remove(out.removed);
      if problem.Some? {
        return;
      }
      problem := Reorder(out.order);
    }

    method WriteItems(writes: seq<ItemWrite>) returns (problem: Option<Error>)
      requires Valid()
      modifies items
      ensures Valid() && (items.Rows(), problem) == ApplyItems(old(items.Rows()), writes)
    {
      for k := 0 to |writes|
        invariant Valid() && ApplyItems(old(items.Rows()), writes) == ApplyItems(items.Rows(), writes[k..])
      {
        assert writes[k..][1..] == writes[k + 1..];
        var w := writes[k];
        if w.index < 0 || w.index >= items.rowCount {
          return Some(ItemOutOfRange(w.index, items.rowCount));
        }
        if ContainsNonFinite(w.value, 0) {
          return Some(BadItemWrite(w.index, w.field));
        }
        WriteItemField(w.index, w.field, w.value);
      }
      problem := None;
    }

    method WriteColumns(writes: seq<ColumnWrite>) returns (problem: Option<Error>)
      requires Valid()
      modifies items
      ensures Valid() && (items.Rows(), problem) == ApplyColumns(old(items.Rows()), writes)
    {
      for k := 0 to |writes|
        invariant Valid() && ApplyColumns(old(items.Rows()), writes) == ApplyColumns(items.Rows(), writes[k..])
      {
        assert writes[k..][1..] == writes[k + 1..];
        problem := CheckColumn(writes[k], items.rowCount);
        if problem.Some? {
          return;
        }
        AdoptedRows(items.cols, items.rowCount, writes[k]);
        var ok := items.SetColumn(writes[k].field, Adopted(writes[k].vals));
      }
      problem := None;
    }

    method Remove(removed: seq<int>) returns (problem: Option<Error>)
      requires Valid() && Ascending(removed)
      modifies items
      ensures Valid() && (items.Rows(), problem) == ApplyRemovals(old(items.Rows()), removed)
    {
      if removed == [] {
        NothingDropped(items.Rows(), items.rowCount);
        return None;
      }
      problem := CheckRemovals(removed, items.rowCount);
      if problem.Some? {
        return;
      }
      var ok := items.RemoveRows(removed);
    }

    method Reorder(order: Option<seq<int>>) returns (problem: Option<Error>)
      requires Valid()
      modifies items
      ensures Valid() && (items.Rows(), problem) == ApplyOrder(old(items.Rows()), order)
    {
      if order.None? {
        return None;
      }
      problem := CheckOrder(order.value, items.rowCount);
      if problem.Some? {
        return;
      }
      var ok := items.ReorderRows(order.value);
    }

    /** All columns are extended first; then the added rows are filled in one by one. */
    method Append(added: seq<seq<(string, Value)>>, opName: string, isRecall: bool) returns (problem: Option<Error>)
      requires Valid()
      modifies items
      ensures Valid() && problem == ApplyAdded(old(items.Rows()), added, opName, isRecall).1
      ensures
        var after, n := ApplyAdded(old(items.Rows()), added, opName, isRecall).0, |old(items.Rows())|;
        if problem.None? then items.Rows() == after
        else n <= |after| < n + |added| && items.Rows() == after + Leftover(added, |after| - n)
    {
      ghost var done := items.Rows();
      var base := items.rowCount;
      items.ExtendRows(|added|);
      assert items.Rows() == done + Empties(|added|);
      for i := 0 to |added|
        invariant Valid() && |done| == base + i && items.Rows() == done + Empties(|added| - i)
        invariant ApplyAdded(old(items.Rows()), added, opName, isRecall) == ApplyAdded(done, added[i..], opName, isRecall)
      {
        assert added[i..][1..] == added[i + 1..] && Empties(|added| - i) == [map[]] + Empties(|added| - i - 1);
        assert items.Rows() == done + [map[]] + Empties(|added| - i - 1);
        problem := FillRow(added[i], base + i, opName, isRecall, done, Empties(|added| - i - 1));
        if problem.Some? {
          assert items.Rows() == done + Leftover(added, i);
          return;
        }
        done := done + [AddedRow(added[i], opName, isRecall)];
      }
      assert added[|added|..] == [] && done + Empties(0) == done;
      problem := None;
    }

    /** Writes the fields of one added row into the empty row prepared for it. */
    method FillRow(fields: seq<(string, Value)>, index: nat, opName: string, isRecall: bool,
                   ghost above: seq<Row>, ghost below: seq<Row>)
      returns (problem: Option<Error>)
      requires Valid() && index == |above| && items.Rows() == above + [map[]] + below
      modifies items
      ensures Valid() && problem == AddedProblem(fields)
      ensures items.Rows() == above + [if problem.Some? then RowOf(fields[..Accepted(fields)]) else AddedRow(fields, opName, isRecall)] + below
    {
      for j := 0 to |fields|
        invariant Valid() && items.Rows() == above + [RowOf(fields[..j])] + below
        invariant AddedProblem(fields) == AddedProblem(fields[j..]) && Accepted(fields) == j + Accepted(fields[j..])
      {
        assert fields[j..][1..] == fields[j + 1..] && fields[..j + 1][..j] == fields[..j];
        if ContainsNonFinite(fields[j].1, 0) {
          return Some(BadAddedItem(fields[j].0));
        }
        WriteItemField(index, fields[j].0, fields[j].1);
      }
      assert fields[..|fields|] == fields;
      if isRecall {
        WriteItemField(index, SOURCE, Str(opName));
      }
      problem := None;
    }

    // ----- reads -----

    method Item(index: nat, field: string) returns (v: Value)
      requires Valid()
      ensures v == ReadItem(View(), index, field)
    {
      if index >= items.rowCount || field !in items.cols || !items.cols[field].validity[index] {
        return Null;
      }
      v := Raw(items.cols[field], index);
    }

    method ItemHas(index: nat, field: string) returns (has: bool)
      requires Valid()
      ensures has == ReadHas(View(), index, field)
    {
      has := index < items.rowCount && field in items.cols && items.cols[field].validity[index];
    }

    method ItemColumn(field: string) returns (vals: seq<Value>)
      requires Valid()
      ensures vals == ReadColumn(View(), field)
    {
      vals := [];
      for i := 0 to items.rowCount
        invariant vals == ReadColumn(View(), field)[..i]
      {
        vals := vals + [if field in items.cols && items.cols[field].validity[i] then Raw(items.cols[field], i) else Null];
      }
    }

    method ResultRow(i: nat, fields: seq<string>) returns (row: Row)
      requires Valid() && i < items.rowCount
      ensures row == Project(items.Rows()[i], fields)
    {
      row := map[];
      for k := 0 to |fields|
        invariant row == Project(RowAt(items.cols, items.rowCount, i), fields[..k])
      {
        assert fields[..k + 1] == fields[..k] + [fields[k]];
        if fields[k] in items.cols && items.cols[fields[k]].validity[i] {
          row := row[fields[k] := Raw(items.cols[fields[k]], i)];
        }
      }
      assert fields[..|fields|] == fields;
    }

    method ToResult(commonOut: seq<string>, itemOut: seq<string>) returns (r: Result)
      requires Valid()
      ensures r == ReadResult(View(), commonOut, itemOut)
      ensures Shows(r, View(), commonOut, itemOut)
    {
      var rows: seq<Row> := [];
      for i := 0 to items.rowCount
        invariant rows == ReadResult(View(), commonOut, itemOut).items[..i]
      {
        var row := ResultRow(i, itemOut);
        rows := rows + [row];
      }
      var projected := ProjectRow(common, commonOut);
      r := Result(projected, rows);
    }

    /** Null values are kept here, unlike in the row frame. */
    method ItemObject(index: nat) returns (row: Row)
      requires Valid()
      ensures row == if index < items.rowCount then items.Rows()[index] else map[]
    {
      row := map[];
      if index < items.rowCount {
        var rest := items.cols.Keys;
        while rest != {}
          invariant rest <= items.cols.Keys
          invariant row == map f | f in RowAt(items.cols, items.rowCount, index) && f !in rest :: RowAt(items.cols, items.rowCount, index)[f]
          decreases rest
        {
          var f :| f in rest;
          if items.cols[f].validity[index] {
            row := row[f := Raw(items.cols[f], index)];
          }
          rest := rest - {f};
        }
      }
    }

    /** As in the row frame, except that a field without any column is reported even when there are no rows. */
    method ValidateStrictItems(fields: seq<string>) returns (bad: Option<(string, nat)>)
      requires Valid()
      ensures items.rowCount > 0 ==> bad == FirstMissing(items.Rows(), fields)
      ensures items.rowCount == 0 ==> bad == FirstWithoutColumn(items.cols.Keys, fields)
    {
      for k := 0 to |fields|
        invariant FirstMissing(items.Rows(), fields) == FirstMissing(items.Rows(), fields[k..])
        invariant FirstWithoutColumn(items.cols.Keys, fields) == FirstWithoutColumn(items.cols.Keys, fields[k..])
      {
        assert fields[k..][1..] == fields[k + 1..];
        if fields[k] !in items.cols {
          return Some((fields[k], 0));
        }
        for i := 0 to items.rowCount
          invariant FirstRowWithout(items.Rows(), fields[k], 0) == FirstRowWithout(items.Rows(), fields[k], i)
        {
          if !items.cols[fields[k]].validity[i] || Raw(items.cols[fields[k]], i) == Null {
            return Some((fields[k], i));
          }
        }
      }
      bad := None;
    }
  }

  /** Without rows, the first field that has no column is reported for row 0. */
  function FirstWithoutColumn(present: set<string>, fields: seq<string>): Option<(string, nat)> {
    if fields == [] then None
    else if fields[0] !in present then Some((fields[0], 0))
    else FirstWithoutColumn(present, fields[1..])
  }

  datatype Log = Log(out: Output, opName: string, isRecall: bool)

  /** The frame after a sequence of write logs, up to the first refused one. */
  function Replay(f: Frame, logs: seq<Log>): (Frame, Option<Error>)
    decreases |logs|
  {
    if logs == [] then (f, None) else
      var (f', problem) := Apply(f, logs[0].out, logs[0].opName, logs[0].isRecall);
      if problem.Some? then (f', problem) else Replay(f', logs[1..])
  }

  /** Both frames through the same logs: they refuse the same one with the same error, or none and end up equal. */
  method ReplayOnBoth(common: Row, rows: seq<Row>, logs: seq<Log>)
    returns (r: RowFrame, c: ColumnFrame, rowProblem: Option<Error>, columnProblem: Option<Error>)
    requires forall i :: 0 <= i < |logs| ==> Ascending(logs[i].out.removed)
    ensures c.Valid() && rowProblem == columnProblem == Replay(Frame(common, rows, []), logs).1
    ensures r.View() == Replay(Frame(common, rows, []), logs).0
    ensures columnProblem.None? ==> c.View() == r.View()
  {
    r := new RowFrame(common, rows);
    c := new ColumnFrame(common, rows);
    for k := 0 to |logs|
      invariant c.Valid() && fresh(r) && fresh(c) && fresh(c.items) && c.View() == r.View()
      invariant Replay(Frame(common, rows, []), logs) == Replay(r.View(), logs[k..])
    {
      assert logs[k..][1..] == logs[k + 1..];
      rowProblem := r.ApplyOutput(logs[k].out, logs[k].opName, logs[k].isRecall);
      columnProblem := c.ApplyOutput(logs[k].out, logs[k].opName, logs[k].isRecall);
      if rowProblem.Some? {
        return;
      }
    }
    rowProblem, columnProblem := None, None;
  }

  lemma {:induction false} CommonProblem(common: Row, writes: seq<(string, Value)>)
    ensures ApplyCommon(common, writes).1.Some? ==> ApplyCommon(common, writes).1.value.BadCommonWrite?
    decreases |writes|
  {
    if writes != [] {
      CommonProblem(common[writes[0].0 := writes[0].1], writes[1..]);
    }
  }

  lemma {:induction false} AddedProblems(rows: seq<Row>, added: seq<seq<(string, Value)>>, opName: string, isRecall: bool)
    ensures ApplyAdded(rows, added, opName, isRecall).1.Some? ==> !ApplyAdded(rows, added, opName, isRecall).1.value.BadCommonWrite?
    decreases |added|
  {
    if added != [] {
      AddedProblems(rows + [AddedRow(added[0], opName, isRecall)], added[1..], opName, isRecall);
      AddedProblemKind(added[0]);
    }
  }

  lemma {:induction false} AddedProblemKind(fields: seq<(string, Value)>)
    ensures AddedProblem(fields).Some? ==> AddedProblem(fields).value.BadAddedItem?
  {
    if fields != [] {
      AddedProblemKind(fields[1..]);
    }
  }
}
