/** One operator step on a frame: skip test, view of the declared inputs, output checks, application. */
module Operators {
  import opened Options
  import opened Accesses
  import opened Frames

  datatype OpType = Recall | Transform | Filter | Merge | Reorder | Observe

  /** What an operator may look at: the common fields it reads and, if it reads the row set, its item fields. */
  datatype View = View(common: Row, items: Option<seq<Row>>)

  /** What it does on a view; None when it raises, as it does when an input that it requires is missing. */
  datatype Operator = Operator(config: OperatorConfig, opType: OpType, behave: View -> Option<Output>)

  const NOTHING := Output([], [], [], [], None, [], None)

  function Restrict(row: Row, fields: set<string>): Row {
    map k | k in row && k in fields :: row[k]
  }

  predicate SeesRows(c: OperatorConfig) {
    ReadsRowSet(c) || c.mutatesRowSet
  }

  function VisibleRows(items: seq<Row>, fields: set<string>): seq<Row> {
    seq(|items|, i requires 0 <= i < |items| => Restrict(items[i], fields))
  }

  function ViewOf(op: Operator, f: Frame): View {
    View(Restrict(f.common, CommonReads(op.config.metadata)),
         if SeesRows(op.config) then Some(VisibleRows(f.items, Elements(op.config.metadata.itemInput))) else None)
  }

  predicate Truthy(v: Value) {
    match v
    case Null => false
    case Bool(b) => b
    case _ => true
  }

  /** An operator is skipped when any of its skip fields holds a truthy value. */
  predicate Skipped(c: OperatorConfig, common: Row) {
    exists s :: s in c.skip && s in common && Truthy(common[s])
  }

  /** The methods an operator type may call on its output. */
  predicate TypeAllows(t: OpType, out: Output) {
    var commonWrites, itemWrites := out.commonWrites != [], out.itemWrites != [] || out.columnWrites != [];
    match t
    case Recall => !itemWrites && out.removed == [] && out.order.None?
    case Transform => out.added == [] && out.removed == [] && out.order.None?
    case Filter => !commonWrites && !itemWrites && out.added == [] && out.order.None?
    case Merge => !commonWrites && out.added == [] && out.order.None?
    case Reorder => !commonWrites && !itemWrites && out.added == [] && out.removed == []
    case Observe => !commonWrites && !itemWrites && out.added == [] && out.removed == [] && out.order.None?
  }

  /** Fields of existing rows an operator may write: its item outputs, and the source tag if it merges rows. */
  function WritableOnRows(c: OperatorConfig): set<string> {
    Elements(c.metadata.itemOutput)
    + (if c.mutatesRowSet && SOURCE in c.metadata.itemInput then {SOURCE} else {})
  }

  predicate DeclaredOnly(c: OperatorConfig, out: Output) {
    && (forall w :: w in out.commonWrites ==> w.0 in c.metadata.commonOutput)
    && (forall w :: w in out.itemWrites ==> w.field in WritableOnRows(c))
    && (forall w :: w in out.columnWrites ==> w.field in WritableOnRows(c))
    && (forall row :: row in out.added ==> forall w :: w in row ==> w.0 in c.metadata.itemOutput)
  }

  predicate OutputAllowed(op: Operator, out: Output) {
    TypeAllows(op.opType, out) && DeclaredOnly(op.config, out)
  }

  /** What the operator hands to the frame; nothing when it is skipped. */
  function LogOf(op: Operator, f: Frame): Option<Output> {
    if Skipped(op.config, f.common) then Some(NOTHING) else op.behave(ViewOf(op, f))
  }

  function Commit(op: Operator, f: Frame, out: Output): Option<Frame> {
    if !OutputAllowed(op, out) then None else
      var (after, e) := Apply(f, out, op.config.name, op.opType == Recall);
      if e.Some? then None else Some(after.(warnings := f.warnings))
  }

  function Finish(op: Operator, f: Frame, log: Option<Output>): Option<Frame> {
    if log.None? then None else Commit(op, f, log.value)
  }

  /** One operator run to completion; None when it raises. Warnings are left aside. */
  function Step(op: Operator, f: Frame): Option<Frame> {
    Finish(op, f, LogOf(op, f))
  }

  /** Configuration checks and marker conventions that make the declared accesses complete. */
  predicate WellFormed(op: Operator) {
    && (forall s :: s in op.config.skip ==> s in CommonReads(op.config.metadata))
    && !(op.config.additiveWritesRowSet && op.config.mutatesRowSet)
    && (op.config.additiveWritesRowSet <==> op.opType == Recall)
    && (op.opType in {Filter, Merge, Reorder} ==> op.config.mutatesRowSet)
    && (op.config.additiveWritesRowSet && !op.config.consumesRowSet ==> op.config.metadata.itemInput == [])
  }

  // ----- effects as map merges -----

  function CommonDelta(writes: seq<(string, Value)>): Row {
    if writes == [] then map[] else map[writes[0].0 := writes[0].1] + CommonDelta(writes[1..])
  }

  predicate CommonFine(writes: seq<(string, Value)>) {
    forall w :: w in writes ==> !ContainsNonFinite(w.1, 0)
  }

  lemma {:induction false} CommonAsDelta(common: Row, writes: seq<(string, Value)>)
    ensures ApplyCommon(common, writes).1.None? <==> CommonFine(writes)
    ensures CommonFine(writes) ==> ApplyCommon(common, writes).0 == common + CommonDelta(writes)
    decreases |writes|
  {
    if writes != [] {
      CommonAsDelta(common[writes[0].0 := writes[0].1], writes[1..]);
      assert forall w :: w in writes <==> w == writes[0] || w in writes[1..];
    }
  }

  lemma {:induction false} CommonDeltaKeys(writes: seq<(string, Value)>, fields: seq<string>)
    requires forall w :: w in writes ==> w.0 in fields
    ensures CommonDelta(writes).Keys <= Elements(fields)
  {
    if writes != [] {
      assert writes[0] in writes;
      CommonDeltaKeys(writes[1..], fields);
    }
  }

  function CellDelta(writes: seq<ItemWrite>, i: nat): Row {
    if writes == [] then map[]
    else (if writes[0].index == i then map[writes[0].field := writes[0].value] else map[]) + CellDelta(writes[1..], i)
  }

  function ColumnDelta(writes: seq<ColumnWrite>, i: nat): Row {
    if writes == [] then map[]
    else (if i < |writes[0].vals| then map[writes[0].field := Num(writes[0].vals[i])] else map[]) + ColumnDelta(writes[1..], i)
  }

  predicate CellsFine(writes: seq<ItemWrite>, n: nat) {
    forall w :: w in writes ==> ItemWriteProblem(w, n).None?
  }

  predicate ColumnsFine(writes: seq<ColumnWrite>, n: nat) {
    forall w :: w in writes ==> ColumnWriteProblem(w, n).None?
  }

  lemma {:induction false} CellsAsDelta(items: seq<Row>, writes: seq<ItemWrite>)
    ensures ApplyItems(items, writes).1.None? <==> CellsFine(writes, |items|)
    ensures CellsFine(writes, |items|) ==>
              forall i :: 0 <= i < |items| ==> ApplyItems(items, writes).0[i] == items[i] + CellDelta(writes, i)
    decreases |writes|
  {
    if writes != [] {
      assert forall w :: w in writes <==> w == writes[0] || w in writes[1..];
      if ItemWriteProblem(writes[0], |items|).None? {
        CellsAsDelta(SetCell(items, writes[0].index, writes[0].field, writes[0].value), writes[1..]);
      }
    }
  }

  lemma {:induction false} ColumnsAsDelta(items: seq<Row>, writes: seq<ColumnWrite>)
    ensures ApplyColumns(items, writes).1.None? <==> ColumnsFine(writes, |items|)
    ensures ColumnsFine(writes, |items|) ==>
              forall i :: 0 <= i < |items| ==> ApplyColumns(items, writes).0[i] == items[i] + ColumnDelta(writes, i)
    decreases |writes|
  {
    if writes != [] {
      assert forall w :: w in writes <==> w == writes[0] || w in writes[1..];
      if ColumnWriteProblem(writes[0], |items|).None? {
        ColumnsAsDelta(SetColumn(items, writes[0]), writes[1..]);
      }
    }
  }

  /** What an output adds to row `i` of a frame whose row set it leaves alone. */
  function RowDelta(out: Output, i: nat): Row {
    CellDelta(out.itemWrites, i) + ColumnDelta(out.columnWrites, i)
  }

  lemma {:induction false} RowDeltaKeys(out: Output, i: nat, fields: set<string>)
    requires forall w :: w in out.itemWrites ==> w.field in fields
    requires forall w :: w in out.columnWrites ==> w.field in fields
    ensures RowDelta(out, i).Keys <= fields
    decreases |out.itemWrites| + |out.columnWrites|
  {
    if out.itemWrites != [] {
      assert out.itemWrites[0] in out.itemWrites;
      RowDeltaKeys(out.(itemWrites := out.itemWrites[1..]), i, fields);
    } else if out.columnWrites != [] {
      assert out.columnWrites[0] in out.columnWrites;
      RowDeltaKeys(out.(columnWrites := out.columnWrites[1..]), i, fields);
    }
  }

  predicate KeepsRowSet(out: Output) {
    out.removed == [] && out.order.None? && out.added == []
  }

  /** Effect of an output that neither adds, removes nor reorders rows. */
  lemma {:induction false} InPlaceEffect(f: Frame, out: Output, opName: string, isRecall: bool)
    requires KeepsRowSet(out)
    ensures
      var (after, e) := Apply(f, out, opName, isRecall);
      && (e.None? <==> CommonFine(out.commonWrites) && CellsFine(out.itemWrites, |f.items|) && ColumnsFine(out.columnWrites, |f.items|))
      && (e.None? ==> after.common == f.common + CommonDelta(out.commonWrites))
      && (e.None? ==> |after.items| == |f.items|)
      && (e.None? ==> forall i :: 0 <= i < |f.items| ==> after.items[i] == f.items[i] + RowDelta(out, i))
  {
    CommonAsDelta(f.common, out.commonWrites);
    RowsInPlace(f.items, out);
  }

  function WriteStages(items: seq<Row>, out: Output): (seq<Row>, Option<Error>) {
    var (items1, e1) := ApplyItems(items, out.itemWrites);
    if e1.Some? then (items1, e1) else ApplyColumns(items1, out.columnWrites)
  }

  lemma {:induction false} OnlyWriteStages(items: seq<Row>, out: Output)
    requires out.removed == [] && out.order.None?
    ensures ApplyToRows(items, out) == WriteStages(items, out)
  {
    var items1 := ApplyItems(items, out.itemWrites).0;
    NothingRemoved(ApplyColumns(items1, out.columnWrites).0);
  }

  lemma {:induction false} RowsInPlace(items: seq<Row>, out: Output)
    requires out.removed == [] && out.order.None?
    ensures
      var (after, e) := ApplyToRows(items, out);
      && (e.None? <==> CellsFine(out.itemWrites, |items|) && ColumnsFine(out.columnWrites, |items|))
      && (e.None? ==> |after| == |items| && forall i :: 0 <= i < |items| ==> after[i] == items[i] + RowDelta(out, i))
  {
    OnlyWriteStages(items, out);
    CellsAsDelta(items, out.itemWrites);
    var (items1, e1) := ApplyItems(items, out.itemWrites);
    ColumnsAsDelta(items1, out.columnWrites);
    var (items2, e2) := ApplyColumns(items1, out.columnWrites);
    if e1.None? && e2.None? {
      forall i | 0 <= i < |items|
        ensures items2[i] == items[i] + RowDelta(out, i)
      {
        assert items2[i] == items1[i] + ColumnDelta(out.columnWrites, i);
        MergeAssociates(items[i], CellDelta(out.itemWrites, i), ColumnDelta(out.columnWrites, i));
      }
    }
  }

  lemma {:induction false} MergeAssociates(a: Row, b: Row, c: Row)
    ensures a + b + c == a + (b + c)
  {
  }

  lemma {:induction false} NothingRemoved<T>(s: seq<T>)
    ensures Kept(s, Bitmap([], |s|)) == s
  {
    if s != [] {
      NothingRemovedUpTo(s, Bitmap([], |s|));
    }
  }

  lemma {:induction false} NothingRemovedUpTo<T>(s: seq<T>, dropped: seq<bool>)
    requires |s| <= |dropped| && forall i :: 0 <= i < |dropped| ==> !dropped[i]
    ensures Kept(s, dropped) == s
  {
    if s != [] {
      NothingRemovedUpTo(s[..|s| - 1], dropped);
      assert s == s[..|s| - 1] + [s[|s| - 1]];
    }
  }

  predicate AddedFine(added: seq<seq<(string, Value)>>) {
    forall row :: row in added ==> AddedProblem(row).None?
  }

  function AddedRows(added: seq<seq<(string, Value)>>, opName: string, isRecall: bool): seq<Row> {
    seq(|added|, i requires 0 <= i < |added| => AddedRow(added[i], opName, isRecall))
  }

  lemma {:induction false} AddedAsBlock(items: seq<Row>, added: seq<seq<(string, Value)>>, opName: string, isRecall: bool)
    ensures ApplyAdded(items, added, opName, isRecall).1.None? <==> AddedFine(added)
    ensures AddedFine(added) ==>
              ApplyAdded(items, added, opName, isRecall).0 == items + AddedRows(added, opName, isRecall)
    decreases |added|
  {
    if added != [] {
      assert forall row :: row in added <==> row == added[0] || row in added[1..];
      var items' := items + [AddedRow(added[0], opName, isRecall)];
      AddedAsBlock(items', added[1..], opName, isRecall);
      assert AddedRows(added, opName, isRecall)
             == [AddedRow(added[0], opName, isRecall)] + AddedRows(added[1..], opName, isRecall);
    }
  }

  /** Effect of an output whose only item effect is a block of added rows. */
  lemma {:induction false} AppendEffect(f: Frame, out: Output, opName: string, isRecall: bool)
    requires out.itemWrites == [] && out.columnWrites == [] && out.removed == [] && out.order.None?
    ensures
      var (after, e) := Apply(f, out, opName, isRecall);
      && (e.None? <==> CommonFine(out.commonWrites) && AddedFine(out.added))
      && (e.None? ==> after.common == f.common + CommonDelta(out.commonWrites))
      && (e.None? ==> after.items == f.items + AddedRows(out.added, opName, isRecall))
  {
    CommonAsDelta(f.common, out.commonWrites);
    NothingRemoved(f.items);
    AddedAsBlock(f.items, out.added, opName, isRecall);
  }
}
