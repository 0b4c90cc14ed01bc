/** What applying an operator's output does to a frame, stage by stage, on plain rows. */
module Frames {
  import opened Options

  /** Doubles without signed zero; every NaN and infinity is `NotFinite`. */
  datatype Number = Finite(r: real) | NotFinite

  datatype Value =
    | Null
    | Bool(b: bool)
    | Num(n: Number)
    | Str(s: string)
    | Arr(elements: seq<Value>)
    | Obj(fields: seq<(string, Value)>)

  type Row = map<string, Value>

  datatype Frame = Frame(common: Row, items: seq<Row>, warnings: seq<string>)

  datatype ItemWrite = ItemWrite(index: int, field: string, value: Value)

  datatype ColumnWrite = ColumnWrite(field: string, vals: seq<Number>)

  /** The write log of one operator. `removed` is listed in ascending order, as its set is iterated. */
  datatype Output = Output(
    commonWrites: seq<(string, Value)>,
    itemWrites: seq<ItemWrite>,
    columnWrites: seq<ColumnWrite>,
    removed: seq<int>,
    order: Option<seq<int>>,
    added: seq<seq<(string, Value)>>,
    warning: Option<string>)

  datatype Error =
    | BadCommonWrite(field: string)
    | ItemOutOfRange(index: int, count: nat)
    | BadItemWrite(index: int, field: string)
    | ColumnLength(field: string, length: nat, count: nat)
    | RemoveOutOfRange(index: int, count: nat)
    | OrderLength(length: nat, count: nat)
    | OrderOutOfRange(index: int, count: nat)
    | OrderDuplicate(index: int)
    | BadAddedItem(field: string)

  const MAX_COMPOSITE_SCAN_DEPTH := 1000

  /** NaN or infinity inside `v`; composites at the depth bound or deeper are not inspected. */
  predicate ContainsNonFinite(v: Value, depth: nat) {
    match v
    case Num(n) => n.NotFinite?
    case Arr(elements) =>
      depth < MAX_COMPOSITE_SCAN_DEPTH && exists i :: 0 <= i < |elements| && ContainsNonFinite(elements[i], depth + 1)
    case Obj(fields) =>
      depth < MAX_COMPOSITE_SCAN_DEPTH && exists i :: 0 <= i < |fields| && ContainsNonFinite(fields[i].1, depth + 1)
    case _ => false
  }

  function ApplyCommon(common: Row, writes: seq<(string, Value)>): (Row, Option<Error>)
    decreases |writes|
  {
    if writes == [] then (common, None)
    else if ContainsNonFinite(writes[0].1, 0) then (common, Some(BadCommonWrite(writes[0].0)))
    else ApplyCommon(common[writes[0].0 := writes[0].1], writes[1..])
  }

  function ItemWriteProblem(w: ItemWrite, count: nat): Option<Error> {
    if !(0 <= w.index < count) then Some(ItemOutOfRange(w.index, count))
    else if ContainsNonFinite(w.value, 0) then Some(BadItemWrite(w.index, w.field))
    else None
  }

  function SetCell(items: seq<Row>, i: nat, field: string, v: Value): seq<Row>
    requires i < |items|
  {
    items[i := items[i][field := v]]
  }

  function ApplyItems(items: seq<Row>, writes: seq<ItemWrite>): (r: (seq<Row>, Option<Error>))
    ensures |r.0| == |items|
    decreases |writes|
  {
    if writes == [] then (items, None) else
      var problem := ItemWriteProblem(writes[0], |items|);
      if problem.Some? then (items, problem)
      else ApplyItems(SetCell(items, writes[0].index, writes[0].field, writes[0].value), writes[1..])
  }

  /** The first index holding a number that is not finite, or the length. */
  function FirstNonFinite(vals: seq<Number>, from: nat): (k: nat)
    requires from <= |vals|
    ensures from <= k <= |vals|
    decreases |vals| - from
  {
    if from == |vals| || vals[from].NotFinite? then from else FirstNonFinite(vals, from + 1)
  }

  function ColumnWriteProblem(w: ColumnWrite, count: nat): Option<Error> {
    if |w.vals| != count then Some(ColumnLength(w.field, |w.vals|, count)) else
      var k := FirstNonFinite(w.vals, 0);
      if k < |w.vals| then Some(BadItemWrite(k, w.field)) else None
  }

  function SetColumn(items: seq<Row>, w: ColumnWrite): seq<Row>
    requires |w.vals| == |items|
  {
    seq(|items|, i requires 0 <= i < |items| => items[i][w.field := Num(w.vals[i])])
  }

  function ApplyColumns(items: seq<Row>, writes: seq<ColumnWrite>): (r: (seq<Row>, Option<Error>))
    ensures |r.0| == |items|
    decreases |writes|
  {
    if writes == [] then (items, None) else
      var problem := ColumnWriteProblem(writes[0], |items|);
      if problem.Some? then (items, problem) else ApplyColumns(SetColumn(items, writes[0]), writes[1..])
  }

  function RemovalProblem(removed: seq<int>, count: nat): Option<Error> {
    if removed == [] then None
    else if !(0 <= removed[0] < count) then Some(RemoveOutOfRange(removed[0], count))
    else RemovalProblem(removed[1..], count)
  }

  /** The elements whose flag is off, in order. */
  function Kept<T>(s: seq<T>, dropped: seq<bool>): seq<T>
    requires |s| <= |dropped|
  {
    if s == [] then [] else
      Kept(s[..|s| - 1], dropped) + (if dropped[|s| - 1] then [] else [s[|s| - 1]])
  }

  function Bitmap(removed: seq<int>, n: nat): seq<bool> {
    seq(n, i requires 0 <= i < n => i in removed)
  }

  function ApplyRemovals(items: seq<Row>, removed: seq<int>): (seq<Row>, Option<Error>) {
    var problem := RemovalProblem(removed, |items|);
    if problem.Some? then (items, problem) else (Kept(items, Bitmap(removed, |items|)), None)
  }

  /** The first entry that is out of range or occurred before. */
  function OrderEntryProblem(order: seq<int>, from: nat, count: nat): Option<Error>
    requires from <= |order|
    decreases |order| - from
  {
    if from == |order| then None
    else if !(0 <= order[from] < count) then Some(OrderOutOfRange(order[from], count))
    else if order[from] in order[..from] then Some(OrderDuplicate(order[from]))
    else OrderEntryProblem(order, from + 1, count)
  }

  function OrderProblem(order: seq<int>, count: nat): Option<Error> {
    if |order| != count then Some(OrderLength(|order|, count)) else OrderEntryProblem(order, 0, count)
  }

  predicate IsPermutation(order: seq<int>, n: nat) {
    && |order| == n
    && (forall k :: 0 <= k < n ==> 0 <= order[k] < n)
    && (forall k, l :: 0 <= k < l < n ==> order[k] != order[l])
  }

  function Permuted<T>(s: seq<T>, order: seq<int>): seq<T>
    requires forall k :: 0 <= k < |order| ==> 0 <= order[k] < |s|
  {
    seq(|order|, k requires 0 <= k < |order| => s[order[k]])
  }

  lemma {:induction false} OrderEntriesFine(order: seq<int>, from: nat, count: nat)
    requires from <= |order|
    requires forall k :: 0 <= k < from ==> 0 <= order[k] < count
    requires forall k, l :: 0 <= k < l < from ==> order[k] != order[l]
    ensures OrderEntryProblem(order, from, count).None? <==>
            (forall k :: 0 <= k < |order| ==> 0 <= order[k] < count)
            && (forall k, l :: 0 <= k < l < |order| ==> order[k] != order[l])
    decreases |order| - from
  {
    if from < |order| {
      if 0 <= order[from] < count && order[from] !in order[..from] {
        assert forall k :: 0 <= k < from ==> order[..from][k] == order[k];
        OrderEntriesFine(order, from + 1, count);
      } else if order[from] in order[..from] {
        var k :| 0 <= k < from && order[..from][k] == order[from];
        assert order[k] == order[from];
      }
    }
  }

  /** An order is accepted exactly when it is a permutation of the row numbers. */
  lemma {:induction false} OrderAccepted(order: seq<int>, count: nat)
    ensures OrderProblem(order, count).None? <==> IsPermutation(order, count)
  {
    OrderEntriesFine(order, 0, count);
  }

  function ApplyOrder(items: seq<Row>, order: Option<seq<int>>): (seq<Row>, Option<Error>) {
    if order.None? then (items, None) else
      OrderAccepted(order.value, |items|);
      var problem := OrderProblem(order.value, |items|);
      if problem.Some? then (items, problem) else (Permuted(items, order.value), None)
  }

  /** The first field of an added row whose value is refused. */
  function AddedProblem(added: seq<(string, Value)>): Option<Error> {
    if added == [] then None
    else if ContainsNonFinite(added[0].1, 0) then Some(BadAddedItem(added[0].0))
    else AddedProblem(added[1..])
  }

  function RowOf(fields: seq<(string, Value)>): Row {
    if fields == [] then map[]
    else RowOf(fields[..|fields| - 1])[fields[|fields| - 1].0 := fields[|fields| - 1].1]
  }

  const SOURCE := "_source"

  /** A recalled row is stamped with the operator that added it. */
  function AddedRow(fields: seq<(string, Value)>, opName: string, isRecall: bool): Row {
    if isRecall then RowOf(fields)[SOURCE := Str(opName)] else RowOf(fields)
  }

  function ApplyAdded(items: seq<Row>, added: seq<seq<(string, Value)>>, opName: string, isRecall: bool)
    : (seq<Row>, Option<Error>)
    decreases |added|
  {
    if added == [] then (items, None) else
      var problem := AddedProblem(added[0]);
      if problem.Some? then (items, problem)
      else ApplyAdded(items + [AddedRow(added[0], opName, isRecall)], added[1..], opName, isRecall)
  }

  function ApplyWarning(warnings: seq<string>, warning: Option<string>, opName: string): seq<string> {
    if warning.None? then warnings else warnings + ["operator \"" + opName + "\": " + warning.value]
  }

  /** The item stages before additions. */
  function ApplyToRows(items: seq<Row>, out: Output): (seq<Row>, Option<Error>) {
    var (items1, e1) := ApplyItems(items, out.itemWrites);
    if e1.Some? then (items1, e1) else
      var (items2, e2) := ApplyColumns(items1, out.columnWrites);
      if e2.Some? then (items2, e2) else
        var (items3, e3) := ApplyRemovals(items2, out.removed);
        if e3.Some? then (items3, e3) else ApplyOrder(items3, out.order)
  }

  /** Common writes, item writes, column writes, removals, reorder, additions, warning; stops at the first error. */
  function Apply(f: Frame, out: Output, opName: string, isRecall: bool): (Frame, Option<Error>) {
    var (common, e1) := ApplyCommon(f.common, out.commonWrites);
    if e1.Some? then (f.(common := common), e1) else
      var (rows, e2) := ApplyToRows(f.items, out);
      if e2.Some? then (f.(common := common, items := rows), e2) else
        var (items, e3) := ApplyAdded(rows, out.added, opName, isRecall);
        if e3.Some? then (f.(common := common, items := items), e3) else
          (Frame(common, items, ApplyWarning(f.warnings, out.warning, opName)), None)
  }
}
