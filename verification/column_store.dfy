/** A set of equally long columns, read as rows. */
module ColumnStores {
  import opened Options
  import opened Frames
  import opened Columns

  type Table = map<string, Column>

  predicate SoundTable(cols: Table, n: nat) {
    forall f :: f in cols ==> Sound(cols[f]) && Size(cols[f]) == n
  }

  /** Row `i`: the fields whose column has a value there. */
  function RowAt(cols: Table, n: nat, i: nat): Row
    requires SoundTable(cols, n) && i < n
  {
    map f | f in cols && Cell(cols[f], i).Some? :: Cell(cols[f], i).value
  }

  function RowsOf(cols: Table, n: nat): (rows: seq<Row>)
    requires SoundTable(cols, n)
    ensures |rows| == n
  {
    seq(n, i requires 0 <= i < n => RowAt(cols, n, i))
  }

  lemma {:induction false} SameCells(a: Column, b: Column)
    requires Sound(a) && Sound(b) && Cells(a) == Cells(b)
    ensures Size(a) == Size(b) && forall i :: 0 <= i < Size(a) ==> Cell(a, i) == Cell(b, i)
  {
    assert forall i :: 0 <= i < Size(a) ==> Cells(a)[i] == Cell(a, i) && Cells(b)[i] == Cell(b, i);
  }

  /** Replacing a column by one with the same content changes no row. */
  lemma {:induction false} SameContent(cols: Table, n: nat, field: string, c: Column)
    requires SoundTable(cols, n) && Sound(c) && Size(c) == n
    requires if field in cols then Cells(c) == Cells(cols[field]) else Cells(c) == seq(n, i => None)
    ensures RowsOf(cols[field := c], n) == RowsOf(cols, n)
  {
    if field in cols { SameCells(c, cols[field]); }
    assert forall i :: 0 <= i < n ==> Cell(c, i) == Cells(c)[i];
    forall i | 0 <= i < n
      ensures RowAt(cols[field := c], n, i) == RowAt(cols, n, i)
    {
    }
  }

  /** Writing one slot of a column writes one field of one row. */
  lemma {:induction false} OneCell(cols: Table, n: nat, field: string, i: nat, v: Value)
    requires SoundTable(cols, n) && field in cols && i < n && Accepts(KindOf(cols[field]), v)
    ensures RowsOf(cols[field := SetSlot(cols[field], i, v).value], n) == SetCell(RowsOf(cols, n), i, field, v)
  {
    var c := cols[field];
    var c' := SetSlot(c, i, v).value;
    SetSlotStores(c, i, v);
    assert forall k :: 0 <= k < n ==> Cell(c', k) == Cells(c')[k] && Cell(c, k) == Cells(c)[k];
    forall k | 0 <= k < n
      ensures RowAt(cols[field := c'], n, k) == SetCell(RowsOf(cols, n), i, field, v)[k]
    {
    }
  }

  /** Selecting rows in every column selects rows. */
  lemma {:induction false} SelectedRows(cols: Table, n: nat, rows: seq<int>, after: Table)
    requires SoundTable(cols, n) && after.Keys == cols.Keys && forall k :: 0 <= k < |rows| ==> 0 <= rows[k] < n
    requires forall f :: f in cols ==> after[f] == Selected(cols[f], rows)
    ensures SoundTable(after, |rows|) && RowsOf(after, |rows|) == Permuted(RowsOf(cols, n), rows)
  {
    forall k | 0 <= k < |rows|
      ensures RowAt(after, |rows|, k) == RowAt(cols, n, rows[k])
    {
      forall f | f in cols
        ensures Cell(after[f], k) == Cell(cols[f], rows[k])
      {
        assert Cells(after[f])[k] == Cells(cols[f])[rows[k]];
      }
    }
  }

  /** Strictly ascending, as the elements of an ordered set are listed. */
  predicate Ascending(s: seq<int>) {
    forall i, j :: 0 <= i < j < |s| ==> s[i] < s[j]
  }

  function Marked(indices: seq<int>, n: nat): nat {
    if n == 0 then 0 else Marked(indices, n - 1) + if n - 1 in indices then 1 else 0
  }

  lemma {:induction false} MarkedAgree(a: seq<int>, b: seq<int>, n: nat)
    requires forall k :: 0 <= k < n ==> (k in a <==> k in b)
    ensures Marked(a, n) == Marked(b, n)
  {
    if n > 0 {
      MarkedAgree(a, b, n - 1);
    }
  }

  lemma {:induction false} MarkedCount(indices: seq<int>, n: nat)
    requires Ascending(indices) && forall k :: 0 <= k < |indices| ==> 0 <= indices[k] < n
    ensures Marked(indices, n) == |indices|
  {
    if n > 0 {
      if n - 1 in indices {
        var front := indices[..|indices| - 1];
        assert indices[|indices| - 1] == n - 1;
        assert indices == front + [n - 1];
        MarkedCount(front, n - 1);
        MarkedAgree(indices, front, n - 1);
      } else {
        MarkedCount(indices, n - 1);
      }
    }
  }

  lemma {:induction false} SurvivorCount(indices: seq<int>, total: nat, n: nat)
    requires n <= total
    ensures |Survivors(n, Bitmap(indices, total))| == n - Marked(indices, n)
    ensures Marked(indices, n) <= n
  {
    if n > 0 {
      SurvivorCount(indices, total, n - 1);
    }
  }

  class TypedColumnStore {
    var cols: Table
    var rowCount: nat

    ghost predicate Valid()
      reads this
    {
      SoundTable(cols, rowCount)
    }

    ghost function Rows(): seq<Row>
      requires Valid()
      reads this
    {
      RowsOf(cols, rowCount)
    }

    constructor (n: nat)
      ensures Valid() && cols == map[] && rowCount == n
      ensures Rows() == seq(n, i => map[])
    {
      cols, rowCount := map[], n;
    }

    /** A column of another length is refused, unless it is the first one of an empty store. */
    method SetColumn(field: string, col: Column) returns (ok: bool)
      requires Valid() && Sound(col)
      modifies this
      ensures Valid() && (ok <==> Size(col) == old(rowCount) || (old(cols) == map[] && old(rowCount) == 0))
      ensures ok ==> cols == old(cols)[field := col] && rowCount == Size(col)
      ensures !ok ==> cols == old(cols) && rowCount == old(rowCount)
    {
      if cols == map[] && Size(col) != rowCount {
        if rowCount == 0 {
          rowCount := Size(col);
        } else if Size(col) != rowCount {
          return false;
        }
      } else if Size(col) != rowCount {
        return false;
      }
      cols := cols[field := col];
      ok := true;
    }

    method RemoveRows(indices: seq<int>) returns (ok: bool)
      requires Valid() && Ascending(indices)
      modifies this
      ensures Valid() && (ok <==> RemovalProblem(indices, old(rowCount)).None?)
      ensures ok ==> Rows() == Kept(old(Rows()), Bitmap(indices, old(rowCount))) && rowCount == old(rowCount) - |indices|
      ensures !ok ==> cols == old(cols) && rowCount == old(rowCount)
    {
      if indices == [] {
        NothingDropped(Rows(), rowCount);
        return true;
      }
      ok := true;
      for k := 0 to |indices|
        invariant ok && RemovalProblem(indices, rowCount) == RemovalProblem(indices[k..], rowCount)
        invariant forall l :: 0 <= l < k ==> 0 <= indices[l] < rowCount
        invariant cols == old(cols) && rowCount == old(rowCount)
      {
        assert indices[k..][0] == indices[k] && indices[k..][1..] == indices[k + 1..];
        if indices[k] < 0 || indices[k] >= rowCount {
          return false;
        }
      }
      var bitmap := Bitmap(indices, rowCount);
      ghost var rows := Survivors(rowCount, bitmap);
      var rest, done := cols.Keys, map[];
      while rest != {}
        invariant rest <= cols.Keys && done.Keys == cols.Keys - rest
        invariant cols == old(cols) && rowCount == old(rowCount)
        invariant forall f :: f in done ==> done[f] == Selected(cols[f], rows)
        decreases rest
      {
        var f :| f in rest;
        var c := RemoveWithBitmap(cols[f], bitmap);
        done := done[f := c];
        rest := rest - {f};
      }
      SelectedRows(cols, rowCount, rows, done);
      KeptAreSurvivors(Rows(), bitmap);
      MarkedCount(indices, rowCount);
      SurvivorCount(indices, rowCount, rowCount);
      cols := done;
      rowCount := rowCount - |indices|;
    }

    method ReorderRows(order: seq<int>) returns (ok: bool)
      requires Valid() && IsPermutation(order, |order|)
      modifies this
      ensures Valid() && rowCount == old(rowCount) && (ok <==> |order| == rowCount)
      ensures ok ==> Rows() == Permuted(old(Rows()), order)
      ensures !ok ==> cols == old(cols)
    {
      if |order| != rowCount {
        return false;
      }
      var rest, done := cols.Keys, map[];
      var scratch := new bool[0];
      while rest != {}
        invariant rest <= cols.Keys && done.Keys == cols.Keys - rest && fresh(scratch)
        invariant cols == old(cols) && rowCount == old(rowCount)
        invariant forall f :: f in done ==> done[f] == Selected(cols[f], order)
        decreases rest
      {
        var f :| f in rest;
        var c;
        c, scratch := Reorder(cols[f], order, scratch);
        done := done[f := c];
        rest := rest - {f};
      }
      SelectedRows(cols, rowCount, order, done);
      cols := done;
      ok := true;
    }

    method ExtendRows(n: nat)
      requires Valid()
      modifies this
      ensures Valid() && rowCount == old(rowCount) + n && cols.Keys == old(cols).Keys
      ensures Rows() == old(Rows()) + seq(n, i => map[])
    {
      if n == 0 {
        assert seq<Row>(n, i => map[]) == [];
        assert Rows() + [] == Rows();
        return;
      }
      var rest, done: Table := cols.Keys, map[];
      while rest != {}
        invariant rest <= cols.Keys && done.Keys == cols.Keys - rest
        invariant cols == old(cols) && rowCount == old(rowCount)
        invariant forall f :: f in done ==> Sound(done[f]) && Cells(done[f]) == Cells(cols[f]) + Absent(n)
        decreases rest
      {
        var f :| f in rest;
        var c := PadColumn(cols[f], n);
        done := done[f := c];
        rest := rest - {f};
      }
      ExtendedRows(cols, rowCount, n, done);
      cols := done;
      rowCount := rowCount + n;
    }
  }

  function Absent(n: nat): seq<Option<Value>> {
    seq(n, i => None)
  }

  method PadColumn(col: Column, n: nat) returns (c: Column)
    requires Sound(col)
    ensures Sound(c) && Cells(c) == Cells(col) + Absent(n)
  {
    c := col;
    for k := 0 to n
      invariant Sound(c) && Cells(c) == Cells(col) + Absent(k)
    {
      AppendAbsentStores(c);
      c := AppendAbsent(c);
      assert Absent(k + 1) == Absent(k) + [None];
    }
  }

  lemma {:induction false} ExtendedRows(cols: Table, n: nat, more: nat, after: Table)
    requires SoundTable(cols, n) && after.Keys == cols.Keys
    requires forall f :: f in cols ==> Sound(after[f]) && Cells(after[f]) == Cells(cols[f]) + Absent(more)
    ensures SoundTable(after, n + more) && RowsOf(after, n + more) == RowsOf(cols, n) + seq(more, i => map[])
  {
    forall f | f in cols
      ensures Size(after[f]) == n + more
    {
      assert |Cells(after[f])| == |Cells(cols[f])| + more;
    }
    var expected := RowsOf(cols, n) + seq(more, i => map[]);
    forall k | 0 <= k < n + more
      ensures RowsOf(after, n + more)[k] == expected[k]
    {
      forall f | f in cols
        ensures Cell(after[f], k) == if k < n then Cell(cols[f], k) else None
      {
        assert Cells(after[f])[k] == Cell(after[f], k);
        if k < n { assert Cells(cols[f])[k] == Cell(cols[f], k); }
      }
    }
  }

  lemma {:induction false} NothingDropped(rows: seq<Row>, n: nat)
    requires |rows| <= n
    ensures Kept(rows, Bitmap([], n)) == rows
  {
    if rows != [] {
      NothingDropped(rows[..|rows| - 1], n);
    }
  }
}
