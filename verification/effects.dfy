/** What applying an output means, said without the stages that carry it out. */
module Effects {
  import opened Options
  import opened Frames
  import opened Operators

  // ----- values that are refused -----

  /** What lies in `v` at a path of positions. */
  function Follow(v: Value, path: seq<nat>): Option<Value>
    decreases |path|
  {
    if path == [] then Some(v) else
      match v
      case Arr(elements) => if path[0] < |elements| then Follow(elements[path[0]], path[1..]) else None
      case Obj(fields) => if path[0] < |fields| then Follow(fields[path[0]].1, path[1..]) else None
      case _ => None
  }

  ghost predicate LeadsToNonFinite(v: Value, path: seq<nat>) {
    Follow(v, path) == Some(Num(NotFinite))
  }

  /** NaN or infinity lies in `v`, at most a thousand levels down. */
  ghost predicate Spoiled(v: Value) {
    exists path :: |path| <= 1000 && LeadsToNonFinite(v, path)
  }

  lemma {:induction false} PathTo(v: Value, depth: nat) returns (path: seq<nat>)
    requires ContainsNonFinite(v, depth) && depth <= 1000
    ensures |path| <= 1000 - depth && LeadsToNonFinite(v, path)
    decreases v
  {
    path := [];
    match v
    case Arr(elements) =>
      var i :| 0 <= i < |elements| && ContainsNonFinite(elements[i], depth + 1);
      var rest := PathTo(elements[i], depth + 1);
      path := [i] + rest;
      assert path[1..] == rest;
    case Obj(fields) =>
      var i :| 0 <= i < |fields| && ContainsNonFinite(fields[i].1, depth + 1);
      var rest := PathTo(fields[i].1, depth + 1);
      path := [i] + rest;
      assert path[1..] == rest;
    case _ =>
  }

  lemma {:induction false} PathFound(v: Value, depth: nat, path: seq<nat>)
    requires depth + |path| <= 1000 && LeadsToNonFinite(v, path)
    ensures ContainsNonFinite(v, depth)
    decreases |path|
  {
    if path != [] {
      match v
      case Arr(elements) => PathFound(elements[path[0]], depth + 1, path[1..]);
      case Obj(fields) => PathFound(fields[path[0]].1, depth + 1, path[1..]);
    }
  }

  /** The scan finds exactly the values with NaN or infinity at the end of some path of at most a thousand steps. */
  lemma {:induction false} ScanFindsSpoiled(v: Value)
    ensures ContainsNonFinite(v, 0) <==> Spoiled(v)
  {
    if ContainsNonFinite(v, 0) {
      var path := PathTo(v, 0);
    }
    if path :| |path| <= 1000 && LeadsToNonFinite(v, path) {
      PathFound(v, 0, path);
    }
  }

  // ----- outputs that are refused -----

  ghost predicate SoundFields(fields: seq<(string, Value)>) {
    forall k :: 0 <= k < |fields| ==> !Spoiled(fields[k].1)
  }

  ghost predicate SoundColumn(w: ColumnWrite, n: nat) {
    |w.vals| == n && forall i :: 0 <= i < n ==> w.vals[i].Finite?
  }

  function Distinct(removed: seq<int>): set<int> {
    set r | r in removed
  }

  /** An output that a frame of `n` rows takes. */
  ghost predicate Acceptable(out: Output, n: nat) {
    && SoundFields(out.commonWrites)
    && (forall w :: w in out.itemWrites ==> 0 <= w.index < n && !Spoiled(w.value))
    && (forall w :: w in out.columnWrites ==> SoundColumn(w, n))
    && (forall r :: r in out.removed ==> 0 <= r < n)
    && (out.order.Some? ==> |Distinct(out.removed)| <= n && IsPermutation(out.order.value, n - |Distinct(out.removed)|))
    && (forall row :: row in out.added ==> SoundFields(row))
  }

  /** Fields are refused for the first value that is spoiled; what was written before it stays. */
  lemma {:induction false} CommonRefused(common: Row, writes: seq<(string, Value)>) returns (k: nat)
    ensures k <= |writes| && SoundFields(writes[..k]) && (k < |writes| ==> Spoiled(writes[k].1))
    ensures ApplyCommon(common, writes)
         == (common + CommonDelta(writes[..k]), if k == |writes| then None else Some(BadCommonWrite(writes[k].0)))
    decreases |writes|
  {
    k := 0;
    if writes != [] {
      ScanFindsSpoiled(writes[0].1);
      if !ContainsNonFinite(writes[0].1, 0) {
        var rest := CommonRefused(common[writes[0].0 := writes[0].1], writes[1..]);
        k := rest + 1;
        OneMoreWritten(common, writes, rest);
      }
    }
    assert k == 0 ==> writes[..k] == [] && common + map[] == common;
  }

  lemma {:induction false} OneMoreWritten(common: Row, writes: seq<(string, Value)>, rest: nat)
    requires rest < |writes| && !Spoiled(writes[0].1) && SoundFields(writes[1..][..rest])
    ensures SoundFields(writes[..rest + 1])
    ensures common[writes[0].0 := writes[0].1] + CommonDelta(writes[1..][..rest]) == common + CommonDelta(writes[..rest + 1])
  {
    var begun := writes[..rest + 1];
    assert begun[1..] == writes[1..][..rest];
    forall j | 0 <= j < |begun|
      ensures !Spoiled(begun[j].1)
    {
      if j > 0 { assert begun[j] == writes[1..][..rest][j - 1]; }
    }
  }

  /** A row is refused for its first value that is spoiled. */
  lemma {:induction false} RowRefused(fields: seq<(string, Value)>) returns (k: nat)
    ensures k <= |fields| && SoundFields(fields[..k]) && (k < |fields| ==> Spoiled(fields[k].1))
    ensures AddedProblem(fields) == if k == |fields| then None else Some(BadAddedItem(fields[k].0))
  {
    k := 0;
    if fields != [] {
      ScanFindsSpoiled(fields[0].1);
      if !ContainsNonFinite(fields[0].1, 0) {
        var rest := RowRefused(fields[1..]);
        k := rest + 1;
        forall j | 0 <= j < k
          ensures !Spoiled(fields[..k][j].1)
        {
          if j > 0 { assert fields[..k][j] == fields[1..][..rest][j - 1]; }
        }
      }
    }
  }

  lemma {:induction false} CellRefused(w: ItemWrite, n: nat)
    ensures ItemWriteProblem(w, n)
         == if !(0 <= w.index < n) then Some(ItemOutOfRange(w.index, n))
            else if Spoiled(w.value) then Some(BadItemWrite(w.index, w.field)) else None
  {
    ScanFindsSpoiled(w.value);
  }

  lemma {:induction false} FirstNonFiniteIs(vals: seq<Number>, from: nat)
    requires from <= |vals|
    ensures var k := FirstNonFinite(vals, from);
            (forall i :: from <= i < k ==> vals[i].Finite?) && (k < |vals| ==> vals[k].NotFinite?)
    decreases |vals| - from
  {
    if from < |vals| && vals[from].Finite? { FirstNonFiniteIs(vals, from + 1); }
  }

  lemma {:induction false} ColumnRefused(w: ColumnWrite, n: nat)
    ensures ColumnWriteProblem(w, n).None? <==> SoundColumn(w, n)
  {
    FirstNonFiniteIs(w.vals, 0);
  }

  lemma {:induction false} RemovalRefused(removed: seq<int>, n: nat)
    ensures RemovalProblem(removed, n).None? <==> forall r :: r in removed ==> 0 <= r < n
  {
    if removed != [] {
      RemovalRefused(removed[1..], n);
      assert removed[0] in removed;
      assert forall r :: r in removed <==> r == removed[0] || r in removed[1..];
    }
  }

  // ----- which rows stay -----

  /** Where the rows that stay come from: ascending, and every row but the removed ones. */
  ghost predicate Stay(origin: seq<nat>, n: nat, removed: seq<int>) {
    && (forall k, l :: 0 <= k < l < |origin| ==> origin[k] < origin[l])
    && (forall k :: 0 <= k < |origin| ==> origin[k] < n && origin[k] !in removed)
    && (forall i: nat :: i < n && i !in removed ==> i in origin)
  }

  lemma {:induction false} OneMoreStays(before: seq<nat>, n: nat, removed: seq<int>)
    requires Stay(before, n, removed)
    ensures Stay(if n in removed then before else before + [n], n + 1, removed)
  {
    var origin := if n in removed then before else before + [n];
    forall i: nat | i < n + 1 && i !in removed
      ensures i in origin
    {
      if i < n { assert i in before; } else { assert origin[|before|] == i; }
    }
  }

  ghost predicate Drawn<T(!new)>(kept: seq<T>, s: seq<T>, origin: seq<nat>) {
    |kept| == |origin| && forall k :: 0 <= k < |origin| ==> origin[k] < |s| && kept[k] == s[origin[k]]
  }

  lemma {:induction false} DrawOneMore(kept: seq<Row>, s: seq<Row>, origin: seq<nat>, last: nat)
    requires last < |s| && Drawn(kept, s[..last], origin)
    ensures Drawn(kept, s, origin) && Drawn(kept + [s[last]], s, origin + [last])
  {
  }

  lemma {:induction false} KeptStep(s: seq<Row>, dropped: seq<bool>)
    requires 0 < |s| <= |dropped|
    ensures var kept := Kept(s[..|s| - 1], dropped);
            Kept(s, dropped) == if dropped[|s| - 1] then kept else kept + [s[|s| - 1]]
  {
    assert Kept(s[..|s| - 1], dropped) + [] == Kept(s[..|s| - 1], dropped);
  }

  lemma {:induction false} RowsThatStay(s: seq<Row>, removed: seq<int>, total: nat) returns (origin: seq<nat>)
    requires |s| <= total
    ensures Stay(origin, |s|, removed) && Drawn(Kept(s, Bitmap(removed, total)), s, origin)
  {
    if s == [] {
      return [];
    }
    var last := |s| - 1;
    var dropped := Bitmap(removed, total);
    var before := RowsThatStay(s[..last], removed, total);
    OneMoreStays(before, last, removed);
    DrawOneMore(Kept(s[..last], dropped), s, before, last);
    KeptStep(s, dropped);
    origin := if last in removed then before else before + [last];
  }

  function Below(removed: seq<int>, n: nat): set<int> {
    set r | r in removed && 0 <= r < n
  }

  lemma {:induction false} HowManyStay<T>(s: seq<T>, removed: seq<int>, total: nat)
    requires |s| <= total
    ensures |Kept(s, Bitmap(removed, total))| + |Below(removed, |s|)| == |s|
  {
    if s == [] {
      assert Below(removed, 0) == {};
    } else {
      var last := |s| - 1;
      HowManyStay(s[..last], removed, total);
      if last in removed {
        assert Below(removed, |s|) == Below(removed, last) + {last};
      } else {
        assert Below(removed, |s|) == Below(removed, last);
      }
    }
  }

  // ----- the whole output -----

  lemma {:induction false} RowsAccepted(items: seq<Row>, out: Output)
    ensures
      ApplyToRows(items, out).1.None? <==>
        && (forall w :: w in out.itemWrites ==> 0 <= w.index < |items| && !Spoiled(w.value))
        && (forall w :: w in out.columnWrites ==> SoundColumn(w, |items|))
        && (forall r :: r in out.removed ==> 0 <= r < |items|)
        && (out.order.Some? ==>
              |Distinct(out.removed)| <= |items| && IsPermutation(out.order.value, |items| - |Distinct(out.removed)|))
  {
    CellsAccepted(items, out.itemWrites);
    var items1 := ApplyItems(items, out.itemWrites).0;
    ColumnsAccepted(items1, out.columnWrites);
    var items2 := ApplyColumns(items1, out.columnWrites).0;
    RemovalRefused(out.removed, |items|);
    if forall r :: r in out.removed ==> 0 <= r < |items| {
      HowManyStay(items2, out.removed, |items|);
      assert Below(out.removed, |items|) == Distinct(out.removed);
      if out.order.Some? {
        OrderAccepted(out.order.value, |items| - |Distinct(out.removed)|);
      }
    }
  }

  lemma {:induction false} CellsAccepted(items: seq<Row>, writes: seq<ItemWrite>)
    ensures ApplyItems(items, writes).1.None? <==> forall w :: w in writes ==> 0 <= w.index < |items| && !Spoiled(w.value)
  {
    CellsAsDelta(items, writes);
    forall w | w in writes
      ensures ItemWriteProblem(w, |items|).None? <==> 0 <= w.index < |items| && !Spoiled(w.value)
    {
      CellRefused(w, |items|);
    }
  }

  lemma {:induction false} ColumnsAccepted(items: seq<Row>, writes: seq<ColumnWrite>)
    ensures ApplyColumns(items, writes).1.None? <==> forall w :: w in writes ==> SoundColumn(w, |items|)
  {
    ColumnsAsDelta(items, writes);
    forall w | w in writes
      ensures ColumnWriteProblem(w, |items|).None? <==> SoundColumn(w, |items|)
    {
      ColumnRefused(w, |items|);
    }
  }

  lemma {:induction false} AdditionsAccepted(items: seq<Row>, added: seq<seq<(string, Value)>>, opName: string, isRecall: bool)
    ensures ApplyAdded(items, added, opName, isRecall).1.None? <==> forall row :: row in added ==> SoundFields(row)
  {
    AddedAsBlock(items, added, opName, isRecall);
    forall row | row in added
      ensures AddedProblem(row).None? <==> SoundFields(row)
    {
      var k := RowRefused(row);
      assert row[..|row|] == row;
    }
  }

  /** A frame takes an output exactly when it is acceptable. */
  lemma {:induction false} AcceptedExactlyWhen(f: Frame, out: Output, opName: string, isRecall: bool)
    ensures Apply(f, out, opName, isRecall).1.None? <==> Acceptable(out, |f.items|)
  {
    var k := CommonRefused(f.common, out.commonWrites);
    assert out.commonWrites[..|out.commonWrites|] == out.commonWrites;
    RowsAccepted(f.items, out);
    AdditionsAccepted(ApplyToRows(f.items, out).0, out.added, opName, isRecall);
  }

  // ----- what is written -----

  /** Write `k` is the last one to its field. */
  predicate Latest(writes: seq<(string, Value)>, k: nat) {
    k < |writes| && forall j :: k < j < |writes| ==> writes[j].0 != writes[k].0
  }

  /** A field has the value of the last write to it; fields without a write are left alone. */
  lemma {:induction false} LastWriteWins(writes: seq<(string, Value)>, k: nat)
    ensures Latest(writes, k) ==> writes[k].0 in CommonDelta(writes) && CommonDelta(writes)[writes[k].0] == writes[k].1
    ensures forall f :: f in CommonDelta(writes) ==> exists j :: 0 <= j < |writes| && writes[j].0 == f
    decreases |writes|
  {
    if writes != [] {
      var rest := writes[1..];
      assert forall j :: 0 <= j < |rest| ==> rest[j] == writes[j + 1];
      LastWriteWins(rest, if k > 0 then k - 1 else 0);
      if k == 0 && Latest(writes, 0) {
        assert writes[0].0 !in CommonDelta(rest);
      } else if Latest(writes, k) {
        assert Latest(rest, k - 1);
      }
    }
  }

  /** The writes to cells of row `i`, and to cell `i` of columns, as writes to fields. */
  function OnRow(out: Output, i: nat): seq<(string, Value)> {
    CellsOf(out.itemWrites, i) + ColumnsOf(out.columnWrites, i)
  }

  function CellsOf(writes: seq<ItemWrite>, i: nat): seq<(string, Value)> {
    if writes == [] then []
    else (if writes[0].index == i then [(writes[0].field, writes[0].value)] else []) + CellsOf(writes[1..], i)
  }

  function ColumnsOf(writes: seq<ColumnWrite>, i: nat): seq<(string, Value)> {
    if writes == [] then []
    else (if i < |writes[0].vals| then [(writes[0].field, Num(writes[0].vals[i]))] else []) + ColumnsOf(writes[1..], i)
  }

  lemma {:induction false} DeltaConcat(a: seq<(string, Value)>, b: seq<(string, Value)>)
    ensures CommonDelta(a + b) == CommonDelta(a) + CommonDelta(b)
  {
    if a == [] {
      assert a + b == b && CommonDelta([]) + CommonDelta(b) == CommonDelta(b);
    } else {
      assert (a + b)[1..] == a[1..] + b && (a + b)[0] == a[0];
      DeltaConcat(a[1..], b);
    }
  }

  lemma {:induction false} CellsDelta(writes: seq<ItemWrite>, i: nat)
    ensures CellDelta(writes, i) == CommonDelta(CellsOf(writes, i))
  {
    if writes != [] {
      CellsDelta(writes[1..], i);
      DeltaConcat(if writes[0].index == i then [(writes[0].field, writes[0].value)] else [], CellsOf(writes[1..], i));
    }
  }

  lemma {:induction false} ColumnsDelta(writes: seq<ColumnWrite>, i: nat)
    ensures ColumnDelta(writes, i) == CommonDelta(ColumnsOf(writes, i))
  {
    if writes != [] {
      ColumnsDelta(writes[1..], i);
      DeltaConcat(if i < |writes[0].vals| then [(writes[0].field, Num(writes[0].vals[i]))] else [], ColumnsOf(writes[1..], i));
    }
  }

  lemma {:induction false} RowIsWritten(out: Output, i: nat)
    ensures RowDelta(out, i) == CommonDelta(OnRow(out, i))
  {
    CellsDelta(out.itemWrites, i);
    ColumnsDelta(out.columnWrites, i);
    DeltaConcat(CellsOf(out.itemWrites, i), ColumnsOf(out.columnWrites, i));
  }

  /** An added row holds the last value given for each field; one that is recalled names the operator as its source. */
  lemma {:induction false} AddedRowIs(fields: seq<(string, Value)>, opName: string, isRecall: bool)
    ensures AddedRow(fields, opName, isRecall) == CommonDelta(fields + if isRecall then [(SOURCE, Str(opName))] else [])
  {
    RowOfIsDelta(fields);
    var stamp := [(SOURCE, Str(opName))];
    DeltaConcat(fields, stamp);
    assert CommonDelta(stamp) == map[SOURCE := Str(opName)] by { assert stamp[1..] == []; }
    assert fields + [] == fields;
  }

  lemma {:induction false} RowOfIsDelta(fields: seq<(string, Value)>)
    ensures RowOf(fields) == CommonDelta(fields)
  {
    if fields != [] {
      var last := fields[|fields| - 1];
      RowOfIsDelta(fields[..|fields| - 1]);
      DeltaConcat(fields[..|fields| - 1], [last]);
      assert [last][1..] == [] && fields == fields[..|fields| - 1] + [last];
    }
  }

  // ----- the frame afterwards -----

  /** Row `k` of `after` is row `origin[k]` of `before` with what was written to it. */
  ghost predicate Carried(before: seq<Row>, after: seq<Row>, origin: seq<nat>, out: Output) {
    |origin| == |after| && forall k :: 0 <= k < |origin| ==>
      origin[k] < |before| && after[k] == before[origin[k]] + CommonDelta(OnRow(out, origin[k]))
  }

  /** The rows in the frame come from those that stay: in their old order, or as the order lists them. */
  ghost predicate Arranged(origin: seq<nat>, stay: seq<nat>, order: Option<seq<int>>) {
    if order.None? then origin == stay
    else |origin| == |stay| == |order.value| && forall k :: 0 <= k < |origin| ==> 0 <= order.value[k] < |stay| && origin[k] == stay[order.value[k]]
  }

  lemma {:induction false} RowsWritten(items: seq<Row>, out: Output)
    requires CellsFine(out.itemWrites, |items|) && ColumnsFine(out.columnWrites, |items|)
    ensures
      var (after, e) := WriteStages(items, out);
      e.None? && |after| == |items| && forall i :: 0 <= i < |items| ==> after[i] == items[i] + CommonDelta(OnRow(out, i))
  {
    CellsAsDelta(items, out.itemWrites);
    var items1 := ApplyItems(items, out.itemWrites).0;
    ColumnsAsDelta(items1, out.columnWrites);
    var items2 := ApplyColumns(items1, out.columnWrites).0;
    forall i | 0 <= i < |items|
      ensures items2[i] == items[i] + CommonDelta(OnRow(out, i))
    {
      RowIsWritten(out, i);
      MergeAssociates(items[i], CellDelta(out.itemWrites, i), ColumnDelta(out.columnWrites, i));
    }
  }

  lemma {:induction false} RowsAfter(items: seq<Row>, out: Output) returns (stay: seq<nat>, origin: seq<nat>)
    requires ApplyToRows(items, out).1.None?
    ensures Stay(stay, |items|, out.removed) && Arranged(origin, stay, out.order)
    ensures Carried(items, ApplyToRows(items, out).0, origin, out)
  {
    CellsAsDelta(items, out.itemWrites);
    var items1 := ApplyItems(items, out.itemWrites).0;
    ColumnsAsDelta(items1, out.columnWrites);
    RowsWritten(items, out);
    var written := WriteStages(items, out).0;
    stay := RowsThatStay(written, out.removed, |items|);
    origin := stay;
    if out.order.Some? {
      OrderAccepted(out.order.value, |stay|);
      origin := seq(|stay|, k requires 0 <= k < |stay| => stay[out.order.value[k]]);
    }
  }

  /** The frame after an acceptable output: common fields and rows as written, the rows that stay in their order, and the
      added rows behind them. */
  lemma {:induction false} AppliedMeans(f: Frame, out: Output, opName: string, isRecall: bool) returns (stay: seq<nat>, origin: seq<nat>)
    requires Acceptable(out, |f.items|)
    ensures Stay(stay, |f.items|, out.removed) && Arranged(origin, stay, out.order)
    ensures
      var after := Apply(f, out, opName, isRecall).0;
      && after.common == f.common + CommonDelta(out.commonWrites)
      && |after.items| == |origin| + |out.added| && Carried(f.items, after.items[..|origin|], origin, out)
      && (forall k :: 0 <= k < |out.added| ==>
            after.items[|origin| + k] == CommonDelta(out.added[k] + if isRecall then [("_source", Str(opName))] else []))
      && after.warnings == f.warnings + if out.warning.Some? then ["operator \"" + opName + "\": " + out.warning.value] else []
  {
    AcceptedExactlyWhen(f, out, opName, isRecall);
    CommonAsDelta(f.common, out.commonWrites);
    stay, origin := RowsAfter(f.items, out);
    var rows := ApplyToRows(f.items, out).0;
    AddedAsBlock(rows, out.added, opName, isRecall);
    var after := Apply(f, out, opName, isRecall).0;
    assert after.items == rows + AddedRows(out.added, opName, isRecall) && after.items[..|rows|] == rows;
    forall k | 0 <= k < |out.added|
      ensures after.items[|origin| + k] == CommonDelta(out.added[k] + if isRecall then [("_source", Str(opName))] else [])
    {
      AddedRowIs(out.added[k], opName, isRecall);
    }
  }
}
