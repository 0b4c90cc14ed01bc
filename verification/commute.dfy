/** Operators without a conflict commute. */
module Commute {
  import opened Options
  import opened Accesses
  import opened Frames
  import opened Operators

  /** The item side of an application. */
  function ItemStages(op: Operator, items: seq<Row>, out: Output): (seq<Row>, Option<Error>) {
    var (rows, e) := ApplyToRows(items, out);
    if e.Some? then (rows, e) else ApplyAdded(rows, out.added, op.config.name, op.opType == Recall)
  }

  /** Common side and item side of an application do not meet. */
  lemma {:induction false} CommitSplits(op: Operator, f: Frame, out: Output)
    ensures
      var (items, e) := ItemStages(op, f.items, out);
      Commit(op, f, out)
      == if OutputAllowed(op, out) && CommonFine(out.commonWrites) && e.None?
         then Some(Frame(f.common + CommonDelta(out.commonWrites), items, f.warnings)) else None
  {
    CommonAsDelta(f.common, out.commonWrites);
    var (common, e1) := ApplyCommon(f.common, out.commonWrites);
    var (rows, e2) := ApplyToRows(f.items, out);
    if OutputAllowed(op, out) && e1.None? && e2.None? {
      var (items, e3) := ApplyAdded(rows, out.added, op.config.name, op.opType == Recall);
      assert ItemStages(op, f.items, out) == (items, e3);
    }
  }

  predicate InPlace(c: OperatorConfig) {
    !c.mutatesRowSet && !c.additiveWritesRowSet
  }

  /** No effect on items at all. */
  predicate CommonOnly(c: OperatorConfig) {
    InPlace(c) && c.metadata.itemOutput == []
  }

  lemma {:induction false} NoClash(a: OperatorConfig, b: OperatorConfig, common: bool, f: string, ka: Kind, kb: Kind)
    requires !ConflictIn(a, b, common) && Clash(ka, kb)
    ensures f !in Touched(a, common, ka) || f !in Touched(b, common, kb)
  {
    assert !ClashOn(a, b, common, f, ka, kb);
  }

  lemma {:induction false} CommonApart(a: OperatorConfig, b: OperatorConfig)
    requires !Conflict(a, b)
    ensures Elements(a.metadata.commonOutput) !! CommonReads(b.metadata)
    ensures Elements(a.metadata.commonOutput) !! Elements(b.metadata.commonOutput)
  {
    forall f
      ensures f in Elements(a.metadata.commonOutput) ==> f !in CommonReads(b.metadata) && f !in Elements(b.metadata.commonOutput)
    {
      NoClash(a, b, true, f, Mutate, Read);
      NoClash(a, b, true, f, Mutate, Mutate);
    }
  }

  /** Who sees rows meets only operators that write other fields in place. */
  lemma {:induction false} RowsApart(a: OperatorConfig, b: OperatorConfig)
    requires !Conflict(a, b) && SeesRows(b)
    ensures InPlace(a) && Elements(a.metadata.itemOutput) !! Elements(b.metadata.itemInput)
  {
    NoClash(a, b, false, ROW_SET, Append, Read);
    NoClash(a, b, false, ROW_SET, Append, Mutate);
    NoClash(a, b, false, ROW_SET, Mutate, Read);
    NoClash(a, b, false, ROW_SET, Mutate, Mutate);
    forall f
      ensures InPlace(a) && f in Elements(a.metadata.itemOutput) ==> f !in Elements(b.metadata.itemInput)
    {
      NoClash(a, b, false, f, Mutate, Read);
    }
  }

  /** Two operators without a conflict both write in place, or both append, or one leaves the items alone. */
  lemma {:induction false} RowEffectsApart(a: OperatorConfig, b: OperatorConfig)
    requires !Conflict(a, b)
    ensures || (InPlace(a) && InPlace(b) && Elements(a.metadata.itemOutput) !! Elements(b.metadata.itemOutput))
            || (a.additiveWritesRowSet && b.additiveWritesRowSet)
            || CommonOnly(a) || CommonOnly(b)
  {
    ConflictSymmetric(a, b, true);
    ConflictSymmetric(a, b, false);
    if InPlace(a) && InPlace(b) {
      forall f
        ensures f in Elements(a.metadata.itemOutput) ==> f !in Elements(b.metadata.itemOutput)
      {
        NoClash(a, b, false, f, Mutate, Mutate);
      }
    } else if SeesRows(a) {
      RowsApart(b, a);
      if SeesRows(b) {
        RowsApart(a, b);
      }
    } else if SeesRows(b) {
      RowsApart(a, b);
    }
  }

  /** The outputs an in-place operator is allowed keep the row set and write only its item outputs. */
  lemma {:induction false} InPlaceOutput(op: Operator, out: Output, i: nat)
    requires WellFormed(op) && InPlace(op.config) && OutputAllowed(op, out)
    ensures KeepsRowSet(out)
    ensures RowDelta(out, i).Keys <= Elements(op.config.metadata.itemOutput)
  {
    RowDeltaKeys(out, i, WritableOnRows(op.config));
  }

  lemma {:induction false} InPlaceStages(op: Operator, items: seq<Row>, out: Output)
    requires WellFormed(op) && InPlace(op.config) && OutputAllowed(op, out)
    ensures
      var (after, e) := ItemStages(op, items, out);
      && (e.None? <==> CellsFine(out.itemWrites, |items|) && ColumnsFine(out.columnWrites, |items|))
      && (e.None? ==> |after| == |items| && forall i :: 0 <= i < |items| ==> after[i] == items[i] + RowDelta(out, i))
  {
    InPlaceOutput(op, out, 0);
    RowsInPlace(items, out);
  }

  lemma {:induction false} NoDelta(items: seq<Row>, after: seq<Row>, out: Output)
    requires |after| == |items|
    requires forall i :: 0 <= i < |items| ==> after[i] == items[i] + RowDelta(out, i) && RowDelta(out, i) == map[]
    ensures after == items
  {
    forall i | 0 <= i < |items|
      ensures after[i] == items[i]
    {
      assert items[i] + map[] == items[i];
    }
  }

  lemma {:induction false} CommonOnlyStages(op: Operator, items: seq<Row>, out: Output)
    requires WellFormed(op) && CommonOnly(op.config) && OutputAllowed(op, out)
    ensures ItemStages(op, items, out) == (items, None)
  {
    InPlaceStages(op, items, out);
    var after := ItemStages(op, items, out).0;
    forall i
      ensures RowDelta(out, i) == map[]
    {
      InPlaceOutput(op, out, i);
    }
    NoDelta(items, after, out);
  }

  lemma {:induction false} AppendStages(op: Operator, items: seq<Row>, out: Output)
    requires WellFormed(op) && op.config.additiveWritesRowSet && OutputAllowed(op, out)
    ensures
      var (after, e) := ItemStages(op, items, out);
      && (e.None? <==> AddedFine(out.added))
      && (e.None? ==> after == items + AddedRows(out.added, op.config.name, true))
  {
    RowsInPlace(items, out);
    var rows := ApplyToRows(items, out).0;
    NoDelta(items, rows, out);
    AddedAsBlock(items, out.added, op.config.name, true);
  }

  /** Writing other common fields changes neither the skip test nor the visible common fields. */
  lemma {:induction false} CommonUnaffected(c: OperatorConfig, common: Row, delta: Row)
    requires forall s :: s in c.skip ==> s in CommonReads(c.metadata)
    requires delta.Keys !! CommonReads(c.metadata)
    ensures Skipped(c, common + delta) == Skipped(c, common)
    ensures Restrict(common + delta, CommonReads(c.metadata)) == Restrict(common, CommonReads(c.metadata))
  {
    assert forall s :: s in c.skip ==> s !in delta;
  }

  /** An operator that shares no item field with the reader leaves the rows it sees unchanged. */
  lemma {:induction false} RowsUnaffected(a: Operator, b: Operator, items: seq<Row>, out: Output)
    requires WellFormed(a) && OutputAllowed(a, out) && ItemStages(a, items, out).1.None?
    requires !Conflict(a.config, b.config) && SeesRows(b.config)
    ensures |ItemStages(a, items, out).0| == |items|
    ensures VisibleRows(ItemStages(a, items, out).0, Elements(b.config.metadata.itemInput))
            == VisibleRows(items, Elements(b.config.metadata.itemInput))
  {
    RowsApart(a.config, b.config);
    InPlaceStages(a, items, out);
    var after, fields := ItemStages(a, items, out).0, Elements(b.config.metadata.itemInput);
    forall i | 0 <= i < |items|
      ensures Restrict(after[i], fields) == Restrict(items[i], fields)
    {
      InPlaceOutput(a, out, i);
    }
  }

  /** An operator without a conflict does not change what another one sees. */
  lemma {:induction false} LogUnaffected(a: Operator, b: Operator, f: Frame)
    requires WellFormed(a) && WellFormed(b) && !Conflict(a.config, b.config) && Step(a, f).Some?
    ensures LogOf(b, Step(a, f).value) == LogOf(b, f)
    ensures SeesRows(b.config) ==> |Step(a, f).value.items| == |f.items|
  {
    var out := LogOf(a, f).value;
    CommitSplits(a, f, out);
    CommonApart(a.config, b.config);
    CommonDeltaKeys(out.commonWrites, a.config.metadata.commonOutput);
    CommonUnaffected(b.config, f.common, CommonDelta(out.commonWrites));
    if SeesRows(b.config) {
      RowsUnaffected(a, b, f.items, out);
    }
    assert ViewOf(b, Step(a, f).value) == ViewOf(b, f);
  }

  lemma {:induction false} MergeCommutes(r: Row, d: Row, e: Row)
    requires d.Keys !! e.Keys
    ensures r + d + e == r + e + d
  {
  }

  /** Two in-place outputs on different fields. */
  lemma {:induction false} InPlaceCommute(a: Operator, b: Operator, items: seq<Row>, outA: Output, outB: Output)
    requires WellFormed(a) && InPlace(a.config) && OutputAllowed(a, outA)
    requires WellFormed(b) && InPlace(b.config) && OutputAllowed(b, outB)
    requires Elements(a.config.metadata.itemOutput) !! Elements(b.config.metadata.itemOutput)
    requires ItemStages(a, items, outA).1.None?
    ensures ItemStages(b, items, outB).1.None? <==> ItemStages(b, ItemStages(a, items, outA).0, outB).1.None?
    ensures ItemStages(b, items, outB).1.None? ==>
              && ItemStages(a, ItemStages(b, items, outB).0, outA).1.None?
              && ItemStages(b, ItemStages(a, items, outA).0, outB).0 == ItemStages(a, ItemStages(b, items, outB).0, outA).0
  {
    InPlaceStages(a, items, outA);
    InPlaceStages(b, items, outB);
    var afterA, afterB := ItemStages(a, items, outA).0, ItemStages(b, items, outB).0;
    InPlaceStages(b, afterA, outB);
    if ItemStages(b, items, outB).1.None? {
      InPlaceStages(a, afterB, outA);
      var afterAB, afterBA := ItemStages(b, afterA, outB).0, ItemStages(a, afterB, outA).0;
      forall i | 0 <= i < |items|
        ensures afterAB[i] == afterBA[i]
      {
        InPlaceOutput(a, outA, i);
        InPlaceOutput(b, outB, i);
        MergeCommutes(items[i], RowDelta(outA, i), RowDelta(outB, i));
      }
    }
  }

  function AndThen(f: Option<Frame>, op: Operator): Option<Frame> {
    if f.None? then None else Step(op, f.value)
  }

  /** Same common fields and the same rows, perhaps in another order. */
  ghost predicate SameUpToRowOrder(f: Frame, g: Frame) {
    f.common == g.common && multiset(f.items) == multiset(g.items) && f.warnings == g.warnings
  }

  ghost predicate SameOutcome(f: Option<Frame>, g: Option<Frame>) {
    f.None? == g.None? && (f.Some? ==> SameUpToRowOrder(f.value, g.value))
  }

  /** The item stages of two operators without a conflict, in either order. */
  ghost predicate ItemsCommute(a: Operator, b: Operator, items: seq<Row>, outA: Output, outB: Output) {
    var (itemsA, eA) := ItemStages(a, items, outA);
    var (itemsB, eB) := ItemStages(b, items, outB);
    var (itemsAB, eAB) := ItemStages(b, itemsA, outB);
    var (itemsBA, eBA) := ItemStages(a, itemsB, outA);
    && ((eA.None? && eAB.None?) <==> (eB.None? && eBA.None?))
    && (eA.None? && eAB.None? ==>
          && multiset(itemsAB) == multiset(itemsBA)
          && (!(a.config.additiveWritesRowSet && b.config.additiveWritesRowSet) ==> itemsAB == itemsBA))
  }

  lemma {:induction false} StagesCommute(a: Operator, b: Operator, items: seq<Row>, outA: Output, outB: Output)
    requires WellFormed(a) && OutputAllowed(a, outA)
    requires WellFormed(b) && OutputAllowed(b, outB)
    requires !Conflict(a.config, b.config)
    ensures ItemsCommute(a, b, items, outA, outB)
  {
    RowEffectsApart(a.config, b.config);
    var itemsA, itemsB := ItemStages(a, items, outA).0, ItemStages(b, items, outB).0;
    if CommonOnly(a.config) {
      CommonOnlyStages(a, items, outA);
      CommonOnlyStages(a, itemsB, outA);
    } else if CommonOnly(b.config) {
      CommonOnlyStages(b, items, outB);
      CommonOnlyStages(b, itemsA, outB);
    } else if InPlace(a.config) {
      if ItemStages(a, items, outA).1.None? {
        InPlaceCommute(a, b, items, outA, outB);
      } else if ItemStages(b, items, outB).1.None? {
        InPlaceCommute(b, a, items, outB, outA);
      }
    } else {
      AppendStages(a, items, outA);
      AppendStages(b, items, outB);
      AppendStages(a, itemsB, outA);
      AppendStages(b, itemsA, outB);
    }
  }

  /** Without a conflict two steps end alike in either order; exactly alike unless both append rows. */
  lemma {:induction false} StepsCommute(a: Operator, b: Operator, f: Frame)
    requires WellFormed(a) && WellFormed(b) && !Conflict(a.config, b.config)
    ensures SameOutcome(AndThen(Step(a, f), b), AndThen(Step(b, f), a))
    ensures !(a.config.additiveWritesRowSet && b.config.additiveWritesRowSet) ==>
              AndThen(Step(a, f), b) == AndThen(Step(b, f), a)
  {
    ConflictSymmetric(a.config, b.config, true);
    ConflictSymmetric(a.config, b.config, false);
    if Step(a, f).Some? {
      LogUnaffected(a, b, f);
    }
    if Step(b, f).Some? {
      LogUnaffected(b, a, f);
    }
    if LogOf(a, f).Some? && LogOf(b, f).Some? {
      CommitsCommute(a, b, f, LogOf(a, f).value, LogOf(b, f).value);
    }
  }

  /** Two outputs committed in either order. */
  lemma {:induction false} CommitsCommute(a: Operator, b: Operator, f: Frame, outA: Output, outB: Output)
    requires WellFormed(a) && WellFormed(b) && !Conflict(a.config, b.config) && !Conflict(b.config, a.config)
    ensures
      var fA, fB := Commit(a, f, outA), Commit(b, f, outB);
      var fAB, fBA := if fA.None? then None else Commit(b, fA.value, outB), if fB.None? then None else Commit(a, fB.value, outA);
      SameOutcome(fAB, fBA) && (!(a.config.additiveWritesRowSet && b.config.additiveWritesRowSet) ==> fAB == fBA)
  {
    var fA, fB := Commit(a, f, outA), Commit(b, f, outB);
    CommitSplits(a, f, outA);
    CommitSplits(b, f, outB);
    if fA.Some? { CommitSplits(b, fA.value, outB); }
    if fB.Some? { CommitSplits(a, fB.value, outA); }
    if OutputAllowed(a, outA) && OutputAllowed(b, outB) {
      StagesCommute(a, b, f.items, outA, outB);
      CommonApart(a.config, b.config);
      CommonDeltaKeys(outA.commonWrites, a.config.metadata.commonOutput);
      CommonDeltaKeys(outB.commonWrites, b.config.metadata.commonOutput);
      MergeCommutes(f.common, CommonDelta(outA.commonWrites), CommonDelta(outB.commonWrites));
    }
  }
}
