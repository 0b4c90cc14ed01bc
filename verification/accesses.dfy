/** What an operator reads and writes, as the dependency scan sees it, and when two operators conflict. */
module Accesses {
  import opened Reachability

  const ROW_SET := "_row_set_"

  datatype Metadata = Metadata(
    commonInput: seq<string>,
    commonInputSkip: seq<string>,
    commonInputTemplate: seq<string>,
    commonOutput: seq<string>,
    itemInput: seq<string>,
    itemOutput: seq<string>)

  datatype OperatorConfig = OperatorConfig(
    name: string,
    metadata: Metadata,
    skip: seq<string>,
    consumesRowSet: bool,
    mutatesRowSet: bool,
    additiveWritesRowSet: bool,
    sources: seq<string>)

  /** `Append` is an additive write: two of them on one field are left unordered. */
  datatype Kind = Read | Append | Mutate

  function Elements(s: seq<string>): set<string> {
    set f | f in s
  }

  function CommonReads(m: Metadata): set<string> {
    Elements(m.commonInput) + Elements(m.commonInputSkip) + Elements(m.commonInputTemplate)
  }

  predicate ReadsRowSet(op: OperatorConfig) {
    op.consumesRowSet
    || (!op.additiveWritesRowSet && (op.metadata.itemInput != [] || op.metadata.itemOutput != []))
  }

  /** The accesses of `op` in one of the two name spaces, common fields or item fields. */
  function Touched(op: OperatorConfig, common: bool, kind: Kind): set<string> {
    match (common, kind)
    case (true, Read) => CommonReads(op.metadata)
    case (true, Append) => {}
    case (true, Mutate) => Elements(op.metadata.commonOutput)
    case (false, Read) => Elements(op.metadata.itemInput) + (if ReadsRowSet(op) then {ROW_SET} else {})
    case (false, Append) =>
      if op.additiveWritesRowSet then Elements(op.metadata.itemOutput) + {ROW_SET} else {}
    case (false, Mutate) =>
      (if op.additiveWritesRowSet then {} else Elements(op.metadata.itemOutput))
      + (if op.mutatesRowSet then {ROW_SET} else {})
  }

  /** Two accesses to one field must keep their order unless both read or both append. */
  predicate Clash(a: Kind, b: Kind) {
    a == Mutate || b == Mutate || a != b
  }

  predicate ClashOn(a: OperatorConfig, b: OperatorConfig, common: bool, f: string, ka: Kind, kb: Kind) {
    Clash(ka, kb) && f in Touched(a, common, ka) && f in Touched(b, common, kb)
  }

  ghost predicate ConflictIn(a: OperatorConfig, b: OperatorConfig, common: bool) {
    exists f, ka, kb :: ClashOn(a, b, common, f, ka, kb)
  }

  ghost predicate Conflict(a: OperatorConfig, b: OperatorConfig) {
    ConflictIn(a, b, true) || ConflictIn(a, b, false)
  }

  ghost function ConflictEdgesIn(ops: seq<OperatorConfig>, common: bool): Edges {
    set i: nat, j: nat | 0 <= i < j < |ops| && ConflictIn(ops[i], ops[j], common) :: (i, j)
  }

  ghost function ConflictEdges(ops: seq<OperatorConfig>): Edges {
    ConflictEdgesIn(ops, true) + ConflictEdgesIn(ops, false)
  }

  lemma {:induction false} ConflictSymmetric(a: OperatorConfig, b: OperatorConfig, common: bool)
    ensures ConflictIn(a, b, common) == ConflictIn(b, a, common)
  {
    if ConflictIn(a, b, common) {
      var f, ka, kb :| ClashOn(a, b, common, f, ka, kb);
      assert ClashOn(b, a, common, f, kb, ka);
    }
    if ConflictIn(b, a, common) {
      var f, kb, ka :| ClashOn(b, a, common, f, kb, ka);
      assert ClashOn(a, b, common, f, ka, kb);
    }
  }

  // ----- a conflict in terms of what is declared -----

  /** `f` is an output of `a`, and an input or output of `b`. */
  ghost predicate CommonHazard(a: OperatorConfig, b: OperatorConfig, f: string) {
    && f in a.metadata.commonOutput
    && (f in b.metadata.commonOutput || f in b.metadata.commonInput || f in b.metadata.commonInputSkip || f in b.metadata.commonInputTemplate)
  }

  /** Writes the item field `f` of rows that are there already, or changes which rows there are. */
  ghost predicate Overwrites(op: OperatorConfig, f: string) {
    (f in op.metadata.itemOutput && !op.additiveWritesRowSet) || (f == ROW_SET && op.mutatesRowSet)
  }

  /** Writes the item field `f` of rows that it appends, or appends rows. */
  ghost predicate Appends(op: OperatorConfig, f: string) {
    op.additiveWritesRowSet && (f in op.metadata.itemOutput || f == ROW_SET)
  }

  /** Reads the item field `f`, or depends on which rows there are. */
  ghost predicate Sees(op: OperatorConfig, f: string) {
    || f in op.metadata.itemInput
    || (f == ROW_SET && op.consumesRowSet)
    || (f == ROW_SET && !op.additiveWritesRowSet && (op.metadata.itemInput != [] || op.metadata.itemOutput != []))
  }

  ghost predicate ItemHazard(a: OperatorConfig, b: OperatorConfig, f: string) {
    (Overwrites(a, f) && (Overwrites(b, f) || Appends(b, f) || Sees(b, f))) || (Appends(a, f) && Sees(b, f))
  }

  ghost predicate HazardOn(a: OperatorConfig, b: OperatorConfig, f: string) {
    CommonHazard(a, b, f) || CommonHazard(b, a, f) || ItemHazard(a, b, f) || ItemHazard(b, a, f)
  }

  /** Some field, or the row set, is written by one of the two and read or written by the other; appending on both sides is fine. */
  ghost predicate Hazard(a: OperatorConfig, b: OperatorConfig) {
    exists f :: HazardOn(a, b, f)
  }

  lemma {:induction false} HazardClashes(a: OperatorConfig, b: OperatorConfig, f: string)
    ensures CommonHazard(a, b, f) ==> ConflictIn(a, b, true)
    ensures ItemHazard(a, b, f) ==> ConflictIn(a, b, false)
  {
    if CommonHazard(a, b, f) {
      assert ClashOn(a, b, true, f, Mutate, Mutate) || ClashOn(a, b, true, f, Mutate, Read);
    }
    if ItemHazard(a, b, f) {
      assert || ClashOn(a, b, false, f, Mutate, Mutate) || ClashOn(a, b, false, f, Mutate, Append)
             || ClashOn(a, b, false, f, Mutate, Read) || ClashOn(a, b, false, f, Append, Read);
    }
  }

  lemma {:induction false} TouchesMean(op: OperatorConfig, f: string)
    ensures f in Touched(op, false, Mutate) <==> Overwrites(op, f)
    ensures f in Touched(op, false, Append) <==> Appends(op, f)
    ensures f in Touched(op, false, Read) <==> Sees(op, f)
  {
  }

  /** Two operators conflict exactly when their declarations say so. */
  lemma {:induction false} ConflictIffHazard(a: OperatorConfig, b: OperatorConfig)
    ensures Conflict(a, b) <==> Hazard(a, b)
  {
    if ConflictIn(a, b, true) {
      var f, ka, kb :| ClashOn(a, b, true, f, ka, kb);
      assert HazardOn(a, b, f);
    }
    if ConflictIn(a, b, false) {
      var f, ka, kb :| ClashOn(a, b, false, f, ka, kb);
      TouchesMean(a, f);
      TouchesMean(b, f);
      assert HazardOn(a, b, f);
    }
    if f :| HazardOn(a, b, f) {
      HazardClashes(a, b, f);
      HazardClashes(b, a, f);
      ConflictSymmetric(a, b, true);
      ConflictSymmetric(a, b, false);
    }
  }

  /** Neither declares an output that the other declares as anything, and neither changes the row set in place. */
  ghost predicate OutputsApart(a: OperatorConfig, b: OperatorConfig) {
    var common := b.metadata.commonInput + b.metadata.commonInputSkip + b.metadata.commonInputTemplate + b.metadata.commonOutput;
    && !a.mutatesRowSet && (forall f :: f in a.metadata.commonOutput ==> f !in common)
    && (forall f :: f in a.metadata.itemOutput ==> f !in b.metadata.itemInput && f !in b.metadata.itemOutput && f != ROW_SET)
  }

  /** Operators that share only what both read need no order. */
  lemma {:induction false} SharedReadsAreFree(a: OperatorConfig, b: OperatorConfig)
    requires OutputsApart(a, b) && OutputsApart(b, a) && !a.additiveWritesRowSet && !b.additiveWritesRowSet
    ensures !Conflict(a, b)
  {
    ConflictIffHazard(a, b);
  }

  /** Neither do operators that only append rows, whatever fields their rows have. */
  lemma {:induction false} SharedAppendsAreFree(a: OperatorConfig, b: OperatorConfig)
    requires a.additiveWritesRowSet && b.additiveWritesRowSet && !a.mutatesRowSet && !b.mutatesRowSet
    requires !a.consumesRowSet && !b.consumesRowSet && a.metadata.itemInput == b.metadata.itemInput == []
    requires forall f :: !CommonHazard(a, b, f) && !CommonHazard(b, a, f)
    ensures !Conflict(a, b)
  {
    ConflictIffHazard(a, b);
  }

  /** Where `x` occurs first. */
  function FirstIndex(s: seq<string>, x: string): (k: nat)
    requires x in s
    ensures k < |s| && s[k] == x && x !in s[..k]
  {
    if s[0] == x then 0 else 1 + FirstIndex(s[1..], x)
  }

  lemma {:induction false} FirstIndexKept(s: seq<string>, t: seq<string>, x: string)
    requires x in s
    ensures x in s + t && FirstIndex(s + t, x) == FirstIndex(s, x)
  {
    assert (s + t)[0] == s[0];
    if s[0] != x {
      assert (s + t)[1..] == s[1..] + t;
      FirstIndexKept(s[1..], t, x);
    }
  }

  lemma {:induction false} FirstIndexOfNew(s: seq<string>, x: string)
    requires x !in s
    ensures FirstIndex(s + [x], x) == |s|
  {
    if s != [] {
      assert (s + [x])[0] == s[0] && (s + [x])[1..] == s[1..] + [x];
      FirstIndexOfNew(s[1..], x);
    }
  }

  ghost predicate Sooner(all: seq<string>, x: string, y: string) {
    x in all && y in all && FirstIndex(all, x) < FirstIndex(all, y)
  }

  /** `out` lists the elements of `all` once each, in the order in which they occur first. */
  ghost predicate Lists(out: seq<string>, all: seq<string>) {
    Elements(out) == Elements(all) && forall i, j :: 0 <= i < j < |out| ==> Sooner(all, out[i], out[j])
  }

  lemma {:induction false} SoonerKept(all: seq<string>, x: string, a: string, b: string)
    requires Sooner(all, a, b)
    ensures Sooner(all + [x], a, b)
  {
    FirstIndexKept(all, [x], a);
    FirstIndexKept(all, [x], b);
  }

  lemma {:induction false} SoonerThanNew(all: seq<string>, x: string, a: string)
    requires a in all && x !in all
    ensures Sooner(all + [x], a, x)
  {
    FirstIndexKept(all, [x], a);
    FirstIndexOfNew(all, x);
    assert x in [x] && x in all + [x];
  }

  lemma {:induction false} OneMoreElement(s: seq<string>, x: string)
    ensures Elements(s + [x]) == Elements(s) + {x}
  {
  }

  lemma {:induction false} ListsOneMore(out: seq<string>, all: seq<string>, x: string)
    requires Lists(out, all)
    ensures Lists(if x in out then out else out + [x], all + [x])
  {
    var all', out' := all + [x], if x in out then out else out + [x];
    OneMoreElement(all, x);
    OneMoreElement(out, x);
    assert x in out <==> x in Elements(out);
    forall i, j | 0 <= i < j < |out'|
      ensures Sooner(all', out'[i], out'[j])
    {
      assert out'[i] == out[i] && out[i] in Elements(out);
      if j < |out| {
        SoonerKept(all, x, out[i], out[j]);
      } else {
        SoonerThanNew(all, x, out[i]);
      }
    }
  }

  /** The reads of the common buckets, business fields first; in order and without repetition when buckets are merged. */
  method CommonReadFields(m: Metadata) returns (out: seq<string>)
    ensures Elements(out) == CommonReads(m)
    ensures m.commonInputSkip == [] && m.commonInputTemplate == [] ==> out == m.commonInput
    ensures m.commonInputSkip != [] || m.commonInputTemplate != [] ==>
              Lists(out, m.commonInput + m.commonInputSkip + m.commonInputTemplate)
  {
    if m.commonInputSkip == [] && m.commonInputTemplate == [] {
      return m.commonInput;
    }
    out := AppendNew([], [], m.commonInput);
    assert [] + m.commonInput == m.commonInput;
    out := AppendNew(out, m.commonInput, m.commonInputSkip);
    out := AppendNew(out, m.commonInput + m.commonInputSkip, m.commonInputTemplate);
  }

  method AppendNew(start: seq<string>, ghost all: seq<string>, src: seq<string>) returns (out: seq<string>)
    requires Lists(start, all)
    ensures Lists(out, all + src)
  {
    out := start;
    assert all + src[..0] == all;
    for k := 0 to |src|
      invariant Lists(out, all + src[..k])
    {
      ListsOneMore(out, all + src[..k], src[k]);
      assert all + src[..k] + [src[k]] == all + src[..k + 1];
      if src[k] !in out {
        out := out + [src[k]];
      }
    }
    assert src[..|src|] == src;
  }
}
