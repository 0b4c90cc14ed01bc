/** Typed columns with a presence flag per row, and the in-place algorithms on their backing arrays. */
module Columns {
  import opened Options
  import opened Frames

  datatype Kind = Int64 | Double | String | Boolean | Json

  /** The backing data of a column; a slot whose presence flag is off holds an arbitrary value. */
  datatype Column =
    | IntColumn(ints: seq<int>, validity: seq<bool>)
    | DoubleColumn(doubles: seq<Number>, validity: seq<bool>)
    | StringColumn(strings: seq<string>, validity: seq<bool>)
    | BoolColumn(bools: seq<bool>, validity: seq<bool>)
    | JsonColumn(values: seq<Value>, validity: seq<bool>)

  function KindOf(c: Column): Kind {
    match c
    case IntColumn(_, _) => Int64
    case DoubleColumn(_, _) => Double
    case StringColumn(_, _) => String
    case BoolColumn(_, _) => Boolean
    case JsonColumn(_, _) => Json
  }

  function Size(c: Column): nat {
    match c
    case IntColumn(d, _) => |d|
    case DoubleColumn(d, _) => |d|
    case StringColumn(d, _) => |d|
    case BoolColumn(d, _) => |d|
    case JsonColumn(d, _) => |d|
  }

  predicate Sound(c: Column) {
    |c.validity| == Size(c)
  }

  /** Whether a number is stored exactly by a 64-bit integer: integral and strictly between the limits. */
  predicate IsIntegral(n: Number) {
    n.Finite? && n.r.Floor as real == n.r && -9223372036854775808.0 < n.r < 9223372036854775808.0
  }

  predicate Accepts(kind: Kind, v: Value) {
    match kind
    case Int64 => v.Num? && IsIntegral(v.n)
    case Double => v.Num?
    case String => v.Str?
    case Boolean => v.Bool?
    case Json => true
  }

  function Raw(c: Column, i: nat): Value
    requires i < Size(c)
  {
    match c
    case IntColumn(d, _) => Num(Finite(d[i] as real))
    case DoubleColumn(d, _) => Num(d[i])
    case StringColumn(d, _) => Str(d[i])
    case BoolColumn(d, _) => Bool(d[i])
    case JsonColumn(d, _) => d[i]
  }

  /** The content of a column: a value for every row that wrote the field, which may itself be null. */
  function Cell(c: Column, i: nat): Option<Value>
    requires Sound(c) && i < Size(c)
  {
    if c.validity[i] then Some(Raw(c, i)) else None
  }

  function Cells(c: Column): (cells: seq<Option<Value>>)
    requires Sound(c)
    ensures |cells| == Size(c)
  {
    seq(Size(c), i requires 0 <= i < Size(c) => Cell(c, i))
  }

  function EmptyColumn(kind: Kind, n: nat): (c: Column)
    ensures Sound(c) && Size(c) == n && KindOf(c) == kind && Cells(c) == seq(n, i => None)
  {
    var off := seq(n, i => false);
    match kind
    case Int64 => IntColumn(seq(n, i => 0), off)
    case Double => DoubleColumn(seq(n, i => Finite(0.0)), off)
    case String => StringColumn(seq(n, i => ""), off)
    case Boolean => BoolColumn(seq(n, i => false), off)
    case Json => JsonColumn(seq(n, i => Null), off)
  }

  /** Writes one slot; None when the kind cannot hold the value. */
  function SetSlot(c: Column, i: nat, v: Value): (r: Option<Column>)
    requires Sound(c) && i < Size(c)
    ensures r.Some? <==> Accepts(KindOf(c), v)
    ensures r.Some? ==> Sound(r.value) && KindOf(r.value) == KindOf(c) && Size(r.value) == Size(c)
  {
    if !Accepts(KindOf(c), v) then None else
      var on := c.validity[i := true];
      Some(match c
           case IntColumn(d, _) => IntColumn(d[i := v.n.r.Floor], on)
           case DoubleColumn(d, _) => DoubleColumn(d[i := v.n], on)
           case StringColumn(d, _) => StringColumn(d[i := v.s], on)
           case BoolColumn(d, _) => BoolColumn(d[i := v.b], on)
           case JsonColumn(d, _) => JsonColumn(d[i := v], on))
  }

  lemma {:induction false} SetSlotStores(c: Column, i: nat, v: Value)
    requires Sound(c) && i < Size(c) && Accepts(KindOf(c), v)
    ensures Cells(SetSlot(c, i, v).value) == Cells(c)[i := Some(v)]
  {
  }

  function AppendSlot(c: Column, v: Value): (r: Option<Column>)
    requires Sound(c)
    ensures r.Some? <==> Accepts(KindOf(c), v)
    ensures r.Some? ==> Sound(r.value) && KindOf(r.value) == KindOf(c) && Size(r.value) == Size(c) + 1
  {
    if !Accepts(KindOf(c), v) then None else
      var on := c.validity + [true];
      Some(match c
           case IntColumn(d, _) => IntColumn(d + [v.n.r.Floor], on)
           case DoubleColumn(d, _) => DoubleColumn(d + [v.n], on)
           case StringColumn(d, _) => StringColumn(d + [v.s], on)
           case BoolColumn(d, _) => BoolColumn(d + [v.b], on)
           case JsonColumn(d, _) => JsonColumn(d + [v], on))
  }

  lemma {:induction false} AppendSlotStores(c: Column, v: Value)
    requires Sound(c) && Accepts(KindOf(c), v)
    ensures Cells(AppendSlot(c, v).value) == Cells(c) + [Some(v)]
  {
  }

  function AppendAbsent(c: Column): (r: Column)
    requires Sound(c)
    ensures Sound(r) && KindOf(r) == KindOf(c) && Size(r) == Size(c) + 1
  {
    var off := c.validity + [false];
    match c
    case IntColumn(d, _) => IntColumn(d + [0], off)
    case DoubleColumn(d, _) => DoubleColumn(d + [Finite(0.0)], off)
    case StringColumn(d, _) => StringColumn(d + [""], off)
    case BoolColumn(d, _) => BoolColumn(d + [false], off)
    case JsonColumn(d, _) => JsonColumn(d + [Null], off)
  }

  lemma {:induction false} AppendAbsentStores(c: Column)
    requires Sound(c)
    ensures Cells(AppendAbsent(c)) == Cells(c) + [None]
  {
  }

  /** The same content with every kind of value allowed from now on. */
  method ToJsonColumn(c: Column) returns (j: Column)
    requires Sound(c)
    ensures Sound(j) && j.JsonColumn? && Cells(j) == Cells(c)
  {
    j := JsonColumn([], []);
    for i := 0 to Size(c)
      invariant Sound(j) && j.JsonColumn? && Cells(j) == Cells(c)[..i]
    {
      assert Cells(c)[..i + 1] == Cells(c)[..i] + [Cell(c, i)];
      if c.validity[i] {
        AppendSlotStores(j, Raw(c, i));
        j := AppendSlot(j, Raw(c, i)).value;
      } else {
        AppendAbsentStores(j);
        j := AppendAbsent(j);
      }
    }
    assert Cells(c)[..Size(c)] == Cells(c);
  }

  ghost predicate AcceptsAll(kind: Kind, values: seq<Value>) {
    forall i :: 0 <= i < |values| && !values[i].Null? ==> Accepts(kind, values[i])
  }

  function Natural(v: Value): Kind
    requires !v.Null?
  {
    match v
    case Bool(_) => Boolean
    case Num(n) => if IsIntegral(n) then Int64 else Double
    case Str(_) => String
    case _ => Json
  }

  ghost predicate Occurs(kind: Kind, values: seq<Value>) {
    exists i :: 0 <= i < |values| && !values[i].Null? && Natural(values[i]) == kind
  }

  /** The kind for the non-null values: it accepts them all, and is Json only when no other kind would. */
  method InferKind(values: seq<Value>) returns (kind: Kind)
    ensures AcceptsAll(kind, values)
    ensures kind == Json && (exists i :: 0 <= i < |values| && !values[i].Null?) ==>
              forall k: Kind :: AcceptsAll(k, values) ==> k == Json
    ensures kind == Int64 <==> AcceptsAll(Int64, values) && exists i :: 0 <= i < |values| && !values[i].Null?
  {
    var cand: Option<Kind> := None;
    for k := 0 to |values|
      invariant cand.None? ==> forall i :: 0 <= i < k ==> values[i].Null?
      invariant cand.Some? ==> AcceptsAll(cand.value, values[..k]) && Occurs(cand.value, values[..k])
    {
      if !values[k].Null? {
        var c := Natural(values[k]);
        assert values[..k + 1][k] == values[k];
        assert forall i :: 0 <= i < k ==> values[..k + 1][i] == values[..k][i];
        if cand.None? {
          cand := Some(c);
        } else if cand.value != c {
          if (cand.value == Int64 && c == Double) || (cand.value == Double && c == Int64) {
            cand := Some(Double);
          } else {
            MixedNeedsJson(values, cand.value, k);
            return Json;
          }
        }
      }
    }
    assert values[..|values|] == values;
    kind := if cand.Some? then cand.value else Json;
  }

  lemma {:induction false} MixedNeedsJson(values: seq<Value>, cand: Kind, k: nat)
    requires k < |values| && !values[k].Null? && Natural(values[k]) != cand && Occurs(cand, values[..k])
    requires !(cand == Int64 && Natural(values[k]) == Double) && !(cand == Double && Natural(values[k]) == Int64)
    ensures forall kind: Kind :: AcceptsAll(kind, values) ==> kind == Json
  {
    var i :| 0 <= i < k && !values[..k][i].Null? && Natural(values[..k][i]) == cand;
    assert values[i] == values[..k][i];
  }

  // ----- in-place algorithms -----

  /** Keeps the slots whose flag is off; the result is the prefix of the array up to `write`. */
  method CompactWithBitmap<T>(data: array<T>, bitmap: seq<bool>) returns (write: nat)
    requires data.Length == |bitmap|
    modifies data
    ensures write <= data.Length && data[..write] == Kept(old(data[..]), bitmap)
  {
    write := 0;
    assert old(data[..])[..0] == [];
    for i := 0 to data.Length
      invariant write <= i
      invariant data[..write] == Kept(old(data[..])[..i], bitmap)
      invariant data[i..] == old(data[i..])
    {
      ghost var seen := old(data[..])[..i + 1];
      assert seen[..i] == old(data[..])[..i];
      assert data[i] == old(data[..])[i];
      if !bitmap[i] {
        if write != i {
          data[write] := data[i];
        }
        write := write + 1;
      }
      assert data[i + 1..] == old(data[i + 1..]);
    }
    assert old(data[..])[..data.Length] == old(data[..]);
  }

  /** How many of the first `n` flags are off. */
  function Waiting(visited: seq<bool>, n: nat): (w: nat)
    requires n <= |visited|
    ensures w <= n
  {
    if n == 0 then 0 else Waiting(visited, n - 1) + if visited[n - 1] then 0 else 1
  }

  lemma {:induction false} VisitOne(visited: seq<bool>, n: nat, j: nat)
    requires n <= |visited| && j < |visited| && !visited[j]
    ensures Waiting(visited, n) == Waiting(visited[j := true], n) + if j < n then 1 else 0
  {
    if n > 0 {
      VisitOne(visited, n - 1, j);
    }
  }

  /** The part of a permutation already carried out, cycle by cycle. */
  ghost predicate CyclesDone<T>(now: seq<T>, was: seq<T>, order: seq<int>, visited: seq<bool>) {
    && |now| == |was| == |order| <= |visited| && IsPermutation(order, |order|)
    && (forall k :: 0 <= k < |order| ==> now[k] == if visited[k] then was[order[k]] else was[k])
    && (forall k :: 0 <= k < |order| ==> (visited[k] <==> visited[order[k]]))
  }

  /** Within a cycle: slot `j` is free, its content is elsewhere, and the element of slot `start` is held aside. */
  ghost predicate CycleOpen<T>(now: seq<T>, was: seq<T>, order: seq<int>, visited: seq<bool>, start: nat, j: nat) {
    && |now| == |was| == |order| <= |visited| && IsPermutation(order, |order|) && start < |order| && j < |order|
    && !visited[j] && order[start] != start && (visited[start] <==> j != start)
    && (forall k :: 0 <= k < |order| && visited[k] ==> now[k] == was[order[k]])
    && (forall k :: 0 <= k < |order| && !visited[k] && k != start ==> now[k] == was[k])
    && (forall k :: 0 <= k < |order| && visited[k] ==> visited[order[k]] || order[k] == j)
    && (forall k :: 0 <= k < |order| && visited[order[k]] ==> visited[k] || order[k] == start)
    && (j != start ==> exists k :: 0 <= k < |order| && visited[k] && order[k] == j)
  }

  lemma {:induction false} CycleStep<T>(now: seq<T>, was: seq<T>, order: seq<int>, visited: seq<bool>, start: nat, j: nat)
    requires CycleOpen(now, was, order, visited, start, j) && order[j] != start
    ensures CycleOpen(now[j := now[order[j]]], was, order, visited[j := true], start, order[j])
  {
    assert order[j] != j by {
      if j != start {
        var k :| 0 <= k < |order| && visited[k] && order[k] == j;
      }
    }
    var visited' := visited[j := true];
    assert visited'[j] && order[j] == order[j];
    forall k | 0 <= k < |order| && visited'[order[k]]
      ensures visited'[k] || order[k] == start
    {
      if order[k] == j && j != start {
        var l :| 0 <= l < |order| && visited[l] && order[l] == j;
        assert k == l;
      }
    }
  }

  lemma {:induction false} CycleCloses<T>(now: seq<T>, was: seq<T>, order: seq<int>, visited: seq<bool>, start: nat, j: nat)
    requires CycleOpen(now, was, order, visited, start, j) && order[j] == start
    ensures CyclesDone(now[j := was[start]], was, order, visited[j := true])
  {
    var visited' := visited[j := true];
    forall k | 0 <= k < |order|
      ensures visited'[k] <==> visited'[order[k]]
    {
      if order[k] == j {
        var l :| 0 <= l < |order| && visited[l] && order[l] == j;
        assert k == l;
      }
      if order[k] == start {
        assert k == j;
      }
    }
  }

  lemma {:induction false} CycleStarts<T>(now: seq<T>, was: seq<T>, order: seq<int>, visited: seq<bool>, i: nat)
    requires CyclesDone(now, was, order, visited) && i < |order| && !visited[i]
    ensures order[i] != i ==> CycleOpen(now, was, order, visited, i, i)
    ensures order[i] == i ==> CyclesDone(now, was, order, visited[i := true])
  {
    if order[i] == i {
      var visited' := visited[i := true];
      forall k | 0 <= k < |order|
        ensures visited'[k] <==> visited'[order[k]]
      {
        if order[k] == i { assert k == i; }
      }
    }
  }

  lemma {:induction false} AllCyclesDone<T>(now: seq<T>, was: seq<T>, order: seq<int>, visited: seq<bool>)
    requires CyclesDone(now, was, order, visited) && AllOn(visited, |order|)
    ensures now == Permuted(was, order)
  {
  }

  /** Flags have only been switched on. */
  ghost predicate OnlyOn(before: seq<bool>, after: seq<bool>) {
    |before| == |after| && forall k :: 0 <= k < |before| && before[k] ==> after[k]
  }

  ghost predicate AllOn(visited: seq<bool>, n: nat) {
    n <= |visited| && forall k :: 0 <= k < n ==> visited[k]
  }

  method Put<T>(data: array<T>, validity: array<bool>, scratch: array<bool>, j: nat, x: T, valid: bool)
    requires validity != scratch && (data as object) != validity && (data as object) != scratch
    requires j < data.Length && j < validity.Length && j < scratch.Length
    modifies data, validity, scratch
    ensures data[..] == old(data[..])[j := x] && validity[..] == old(validity[..])[j := valid]
    ensures scratch[..] == old(scratch[..])[j := true]
  {
    data[j] := x;
    validity[j] := valid;
    scratch[j] := true;
  }

  /** Fills the free slot `j` from its source, which becomes the free slot. */
  method FillSlot<T>(data: array<T>, validity: array<bool>, order: seq<int>, scratch: array<bool>, ghost i: nat, j: nat,
                     ghost was: seq<T>, ghost wasValid: seq<bool>)
    requires validity != scratch && (data as object) != validity && (data as object) != scratch
    requires CycleOpen(data[..], was, order, scratch[..], i, j) && CycleOpen(validity[..], wasValid, order, scratch[..], i, j)
    requires order[j] != i
    modifies data, validity, scratch
    ensures CycleOpen(data[..], was, order, scratch[..], i, order[j]) && CycleOpen(validity[..], wasValid, order, scratch[..], i, order[j])
    ensures OnlyOn(old(scratch[..]), scratch[..])
    ensures Waiting(scratch[..], |order|) + 1 == old(Waiting(scratch[..], |order|))
  {
    var src := order[j];
    CycleStep(data[..], was, order, scratch[..], i, j);
    CycleStep(validity[..], wasValid, order, scratch[..], i, j);
    VisitOne(scratch[..], |order|, j);
    Put(data, validity, scratch, j, data[src], validity[src]);
  }

  /** Puts the element held aside into the last slot of its cycle. */
  method CloseCycle<T>(data: array<T>, validity: array<bool>, order: seq<int>, scratch: array<bool>, ghost i: nat, j: nat,
                       tmp: T, tmpValid: bool, ghost was: seq<T>, ghost wasValid: seq<bool>)
    requires validity != scratch && (data as object) != validity && (data as object) != scratch
    requires CycleOpen(data[..], was, order, scratch[..], i, j) && CycleOpen(validity[..], wasValid, order, scratch[..], i, j)
    requires order[j] == i && tmp == was[i] && tmpValid == wasValid[i]
    modifies data, validity, scratch
    ensures CyclesDone(data[..], was, order, scratch[..]) && CyclesDone(validity[..], wasValid, order, scratch[..])
    ensures OnlyOn(old(scratch[..]), scratch[..]) && scratch[..][i]
    ensures Waiting(scratch[..], |order|) + 1 == old(Waiting(scratch[..], |order|))
  {
    CycleCloses(data[..], was, order, scratch[..], i, j);
    CycleCloses(validity[..], wasValid, order, scratch[..], i, j);
    VisitOne(scratch[..], |order|, j);
    Put(data, validity, scratch, j, tmp, tmpValid);
  }

  /** One cycle of the permutation, from its first slot. */
  method FollowCycle<T>(data: array<T>, validity: array<bool>, order: seq<int>, scratch: array<bool>, i: nat,
                        ghost was: seq<T>, ghost wasValid: seq<bool>)
    returns (ghost moves: nat)
    requires validity != scratch && (data as object) != validity && (data as object) != scratch
    requires i < |order| && i < scratch.Length && order[i] != i && !scratch[i]
    requires CyclesDone(data[..], was, order, scratch[..]) && CyclesDone(validity[..], wasValid, order, scratch[..])
    modifies data, validity, scratch
    ensures CyclesDone(data[..], was, order, scratch[..]) && CyclesDone(validity[..], wasValid, order, scratch[..])
    ensures scratch[..][i] && OnlyOn(old(scratch[..]), scratch[..])
    ensures Waiting(scratch[..], |order|) + moves <= old(Waiting(scratch[..], |order|))
  {
    var tmp, tmpValid := data[i], validity[i];
    var j := i;
    moves := 0;
    CycleStarts(data[..], was, order, scratch[..], i);
    CycleStarts(validity[..], wasValid, order, scratch[..], i);
    while order[j] != i
      invariant 0 <= j < |order|
      invariant CycleOpen(data[..], was, order, scratch[..], i, j) && CycleOpen(validity[..], wasValid, order, scratch[..], i, j)
      invariant OnlyOn(old(scratch[..]), scratch[..])
      invariant Waiting(scratch[..], |order|) + moves <= old(Waiting(scratch[..], |order|))
      decreases Waiting(scratch[..], |order|)
    {
      FillSlot(data, validity, order, scratch, i, j, was, wasValid);
      moves := moves + 1;
      j := order[j];
    }
    CloseCycle(data, validity, order, scratch, i, j, tmp, tmpValid, was, wasValid);
    moves := moves + 1;
  }

  method VisitSlot<T>(data: array<T>, validity: array<bool>, order: seq<int>, scratch: array<bool>, i: nat,
                      ghost was: seq<T>, ghost wasValid: seq<bool>)
    returns (ghost moves: nat)
    requires validity != scratch && (data as object) != validity && (data as object) != scratch
    requires i < |order| && i < scratch.Length
    requires CyclesDone(data[..], was, order, scratch[..]) && CyclesDone(validity[..], wasValid, order, scratch[..])
    modifies data, validity, scratch
    ensures CyclesDone(data[..], was, order, scratch[..]) && CyclesDone(validity[..], wasValid, order, scratch[..])
    ensures scratch[..][i] && OnlyOn(old(scratch[..]), scratch[..])
    ensures Waiting(scratch[..], |order|) + moves <= old(Waiting(scratch[..], |order|))
  {
    moves := 0;
    if scratch[i] {
      return;
    }
    if order[i] == i {
      CycleStarts(data[..], was, order, scratch[..], i);
      CycleStarts(validity[..], wasValid, order, scratch[..], i);
      VisitOne(scratch[..], |order|, i);
      ghost var s := scratch[..];
      scratch[i] := true;
      assert scratch[..] == s[i := true];
    } else {
      moves := FollowCycle(data, validity, order, scratch, i, was, wasValid);
    }
  }

  /** The flags to work with: at least `n` of them, the first `n` off, whatever was left in the shared ones. */
  method FreshFlags(visited: array<bool>, n: nat) returns (scratch: array<bool>)
    modifies visited
    ensures scratch.Length >= n && (scratch == visited || fresh(scratch))
    ensures forall k :: 0 <= k < n ==> !scratch[k]
  {
    if visited.Length < n {
      scratch := new bool[n](_ => false);
    } else {
      scratch := visited;
      for k := 0 to n
        invariant forall l :: 0 <= l < k ==> !visited[l]
      {
        visited[k] := false;
      }
    }
  }

  lemma {:induction false} NothingVisited<T>(was: seq<T>, order: seq<int>, visited: seq<bool>)
    requires |was| == |order| <= |visited| && IsPermutation(order, |order|) && forall k :: 0 <= k < |order| ==> !visited[k]
    ensures CyclesDone(was, was, order, visited)
  {
  }

  method VisitAll<T>(data: array<T>, validity: array<bool>, order: seq<int>, scratch: array<bool>,
                     ghost was: seq<T>, ghost wasValid: seq<bool>)
    returns (ghost moves: nat)
    requires validity != scratch && (data as object) != validity && (data as object) != scratch
    requires CyclesDone(data[..], was, order, scratch[..]) && CyclesDone(validity[..], wasValid, order, scratch[..])
    modifies data, validity, scratch
    ensures data[..] == Permuted(was, order) && validity[..] == Permuted(wasValid, order)
    ensures moves <= |order|
  {
    moves := 0;
    for i := 0 to |order|
      invariant CyclesDone(data[..], was, order, scratch[..]) && CyclesDone(validity[..], wasValid, order, scratch[..])
      invariant AllOn(scratch[..], i)
      invariant moves + Waiting(scratch[..], |order|) <= |order|
    {
      ghost var more := VisitSlot(data, validity, order, scratch, i, was, wasValid);
      moves := moves + more;
    }
    AllCyclesDone(data[..], was, order, scratch[..]);
    AllCyclesDone(validity[..], wasValid, order, scratch[..]);
  }

  /** Permutes data and presence flags in place by following cycles. Each slot is written at most once. */
  method ReorderInPlace<T>(data: array<T>, validity: array<bool>, order: seq<int>, visited: array<bool>)
    returns (scratch: array<bool>, ghost moves: nat)
    requires data.Length == validity.Length == |order| && IsPermutation(order, |order|)
    requires validity != visited && (data as object) != validity && (data as object) != visited
    modifies data, validity, visited
    ensures data[..] == Permuted(old(data[..]), order)
    ensures validity[..] == Permuted(old(validity[..]), order)
    ensures moves <= |order| && (scratch == visited || fresh(scratch))
  {
    scratch := FreshFlags(visited, |order|);
    NothingVisited(data[..], order, scratch[..]);
    NothingVisited(validity[..], order, scratch[..]);
    moves := VisitAll(data, validity, order, scratch, data[..], validity[..]);
  }

  // ----- the same on columns -----

  /** The row numbers that survive a removal, in order. */
  function Survivors(n: nat, dropped: seq<bool>): (r: seq<int>)
    requires n <= |dropped|
    ensures forall k :: 0 <= k < |r| ==> 0 <= r[k] < n
  {
    if n == 0 then [] else Survivors(n - 1, dropped) + if dropped[n - 1] then [] else [n - 1]
  }

  lemma {:induction false} KeptAreSurvivors<T>(s: seq<T>, dropped: seq<bool>)
    requires |s| <= |dropped|
    ensures Kept(s, dropped) == Permuted(s, Survivors(|s|, dropped))
  {
    if s != [] {
      var front := s[..|s| - 1];
      KeptAreSurvivors(front, dropped);
      assert Permuted(s, Survivors(|front|, dropped)) == Permuted(front, Survivors(|front|, dropped));
    }
  }

  /** The column with the rows listed in `rows`, in that order. */
  function Selected(c: Column, rows: seq<int>): (r: Column)
    requires Sound(c) && forall k :: 0 <= k < |rows| ==> 0 <= rows[k] < Size(c)
    ensures Sound(r) && KindOf(r) == KindOf(c) && Size(r) == |rows| && Cells(r) == Permuted(Cells(c), rows)
  {
    var on := Permuted(c.validity, rows);
    match c
    case IntColumn(d, _) => IntColumn(Permuted(d, rows), on)
    case DoubleColumn(d, _) => DoubleColumn(Permuted(d, rows), on)
    case StringColumn(d, _) => StringColumn(Permuted(d, rows), on)
    case BoolColumn(d, _) => BoolColumn(Permuted(d, rows), on)
    case JsonColumn(d, _) => JsonColumn(Permuted(d, rows), on)
  }

  method Compacted<T>(s: seq<T>, bitmap: seq<bool>) returns (r: seq<T>)
    requires |s| == |bitmap|
    ensures r == Permuted(s, Survivors(|s|, bitmap))
  {
    var data := new T[|s|](i requires 0 <= i < |s| => s[i]);
    assert data[..] == s;
    var n := CompactWithBitmap(data, bitmap);
    KeptAreSurvivors(s, bitmap);
    r := data[..n];
  }

  method RemoveWithBitmap(c: Column, bitmap: seq<bool>) returns (r: Column)
    requires Sound(c) && |bitmap| == Size(c)
    ensures r == Selected(c, Survivors(Size(c), bitmap)) && Cells(r) == Kept(Cells(c), bitmap)
  {
    KeptAreSurvivors(Cells(c), bitmap);
    var on := Compacted(c.validity, bitmap);
    match c
    case IntColumn(d, _) =>
      var d' := Compacted(d, bitmap);
      r := IntColumn(d', on);
    case DoubleColumn(d, _) =>
      var d' := Compacted(d, bitmap);
      r := DoubleColumn(d', on);
    case StringColumn(d, _) =>
      var d' := Compacted(d, bitmap);
      r := StringColumn(d', on);
    case BoolColumn(d, _) =>
      var d' := Compacted(d, bitmap);
      r := BoolColumn(d', on);
    case JsonColumn(d, _) =>
      var d' := Compacted(d, bitmap);
      r := JsonColumn(d', on);
  }

  method Reordered<T>(s: seq<T>, flags: seq<bool>, order: seq<int>, visited: array<bool>)
    returns (d: seq<T>, on: seq<bool>, scratch: array<bool>)
    requires |s| == |flags| == |order| && IsPermutation(order, |order|)
    modifies visited
    ensures d == Permuted(s, order) && on == Permuted(flags, order) && (scratch == visited || fresh(scratch))
  {
    var data := new T[|s|](i requires 0 <= i < |s| => s[i]);
    var validity := new bool[|flags|](i requires 0 <= i < |flags| => flags[i]);
    assert data[..] == s && validity[..] == flags;
    ghost var moves;
    scratch, moves := ReorderInPlace(data, validity, order, visited);
    d, on := data[..], validity[..];
  }

  /** Reorders one column; the flags are scratch space shared between the columns of a store. */
  method Reorder(c: Column, order: seq<int>, visited: array<bool>) returns (r: Column, scratch: array<bool>)
    requires Sound(c) && |order| == Size(c) && IsPermutation(order, |order|)
    modifies visited
    ensures r == Selected(c, order) && (scratch == visited || fresh(scratch))
  {
    match c
    case IntColumn(d, _) =>
      var d', on;
      d', on, scratch := Reordered(d, c.validity, order, visited);
      r := IntColumn(d', on);
    case DoubleColumn(d, _) =>
      var d', on;
      d', on, scratch := Reordered(d, c.validity, order, visited);
      r := DoubleColumn(d', on);
    case StringColumn(d, _) =>
      var d', on;
      d', on, scratch := Reordered(d, c.validity, order, visited);
      r := StringColumn(d', on);
    case BoolColumn(d, _) =>
      var d', on;
      d', on, scratch := Reordered(d, c.validity, order, visited);
      r := BoolColumn(d', on);
    case JsonColumn(d, _) =>
      var d', on;
      d', on, scratch := Reordered(d, c.validity, order, visited);
      r := JsonColumn(d', on);
  }
}
