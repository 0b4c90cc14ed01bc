/** What the parser accepts between values: space, separators and repeated keys. */
module JsonReadings {
  import opened Texts
  import opened JsonStrings
  import opened JsonNumbers
  import opened Jsons
  import opened JsonRoundTrips

  // Space.

  /** The bytes that `std::isspace` accepts in the C locale. */
  predicate IsBlank(ch: char) {
    ch as int == 0x20 || ch as int == 0x09 || ch as int == 0x0A || ch as int == 0x0B || ch as int == 0x0C || ch as int == 0x0D
  }

  /** Skipping ends at the first byte that is not blank. */
  lemma {:induction false} SkipMeans(t: string, p: nat, q: nat)
    requires p <= |t|
    ensures q == Skip(t, p) <==> p <= q <= |t| && (forall i :: p <= i < q ==> IsBlank(t[i])) && (q < |t| ==> !IsBlank(t[q]))
    decreases |t| - p
  {
    if p < |t| && IsSpace(t[p]) {
      SkipMeans(t, p + 1, q);
      SkipMeans(t, p + 1, Skip(t, p + 1));
    }
  }

  // Items.

  /** `values` stand in the text from `start` on, separated by commas; behind the last one stands a bracket, just before `end`. */
  ghost predicate ItemsStand(n: Numerals, t: string, start: nat, values: seq<Json>, end: nat)
    decreases |values|
  {
    && values != [] && start <= |t|
    && match ReadValue(n, t, start)
       case Failed(_) => false
       case Read(v, q) =>
         && v == values[0]
         && var next := Skip(t, q);
         && next < |t|
         && if |values| == 1 then t[next] == ']' && end == next + 1
            else t[next] == ',' && ItemsStand(n, t, Skip(t, next + 1), values[1..], end)
  }

  lemma {:induction false} ItemsRead(n: Numerals, t: string, p: nat, done: seq<Json>) returns (values: seq<Json>)
    requires p <= |t| && ReadItems(n, t, p, done).Read?
    ensures ReadItems(n, t, p, done).value == Array(done + values)
    ensures ItemsStand(n, t, Skip(t, p), values, ReadItems(n, t, p, done).next)
    decreases |t| - p
  {
    var Read(v, q) := ReadValue(n, t, Skip(t, p));
    var next := Skip(t, q);
    values := [v];
    if !Has(t, next, ']') {
      var rest := ItemsRead(n, t, next + 1, done + [v]);
      values := [v] + rest;
      assert values[1..] == rest && done + [v] + rest == done + values;
    }
  }

  lemma {:induction false} StandingItems(n: Numerals, t: string, p: nat, done: seq<Json>, values: seq<Json>, end: nat)
    requires p <= |t| && ItemsStand(n, t, Skip(t, p), values, end)
    ensures ReadItems(n, t, p, done) == Read(Array(done + values), end)
    decreases |values|
  {
    var Read(v, q) := ReadValue(n, t, Skip(t, p));
    var next := Skip(t, q);
    if |values| == 1 {
      assert values == [v];
    } else {
      StandingItems(n, t, next + 1, done + [v], values[1..], end);
      assert done + [v] + values[1..] == done + values;
    }
  }

  /** An array is read exactly when it is empty or its items stand in the text; commas at the end or missing ones are refused. */
  lemma {:induction false} ArrayIff(n: Numerals, t: string, p: nat, items: seq<Json>, end: nat)
    requires p < |t| && t[p] == '[' && Skip(t, p) == p
    ensures
      var first := Skip(t, p + 1);
      ReadValue(n, t, p) == Read(Array(items), end) <==>
      if first < |t| && t[first] == ']' then items == [] && end == first + 1 else ItemsStand(n, t, first, items, end)
  {
    var first := Skip(t, p + 1);
    OpensArray(n, t, p);
    if !Has(t, first, ']') {
      SkipTwice(t, p + 1);
      ItemsIff(n, t, first, items, end);
    }
  }

  lemma {:induction false} OpensArray(n: Numerals, t: string, p: nat)
    requires p < |t| && t[p] == '[' && Skip(t, p) == p
    ensures
      var first := Skip(t, p + 1);
      ReadValue(n, t, p) == if Has(t, first, ']') then Read(Array([]), first + 1) else ReadItems(n, t, first, [])
  {
  }

  lemma {:induction false} ItemsIff(n: Numerals, t: string, p: nat, items: seq<Json>, end: nat)
    requires p <= |t|
    ensures ReadItems(n, t, p, []) == Read(Array(items), end) <==> ItemsStand(n, t, Skip(t, p), items, end)
  {
    if ReadItems(n, t, p, []).Read? {
      var values := ItemsRead(n, t, p, []);
      assert [] + values == values;
    }
    if ItemsStand(n, t, Skip(t, p), items, end) {
      StandingItems(n, t, p, [], items, end);
      assert [] + items == items;
    }
  }

  lemma {:induction false} SkipTwice(t: string, p: nat)
    requires p <= |t|
    ensures Skip(t, Skip(t, p)) == Skip(t, p)
    decreases |t| - p
  {
    if p < |t| && IsSpace(t[p]) { SkipTwice(t, p + 1); }
  }

  // Members.

  /** A key, a colon and a value, with space around. */
  ghost predicate MemberStands(n: Numerals, t: string, p: nat, m: Member, end: nat)
    requires p <= |t|
  {
    match ReadString(t, Skip(t, p))
    case Failed(_) => false
    case Read(key, q) =>
      var colon := Skip(t, q);
      key == m.key && colon < |t| && t[colon] == ':' && ReadValue(n, t, Skip(t, colon + 1)) == Read(m.value, end)
  }

  lemma {:induction false} MemberIff(n: Numerals, t: string, p: nat, m: Member, end: nat)
    requires p <= |t|
    ensures ReadMember(n, t, p) == Read(m, end) <==> MemberStands(n, t, p, m, end)
  {
  }

  ghost predicate MembersStand(n: Numerals, t: string, p: nat, members: seq<Member>, end: nat)
    decreases |members|
  {
    && members != [] && p <= |t|
    && match ReadMember(n, t, p)
       case Failed(_) => false
       case Read(m, q) =>
         && m == members[0]
         && var next := Skip(t, q);
         && next < |t|
         && if |members| == 1 then t[next] == '}' && end == next + 1
            else t[next] == ',' && MembersStand(n, t, next + 1, members[1..], end)
  }

  lemma {:induction false} GatheredNext(done: seq<Member>, m: Member, rest: seq<Member>)
    ensures Gathered(done, [m] + rest, 0) == Gathered(Emplaced(done, m), rest, 0)
  {
    GatheredShift(Emplaced(done, m), m, rest, 0);
  }

  lemma {:induction false} GatheredShift(done: seq<Member>, m: Member, rest: seq<Member>, k: nat)
    requires k <= |rest|
    ensures Gathered(done, [m] + rest, k + 1) == Gathered(done, rest, k)
    decreases |rest| - k
  {
    if k < |rest| {
      assert ([m] + rest)[k + 1] == rest[k];
      GatheredShift(Emplaced(done, rest[k]), m, rest, k + 1);
    }
  }

  lemma {:induction false} MembersRead(n: Numerals, t: string, p: nat, done: seq<Member>) returns (members: seq<Member>)
    requires p <= |t| && ReadMembers(n, t, p, done).Read?
    ensures ReadMembers(n, t, p, done).value == Object(Gathered(done, members, 0))
    ensures MembersStand(n, t, p, members, ReadMembers(n, t, p, done).next)
    decreases |t| - p
  {
    var Read(m, q) := ReadMember(n, t, p);
    var next := Skip(t, q);
    members := [m];
    if Has(t, next, '}') {
      GatheredNext(done, m, []);
      assert [m] + [] == [m];
    } else {
      var rest := MembersRead(n, t, next + 1, Emplaced(done, m));
      members := [m] + rest;
      assert members[1..] == rest;
      GatheredNext(done, m, rest);
    }
  }

  lemma {:induction false} StandingMembers(n: Numerals, t: string, p: nat, done: seq<Member>, members: seq<Member>, end: nat)
    requires p <= |t| && MembersStand(n, t, p, members, end)
    ensures ReadMembers(n, t, p, done) == Read(Object(Gathered(done, members, 0)), end)
    decreases |members|
  {
    var Read(m, q) := ReadMember(n, t, p);
    var rest := members[1..];
    assert members == [m] + rest;
    GatheredNext(done, m, rest);
    if |members| > 1 {
      StandingMembers(n, t, Skip(t, q) + 1, Emplaced(done, m), rest, end);
    } else {
      assert rest == [];
    }
  }

  // Repeated keys.

  ghost predicate HasKey(members: seq<Member>, key: string) {
    exists i :: 0 <= i < |members| && members[i].key == key
  }

  lemma {:induction false} NotLessItself(a: string)
    ensures !Less(a, a)
  {
    if a != "" { NotLessItself(a[1..]); }
  }

  lemma {:induction false} KeyIsLess(members: seq<Member>, key: string)
    requires Ordered(members) && members != [] && !Less(members[0].key, key) && members[0].key != key
    ensures !HasKey(members, key)
  {
    var first := members[0].key;
    LessTotal(first, key);
    forall i | 0 <= i < |members|
      ensures members[i].key != key
    {
      NotLessItself(key);
      if i > 0 {
        assert Less(members[0].key, members[i].key);
        if members[i].key == key { LessTransitive(key, first, key); }
      }
    }
  }

  /** A key that is there already keeps its value; otherwise just the new member is added. */
  lemma {:induction false} EmplacedMeans(members: seq<Member>, m: Member)
    requires Ordered(members)
    ensures HasKey(members, m.key) ==> Emplaced(members, m) == members
    ensures !HasKey(members, m.key) ==> forall x :: x in Emplaced(members, m) <==> x == m || x in members
  {
    if members != [] {
      var first, rest := members[0], members[1..];
      if Less(first.key, m.key) {
        NotLessItself(m.key);
        OrderedTail(members);
        EmplacedMeans(rest, m);
        assert HasKey(members, m.key) <==> HasKey(rest, m.key) by {
          assert forall i :: 1 <= i < |members| ==> members[i] == rest[i - 1];
        }
        assert members == [first] + rest;
      } else if first.key != m.key {
        KeyIsLess(members, m.key);
      }
    }
  }

  lemma {:induction false} GatheredKeeps(done: seq<Member>, members: seq<Member>, k: nat, x: Member)
    requires Ordered(done) && k <= |members| && x in done
    ensures x in Gathered(done, members, k)
    decreases |members| - k
  {
    if k < |members| {
      EmplacedMeans(done, members[k]);
      EmplacedOrdered(done, members[k]);
      GatheredKeeps(Emplaced(done, members[k]), members, k + 1, x);
    }
  }

  lemma {:induction false} FirstOfKeyStays(done: seq<Member>, members: seq<Member>, k: nat, i: nat)
    requires Ordered(done) && k <= i < |members| && !HasKey(done, members[i].key)
    requires forall j :: k <= j < i ==> members[j].key != members[i].key
    ensures members[i] in Gathered(done, members, k)
    decreases |members| - k
  {
    var after := Emplaced(done, members[k]);
    EmplacedMeans(done, members[k]);
    EmplacedOrdered(done, members[k]);
    if k == i {
      GatheredKeeps(after, members, k + 1, members[i]);
    } else {
      forall l | 0 <= l < |after|
        ensures after[l].key != members[i].key
      {
        EmplacedFrom(done, members[k], after[l]);
      }
      FirstOfKeyStays(after, members, k + 1, i);
    }
  }

  lemma {:induction false} NothingElseGathered(done: seq<Member>, members: seq<Member>, k: nat, x: Member)
    requires k <= |members| && x in Gathered(done, members, k)
    ensures x in done || x in members
    decreases |members| - k
  {
    if k < |members| {
      NothingElseGathered(Emplaced(done, members[k]), members, k + 1, x);
      if x in Emplaced(done, members[k]) { EmplacedFrom(done, members[k], x); }
    }
  }

  lemma {:induction false} GatheredOrdered(done: seq<Member>, members: seq<Member>, k: nat)
    requires Ordered(done) && k <= |members|
    ensures Ordered(Gathered(done, members, k))
    decreases |members| - k
  {
    if k < |members| {
      EmplacedOrdered(done, members[k]);
      GatheredOrdered(Emplaced(done, members[k]), members, k + 1);
    }
  }

  /** Of the members with one key the first in the text is kept, and the object holds nothing else. */
  ghost predicate FirstOfEachKey(kept: seq<Member>, members: seq<Member>) {
    && Ordered(kept) && (forall x :: x in kept ==> x in members)
    && forall i :: 0 <= i < |members| && !HasKey(members[..i], members[i].key) ==> members[i] in kept
  }

  lemma {:induction false} GatheredFirsts(members: seq<Member>)
    ensures FirstOfEachKey(Gathered([], members, 0), members)
  {
    var kept := Gathered([], members, 0);
    GatheredOrdered([], members, 0);
    forall x | x in kept
      ensures x in members
    {
      NothingElseGathered([], members, 0, x);
    }
    forall i | 0 <= i < |members| && !HasKey(members[..i], members[i].key)
      ensures members[i] in kept
    {
      assert forall j :: 0 <= j < i ==> members[..i][j] == members[j];
      FirstOfKeyStays([], members, 0, i);
    }
  }

  /** An object is read only when it is empty or its members stand in the text; of repeated keys the first counts. */
  lemma {:induction false} ObjectRead(n: Numerals, t: string, p: nat) returns (members: seq<Member>)
    requires p < |t| && t[p] == '{' && Skip(t, p) == p && ReadValue(n, t, p).Read?
    ensures
      var first, r := Skip(t, p + 1), ReadValue(n, t, p);
      && r.value.Object? && FirstOfEachKey(r.value.members, members)
      && if first < |t| && t[first] == '}' then members == [] && r.next == first + 1 else MembersStand(n, t, first, members, r.next)
  {
    members := [];
    var first := Skip(t, p + 1);
    if !Has(t, first, '}') {
      members := MembersRead(n, t, first, []);
    }
    GatheredFirsts(members);
  }

  /** Whenever its members stand in the text an object is read. */
  lemma {:induction false} StandingObject(n: Numerals, t: string, p: nat, members: seq<Member>, end: nat)
    requires p < |t| && t[p] == '{' && Skip(t, p) == p && !Has(t, Skip(t, p + 1), '}')
    requires MembersStand(n, t, Skip(t, p + 1), members, end)
    ensures ReadValue(n, t, p).Read? && ReadValue(n, t, p).next == end && ReadValue(n, t, p).value.Object?
    ensures FirstOfEachKey(ReadValue(n, t, p).value.members, members)
  {
    StandingMembers(n, t, Skip(t, p + 1), [], members, end);
    GatheredFirsts(members);
  }

  /** A text is one value with space around it. */
  lemma {:induction false} ParsedIff(n: Numerals, t: string, v: Json)
    ensures Parsed(n, t) == Read(v, |t|) <==>
            exists q: nat :: q <= |t| && ReadValue(n, t, Skip(t, 0)) == Read(v, q) && forall i :: q <= i < |t| ==> IsBlank(t[i])
  {
    if Parsed(n, t) == Read(v, |t|) {
      var q := ReadValue(n, t, Skip(t, 0)).next;
      SkipMeans(t, q, |t|);
    }
    if q: nat :| q <= |t| && ReadValue(n, t, Skip(t, 0)) == Read(v, q) && forall i :: q <= i < |t| ==> IsBlank(t[i]) {
      SkipMeans(t, q, |t|);
    }
  }
}
