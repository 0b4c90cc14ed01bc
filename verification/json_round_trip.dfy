/** Parsing undoes dumping, and what is parsed can be dumped. */
module JsonRoundTrips {
  import opened Texts
  import opened Decimals
  import opened JsonStrings
  import opened JsonNumbers
  import opened Jsons

  // Space.

  lemma {:induction false} SkipsTo(t: string, p: nat, q: nat)
    requires p <= q <= |t| && (forall i :: p <= i < q ==> IsSpace(t[i])) && (q < |t| ==> !IsSpace(t[q]))
    ensures Skip(t, p) == q
    decreases q - p
  {
    if p < q { SkipsTo(t, p + 1, q); }
  }

  lemma {:induction false} SkipIsDone(t: string, p: nat)
    requires p <= |t|
    ensures Skip(t, Skip(t, p)) == Skip(t, p)
    decreases |t| - p
  {
    if p < |t| && IsSpace(t[p]) { SkipIsDone(t, p + 1); }
  }

  /** Starts with a byte that is neither space nor a closing bracket. */
  predicate Opens(w: string) {
    w != "" && !IsSpace(w[0]) && w[0] != ']' && w[0] != '}'
  }

  /** `rest` stands in `t` at `q`, and everything from `p` up to there is passed over. */
  predicate Reaches(t: string, p: nat, q: nat, rest: string) {
    p <= q <= |t| && At(t, q, rest) && Skip(t, p) == Skip(t, q)
  }

  lemma {:induction false} BlankedReaches(t: string, p: nat, n: nat, rest: string) returns (q: nat)
    requires At(t, p, Blanked(n, rest))
    ensures Reaches(t, p, q, rest) && q + |rest| == p + |Blanked(n, rest)|
    decreases n
  {
    if n == 0 {
      q := p;
    } else {
      FirstAt(t, p, Blanked(n, rest));
      AtParts(t, p, " ", Blanked(n - 1, rest));
      q := BlankedReaches(t, p + 1, n - 1, rest);
    }
  }

  lemma {:induction false} IndentedReaches(t: string, p: nat, indent: nat, depth: nat, rest: string) returns (q: nat)
    requires At(t, p, Indented(indent, depth, rest))
    ensures Reaches(t, p, q, rest) && q + |rest| == p + |Indented(indent, depth, rest)|
    decreases depth
  {
    if depth == 0 {
      q := p;
    } else {
      var inner := Indented(indent, depth - 1, rest);
      var q' := BlankedReaches(t, p, indent, inner);
      q := IndentedReaches(t, q', indent, depth - 1, rest);
    }
  }

  lemma {:induction false} BrokenReaches(t: string, p: nat, indent: nat, depth: nat, rest: string) returns (q: nat)
    requires At(t, p, Broken(indent, depth, rest))
    ensures Reaches(t, p, q, rest) && q + |rest| == p + |Broken(indent, depth, rest)|
  {
    if indent == 0 {
      q := p;
    } else {
      FirstAt(t, p, Broken(indent, depth, rest));
      AtParts(t, p, "\n", Indented(indent, depth, rest));
      q := IndentedReaches(t, p + 1, indent, depth, rest);
    }
  }

  /** A break and what stands after it, up to `end`. */
  lemma {:induction false} AfterBreak(t: string, p: nat, indent: nat, depth: nat, w: string, end: nat)
    requires At(t, p, Broken(indent, depth, w)) && end == p + |Broken(indent, depth, w)| && w != "" && !IsSpace(w[0])
    ensures p <= |t| && Skip(t, p) < |t| && At(t, Skip(t, p), w) && t[Skip(t, p)] == w[0] && end == Skip(t, p) + |w|
  {
    var q := BrokenReaches(t, p, indent, depth, w);
    FirstAt(t, q, w);
  }

  lemma {:induction false} AfterByte(t: string, p: nat, b: char, indent: nat, depth: nat, w: string, end: nat)
    requires At(t, p, [b] + Broken(indent, depth, w)) && end == p + 1 + |Broken(indent, depth, w)| && Opens(w)
    ensures Has(t, p, b) && Skip(t, p + 1) < |t| && At(t, Skip(t, p + 1), w) && t[Skip(t, p + 1)] == w[0]
    ensures end == Skip(t, p + 1) + |w|
  {
    FirstAt(t, p, [b] + Broken(indent, depth, w));
    AtParts(t, p, [b], Broken(indent, depth, w));
    AfterBreak(t, p + 1, indent, depth, w, end);
  }

  // The texts of a list.

  lemma {:induction false} SplitsJoined(t: string, p: nat, texts: seq<string>, k: nat, close: char, indent: nat, depth: nat, q: nat, end: nat)
    requires k < |texts| && At(t, p, Joined(texts, k, close, indent, depth)) && q == p + |texts[k]|
    requires end == p + |Joined(texts, k, close, indent, depth)|
    ensures At(t, p, texts[k]) && At(t, q, After(texts, k, close, indent, depth))
    ensures end == q + |After(texts, k, close, indent, depth)|
  {
    AtParts(t, p, texts[k], After(texts, k, close, indent, depth));
  }

  /** After the last text comes the bracket. */
  lemma {:induction false} TextEnds(t: string, q: nat, close: char, indent: nat, depth: nat, end: nat)
    requires At(t, q, Broken(indent, depth, [close])) && (close == ']' || close == '}')
    requires end == q + |Broken(indent, depth, [close])|
    ensures Ends(t, q) && q <= |t| && Has(t, Skip(t, q), close) && end == Skip(t, q) + 1
  {
    FirstAt(t, q, Broken(indent, depth, [close]));
    AfterBreak(t, q, indent, depth, [close], end);
  }

  /** After any other text come a comma and the next text. */
  lemma {:induction false} TextGoesOn(t: string, q: nat, indent: nat, depth: nat, more: string, end: nat)
    requires At(t, q, "," + Broken(indent, depth, more)) && Opens(more)
    requires end == q + 1 + |Broken(indent, depth, more)|
    ensures Ends(t, q) && Has(t, q, ',') && Skip(t, q) == q
    ensures Skip(t, q + 1) < |t| && At(t, Skip(t, q + 1), more) && end == Skip(t, q + 1) + |more|
  {
    AfterByte(t, q, ',', indent, depth, more, end);
  }

  /** From `p` on, after space, stand the texts from `k` on, separated by commas, and the bracket, which ends at `end`. */
  predicate Laid(t: string, p: nat, texts: seq<string>, k: nat, close: char, end: nat)
    requires k < |texts|
    decreases |texts| - k
  {
    && p <= |t| && At(t, Skip(t, p), texts[k])
    && var q := Skip(t, p) + |texts[k]|;
    && Ends(t, q)
    && if k + 1 == |texts| then Has(t, Skip(t, q), close) && end == Skip(t, q) + 1
       else Has(t, Skip(t, q), ',') && Laid(t, Skip(t, q) + 1, texts, k + 1, close, end)
  }

  lemma {:induction false} LaidLast(t: string, p: nat, texts: seq<string>, k: nat, close: char, q: nat)
    requires k + 1 == |texts| && p <= |t| && At(t, Skip(t, p), texts[k]) && q == Skip(t, p) + |texts[k]|
    requires Ends(t, q) && Has(t, Skip(t, q), close)
    ensures Laid(t, p, texts, k, close, Skip(t, q) + 1)
  {
  }

  lemma {:induction false} LaidNext(t: string, p: nat, texts: seq<string>, k: nat, close: char, end: nat, q: nat)
    requires k + 1 < |texts| && p <= |t| && At(t, Skip(t, p), texts[k]) && q == Skip(t, p) + |texts[k]|
    requires Ends(t, q) && Has(t, Skip(t, q), ',') && Laid(t, Skip(t, q) + 1, texts, k + 1, close, end)
    ensures Laid(t, p, texts, k, close, end)
  {
  }

  lemma {:induction false} JoinedOpens(texts: seq<string>, k: nat, close: char, indent: nat, depth: nat)
    requires k < |texts| && Opens(texts[k])
    ensures Opens(Joined(texts, k, close, indent, depth))
  {
    assert Joined(texts, k, close, indent, depth)[0] == texts[k][0];
  }

  lemma {:induction false} JoinedStops(t: string, first: nat, texts: seq<string>, k: nat, close: char, indent: nat, depth: nat, q: nat, end: nat)
    requires k + 1 == |texts| && (close == ']' || close == '}') && At(t, first, Joined(texts, k, close, indent, depth))
    requires q == first + |texts[k]| && end == first + |Joined(texts, k, close, indent, depth)|
    ensures At(t, first, texts[k]) && Ends(t, q) && q <= |t| && Has(t, Skip(t, q), close) && end == Skip(t, q) + 1
  {
    SplitsJoined(t, first, texts, k, close, indent, depth, q, end);
    TextEnds(t, q, close, indent, depth, end);
  }

  lemma {:induction false} JoinedGoesOn(t: string, first: nat, texts: seq<string>, k: nat, close: char, indent: nat, depth: nat, q: nat, end: nat)
    returns (next: nat)
    requires k + 1 < |texts| && Opens(texts[k + 1]) && At(t, first, Joined(texts, k, close, indent, depth))
    requires q == first + |texts[k]| && end == first + |Joined(texts, k, close, indent, depth)|
    ensures At(t, first, texts[k]) && Ends(t, q) && Has(t, q, ',') && Skip(t, q) == q && next == Skip(t, q + 1)
    ensures At(t, next, Joined(texts, k + 1, close, indent, depth)) && end == next + |Joined(texts, k + 1, close, indent, depth)|
  {
    SplitsJoined(t, first, texts, k, close, indent, depth, q, end);
    JoinedOpens(texts, k + 1, close, indent, depth);
    TextGoesOn(t, q, indent, depth + 1, Joined(texts, k + 1, close, indent, depth), end);
    next := Skip(t, q + 1);
  }

  lemma {:induction false} JoinedIsLaid(t: string, p: nat, first: nat, texts: seq<string>, k: nat, close: char, indent: nat, depth: nat, end: nat)
    requires k < |texts| && (forall i :: 0 <= i < |texts| ==> Opens(texts[i])) && (close == ']' || close == '}')
    requires p <= |t| && first == Skip(t, p) && At(t, first, Joined(texts, k, close, indent, depth))
    requires end == first + |Joined(texts, k, close, indent, depth)|
    ensures Laid(t, p, texts, k, close, end)
    decreases |texts| - k, 1
  {
    var q := first + |texts[k]|;
    if k + 1 == |texts| {
      JoinedStops(t, first, texts, k, close, indent, depth, q, end);
      LaidLast(t, p, texts, k, close, q);
    } else {
      var next := JoinedGoesOn(t, first, texts, k, close, indent, depth, q, end);
      RestIsLaid(t, p, next, texts, k, close, indent, depth, q, end);
    }
  }

  lemma {:induction false} RestIsLaid(t: string, p: nat, next: nat, texts: seq<string>, k: nat, close: char, indent: nat, depth: nat, q: nat, end: nat)
    requires k + 1 < |texts| && (forall i :: 0 <= i < |texts| ==> Opens(texts[i])) && (close == ']' || close == '}')
    requires p <= |t| && At(t, Skip(t, p), texts[k]) && q == Skip(t, p) + |texts[k]|
    requires Ends(t, q) && Has(t, q, ',') && Skip(t, q) == q && next == Skip(t, q + 1)
    requires At(t, next, Joined(texts, k + 1, close, indent, depth)) && end == next + |Joined(texts, k + 1, close, indent, depth)|
    ensures Laid(t, p, texts, k, close, end)
    decreases |texts| - k, 0
  {
    JoinedIsLaid(t, q + 1, next, texts, k + 1, close, indent, depth, end);
    LaidNext(t, p, texts, k, close, end, q);
  }

  /** A list that is not empty, from its opening bracket on. */
  lemma {:induction false} ListedIsLaid(t: string, p: nat, open: char, texts: seq<string>, close: char, indent: nat, depth: nat, end: nat)
    requires texts != [] && (forall i :: 0 <= i < |texts| ==> Opens(texts[i])) && (close == ']' || close == '}')
    requires At(t, p, Listed(open, texts, close, indent, depth)) && end == p + |Listed(open, texts, close, indent, depth)|
    ensures Has(t, p, open) && !Has(t, Skip(t, p + 1), close) && Laid(t, Skip(t, p + 1), texts, 0, close, end)
  {
    var joined := Joined(texts, 0, close, indent, depth);
    JoinedOpens(texts, 0, close, indent, depth);
    AfterByte(t, p, open, indent, depth + 1, joined, end);
    SkipIsDone(t, p + 1);
    JoinedIsLaid(t, Skip(t, p + 1), Skip(t, p + 1), texts, 0, close, indent, depth, end);
  }

  // Items.

  lemma {:induction false} LastItem(n: Numerals, t: string, p: nat, items: seq<Json>, v: Json, q: nat)
    requires p <= |t| && q <= |t| && ReadValue(n, t, Skip(t, p)) == Read(v, q) && Has(t, Skip(t, q), ']')
    ensures ReadItems(n, t, p, items) == Read(Array(items + [v]), Skip(t, q) + 1)
  {
  }

  lemma {:induction false} NextItem(n: Numerals, t: string, p: nat, items: seq<Json>, v: Json, q: nat)
    requires p <= |t| && q <= |t| && ReadValue(n, t, Skip(t, p)) == Read(v, q) && Has(t, Skip(t, q), ',')
    ensures ReadItems(n, t, p, items) == ReadItems(n, t, Skip(t, q) + 1, items + [v])
  {
  }

  /** Wherever `w` stands and ends, `v` is read. */
  ghost predicate ReadFrom(n: Numerals, t: string, w: string, v: Json) {
    Opens(w) && forall p: nat :: At(t, p, w) && Ends(t, p + |w|) ==> ReadValue(n, t, p) == Read(v, p + |w|)
  }

  /** `done` with the items from `k` on pushed back one by one. */
  function Pushed(done: seq<Json>, items: seq<Json>, k: nat): seq<Json>
    requires k <= |items|
    decreases |items| - k
  {
    if k == |items| then done else Pushed(done + [items[k]], items, k + 1)
  }

  lemma {:induction false} PushedIsAll(items: seq<Json>, k: nat)
    requires k <= |items|
    ensures Pushed(items[..k], items, k) == items
    decreases |items| - k
  {
    if k < |items| {
      PushedIsAll(items, k + 1);
      assert items[..k] + [items[k]] == items[..k + 1];
    }
  }

  lemma {:induction false} PushedAll(items: seq<Json>)
    ensures Pushed([], items, 0) == items
  {
    PushedIsAll(items, 0);
    assert items[..0] == [];
  }

  lemma {:induction false} ItemEnds(n: Numerals, t: string, p: nat, done: seq<Json>, v: Json, w: string, q: nat)
    requires ReadFrom(n, t, w, v) && p <= |t| && At(t, Skip(t, p), w) && q == Skip(t, p) + |w| && Ends(t, q)
    requires Has(t, Skip(t, q), ']')
    ensures ReadItems(n, t, p, done) == Read(Array(done + [v]), Skip(t, q) + 1)
  {
    LastItem(n, t, p, done, v, q);
  }

  lemma {:induction false} ItemGoesOn(n: Numerals, t: string, p: nat, done: seq<Json>, v: Json, w: string, q: nat)
    requires ReadFrom(n, t, w, v) && p <= |t| && At(t, Skip(t, p), w) && q == Skip(t, p) + |w| && Ends(t, q)
    requires Has(t, Skip(t, q), ',')
    ensures ReadItems(n, t, p, done) == ReadItems(n, t, Skip(t, q) + 1, done + [v])
  {
    NextItem(n, t, p, done, v, q);
  }

  /** One text of a list: reading ends with it, or goes on at `next`. */
  lemma {:induction false} ItemRound(n: Numerals, t: string, p: nat, done: seq<Json>, v: Json, texts: seq<string>, k: nat, end: nat) returns (next: nat)
    requires k < |texts| && ReadFrom(n, t, texts[k], v) && Laid(t, p, texts, k, ']', end)
    ensures k + 1 == |texts| ==> p <= |t| && ReadItems(n, t, p, done) == Read(Array(done + [v]), end)
    ensures k + 1 < |texts| ==>
      && p <= |t| && next <= |t| && Laid(t, next, texts, k + 1, ']', end)
      && ReadItems(n, t, p, done) == ReadItems(n, t, next, done + [v])
  {
    var q := Skip(t, p) + |texts[k]|;
    next := 0;
    if k + 1 == |texts| {
      ItemEnds(n, t, p, done, v, texts[k], q);
    } else {
      ItemGoesOn(n, t, p, done, v, texts[k], q);
      next := Skip(t, q) + 1;
    }
  }

  lemma {:induction false} ReadsItems(n: Numerals, t: string, p: nat, done: seq<Json>, items: seq<Json>, texts: seq<string>, k: nat, end: nat)
    requires |texts| == |items| && k < |items|
    requires forall i :: 0 <= i < |items| ==> ReadFrom(n, t, texts[i], items[i])
    requires Laid(t, p, texts, k, ']', end)
    ensures p <= |t| && ReadItems(n, t, p, done) == Read(Array(Pushed(done, items, k)), end)
    decreases |items| - k
  {
    var next := ItemRound(n, t, p, done, items[k], texts, k, end);
    if k + 1 < |items| {
      ReadsItems(n, t, next, done + [items[k]], items, texts, k + 1, end);
    }
  }

  // Members.

  lemma {:induction false} LastMember(n: Numerals, t: string, p: nat, members: seq<Member>, m: Member, q: nat)
    requires p <= |t| && q <= |t| && ReadMember(n, t, p) == Read(m, q) && Has(t, Skip(t, q), '}')
    ensures ReadMembers(n, t, p, members) == Read(Object(Emplaced(members, m)), Skip(t, q) + 1)
  {
  }

  lemma {:induction false} NextMember(n: Numerals, t: string, p: nat, members: seq<Member>, m: Member, q: nat)
    requires p <= |t| && q <= |t| && ReadMember(n, t, p) == Read(m, q) && Has(t, Skip(t, q), ',')
    ensures ReadMembers(n, t, p, members) == ReadMembers(n, t, Skip(t, q) + 1, Emplaced(members, m))
  {
    var next, after := Skip(t, q), Emplaced(members, m);
    assert !Has(t, next, '}') && Has(t, next, ',');
    assert ReadMembers(n, t, p, members) == ReadMembers(n, t, next + 1, after);
  }

  ghost predicate MemberFrom(n: Numerals, t: string, w: string, m: Member) {
    Opens(w) && forall p: nat :: p <= |t| && At(t, Skip(t, p), w) && Ends(t, Skip(t, p) + |w|) ==>
      ReadMember(n, t, p) == Read(m, Skip(t, p) + |w|)
  }

  /** `done` with the members from `k` on emplaced one by one. */
  function Gathered(done: seq<Member>, members: seq<Member>, k: nat): seq<Member>
    requires k <= |members|
    decreases |members| - k
  {
    if k == |members| then done else Gathered(Emplaced(done, members[k]), members, k + 1)
  }

  /** Members that are in order end up as they were. */
  lemma {:induction false} GatheredIsAll(members: seq<Member>, k: nat)
    requires Ordered(members) && k <= |members|
    ensures Gathered(members[..k], members, k) == members
    decreases |members| - k
  {
    if k < |members| {
      EmplacesLast(members, k);
      GatheredIsAll(members, k + 1);
    } else {
      assert members[..k] == members;
    }
  }

  lemma {:induction false} GatheredAll(members: seq<Member>)
    requires Ordered(members)
    ensures Gathered([], members, 0) == members
  {
    GatheredIsAll(members, 0);
    assert members[..0] == [];
  }

  lemma {:induction false} EmplacesLast(members: seq<Member>, k: nat)
    requires k < |members| && Ordered(members)
    ensures Emplaced(members[..k], members[k]) == members[..k + 1]
  {
    forall j | 0 <= j < k
      ensures Less(members[..k][j].key, members[k].key)
    {
      assert Less(members[j].key, members[k].key);
    }
    EmplacesAtEnd(members[..k], members[k]);
    assert members[..k + 1] == members[..k] + [members[k]];
  }

  lemma {:induction false} EmplacesAtEnd(members: seq<Member>, m: Member)
    requires forall j :: 0 <= j < |members| ==> Less(members[j].key, m.key)
    ensures Emplaced(members, m) == members + [m]
  {
    if members != [] {
      EmplacesAtEnd(members[1..], m);
      assert members == [members[0]] + members[1..];
    }
  }

  lemma {:induction false} MemberEnds(n: Numerals, t: string, p: nat, done: seq<Member>, m: Member, w: string, q: nat)
    requires MemberFrom(n, t, w, m) && p <= |t| && At(t, Skip(t, p), w) && q == Skip(t, p) + |w| && Ends(t, q)
    requires Has(t, Skip(t, q), '}')
    ensures ReadMembers(n, t, p, done) == Read(Object(Emplaced(done, m)), Skip(t, q) + 1)
  {
    LastMember(n, t, p, done, m, q);
  }

  lemma {:induction false} MemberGoesOn(n: Numerals, t: string, p: nat, done: seq<Member>, m: Member, w: string, q: nat)
    requires MemberFrom(n, t, w, m) && p <= |t| && At(t, Skip(t, p), w) && q == Skip(t, p) + |w| && Ends(t, q)
    requires Has(t, Skip(t, q), ',')
    ensures ReadMembers(n, t, p, done) == ReadMembers(n, t, Skip(t, q) + 1, Emplaced(done, m))
  {
    NextMember(n, t, p, done, m, q);
  }

  /** One text of a list: reading ends with it, or goes on at `next`. */
  lemma {:induction false} MemberRound(n: Numerals, t: string, p: nat, done: seq<Member>, v: Member, texts: seq<string>, k: nat, end: nat) returns (next: nat)
    requires k < |texts| && MemberFrom(n, t, texts[k], v) && Laid(t, p, texts, k, '}', end)
    ensures k + 1 == |texts| ==> p <= |t| && ReadMembers(n, t, p, done) == Read(Object(Emplaced(done, v)), end)
    ensures k + 1 < |texts| ==>
      && p <= |t| && next <= |t| && Laid(t, next, texts, k + 1, '}', end)
      && ReadMembers(n, t, p, done) == ReadMembers(n, t, next, Emplaced(done, v))
  {
    var q := Skip(t, p) + |texts[k]|;
    next := 0;
    if k + 1 == |texts| {
      MemberEnds(n, t, p, done, v, texts[k], q);
    } else {
      MemberGoesOn(n, t, p, done, v, texts[k], q);
      next := Skip(t, q) + 1;
    }
  }

  lemma {:induction false} ReadsMembers(n: Numerals, t: string, p: nat, done: seq<Member>, members: seq<Member>, texts: seq<string>, k: nat, end: nat)
    requires |texts| == |members| && k < |members|
    requires forall i :: 0 <= i < |members| ==> MemberFrom(n, t, texts[i], members[i])
    requires Laid(t, p, texts, k, '}', end)
    ensures p <= |t| && ReadMembers(n, t, p, done) == Read(Object(Gathered(done, members, k)), end)
    decreases |members| - k
  {
    var next := MemberRound(n, t, p, done, members[k], texts, k, end);
    if k + 1 < |members| {
      ReadsMembers(n, t, next, Emplaced(done, members[k]), members, texts, k + 1, end);
    }
  }

  lemma {:induction false} AfterColon(t: string, p: nat, indent: nat, w: string)
    requires At(t, p, Colon(indent) + w) && Opens(w)
    ensures Skip(t, p) == p && Has(t, p, ':')
    ensures Skip(t, p + 1) == p + |Colon(indent)| && At(t, p + |Colon(indent)|, w)
  {
    var colon := Colon(indent);
    AtParts(t, p, colon, w);
    FirstAt(t, p, colon);
    FirstAt(t, p + |colon|, w);
    AtEach(t, p, colon);
    assert indent > 0 ==> t[p + 1] == colon[1];
    SkipsTo(t, p + 1, p + |colon|);
  }

  /** A key, its colon and what stands where the value is read. */
  lemma {:induction false} ReadsKey(t: string, p: nat, key: string, indent: nat, w: string)
    requires p <= |t| && At(t, Skip(t, p), Quoted(key) + (Colon(indent) + w)) && Opens(w)
    ensures var colon := Skip(t, p) + |Quoted(key)|;
            && ReadKey(t, p) == Read(key, colon + 1) && Skip(t, colon + 1) == colon + |Colon(indent)|
            && At(t, colon + |Colon(indent)|, w)
  {
    AtParts(t, Skip(t, p), Quoted(key), Colon(indent) + w);
    StringRoundTrip(t, Skip(t, p), key);
    AfterColon(t, Skip(t, p) + |Quoted(key)|, indent, w);
  }

  lemma {:induction false} ReadsMember(n: Numerals, m: Member, indent: nat, w: string, t: string)
    requires ReadFrom(n, t, w, m.value)
    ensures MemberFrom(n, t, Quoted(m.key) + (Colon(indent) + w), m)
  {
    var member := Quoted(m.key) + (Colon(indent) + w);
    forall p: nat | p <= |t| && At(t, Skip(t, p), member) && Ends(t, Skip(t, p) + |member|)
      ensures ReadMember(n, t, p) == Read(m, Skip(t, p) + |member|)
    {
      ReadsKey(t, p, m.key, indent, w);
    }
  }

  // Whole values.

  lemma {:induction false} EmptyListed(n: Numerals, t: string, p: nat, open: char, close: char)
    requires At(t, p, [open, close]) && ((open == '[' && close == ']') || (open == '{' && close == '}'))
    ensures ReadValue(n, t, p) == Read(if open == '[' then Array([]) else Object([]), p + 2)
  {
    var w := [open, close];
    AtEach(t, p, w);
    assert t[p + 0] == w[0] && t[p + 1] == w[1];
  }

  lemma {:induction false} OpensListed(n: Numerals, t: string, p: nat)
    requires p < |t|
    ensures t[p] == '[' && !Has(t, Skip(t, p + 1), ']') ==> ReadValue(n, t, p) == ReadItems(n, t, Skip(t, p + 1), [])
    ensures t[p] == '{' && !Has(t, Skip(t, p + 1), '}') ==> ReadValue(n, t, p) == ReadMembers(n, t, Skip(t, p + 1), [])
  {
  }

  lemma {:induction false} LaidArray(n: Numerals, items: seq<Json>, texts: seq<string>, t: string, p: nat, end: nat)
    requires |texts| == |items| > 0 && forall i :: 0 <= i < |items| ==> ReadFrom(n, t, texts[i], items[i])
    requires Has(t, p, '[') && !Has(t, Skip(t, p + 1), ']') && Laid(t, Skip(t, p + 1), texts, 0, ']', end)
    ensures ReadValue(n, t, p) == Read(Array(Pushed([], items, 0)), end)
  {
    OpensListed(n, t, p);
    ReadsItems(n, t, Skip(t, p + 1), [], items, texts, 0, end);
  }

  lemma {:induction false} ItemsOpen(n: Numerals, items: seq<Json>, texts: seq<string>, t: string)
    requires |texts| == |items| && forall i :: 0 <= i < |items| ==> ReadFrom(n, t, texts[i], items[i])
    ensures forall i :: 0 <= i < |texts| ==> Opens(texts[i])
  {
    forall i | 0 <= i < |texts|
      ensures Opens(texts[i])
    {
      assert ReadFrom(n, t, texts[i], items[i]);
    }
  }

  lemma {:induction false} ReadsArray(n: Numerals, items: seq<Json>, texts: seq<string>, indent: nat, depth: nat, t: string, p: nat, end: nat)
    requires |texts| == |items| && forall i :: 0 <= i < |items| ==> ReadFrom(n, t, texts[i], items[i])
    requires At(t, p, Listed('[', texts, ']', indent, depth)) && end == p + |Listed('[', texts, ']', indent, depth)|
    ensures ReadValue(n, t, p) == Read(Array(Pushed([], items, 0)), end)
  {
    if items == [] {
      EmptyListed(n, t, p, '[', ']');
    } else {
      ItemsOpen(n, items, texts, t);
      ListedIsLaid(t, p, '[', texts, ']', indent, depth, end);
      LaidArray(n, items, texts, t, p, end);
    }
  }

  lemma {:induction false} LaidObject(n: Numerals, members: seq<Member>, texts: seq<string>, t: string, p: nat, end: nat)
    requires |texts| == |members| > 0 && forall i :: 0 <= i < |members| ==> MemberFrom(n, t, texts[i], members[i])
    requires Has(t, p, '{') && !Has(t, Skip(t, p + 1), '}') && Laid(t, Skip(t, p + 1), texts, 0, '}', end)
    ensures ReadValue(n, t, p) == Read(Object(Gathered([], members, 0)), end)
  {
    OpensListed(n, t, p);
    ReadsMembers(n, t, Skip(t, p + 1), [], members, texts, 0, end);
  }

  lemma {:induction false} MembersOpen(n: Numerals, members: seq<Member>, texts: seq<string>, t: string)
    requires |texts| == |members| && forall i :: 0 <= i < |members| ==> MemberFrom(n, t, texts[i], members[i])
    ensures forall i :: 0 <= i < |texts| ==> Opens(texts[i])
  {
    forall i | 0 <= i < |texts|
      ensures Opens(texts[i])
    {
      assert MemberFrom(n, t, texts[i], members[i]);
    }
  }

  lemma {:induction false} ReadsObject(n: Numerals, members: seq<Member>, texts: seq<string>, indent: nat, depth: nat, t: string, p: nat, end: nat)
    requires |texts| == |members| && forall i :: 0 <= i < |members| ==> MemberFrom(n, t, texts[i], members[i])
    requires At(t, p, Listed('{', texts, '}', indent, depth)) && end == p + |Listed('{', texts, '}', indent, depth)|
    ensures ReadValue(n, t, p) == Read(Object(Gathered([], members, 0)), end)
  {
    if members == [] {
      EmptyListed(n, t, p, '{', '}');
    } else {
      MembersOpen(n, members, texts, t);
      ListedIsLaid(t, p, '{', texts, '}', indent, depth, end);
      LaidObject(n, members, texts, t, p, end);
    }
  }

  lemma {:induction false} ReadsScalar(n: Numerals, v: Json, w: string, t: string)
    requires Writable(n, v) && !v.Array? && !v.Object? && w == Printed(n, v, 0, 0)
    ensures ReadFrom(n, t, w, v)
  {
    forall p: nat | At(t, p, w) && Ends(t, p + |w|)
      ensures ReadValue(n, t, p) == Read(v, p + |w|)
    {
      FirstAt(t, p, w);
      if v.Text? {
        StringRoundTrip(t, p, v.s);
      }
    }
  }

  /** Every value is read back from its text, compact or indented, in any surroundings. */
  lemma {:induction false} ReadsPrinted(n: Numerals, v: Json, indent: nat, depth: nat, t: string)
    requires Writable(n, v)
    ensures ReadFrom(n, t, Printed(n, v, indent, depth), v)
    decreases v
  {
    match v
    case Array(items) =>
      forall i | 0 <= i < |items|
        ensures ReadFrom(n, t, Printed(n, items[i], indent, depth + 1), items[i])
      {
        ReadsPrinted(n, items[i], indent, depth + 1, t);
      }
      var texts := PrintedItems(n, v, indent, depth + 1);
      var w := Listed('[', texts, ']', indent, depth);
      forall p: nat | At(t, p, w)
        ensures ReadValue(n, t, p) == Read(v, p + |w|)
      {
        ReadsArray(n, items, texts, indent, depth, t, p, p + |w|);
        PushedAll(items);
      }
    case Object(members) =>
      forall i | 0 <= i < |members|
        ensures MemberFrom(n, t, PrintedMember(n, members[i], indent, depth + 1), members[i])
      {
        ReadsPrinted(n, members[i].value, indent, depth + 1, t);
        ReadsMember(n, members[i], indent, Printed(n, members[i].value, indent, depth + 1), t);
      }
      var texts := PrintedMembers(n, v, indent, depth + 1);
      var w := Listed('{', texts, '}', indent, depth);
      forall p: nat | At(t, p, w)
        ensures ReadValue(n, t, p) == Read(v, p + |w|)
      {
        ReadsObject(n, members, texts, indent, depth, t, p, p + |w|);
        GatheredAll(members);
      }
    case _ =>
      ReadsScalar(n, v, Printed(n, v, indent, depth), t);
  }

  /** Parsing undoes dumping: for every value and every indentation. */
  lemma {:induction false} ParsingUndoesDumping(n: Numerals, v: Json, indent: nat)
    requires Writable(n, v)
    ensures Parsed(n, Dumped(n, v, indent)) == Read(v, |Dumped(n, v, indent)|)
  {
    var t, w := Dumped(n, v, indent), Printed(n, v, indent, 0);
    ReadsPrinted(n, v, indent, 0, t);
    AtIsSlice(t, 0, w);
    assert t[0..|w|] == w;
    FirstAt(t, 0, w);
    assert Skip(t, |w|) == |t|;
  }

  // The numbers of the original.

  ghost predicate FiniteDoubles(c: Conversion, v: Json) {
    match v
    case Number(d) => d.Finite? && d.magnitude >= 0.0 && IsDouble(c, d.magnitude)
    case Array(items) => forall i :: 0 <= i < |items| ==> FiniteDoubles(c, items[i])
    case Object(members) => Ordered(members) && forall i {:trigger FiniteDoubles(c, members[i].value)} :: 0 <= i < |members| ==> FiniteDoubles(c, members[i].value)
    case _ => true
  }

  lemma {:induction false} SurvivesAs(n: Numerals, d: Double, w: string)
    requires w == n.write(d) && StartsNumber(w)
    requires forall t: string, p: nat :: At(t, p, w) && Ends(t, p + |w|) ==> n.read(t, p) == Read(d, p + |w|)
    ensures Survives(n, d)
  {
  }

  lemma {:induction false} DenotedSurvives(c: Conversion, d: Double, r: Rendering)
    requires Denotes(c, r, d) && Spelled(r) == Standard(c).write(d)
    ensures Survives(Standard(c), d)
  {
    var w := Spelled(r);
    SpelledStarts(r);
    forall t: string, p: nat | At(t, p, w) && Ends(t, p + |w|)
      ensures Standard(c).read(t, p) == Read(d, p + |w|)
    {
      ReadsDenoted(c, r, d, t, p);
    }
    SurvivesAs(Standard(c), d, w);
  }

  lemma {:induction false} DoublesSurvive(c: Conversion, d: Double)
    requires Faithful(c) && d.Finite? && d.magnitude >= 0.0 && IsDouble(c, d.magnitude)
    ensures Survives(Standard(c), d)
  {
    var r := NumberTextDenotes(c, d);
    DenotedSurvives(c, d, r);
  }

  lemma {:induction false} FiniteIsWritable(c: Conversion, v: Json)
    requires Faithful(c) && FiniteDoubles(c, v)
    ensures Writable(Standard(c), v)
    decreases v
  {
    match v
    case Number(d) => DoublesSurvive(c, d);
    case Array(items) =>
      forall i | 0 <= i < |items|
        ensures Writable(Standard(c), items[i])
      {
        FiniteIsWritable(c, items[i]);
      }
    case Object(members) =>
      forall i | 0 <= i < |members|
        ensures Writable(Standard(c), members[i].value)
      {
        FiniteIsWritable(c, members[i].value);
      }
    case _ =>
  }

  /** With the conversions of the standard library: every value of finite doubles survives. */
  lemma {:induction false} DumpsParseBack(c: Conversion, v: Json, indent: nat)
    requires Faithful(c) && FiniteDoubles(c, v)
    ensures var t := Dumped(Standard(c), v, indent); Parsed(Standard(c), t) == Read(v, |t|)
  {
    FiniteIsWritable(c, v);
    ParsingUndoesDumping(Standard(c), v, indent);
  }

  // What the parser returns can be written.

  lemma {:induction false} LessTransitive(a: string, b: string, c: string)
    requires Less(a, b) && Less(b, c)
    ensures Less(a, c)
  {
    if a != "" && a[0] == b[0] == c[0] { LessTransitive(a[1..], b[1..], c[1..]); }
  }

  lemma {:induction false} LessTotal(a: string, b: string)
    requires a != b
    ensures Less(a, b) || Less(b, a)
  {
    if a != "" && b != "" && a[0] == b[0] {
      assert a == [a[0]] + a[1..] && b == [b[0]] + b[1..];
      LessTotal(a[1..], b[1..]);
    }
  }

  /** Every key that is not new stays, so only `m` can be added. */
  lemma {:induction false} EmplacedFrom(members: seq<Member>, m: Member, x: Member)
    requires x in Emplaced(members, m)
    ensures x == m || x in members
  {
    if members != [] && Less(members[0].key, m.key) && x != members[0] {
      EmplacedFrom(members[1..], m, x);
    }
  }

  /** Members stay in the order of their keys, without two of the same key. */
  lemma {:induction false} EmplacedOrdered(members: seq<Member>, m: Member)
    requires Ordered(members)
    ensures Ordered(Emplaced(members, m))
  {
    if members != [] {
      var first, rest := members[0], members[1..];
      forall i | 0 <= i < |rest|
        ensures Less(first.key, rest[i].key)
      {
        assert Less(members[0].key, members[i + 1].key);
      }
      if Less(first.key, m.key) {
        OrderedTail(members);
        EmplacedOrdered(rest, m);
        forall i | 0 <= i < |Emplaced(rest, m)|
          ensures Less(first.key, Emplaced(rest, m)[i].key)
        {
          EmplacedFrom(rest, m, Emplaced(rest, m)[i]);
        }
        OrderedCons(first, Emplaced(rest, m));
      } else if first.key != m.key {
        LessTotal(first.key, m.key);
        forall i | 0 <= i < |members|
          ensures Less(m.key, members[i].key)
        {
          if i > 0 {
            LessTransitive(m.key, first.key, rest[i - 1].key);
          }
        }
        OrderedCons(m, members);
      }
    }
  }

  lemma {:induction false} OrderedTail(members: seq<Member>)
    requires members != [] && Ordered(members)
    ensures Ordered(members[1..])
  {
    forall i, j | 0 <= i < j < |members[1..]|
      ensures Less(members[1..][i].key, members[1..][j].key)
    {
      assert Less(members[i + 1].key, members[j + 1].key);
    }
  }

  lemma {:induction false} OrderedCons(m: Member, members: seq<Member>)
    requires Ordered(members) && forall i :: 0 <= i < |members| ==> Less(m.key, members[i].key)
    ensures Ordered([m] + members)
  {
    forall i, j | 0 <= i < j < |[m] + members|
      ensures Less(([m] + members)[i].key, ([m] + members)[j].key)
    {
      assert i > 0 ==> Less(members[i - 1].key, members[j - 1].key);
    }
  }

  /** Numbers that are read are doubles. */
  ghost predicate GivesDoubles(n: Numerals, c: Conversion) {
    forall t: string, p: nat :: n.read(t, p).Read? ==>
      var d := n.read(t, p).value; d.Finite? && d.magnitude >= 0.0 && IsDouble(c, d.magnitude)
  }

  lemma {:induction false} StandardGivesDoubles(c: Conversion)
    requires Faithful(c)
    ensures GivesDoubles(Standard(c), c)
  {
    forall t: string, p: nat | Standard(c).read(t, p).Read?
      ensures var d := Standard(c).read(t, p).value; d.Finite? && d.magnitude >= 0.0 && IsDouble(c, d.magnitude)
    {
      assert p <= |t| && Standard(c).read(t, p) == ReadNumber(c, t, p);
      NumberIsDouble(c, t, p);
    }
  }

  lemma {:induction false} ValueIsFinite(n: Numerals, c: Conversion, t: string, p: nat)
    requires GivesDoubles(n, c) && p <= |t| && ReadValue(n, t, p).Read?
    ensures FiniteDoubles(c, ReadValue(n, t, p).value)
    decreases |t| - p, 1
  {
    var q := Skip(t, p);
    if q < |t| {
      var first := Skip(t, q + 1);
      if t[q] == '{' && !Has(t, first, '}') {
        MembersAreFinite(n, c, t, first, []);
      } else if t[q] == '[' && !Has(t, first, ']') {
        ItemsAreFinite(n, c, t, first, []);
      } else if t[q] != '{' && t[q] != '[' {
        ScalarIsFinite(n, c, t, q);
      }
    }
  }

  lemma {:induction false} NumeralIsFinite(n: Numerals, c: Conversion, t: string, p: nat)
    requires GivesDoubles(n, c) && ReadNumeral(n, t, p).Read?
    ensures FiniteDoubles(c, ReadNumeral(n, t, p).value)
  {
    assert n.read(t, p).Read?;
  }

  lemma {:induction false} ScalarIsFinite(n: Numerals, c: Conversion, t: string, p: nat)
    requires GivesDoubles(n, c) && p < |t| && ReadScalar(n, t, p).Read?
    ensures FiniteDoubles(c, ReadScalar(n, t, p).value)
  {
    if t[p] != '"' && t[p] != 't' && t[p] != 'f' && t[p] != 'n' {
      NumeralIsFinite(n, c, t, p);
    }
  }

  lemma {:induction false} ItemsAreFinite(n: Numerals, c: Conversion, t: string, p: nat, items: seq<Json>)
    requires GivesDoubles(n, c) && p <= |t| && ReadItems(n, t, p, items).Read? && FiniteDoubles(c, Array(items))
    ensures FiniteDoubles(c, ReadItems(n, t, p, items).value)
    decreases |t| - p, 3
  {
    ValueIsFinite(n, c, t, Skip(t, p));
    var v := ReadValue(n, t, Skip(t, p));
    var next := Skip(t, v.next);
    if !Has(t, next, ']') {
      ItemsAreFinite(n, c, t, next + 1, items + [v.value]);
    }
  }

  lemma {:induction false} EmplacedFinite(c: Conversion, members: seq<Member>, m: Member)
    requires FiniteDoubles(c, Object(members)) && FiniteDoubles(c, m.value)
    ensures FiniteDoubles(c, Object(Emplaced(members, m)))
  {
    EmplacedOrdered(members, m);
    var grown := Emplaced(members, m);
    forall i | 0 <= i < |grown|
      ensures FiniteDoubles(c, grown[i].value)
    {
      EmplacedFrom(members, m, grown[i]);
    }
  }

  lemma {:induction false} MemberIsFinite(n: Numerals, c: Conversion, t: string, p: nat)
    requires GivesDoubles(n, c) && p <= |t| && ReadMember(n, t, p).Read?
    ensures FiniteDoubles(c, ReadMember(n, t, p).value.value)
    decreases |t| - p, 2
  {
    ValueIsFinite(n, c, t, Skip(t, ReadKey(t, p).next));
  }

  /** One round of the loop over members. */
  lemma {:induction false} MembersUnfold(n: Numerals, t: string, p: nat, members: seq<Member>)
    requires p <= |t| && ReadMembers(n, t, p, members).Read?
    ensures var m := ReadMember(n, t, p);
      && m.Read?
      && var next, grown := Skip(t, m.next), Emplaced(members, m.value);
      && next < |t| && (ReadMembers(n, t, p, members).value == Object(grown)
                        || ReadMembers(n, t, p, members) == ReadMembers(n, t, next + 1, grown))
  {
  }

  lemma {:induction false} MembersAreFinite(n: Numerals, c: Conversion, t: string, p: nat, members: seq<Member>)
    requires GivesDoubles(n, c) && p <= |t| && ReadMembers(n, t, p, members).Read? && FiniteDoubles(c, Object(members))
    ensures FiniteDoubles(c, ReadMembers(n, t, p, members).value)
    decreases |t| - p, 3
  {
    MembersUnfold(n, t, p, members);
    MemberIsFinite(n, c, t, p);
    var m := ReadMember(n, t, p);
    EmplacedFinite(c, members, m.value);
    if ReadMembers(n, t, p, members).value != Object(Emplaced(members, m.value)) {
      MembersAreFinite(n, c, t, Skip(t, m.next) + 1, Emplaced(members, m.value));
    }
  }

  /** Whatever is parsed can be dumped, and parsing the dump gives it again. */
  lemma {:induction false} ParsedValuesDump(c: Conversion, t: string, indent: nat)
    requires Faithful(c) && Parsed(Standard(c), t).Read?
    ensures var v := Parsed(Standard(c), t).value;
            var again := Dumped(Standard(c), v, indent);
            FiniteDoubles(c, v) && Parsed(Standard(c), again) == Read(v, |again|)
  {
    StandardGivesDoubles(c);
    ValueIsFinite(Standard(c), c, t, Skip(t, 0));
    DumpsParseBack(c, Parsed(Standard(c), t).value, indent);
  }
}
