/** JSON values: what the writer prints, compact or indented, and what the parser makes of a text. */
module Jsons {
  import opened Texts
  import opened JsonStrings
  import opened JsonNumbers

  datatype Member = Member(key: string, value: Json)

  /** `Variant`; the members of an object are kept in the order of their keys. */
  datatype Json =
    | Null
    | Bool(b: bool)
    | Number(d: Double)
    | Text(s: string)
    | Array(items: seq<Json>)
    | Object(members: seq<Member>)

  /** The order of `std::string`. */
  predicate Less(a: string, b: string) {
    if b == "" then false
    else if a == "" then true
    else if a[0] != b[0] then a[0] < b[0]
    else Less(a[1..], b[1..])
  }

  predicate Ordered(members: seq<Member>) {
    forall i, j {:trigger Less(members[i].key, members[j].key)} :: 0 <= i < j < |members| ==>
      Less(members[i].key, members[j].key)
  }

  /** How numbers are written and read; `Standard` is the way of the original. */
  datatype Numerals = Numerals(write: Double -> string, read: (string, nat) -> Read<Double>)

  function Standard(c: Conversion): Numerals {
    Numerals(d => NumberText(c, d), (t: string, p: nat) => if p <= |t| then ReadNumber(c, t, p) else Failed(InvalidNumber))
  }

  /** The number survives: wherever its text stands and ends, it is read back. */
  ghost predicate Survives(n: Numerals, d: Double) {
    && StartsNumber(n.write(d))
    && forall t: string, p: nat :: At(t, p, n.write(d)) && Ends(t, p + |n.write(d)|) ==> n.read(t, p) == Read(d, p + |n.write(d)|)
  }

  predicate StartsNumber(w: string) {
    w != "" && (IsDigit(w[0]) || w[0] == '-')
  }

  /** What `FlatMap` guarantees, and numbers that survive. */
  ghost predicate Writable(n: Numerals, v: Json) {
    match v
    case Number(d) => Survives(n, d)
    case Array(items) => forall i :: 0 <= i < |items| ==> Writable(n, items[i])
    case Object(members) => Ordered(members) && forall i :: 0 <= i < |members| ==> Writable(n, members[i].value)
    case _ => true
  }

  // Writing.

  function Blanked(n: nat, rest: string): string {
    if n == 0 then rest else " " + Blanked(n - 1, rest)
  }

  function Indented(indent: nat, depth: nat, rest: string): string {
    if depth == 0 then rest else Blanked(indent, Indented(indent, depth - 1, rest))
  }

  /** `rest` on a new line, behind the indentation; compact text has no line breaks. */
  function Broken(indent: nat, depth: nat, rest: string): string {
    if indent == 0 then rest else "\n" + Indented(indent, depth, rest)
  }

  function Colon(indent: nat): string {
    if indent == 0 then ":" else ": "
  }

  /** The texts from `k` on with what separates them, up to the closing bracket. */
  function Joined(texts: seq<string>, k: nat, close: char, indent: nat, depth: nat): string
    requires k < |texts|
    decreases |texts| - k
  {
    texts[k] + After(texts, k, close, indent, depth)
  }

  function After(texts: seq<string>, k: nat, close: char, indent: nat, depth: nat): string
    requires k < |texts|
    decreases |texts| - k, 0
  {
    if k + 1 == |texts| then Broken(indent, depth, [close])
    else "," + Broken(indent, depth + 1, Joined(texts, k + 1, close, indent, depth))
  }

  function Listed(open: char, texts: seq<string>, close: char, indent: nat, depth: nat): string {
    if texts == [] then [open, close] else [open] + Broken(indent, depth + 1, Joined(texts, 0, close, indent, depth))
  }

  function Printed(n: Numerals, v: Json, indent: nat, depth: nat): string
    decreases v, 1
  {
    match v
    case Null => "null"
    case Bool(b) => if b then "true" else "false"
    case Number(d) => n.write(d)
    case Text(s) => Quoted(s)
    case Array(items) => Listed('[', PrintedItems(n, v, indent, depth + 1), ']', indent, depth)
    case Object(members) => Listed('{', PrintedMembers(n, v, indent, depth + 1), '}', indent, depth)
  }

  function PrintedItems(n: Numerals, v: Json, indent: nat, depth: nat): seq<string>
    requires v.Array?
    decreases v, 0
  {
    seq(|v.items|, i requires 0 <= i < |v.items| => Printed(n, v.items[i], indent, depth))
  }

  function PrintedMembers(n: Numerals, v: Json, indent: nat, depth: nat): seq<string>
    requires v.Object?
    decreases v, 0
  {
    seq(|v.members|, i requires 0 <= i < |v.members| => PrintedMember(n, v.members[i], indent, depth))
  }

  function PrintedMember(n: Numerals, m: Member, indent: nat, depth: nat): string
    decreases m, 0
  {
    Quoted(m.key) + (Colon(indent) + Printed(n, m.value, indent, depth))
  }

  function Dumped(n: Numerals, v: Json, indent: nat): string {
    Printed(n, v, indent, 0) + if indent == 0 then "" else "\n"
  }

  // Reading.

  predicate IsSpace(ch: char) {
    ch == ' ' || '\t' <= ch <= '\r'
  }

  function Skip(t: string, p: nat): (q: nat)
    requires p <= |t|
    ensures p <= q <= |t|
    decreases |t| - p
  {
    if p < |t| && IsSpace(t[p]) then Skip(t, p + 1) else p
  }

  predicate Has(t: string, p: nat, ch: char) {
    p < |t| && t[p] == ch
  }

  /** Inserts before the first member whose key is not less; a member with that very key stays instead. */
  function Emplaced(members: seq<Member>, m: Member): seq<Member> {
    if members == [] then [m]
    else if Less(members[0].key, m.key) then [members[0]] + Emplaced(members[1..], m)
    else if members[0].key == m.key then members
    else [m] + members
  }

  function Literal(t: string, p: nat, token: string, v: Json): (r: Read<Json>)
    requires p < |t| && token != ""
    ensures r.Read? ==> p < r.next <= |t|
  {
    if At(t, p, token) then Read(v, p + |token|) else Failed(Expected(token))
  }

  function ReadText(t: string, p: nat): (r: Read<Json>)
    requires p <= |t|
    ensures r.Read? ==> p < r.next <= |t|
  {
    match ReadString(t, p)
    case Failed(e) => Failed(e)
    case Read(s, next) => Read(Text(s), next)
  }

  /** A reader of numbers can only go forward in the text. */
  function ReadNumeral(n: Numerals, t: string, p: nat): (r: Read<Json>)
    ensures r.Read? ==> p < r.next <= |t|
  {
    match n.read(t, p)
    case Failed(e) => Failed(e)
    case Read(d, next) => if p < next <= |t| then Read(Number(d), next) else Failed(InvalidNumber)
  }

  function ReadScalar(n: Numerals, t: string, p: nat): (r: Read<Json>)
    requires p < |t|
    ensures r.Read? ==> p < r.next <= |t|
  {
    if t[p] == '"' then ReadText(t, p)
    else if t[p] == 't' then Literal(t, p, "true", Bool(true))
    else if t[p] == 'f' then Literal(t, p, "false", Bool(false))
    else if t[p] == 'n' then Literal(t, p, "null", Null)
    else ReadNumeral(n, t, p)
  }

  function ReadValue(n: Numerals, t: string, p: nat): (r: Read<Json>)
    requires p <= |t|
    ensures r.Read? ==> p < r.next <= |t|
    decreases |t| - p, 1
  {
    var q := Skip(t, p);
    if q == |t| then Failed(UnexpectedEnd)
    else if t[q] == '{' then
      var first := Skip(t, q + 1);
      if Has(t, first, '}') then Read(Object([]), first + 1) else ReadMembers(n, t, first, [])
    else if t[q] == '[' then
      var first := Skip(t, q + 1);
      if Has(t, first, ']') then Read(Array([]), first + 1) else ReadItems(n, t, first, [])
    else ReadScalar(n, t, q)
  }

  function ReadItems(n: Numerals, t: string, p: nat, items: seq<Json>): (r: Read<Json>)
    requires p <= |t|
    ensures r.Read? ==> p < r.next <= |t|
    decreases |t| - p, 3
  {
    match ReadValue(n, t, Skip(t, p))
    case Failed(e) => Failed(e)
    case Read(v, q) =>
      var next := Skip(t, q);
      if Has(t, next, ']') then Read(Array(items + [v]), next + 1)
      else if !Has(t, next, ',') then Failed(Expected(","))
      else ReadItems(n, t, next + 1, items + [v])
  }

  /** A key and the colon after it. */
  function ReadKey(t: string, p: nat): (r: Read<string>)
    requires p <= |t|
    ensures r.Read? ==> p < r.next <= |t|
  {
    match ReadString(t, Skip(t, p))
    case Failed(e) => Failed(e)
    case Read(key, q) =>
      var colon := Skip(t, q);
      if Has(t, colon, ':') then Read(key, colon + 1) else Failed(Expected(":"))
  }

  function ReadMember(n: Numerals, t: string, p: nat): (r: Read<Member>)
    requires p <= |t|
    ensures r.Read? ==> p < r.next <= |t|
    decreases |t| - p, 2
  {
    match ReadKey(t, p)
    case Failed(e) => Failed(e)
    case Read(key, start) =>
      match ReadValue(n, t, Skip(t, start))
      case Failed(e) => Failed(e)
      case Read(v, q) => Read(Member(key, v), q)
  }

  function ReadMembers(n: Numerals, t: string, p: nat, members: seq<Member>): (r: Read<Json>)
    requires p <= |t|
    ensures r.Read? ==> p < r.next <= |t|
    decreases |t| - p, 3
  {
    match ReadMember(n, t, p)
    case Failed(e) => Failed(e)
    case Read(m, q) =>
      var next := Skip(t, q);
      if Has(t, next, '}') then Read(Object(Emplaced(members, m)), next + 1)
      else if !Has(t, next, ',') then Failed(Expected(","))
      else ReadMembers(n, t, next + 1, Emplaced(members, m))
  }

  function Parsed(n: Numerals, t: string): Read<Json> {
    match ReadValue(n, t, Skip(t, 0))
    case Failed(e) => Failed(e)
    case Read(v, q) => if Skip(t, q) == |t| then Read(v, |t|) else Failed(TrailingCharacters)
  }
}
