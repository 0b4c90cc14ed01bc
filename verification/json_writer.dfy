/** The writer as an object that appends to its buffer. */
module JsonWriters {
  import opened Texts
  import opened JsonStrings
  import opened JsonNumbers
  import opened Jsons

  /** The line break and the indentation. */
  function Break(indent: nat, depth: nat): string {
    Broken(indent, depth, "")
  }

  /** Writing `a` and then `rest` behind `x` is writing `b` there. */
  predicate Amounts(x: string, a: string, rest: string, b: string) {
    x + a + rest == x + b
  }

  lemma {:induction false} BlankedThen(x: string, n: nat, a: string, rest: string, b: string)
    requires forall y: string :: Amounts(y, a, rest, b)
    ensures x + Blanked(n, a) + rest == x + Blanked(n, b)
    decreases n
  {
    if n == 0 {
      assert Amounts(x, a, rest, b);
    } else {
      BlankedThen(x + " ", n - 1, a, rest, b);
      Regrouped(x, " ", Blanked(n - 1, a));
      Regrouped(x, " ", Blanked(n - 1, b));
    }
  }

  lemma {:induction false} IndentedThen(x: string, indent: nat, depth: nat, rest: string)
    ensures x + Indented(indent, depth, "") + rest == x + Indented(indent, depth, rest)
    decreases depth
  {
    if depth == 0 {
      assert x + "" == x;
    } else {
      var a, b := Indented(indent, depth - 1, ""), Indented(indent, depth - 1, rest);
      forall y: string
        ensures Amounts(y, a, rest, b)
      {
        IndentedThen(y, indent, depth - 1, rest);
      }
      BlankedThen(x, indent, a, rest, b);
    }
  }

  /** Writing a break and then a text is writing the text on a new line. */
  lemma {:induction false} BreakThen(x: string, indent: nat, depth: nat, rest: string)
    ensures x + Break(indent, depth) + rest == x + Broken(indent, depth, rest)
  {
    if indent == 0 {
      assert x + "" == x;
    } else {
      IndentedThen(x + "\n", indent, depth, rest);
      Regrouped(x, "\n", Indented(indent, depth, ""));
      Regrouped(x, "\n", Indented(indent, depth, rest));
    }
  }

  /** A break is a line end and the indentation of its depth in spaces; compact text has none. */
  lemma {:induction false} BreakIs(indent: nat, depth: nat)
    ensures indent == 0 ==> Break(indent, depth) == ""
    ensures indent > 0 ==> |Break(indent, depth)| == 1 + indent * depth && Break(indent, depth)[0] == '\n'
                           && forall i :: 1 <= i < |Break(indent, depth)| ==> Break(indent, depth)[i] == ' '
  {
    IndentedIs(indent, depth);
  }

  lemma {:induction false} IndentedIs(indent: nat, depth: nat)
    ensures |Indented(indent, depth, "")| == indent * depth && forall i :: 0 <= i < indent * depth ==> Indented(indent, depth, "")[i] == ' '
    decreases depth
  {
    if depth > 0 {
      IndentedIs(indent, depth - 1);
      BlankedIs(indent, Indented(indent, depth - 1, ""));
      assert indent * depth == indent + indent * (depth - 1);
    }
  }

  lemma {:induction false} BlankedIs(n: nat, rest: string)
    ensures |Blanked(n, rest)| == n + |rest| && Blanked(n, rest)[n..] == rest && forall i :: 0 <= i < n ==> Blanked(n, rest)[i] == ' '
    decreases n
  {
    if n > 0 {
      BlankedIs(n - 1, rest);
      assert Blanked(n, rest)[n..] == Blanked(n - 1, rest)[n - 1..];
      forall i | 0 <= i < n
        ensures Blanked(n, rest)[i] == ' '
      {
        if i > 0 { assert Blanked(n, rest)[i] == Blanked(n - 1, rest)[i - 1]; }
      }
    }
  }

  /** What the writer has put after the first `k` texts of a list that it opened at `start`. */
  function Begun(start: string, texts: seq<string>, k: nat, indent: nat, depth: nat): string
    requires k <= |texts|
  {
    if k == 0 then start else Begun(start, texts, k - 1, indent, depth) + Lead(k - 1, indent, depth) + texts[k - 1]
  }

  /** What is written before text `k` of a list. */
  function Lead(k: nat, indent: nat, depth: nat): string {
    if k == 0 then Break(indent, depth + 1) else "," + Break(indent, depth + 1)
  }

  /** One more text, and what is to follow it. */
  lemma {:induction false} BegunStep(x: string, text: string, k: nat, indent: nat, depth: nat, rest: string)
    requires k > 0
    ensures x + text + Lead(k, indent, depth) + rest == x + (text + ("," + Broken(indent, depth + 1, rest)))
  {
    Regrouped(x + text, ",", Break(indent, depth + 1));
    BreakThen(x + text + ",", indent, depth + 1, rest);
    Regrouped(x + text, ",", Broken(indent, depth + 1, rest));
    Regrouped(x, text, "," + Broken(indent, depth + 1, rest));
  }

  /** The text of a list stays the same when one more of its texts has been written. */
  lemma {:induction false} BegunMore(start: string, texts: seq<string>, k: nat, close: char, indent: nat, depth: nat, whole: string)
    requires 0 < k < |texts|
    requires Begun(start, texts, k - 1, indent, depth) + Lead(k - 1, indent, depth) + Joined(texts, k - 1, close, indent, depth) == whole
    ensures Begun(start, texts, k, indent, depth) + Lead(k, indent, depth) + Joined(texts, k, close, indent, depth) == whole
  {
    BegunStep(Begun(start, texts, k - 1, indent, depth) + Lead(k - 1, indent, depth), texts[k - 1], k, indent, depth,
              Joined(texts, k, close, indent, depth));
  }

  lemma {:induction false} BegunJoins(start: string, texts: seq<string>, k: nat, close: char, indent: nat, depth: nat)
    requires k < |texts| && start != ""
    ensures Begun(start, texts, k, indent, depth) + Lead(k, indent, depth) + Joined(texts, k, close, indent, depth)
         == start + Broken(indent, depth + 1, Joined(texts, 0, close, indent, depth))
  {
    if k == 0 {
      BreakThen(start, indent, depth + 1, Joined(texts, 0, close, indent, depth));
    } else {
      BegunJoins(start, texts, k - 1, close, indent, depth);
      BegunMore(start, texts, k, close, indent, depth, start + Broken(indent, depth + 1, Joined(texts, 0, close, indent, depth)));
    }
  }

  /** With its closing bracket the list is complete. */
  lemma {:induction false} BegunEnds(start: string, open: char, texts: seq<string>, close: char, indent: nat, depth: nat)
    ensures Begun(start + [open], texts, |texts|, indent, depth) + (if texts == [] then "" else Break(indent, depth)) + [close]
         == start + Listed(open, texts, close, indent, depth)
  {
    if texts == [] {
      assert start + [open] + "" + [close] == start + [open, close];
    } else {
      var k := |texts| - 1;
      var x := Begun(start + [open], texts, k, indent, depth) + Lead(k, indent, depth);
      BreakThen(x + texts[k], indent, depth, [close]);
      Regrouped(x, texts[k], Broken(indent, depth, [close]));
      BegunJoins(start + [open], texts, k, close, indent, depth);
      Regrouped(start, [open], Broken(indent, depth + 1, Joined(texts, 0, close, indent, depth)));
    }
  }

  lemma {:induction false} AppendsMember(s: string, key: string, colon: string, value: string)
    ensures s + key + colon + value == s + (key + (colon + value))
  {
    Regrouped(s + key, colon, value);
    Regrouped(s, key, colon + value);
  }

  class JsonWriter {
    const conversion: Conversion
    const indent: nat
    var out: string

    constructor (c: Conversion, spaces: nat)
      ensures out == "" && conversion == c && indent == spaces
    {
      conversion, indent, out := c, spaces, "";
    }

    method Put(s: string)
      modifies this
      ensures out == old(out) + s
    {
      out := out + s;
    }

    method EndList(empty: bool, close: char, depth: nat)
      modifies this
      ensures out == old(out) + (if empty then "" else Break(indent, depth)) + [close]
    {
      if !empty {
        Put(Break(indent, depth));
      }
      Put([close]);
    }

    method WriteValue(v: Json, depth: nat)
      modifies this
      ensures out == old(out) + Printed(Standard(conversion), v, indent, depth)
      decreases v, 1
    {
      match v
      case Null => Put("null");
      case Bool(b) => Put(if b then "true" else "false");
      case Number(d) =>
        var s := FormatNumber(conversion, d);
        Put(s);
      case Text(s) =>
        out := WriteString(out, s);
      case Array(items) => WriteArray(v, depth);
      case Object(members) => WriteObject(v, depth);
    }

    method WriteArray(v: Json, depth: nat)
      requires v.Array?
      modifies this
      ensures out == old(out) + Printed(Standard(conversion), v, indent, depth)
      decreases v, 0
    {
      ghost var start, texts := out, PrintedItems(Standard(conversion), v, indent, depth + 1);
      Put("[");
      var k := 0;
      while k < |v.items|
        invariant k <= |v.items| && out == Begun(start + "[", texts, k, indent, depth)
      {
        Put(Lead(k, indent, depth));
        WriteValue(v.items[k], depth + 1);
        k := k + 1;
      }
      EndList(k == 0, ']', depth);
      BegunEnds(start, '[', texts, ']', indent, depth);
    }

    method WriteMember(m: Member, depth: nat)
      modifies this
      ensures out == old(out) + PrintedMember(Standard(conversion), m, indent, depth)
      decreases m, 0
    {
      ghost var start := out;
      out := WriteString(out, m.key);
      Put(Colon(indent));
      WriteValue(m.value, depth);
      AppendsMember(start, Quoted(m.key), Colon(indent), Printed(Standard(conversion), m.value, indent, depth));
    }

    method WriteObject(v: Json, depth: nat)
      requires v.Object?
      modifies this
      ensures out == old(out) + Printed(Standard(conversion), v, indent, depth)
      decreases v, 0
    {
      ghost var start, texts := out, PrintedMembers(Standard(conversion), v, indent, depth + 1);
      Put("{");
      var k := 0;
      while k < |v.members|
        invariant k <= |v.members| && out == Begun(start + "{", texts, k, indent, depth)
      {
        Put(Lead(k, indent, depth));
        WriteMember(v.members[k], depth + 1);
        assert texts[k] == PrintedMember(Standard(conversion), v.members[k], indent, depth + 1);
        k := k + 1;
      }
      EndList(k == 0, '}', depth);
      BegunEnds(start, '{', texts, '}', indent, depth);
    }

    method Dump(v: Json)
      requires out == ""
      modifies this
      ensures out == Dumped(Standard(conversion), v, indent)
    {
      WriteValue(v, 0);
      if indent != 0 {
        Put("\n");
      }
    }
  }
}
