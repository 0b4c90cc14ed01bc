/** The parser as an object that moves along its text. */
module JsonParsers {
  import opened Texts
  import opened JsonStrings
  import opened JsonNumbers
  import opened Jsons

  class JsonParser {
    const conversion: Conversion
    const text: string
    ghost const numerals: Numerals
    var pos: nat

    ghost predicate Valid()
      reads this
    {
      pos <= |text| && numerals == Standard(conversion)
    }

    constructor (c: Conversion, t: string)
      ensures Valid() && pos == 0 && text == t && conversion == c
    {
      conversion, text, pos := c, t, 0;
      numerals := Standard(c);
    }

    method SkipWs()
      requires Valid()
      modifies this
      ensures Valid() && pos == Skip(text, old(pos))
    {
      while pos < |text| && IsSpace(text[pos])
        invariant Valid() && Skip(text, pos) == Skip(text, old(pos))
      {
        pos := pos + 1;
      }
    }

    method Consume(ch: char) returns (found: bool)
      requires Valid()
      modifies this
      ensures Valid() && found == Has(text, old(pos), ch)
      ensures pos == if found then old(pos) + 1 else old(pos)
    {
      found := pos < |text| && text[pos] == ch;
      if found {
        pos := pos + 1;
      }
    }

    method Hex4() returns (r: Read<nat>)
      requires Valid() && pos + 4 <= |text|
      modifies this
      ensures r == ReadHex(text, old(pos), 4, 0)
      ensures Valid() && (r.Read? ==> pos == r.next)
    {
      var code: nat, k: nat := 0, 0;
      ghost var start := pos;
      while k < 4
        invariant k <= 4 && pos == start + k && ReadHex(text, pos, 4 - k, code) == ReadHex(text, start, 4, 0)
      {
        var h := text[pos];
        pos := pos + 1;
        if HexValue(h) < 0 {
          return Failed(InvalidUnicodeEscape);
        }
        code := code * 16 + HexValue(h);
        k := k + 1;
      }
      r := Read(code, pos);
    }

    /** After the `u` of an escape. */
    method ParseCode() returns (r: Read<nat>)
      requires Valid()
      modifies this
      ensures r == ReadCode(text, old(pos))
      ensures Valid() && (r.Read? ==> pos == r.next)
    {
      if pos + 4 > |text| {
        return Failed(IncompleteUnicodeEscape);
      }
      r := Hex4();
      if r.Failed? || !(0xD800 <= r.value <= 0xDBFF) {
        return;
      }
      if pos + 6 > |text| || text[pos] != '\\' || text[pos + 1] != 'u' {
        return Failed(MissingLowSurrogate);
      }
      pos := pos + 2;
      var low := Hex4();
      if low.Failed? {
        return low;
      }
      if low.value < 0xDC00 || low.value > 0xDFFF {
        return Failed(InvalidLowSurrogate);
      }
      r := Read(0x10000 + (r.value - 0xD800) * 0x400 + (low.value - 0xDC00), pos);
    }

    method ParseString() returns (r: Read<string>)
      requires Valid()
      modifies this
      ensures r == ReadString(text, old(pos))
      ensures Valid() && (r.Read? ==> pos == r.next)
    {
      var quote := Consume('"');
      if !quote {
        return Failed(ExpectedString);
      }
      var out := "";
      ghost var start := pos;
      while pos < |text|
        invariant Valid() && ReadChars(text, pos, out) == ReadChars(text, start, "")
        decreases |text| - pos
      {
        var ch := text[pos];
        pos := pos + 1;
        if ch == '"' {
          return Read(out, pos);
        }
        if ch != '\\' {
          out := out + [ch];
        } else {
          if pos >= |text| {
            return Failed(InvalidEscape);
          }
          var escape := text[pos];
          pos := pos + 1;
          if escape == 'u' {
            var code := ParseCode();
            if code.Failed? {
              return Failed(code.error);
            }
            out := out + Utf8(code.value);
          } else if Unescape(escape) == "" {
            return Failed(UnsupportedEscape);
          } else {
            out := out + Unescape(escape);
          }
        }
      }
      r := Failed(UnterminatedString);
    }

    method SkipDigits()
      requires Valid()
      modifies this
      ensures Valid() && pos == old(pos) + |DigitsAt(text, old(pos))|
    {
      while pos < |text| && IsDigit(text[pos])
        invariant Valid() && pos + |DigitsAt(text, pos)| == old(pos) + |DigitsAt(text, old(pos))|
      {
        pos := pos + 1;
      }
    }

    method SkipMantissa()
      requires Valid()
      modifies this
      ensures Valid() && pos == MantissaAt(text, old(pos)).1
    {
      SkipDigits();
      if pos < |text| && text[pos] == '.' {
        pos := pos + 1;
        SkipDigits();
      }
    }

    method SkipExponent()
      requires Valid()
      modifies this
      ensures Valid() && pos == ExponentAt(text, old(pos)).1
    {
      if pos < |text| && (text[pos] == 'e' || text[pos] == 'E') {
        pos := pos + 1;
        if pos < |text| && (text[pos] == '+' || text[pos] == '-') {
          pos := pos + 1;
        }
        SkipDigits();
      }
    }

    /** Passes over the bytes of a number, whose value is then found by `std::from_chars`. */
    method ParseNumber() returns (r: Read<Double>)
      requires Valid()
      modifies this
      ensures r == ReadNumber(conversion, text, old(pos))
      ensures Valid() && (r.Read? ==> pos == r.next)
    {
      var start := pos;
      if pos < |text| && text[pos] == '-' {
        pos := pos + 1;
      }
      SkipMantissa();
      SkipExponent();
      assert pos == ScanNumber(text, start).1;
      r := ReadNumber(conversion, text, start);
    }

    method ParseLiteral(token: string, v: Json) returns (r: Read<Json>)
      requires Valid() && pos < |text| && token != ""
      modifies this
      ensures r == Literal(text, old(pos), token, v)
      ensures Valid() && (r.Read? ==> pos == r.next)
    {
      if !At(text, pos, token) {
        return Failed(Expected(token));
      }
      pos := pos + |token|;
      r := Read(v, pos);
    }

    method ParseScalar() returns (r: Read<Json>)
      requires Valid() && pos < |text|
      modifies this
      ensures r == ReadScalar(numerals, text, old(pos))
      ensures Valid() && (r.Read? ==> pos == r.next)
    {
      var ch := text[pos];
      if ch == '"' {
        var s := ParseString();
        r := if s.Failed? then Failed(s.error) else Read(Text(s.value), s.next);
      } else if ch == 't' {
        r := ParseLiteral("true", Bool(true));
      } else if ch == 'f' {
        r := ParseLiteral("false", Bool(false));
      } else if ch == 'n' {
        r := ParseLiteral("null", Null);
      } else {
        var d := ParseNumber();
        r := if d.Failed? then Failed(d.error) else Read(Number(d.value), d.next);
      }
    }

    method ParseValue() returns (r: Read<Json>)
      requires Valid()
      modifies this
      ensures r == ReadValue(numerals, text, old(pos))
      ensures Valid() && (r.Read? ==> pos == r.next)
      decreases |text| - pos, 1
    {
      SkipWs();
      if pos == |text| {
        return Failed(UnexpectedEnd);
      }
      if text[pos] == '{' {
        r := ParseObject();
      } else if text[pos] == '[' {
        r := ParseArray();
      } else {
        r := ParseScalar();
      }
    }

    /** What follows an item or a member: the closing bracket, a comma or neither. */
    method Separator(close: char) returns (done: bool, more: bool)
      requires Valid()
      modifies this
      ensures
        var next := Skip(text, old(pos));
        Valid() && done == Has(text, next, close) && (!done ==> more == Has(text, next, ',')) && (done || more ==> pos == next + 1)
    {
      more := false;
      SkipWs();
      done := Consume(close);
      if !done {
        more := Consume(',');
      }
    }

    method ParseArray() returns (r: Read<Json>)
      requires Valid() && Has(text, pos, '[') && Skip(text, pos) == pos
      modifies this
      ensures r == ReadValue(numerals, text, old(pos))
      ensures Valid() && (r.Read? ==> pos == r.next)
      decreases |text| - pos, 0
    {
      pos := pos + 1;
      SkipWs();
      var done := Consume(']');
      if done {
        return Read(Array([]), pos);
      }
      r := ParseItems();
    }

    method ParseItem() returns (r: Read<Json>)
      requires Valid()
      modifies this
      ensures r == ReadValue(numerals, text, Skip(text, old(pos)))
      ensures Valid() && (r.Read? ==> pos == r.next)
      decreases |text| - pos, 2
    {
      SkipWs();
      r := ParseValue();
    }

    method ParseItems() returns (r: Read<Json>)
      requires Valid()
      modifies this
      ensures r == ReadItems(numerals, text, old(pos), [])
      ensures Valid() && (r.Read? ==> pos == r.next)
      decreases |text| - pos, 3
    {
      ghost var all := ReadItems(numerals, text, pos, []);
      var items: seq<Json> := [];
      while true
        invariant Valid() && old(pos) <= pos && ReadItems(numerals, text, pos, items) == all
        decreases |text| - pos
      {
        ghost var start, before := pos, items;
        var v := ParseItem();
        if v.Failed? {
          return v;
        }
        items := items + [v.value];
        ghost var next := Skip(text, pos);
        assert ReadItems(numerals, text, start, before) ==
          if Has(text, next, ']') then Read(Array(items), next + 1)
          else if !Has(text, next, ',') then Failed(Expected(","))
          else ReadItems(numerals, text, next + 1, items);
        var done, more := Separator(']');
        if done {
          return Read(Array(items), pos);
        }
        if !more {
          return Failed(Expected(","));
        }
      }
    }

    method ParseKey() returns (r: Read<string>)
      requires Valid()
      modifies this
      ensures r == ReadKey(text, old(pos))
      ensures Valid() && (r.Read? ==> pos == r.next)
    {
      SkipWs();
      r := ParseString();
      if r.Failed? {
        return;
      }
      SkipWs();
      var colon := Consume(':');
      r := if colon then Read(r.value, pos) else Failed(Expected(":"));
    }

    /** One round of the loop over the members of an object. */
    method ParseMember() returns (r: Read<Member>)
      requires Valid()
      modifies this
      ensures r == ReadMember(numerals, text, old(pos))
      ensures Valid() && (r.Read? ==> pos == r.next)
      decreases |text| - pos, 2
    {
      var key := ParseKey();
      if key.Failed? {
        return Failed(key.error);
      }
      SkipWs();
      var v := ParseValue();
      r := if v.Failed? then Failed(v.error) else Read(Member(key.value, v.value), pos);
    }

    method ParseObject() returns (r: Read<Json>)
      requires Valid() && Has(text, pos, '{') && Skip(text, pos) == pos
      modifies this
      ensures r == ReadValue(numerals, text, old(pos))
      ensures Valid() && (r.Read? ==> pos == r.next)
      decreases |text| - pos, 0
    {
      pos := pos + 1;
      SkipWs();
      var done := Consume('}');
      if done {
        return Read(Object([]), pos);
      }
      r := ParseMembers();
    }

    method ParseMembers() returns (r: Read<Json>)
      requires Valid()
      modifies this
      ensures r == ReadMembers(numerals, text, old(pos), [])
      ensures Valid() && (r.Read? ==> pos == r.next)
      decreases |text| - pos, 3
    {
      ghost var all := ReadMembers(numerals, text, pos, []);
      var members: seq<Member> := [];
      while true
        invariant Valid() && old(pos) <= pos && ReadMembers(numerals, text, pos, members) == all
        decreases |text| - pos
      {
        var m := ParseMember();
        if m.Failed? {
          return Failed(m.error);
        }
        members := Emplaced(members, m.value);
        var done, more := Separator('}');
        if done {
          return Read(Object(members), pos);
        }
        if !more {
          return Failed(Expected(","));
        }
      }
    }

    method Parse() returns (r: Read<Json>)
      requires Valid() && pos == 0
      modifies this
      ensures r == Parsed(Standard(conversion), text)
    {
      SkipWs();
      r := ParseValue();
      if r.Read? {
        SkipWs();
        if pos != |text| {
          return Failed(TrailingCharacters);
        }
        r := Read(r.value, pos);
      }
    }
  }
}
