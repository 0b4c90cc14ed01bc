/** Strings in JSON text: escaping as the writer does it, and reading escapes back as the parser does. */
module JsonStrings {
  import opened Texts

  datatype ParseError =
    | UnexpectedEnd
    | TrailingCharacters
    | Expected(token: string)
    | ExpectedString
    | UnterminatedString
    | InvalidEscape
    | UnsupportedEscape
    | IncompleteUnicodeEscape
    | InvalidUnicodeEscape
    | MissingLowSurrogate
    | InvalidLowSurrogate
    | InvalidNumber

  /** What has been read and where reading goes on, or the error that ends it. */
  datatype Read<T> = Read(value: T, next: nat) | Failed(error: ParseError)

  // Writing.

  function HexDigit(n: nat): char
    requires n < 16
  {
    if n < 10 then ('0' as int + n) as char else ('a' as int + n - 10) as char
  }

  /** A separator that is a byte sequence of three: U+2028 or U+2029 in UTF-8. */
  predicate StartsSeparator(s: string) {
    |s| > 2 && s[0] == '\U{E2}' && s[1] == '\U{80}' && (s[2] == '\U{A8}' || s[2] == '\U{A9}')
  }

  /** How the start of a text is written: as it is, by a letter or by a code point that stands for `size` bytes. */
  datatype Escape = Plain | Letter(letter: char) | Code(code: nat, size: nat)

  function EscapeOf(s: string): (e: Escape)
    requires s != []
    ensures e.Code? ==> e.code < 0x10000 && 1 <= e.size <= |s|
  {
    var ch := s[0];
    if ch == '"' || ch == '\\' then Letter(ch)
    else if ch == '\n' then Letter('n')
    else if ch == '\r' then Letter('r')
    else if ch == '\t' then Letter('t')
    else if ch == '\U{8}' then Letter('b')
    else if ch == '\U{C}' then Letter('f')
    else if ch == '<' || ch == '>' || ch == '&' || ch < ' ' then Code(ch as int, 1)
    else if StartsSeparator(s) then Code(0x2000 + s[2] as int - 0x80, 3)
    else Plain
  }

  function Width(s: string): (n: nat)
    requires s != []
    ensures 1 <= n <= |s|
  {
    if EscapeOf(s).Code? then EscapeOf(s).size else 1
  }

  function Hex4(code: nat): string
    requires code < 0x10000
  {
    [HexDigit(code / 0x1000), HexDigit(code / 0x100 % 16), HexDigit(code / 16 % 16), HexDigit(code % 16)]
  }

  function Chunk(s: string): string
    requires s != []
  {
    match EscapeOf(s)
    case Plain => [s[0]]
    case Letter(letter) => ['\\', letter]
    case Code(code, _) => ['\\', 'u'] + Hex4(code)
  }

  /** The escapes of a text and the closing quote. */
  function Escaped(s: string): string {
    if s == "" then "\"" else Chunk(s) + Escaped(s[Width(s)..])
  }

  function Quoted(s: string): string {
    "\"" + Escaped(s)
  }

  /** The writer's loop: `out` is written, `run` waits to be copied, `rest` has not been looked at. */
  function Flushed(out: string, run: string, rest: string): string
    decreases |rest|
  {
    if rest == "" then out + run
    else if EscapeOf(rest).Plain? then Flushed(out, run + [rest[0]], rest[1..])
    else Flushed(out + run + Chunk(rest), "", rest[Width(rest)..])
  }

  lemma {:induction false} FlushedEscapes(out: string, run: string, rest: string)
    ensures Flushed(out, run, rest) + "\"" == out + run + Escaped(rest)
    decreases |rest|
  {
    if rest != "" {
      var after := rest[Width(rest)..];
      Regrouped(out + run, Chunk(rest), Escaped(after));
      if EscapeOf(rest).Plain? {
        FlushedEscapes(out, run + [rest[0]], after);
        Regrouped(out, run, [rest[0]]);
      } else {
        FlushedEscapes(out + run + Chunk(rest), "", after);
        assert out + run + Chunk(rest) + "" == out + run + Chunk(rest);
      }
    }
  }

  lemma {:induction false} FlushedIsQuoted(sb: string, s: string)
    ensures Flushed(sb + "\"", "", s) + "\"" == sb + Quoted(s)
  {
    FlushedEscapes(sb + "\"", "", s);
    assert sb + "\"" + "" == sb + "\"";
    Regrouped(sb, "\"", Escaped(s));
  }

  /** Appends a run that may be empty. */
  method Flush(out: string, run: string) returns (flushed: string)
    ensures flushed == out + run
  {
    flushed := out;
    if |run| > 0 {
      flushed := flushed + run;
    }
  }

  /** Bytes that need no escape are copied in runs. */
  method WriteString(sb: string, s: string) returns (out: string)
    ensures out == sb + Quoted(s)
  {
    out := sb + "\"";
    ghost var start := out;
    var p: nat, safe: nat := 0, 0;
    assert s[0..0] == "" && s[0..] == s;
    while p < |s|
      invariant safe <= p <= |s|
      invariant Flushed(out, s[safe..p], s[p..]) == Flushed(start, "", s)
    {
      var q := p + Width(s[p..]);
      assert s[p..][Width(s[p..])..] == s[q..];
      if !EscapeOf(s[p..]).Plain? {
        out := Flush(out, s[safe..p]);
        out := out + Chunk(s[p..]);
        safe := q;
        assert s[safe..q] == "";
      } else {
        assert s[safe..q] == s[safe..p] + [s[p]];
      }
      p := q;
    }
    out := Flush(out, s[safe..p]);
    out := out + "\"";
    FlushedIsQuoted(sb, s);
  }

  // Reading.

  function HexValue(h: char): (n: int)
    ensures -1 <= n < 16
  {
    if '0' <= h <= '9' then h as int - '0' as int
    else if 'a' <= h <= 'f' then h as int - 'a' as int + 10
    else if 'A' <= h <= 'F' then h as int - 'A' as int + 10
    else -1
  }

  function ReadHex(t: string, p: nat, digits: nat, code: nat): (r: Read<nat>)
    requires p + digits <= |t|
    ensures r.Read? ==> r.next == p + digits
    decreases digits
  {
    if digits == 0 then Read(code, p)
    else if HexValue(t[p]) < 0 then Failed(InvalidUnicodeEscape)
    else ReadHex(t, p + 1, digits - 1, code * 16 + HexValue(t[p]))
  }

  /** The code point of an escape whose `\u` has been passed, two surrogates making one. */
  function ReadCode(t: string, p: nat): (r: Read<nat>)
    requires p <= |t|
    ensures r.Read? ==> p < r.next <= |t|
  {
    if p + 4 > |t| then Failed(IncompleteUnicodeEscape) else
      match ReadHex(t, p, 4, 0)
      case Failed(e) => Failed(e)
      case Read(high, q) =>
        if !(0xD800 <= high <= 0xDBFF) then Read(high, q)
        else if q + 6 > |t| || t[q] != '\\' || t[q + 1] != 'u' then Failed(MissingLowSurrogate)
        else
          match ReadHex(t, q + 2, 4, 0)
          case Failed(e) => Failed(e)
          case Read(low, next) =>
            if low < 0xDC00 || low > 0xDFFF then Failed(InvalidLowSurrogate)
            else Read(0x10000 + (high - 0xD800) * 0x400 + (low - 0xDC00), next)
  }

  function Byte(n: nat): char
    requires n < 0x100
  {
    n as char
  }

  /** The bytes of a code point, section 3 of RFC 3629. */
  function Utf8(code: nat): string
    requires code < 0x110000
  {
    if code < 0x80 then [Byte(code)]
    else if code < 0x800 then [Byte(0xC0 + code / 0x40), Byte(0x80 + code % 0x40)]
    else if code < 0x10000 then [Byte(0xE0 + code / 0x1000), Byte(0x80 + code / 0x40 % 0x40), Byte(0x80 + code % 0x40)]
    else [Byte(0xF0 + code / 0x40000), Byte(0x80 + code / 0x1000 % 0x40), Byte(0x80 + code / 0x40 % 0x40), Byte(0x80 + code % 0x40)]
  }

  function Unescape(escape: char): string {
    match escape
    case '"' => "\""
    case '\\' => "\\"
    case '/' => "/"
    case 'b' => "\U{8}"
    case 'f' => "\U{C}"
    case 'n' => "\n"
    case 'r' => "\r"
    case 't' => "\t"
    case _ => ""
  }

  /** The rest of a string after its opening quote. */
  function ReadChars(t: string, p: nat, out: string): (r: Read<string>)
    requires p <= |t|
    ensures r.Read? ==> p < r.next <= |t|
    decreases |t| - p
  {
    if p == |t| then Failed(UnterminatedString)
    else if t[p] == '"' then Read(out, p + 1)
    else if t[p] == '\\' then ReadEscape(t, p + 1, out)
    else ReadChars(t, p + 1, out + [t[p]])
  }

  /** The rest of a string after a backslash. */
  function ReadEscape(t: string, p: nat, out: string): (r: Read<string>)
    requires p <= |t|
    ensures r.Read? ==> p < r.next <= |t|
    decreases |t| - p
  {
    if p == |t| then Failed(InvalidEscape)
    else if t[p] == 'u' then
      match ReadCode(t, p + 1)
      case Failed(e) => Failed(e)
      case Read(code, next) => ReadChars(t, next, out + Utf8(code))
    else if Unescape(t[p]) == "" then Failed(UnsupportedEscape)
    else ReadChars(t, p + 1, out + Unescape(t[p]))
  }

  function ReadString(t: string, p: nat): (r: Read<string>)
    requires p <= |t|
    ensures r.Read? ==> p < r.next <= |t|
  {
    if p < |t| && t[p] == '"' then ReadChars(t, p + 1, "") else Failed(ExpectedString)
  }

  // Reading what was written.

  predicate Same(t: string, p: nat, w: string, i: nat)
    requires i < |w| && p + |w| <= |t|
  {
    t[p + i] == w[i]
  }

  /** `w` stands in `t` at `p`. */
  predicate At(t: string, p: nat, w: string) {
    p + |w| <= |t| && forall i :: 0 <= i < |w| ==> Same(t, p, w, i)
  }

  lemma {:induction false} AtEach(t: string, p: nat, w: string)
    ensures At(t, p, w) <==> p + |w| <= |t| && forall i :: 0 <= i < |w| ==> t[p + i] == w[i]
  {
    if At(t, p, w) {
      forall i | 0 <= i < |w|
        ensures t[p + i] == w[i]
      {
        assert Same(t, p, w, i);
      }
    }
  }

  lemma {:induction false} AtIsSlice(t: string, p: nat, w: string)
    ensures At(t, p, w) <==> p + |w| <= |t| && t[p..p + |w|] == w
  {
    AtEach(t, p, w);
    if p + |w| <= |t| && t[p..p + |w|] == w {
      assert forall k :: 0 <= k < |w| ==> w[k] == t[p..p + |w|][k];
    }
  }

  lemma {:induction false} AtParts(t: string, p: nat, v: string, w: string)
    requires At(t, p, v + w)
    ensures At(t, p, v) && At(t, p + |v|, w)
  {
    var q := p + |v|;
    forall i | 0 <= i < |v|
      ensures Same(t, p, v, i)
    {
      assert Same(t, p, v + w, i);
    }
    forall i | 0 <= i < |w|
      ensures Same(t, q, w, i)
    {
      assert Same(t, p, v + w, |v| + i);
    }
  }

  lemma {:induction false} FirstAt(t: string, p: nat, w: string)
    requires At(t, p, w)
    ensures w != "" ==> t[p] == w[0]
  {
    assert w != "" ==> Same(t, p, w, 0);
  }

  /** `h` is the hexadecimal digit `n` in ASCII, in upper or lower case. */
  predicate IsDigitOf(h: char, n: nat) {
    (n < 10 && h as int == 0x30 + n) || (10 <= n < 16 && (h as int == 0x61 + (n - 10) || h as int == 0x41 + (n - 10)))
  }

  /** The four digits of `code` stand at `p`, each in either case. */
  predicate FourAt(t: string, p: nat, code: nat) {
    && p + 4 <= |t| && code < 0x10000
    && IsDigitOf(t[p], code / 0x1000) && IsDigitOf(t[p + 1], code / 0x100 % 16)
    && IsDigitOf(t[p + 2], code / 16 % 16) && IsDigitOf(t[p + 3], code % 16)
  }

  lemma {:induction false} HexValueMeans(h: char)
    ensures HexValue(h) >= 0 ==> IsDigitOf(h, HexValue(h))
    ensures forall n: nat :: IsDigitOf(h, n) ==> HexValue(h) == n
  {
  }

  lemma {:induction false} FourDigits(t: string, p: nat, a: nat, b: nat, c: nat, d: nat)
    requires a < 16 && b < 16 && c < 16 && d < 16 && p + 4 <= |t|
    requires IsDigitOf(t[p], a) && IsDigitOf(t[p + 1], b) && IsDigitOf(t[p + 2], c) && IsDigitOf(t[p + 3], d)
    ensures ReadHex(t, p, 4, 0) == Read(((a * 16 + b) * 16 + c) * 16 + d, p + 4)
  {
    ReadsDigit(t, p, 3, 0, a);
    ReadsDigit(t, p + 1, 2, a, b);
    ReadsDigit(t, p + 2, 1, a * 16 + b, c);
    ReadsDigit(t, p + 3, 0, (a * 16 + b) * 16 + c, d);
  }

  lemma {:induction false} ReadsFour(t: string, p: nat, code: nat)
    requires FourAt(t, p, code)
    ensures ReadHex(t, p, 4, 0) == Read(code, p + 4)
  {
    FourDigits(t, p, code / 0x1000, code / 0x100 % 16, code / 16 % 16, code % 16);
    HexParts(code);
  }

  lemma {:induction false} SplitsDigit(t: string, p: nat, more: nat, code: nat) returns (digit: nat)
    requires p + 1 + more <= |t| && ReadHex(t, p, more + 1, code).Read?
    ensures digit < 16 && IsDigitOf(t[p], digit)
    ensures ReadHex(t, p, more + 1, code) == ReadHex(t, p + 1, more, code * 16 + digit)
  {
    HexValueMeans(t[p]);
    digit := HexValue(t[p]);
  }

  lemma {:induction false} DigitsOf(a: nat, b: nat, c: nat, d: nat)
    requires a < 16 && b < 16 && c < 16 && d < 16
    ensures var code := ((a * 16 + b) * 16 + c) * 16 + d;
            code < 0x10000 && code / 0x1000 == a && code / 0x100 % 16 == b && code / 16 % 16 == c && code % 16 == d
  {
    var code := ((a * 16 + b) * 16 + c) * 16 + d;
    assert code / 16 == (a * 16 + b) * 16 + c;
    assert code / 0x100 == a * 16 + b;
  }

  lemma {:induction false} ReadsAsDigits(t: string, p: nat) returns (code: nat)
    requires p + 4 <= |t| && ReadHex(t, p, 4, 0).Read?
    ensures FourAt(t, p, code) && ReadHex(t, p, 4, 0) == Read(code, p + 4)
  {
    var a := SplitsDigit(t, p, 3, 0);
    var b := SplitsDigit(t, p + 1, 2, a);
    var c := SplitsDigit(t, p + 2, 1, a * 16 + b);
    var d := SplitsDigit(t, p + 3, 0, (a * 16 + b) * 16 + c);
    code := ((a * 16 + b) * 16 + c) * 16 + d;
    DigitsOf(a, b, c, d);
    FourDigits(t, p, a, b, c, d);
  }

  ghost predicate NoNumberAt(t: string, p: nat) {
    forall code :: !FourAt(t, p, code)
  }

  /** Four bytes are read as a number exactly when they are its digits, and refused when they are no digits. */
  lemma {:induction false} FourIffDigits(t: string, p: nat)
    requires p + 4 <= |t|
    ensures forall code: nat :: ReadHex(t, p, 4, 0) == Read(code, p + 4) <==> FourAt(t, p, code)
    ensures NoNumberAt(t, p) ==> ReadHex(t, p, 4, 0) == Failed(InvalidUnicodeEscape)
  {
    forall code: nat | FourAt(t, p, code)
      ensures ReadHex(t, p, 4, 0) == Read(code, p + 4)
    {
      ReadsFour(t, p, code);
    }
    if ReadHex(t, p, 4, 0).Read? {
      var code := ReadsAsDigits(t, p);
    } else {
      RefusesDigits(t, p, 4, 0);
    }
  }

  lemma {:induction false} RefusesDigits(t: string, p: nat, digits: nat, code: nat)
    requires p + digits <= |t| && ReadHex(t, p, digits, code).Failed?
    ensures ReadHex(t, p, digits, code) == Failed(InvalidUnicodeEscape)
    decreases digits
  {
    if HexValue(t[p]) >= 0 { RefusesDigits(t, p + 1, digits - 1, code * 16 + HexValue(t[p])); }
  }

  /** The writer's digits are lower case. */
  lemma {:induction false} WritesFour(t: string, p: nat, code: nat)
    requires code < 0x10000 && At(t, p, Hex4(code))
    ensures FourAt(t, p, code) && forall i :: p <= i < p + 4 ==> !('A' <= t[i] <= 'Z')
  {
    var h := Hex4(code);
    AtEach(t, p, h);
    assert t[p + 0] == h[0] && t[p + 1] == h[1] && t[p + 2] == h[2] && t[p + 3] == h[3];
  }

  lemma {:induction false} ReadsHex4(t: string, p: nat, code: nat)
    requires code < 0x10000 && At(t, p, Hex4(code))
    ensures ReadHex(t, p, 4, 0) == Read(code, p + 4)
  {
    WritesFour(t, p, code);
    ReadsFour(t, p, code);
  }

  lemma {:induction false} HexParts(code: nat)
    ensures ((code / 0x1000 * 16 + code / 0x100 % 16) * 16 + code / 16 % 16) * 16 + code % 16 == code
  {
    assert code / 0x1000 == code / 0x100 / 16;
    assert code / 0x100 == code / 16 / 16;
  }

  lemma {:induction false} ReadsDigit(t: string, p: nat, more: nat, code: nat, digit: nat)
    requires p + 1 + more <= |t| && digit < 16 && IsDigitOf(t[p], digit)
    ensures ReadHex(t, p, more + 1, code) == ReadHex(t, p + 1, more, code * 16 + digit)
  {
    HexValueMeans(t[p]);
  }

  lemma {:induction false} EscapeNames(s: string)
    requires s != [] && EscapeOf(s).Code?
    ensures EscapeOf(s).code < 0xD800 && Utf8(EscapeOf(s).code) == s[..Width(s)]
  {
    assert s[..1] == [s[0]];
    if StartsSeparator(s) {
      assert s[..3] == [s[0], s[1], s[2]];
    }
  }

  /** One chunk of an escaped text is read as the bytes it stands for. */
  lemma {:induction false} ReadsChunk(t: string, p: nat, s: string, out: string)
    requires s != [] && At(t, p, Chunk(s))
    ensures ReadChars(t, p, out) == ReadChars(t, p + |Chunk(s)|, out + s[..Width(s)])
  {
    AtEach(t, p, Chunk(s));
    if EscapeOf(s).Code? {
      var code := EscapeOf(s).code;
      EscapeNames(s);
      BackslashU(t, p, Hex4(code));
      ReadsHex4(t, p + 2, code);
    } else {
      assert s[..1] == [s[0]];
      assert t[p + 0] == Chunk(s)[0] && (EscapeOf(s).Letter? ==> t[p + 1] == Chunk(s)[1]);
    }
  }

  lemma {:induction false} ReadsEscaped(t: string, p: nat, s: string, out: string)
    requires At(t, p, Escaped(s))
    ensures ReadChars(t, p, out) == Read(out + s, p + |Escaped(s)|)
    decreases |s|
  {
    if s == "" {
      FirstAt(t, p, "\"");
      assert out + s == out;
    } else {
      var chunk, rest, first := Chunk(s), s[Width(s)..], s[..Width(s)];
      AtParts(t, p, chunk, Escaped(rest));
      ReadsChunk(t, p, s, out);
      ReadsEscaped(t, p + |chunk|, rest, out + first);
      FirstAndRest(out, s, Width(s));
    }
  }

  lemma {:induction false} FirstAndRest(out: string, s: string, n: nat)
    requires n <= |s|
    ensures out + s[..n] + s[n..] == out + s
  {
    Regrouped(out, s[..n], s[n..]);
    assert s[..n] + s[n..] == s;
  }

  /** Every byte string, quoted in any surroundings, is read back. */
  lemma {:induction false} StringRoundTrip(t: string, p: nat, s: string)
    requires At(t, p, Quoted(s))
    ensures ReadString(t, p) == Read(s, p + |Quoted(s)|)
  {
    FirstAt(t, p, Quoted(s));
    AtParts(t, p, "\"", Escaped(s));
    ReadsEscaped(t, p + 1, s, "");
    assert "" + s == s;
  }

  // Any code point.

  predicate IsScalar(code: nat) {
    code < 0xD800 || 0xE000 <= code < 0x110000
  }

  /** A code point as JSON may spell it in hexadecimal, section 7 of RFC 8259: beyond 16 bits as two surrogates. The digits
      are upper or lower case, in any mixture. */
  predicate ScalarAt(t: string, p: nat, code: nat)
    requires IsScalar(code)
  {
    if code < 0x10000 then FourAt(t, p, code)
    else && FourAt(t, p, 0xD800 + (code - 0x10000) / 0x400) && p + 10 <= |t| && t[p + 4] == '\\' && t[p + 5] == 'u'
         && FourAt(t, p + 6, 0xDC00 + (code - 0x10000) % 0x400)
  }

  function SpellingSize(code: nat): nat {
    if code < 0x10000 then 4 else 10
  }

  /** The code point that a sequence of one to four bytes encodes. */
  function Utf8Value(s: string): int
    requires 1 <= |s| <= 4
  {
    var lead := s[0] as int;
    match |s|
    case 1 => lead
    case 2 => (lead - 0xC0) * 0x40 + (s[1] as int - 0x80)
    case 3 => (lead - 0xE0) * 0x1000 + (s[1] as int - 0x80) * 0x40 + (s[2] as int - 0x80)
    case _ => (lead - 0xF0) * 0x40000 + (s[1] as int - 0x80) * 0x1000 + (s[2] as int - 0x80) * 0x40 + (s[3] as int - 0x80)
  }

  lemma {:induction false} Utf8Keeps(code: nat)
    requires code < 0x110000
    ensures 1 <= |Utf8(code)| <= 4 && Utf8Value(Utf8(code)) == code
    ensures forall i :: 1 <= i < |Utf8(code)| ==> 0x80 <= Utf8(code)[i] as int < 0xC0
  {
    SixBits(code);
    SixBits(code / 0x40);
    SixBits(code / 0x1000);
    Shifts(code);
  }

  lemma {:induction false} SixBits(n: nat)
    ensures n == n / 0x40 * 0x40 + n % 0x40 && n % 0x40 < 0x40
  {
  }

  lemma {:induction false} Shifts(n: nat)
    ensures n / 0x1000 == n / 0x40 / 0x40 && n / 0x40000 == n / 0x1000 / 0x40
  {
  }

  lemma {:induction false} BackslashU(t: string, p: nat, w: string)
    requires At(t, p, ['\\', 'u'] + w)
    ensures t[p] == '\\' && t[p + 1] == 'u' && At(t, p + 2, w)
  {
    AtParts(t, p, ['\\', 'u'], w);
    assert Same(t, p, ['\\', 'u'], 0) && Same(t, p, ['\\', 'u'], 1);
  }

  /** Every scalar value, in every hexadecimal spelling, is read as its UTF-8 bytes. */
  lemma {:induction false} ReadsEveryScalar(t: string, p: nat, code: nat, out: string)
    requires p + 2 <= |t| && t[p] == '\\' && t[p + 1] == 'u' && IsScalar(code) && ScalarAt(t, p + 2, code)
    ensures ReadChars(t, p, out) == ReadChars(t, p + 2 + SpellingSize(code), out + Utf8(code))
  {
    ReadsCodePoint(t, p + 2, code);
  }

  lemma {:induction false} ReadsCodePoint(t: string, p: nat, code: nat)
    requires IsScalar(code) && ScalarAt(t, p, code)
    ensures ReadCode(t, p) == Read(code, p + SpellingSize(code))
  {
    if code < 0x10000 {
      ReadsFour(t, p, code);
    } else {
      var high, low := 0xD800 + (code - 0x10000) / 0x400, 0xDC00 + (code - 0x10000) % 0x400;
      ReadsFour(t, p, high);
      ReadsFour(t, p + 6, low);
      ReadsPair(t, p, high, low);
    }
  }

  predicate IsHigh(code: nat) { 0xD800 <= code <= 0xDBFF }
  predicate IsLow(code: nat) { 0xDC00 <= code <= 0xDFFF }

  /** What is not a scalar value: a low surrogate alone is taken as it is, a high one needs a low one behind it. */
  lemma {:induction false} ReadsSurrogates(t: string, p: nat, code: nat)
    requires FourAt(t, p, code) && (IsHigh(code) || IsLow(code))
    ensures IsLow(code) ==> ReadCode(t, p) == Read(code, p + 4)
    ensures IsHigh(code) && !(p + 10 <= |t| && t[p + 4] == '\\' && t[p + 5] == 'u') ==> ReadCode(t, p) == Failed(MissingLowSurrogate)
    ensures IsHigh(code) && p + 10 <= |t| && t[p + 4] == '\\' && t[p + 5] == 'u' ==>
              && (forall low :: FourAt(t, p + 6, low) && !IsLow(low) ==> ReadCode(t, p) == Failed(InvalidLowSurrogate))
              && (NoNumberAt(t, p + 6) ==> ReadCode(t, p) == Failed(InvalidUnicodeEscape))
  {
    ReadsFour(t, p, code);
    if p + 10 <= |t| { FourIffDigits(t, p + 6); }
  }

  /** An escape that is cut short, or whose digits are none. */
  lemma {:induction false} RefusesCode(t: string, p: nat)
    requires p <= |t|
    ensures p + 4 > |t| ==> ReadCode(t, p) == Failed(IncompleteUnicodeEscape)
    ensures p + 4 <= |t| && NoNumberAt(t, p) ==> ReadCode(t, p) == Failed(InvalidUnicodeEscape)
  {
    if p + 4 <= |t| { FourIffDigits(t, p); }
  }

  // The escapes of one letter.

  /** The byte that a letter behind a backslash stands for, section 7 of RFC 8259. */
  predicate StandsFor(letter: char, byte: char) {
    || (letter == '"' && byte as int == 0x22) || (letter == '\\' && byte as int == 0x5C) || (letter == '/' && byte as int == 0x2F)
    || (letter == 'b' && byte as int == 0x08) || (letter == 'f' && byte as int == 0x0C) || (letter == 'n' && byte as int == 0x0A)
    || (letter == 'r' && byte as int == 0x0D) || (letter == 't' && byte as int == 0x09)
  }

  ghost predicate IsUnknown(letter: char) {
    forall byte :: !StandsFor(letter, byte)
  }

  /** Each of the eight is read as its byte, and any other letter is refused. */
  lemma {:induction false} ReadsLetter(t: string, p: nat, out: string)
    requires p + 2 <= |t| && t[p] == '\\' && t[p + 1] != 'u'
    ensures forall byte :: StandsFor(t[p + 1], byte) ==> ReadChars(t, p, out) == ReadChars(t, p + 2, out + [byte])
    ensures IsUnknown(t[p + 1]) ==> ReadChars(t, p, out) == Failed(UnsupportedEscape)
  {
    if Unescape(t[p + 1]) != "" {
      var byte := Unescape(t[p + 1])[0];
      assert StandsFor(t[p + 1], byte) && Unescape(t[p + 1]) == [byte];
    }
  }

  // What is written.

  /** The byte is written by a letter: quote, backslash and five control characters. */
  predicate HasLetter(byte: char, letter: char) {
    StandsFor(letter, byte) && letter != '/'
  }

  predicate IsMarkup(byte: char) {
    byte as int == 0x3C || byte as int == 0x3E || byte as int == 0x26
  }

  /** The bytes of U+2028 or U+2029. */
  predicate IsSeparator(s: string) {
    |s| >= 3 && s[0] as int == 0xE2 && s[1] as int == 0x80 && (s[2] as int == 0xA8 || s[2] as int == 0xA9)
  }

  predicate IsLowerDigit(h: char, n: nat) {
    IsDigitOf(h, n) && !('A' <= h <= 'Z')
  }

  /** What stands for the start of `s`, and how much of it that is: a letter, the code of an angle bracket, an ampersand, a control
      character or a separator, or the byte itself. */
  lemma {:induction false} WrittenFor(s: string)
    requires s != ""
    ensures var n := if IsSeparator(s) then 3 else 1;
            n == Width(s) && Escaped(s) == Chunk(s) + Escaped(s[n..])
    ensures forall letter :: HasLetter(s[0], letter) ==> Chunk(s) == ['\\', letter]
    ensures (forall letter :: !HasLetter(s[0], letter)) && (IsMarkup(s[0]) || s[0] as int < 0x20) ==>
              && |Chunk(s)| == 6 && Chunk(s)[..4] == ['\\', 'u', '0', '0']
              && IsLowerDigit(Chunk(s)[4], s[0] as int / 16) && IsLowerDigit(Chunk(s)[5], s[0] as int % 16)
    ensures IsSeparator(s) ==> Chunk(s) == ['\\', 'u', '2', '0', '2', if s[2] as int == 0xA8 then '8' else '9']
    ensures (forall letter :: !HasLetter(s[0], letter)) && !IsMarkup(s[0]) && s[0] as int >= 0x20 && !IsSeparator(s) ==> Chunk(s) == [s[0]]
  {
    LettersWritten(s);
    if EscapeOf(s).Code? { CodesWritten(s); }
  }

  lemma {:induction false} LettersWritten(s: string)
    requires s != ""
    ensures forall letter :: HasLetter(s[0], letter) <==> EscapeOf(s) == Letter(letter)
    ensures StartsSeparator(s) <==> IsSeparator(s)
  {
  }

  lemma {:induction false} CodesWritten(s: string)
    requires s != "" && EscapeOf(s).Code?
    ensures IsSeparator(s) ==> Chunk(s) == ['\\', 'u', '2', '0', '2', if s[2] as int == 0xA8 then '8' else '9']
    ensures !IsSeparator(s) ==>
              && Chunk(s)[..4] == ['\\', 'u', '0', '0']
              && IsLowerDigit(Chunk(s)[4], s[0] as int / 16) && IsLowerDigit(Chunk(s)[5], s[0] as int % 16)
  {
    LettersWritten(s);
  }

  lemma {:induction false} ReadsPair(t: string, p: nat, high: nat, low: nat)
    requires p + 10 <= |t| && ReadHex(t, p, 4, 0) == Read(high, p + 4) && ReadHex(t, p + 6, 4, 0) == Read(low, p + 10)
    requires 0xD800 <= high <= 0xDBFF && 0xDC00 <= low <= 0xDFFF && t[p + 4] == '\\' && t[p + 5] == 'u'
    ensures ReadCode(t, p) == Read(0x10000 + (high - 0xD800) * 0x400 + (low - 0xDC00), p + 10)
  {
  }
}
