/** Decimal renderings of numbers: taking them apart, and moving the decimal point. */
module Decimals {
  import opened Texts

  datatype Sign = Bare | Plus | Minus

  datatype Exponent = NoExponent | Exponent(upper: bool, sign: Sign, digits: string)

  /** A decimal rendering by its pieces, after section 6 of RFC 8259 but more lenient on zeros and signs. */
  datatype Rendering = Rendering(sign: Sign, whole: string, point: bool, fraction: string, exponent: Exponent)

  predicate WellFormed(r: Rendering) {
    && AllDigits(r.whole) && AllDigits(r.fraction) && r.whole != "" && (!r.point ==> r.fraction == "")
    && (r.exponent.Exponent? ==> AllDigits(r.exponent.digits) && r.exponent.digits != "")
  }

  function WithSign(s: Sign, text: string): string {
    match s
    case Bare => text
    case Plus => "+" + text
    case Minus => "-" + text
  }

  function Mantissa(r: Rendering): string {
    if r.point then r.whole + ("." + r.fraction) else r.whole
  }

  function ExponentText(e: Exponent): string {
    match e
    case NoExponent => ""
    case Exponent(upper, sign, digits) => (if upper then "E" else "e") + WithSign(sign, digits)
  }

  function Spelled(r: Rendering): string {
    WithSign(r.sign, Mantissa(r) + ExponentText(r.exponent))
  }

  /** The C++ loop `n = n * 10 + (c - '0')`, which does not look at what `c` is. */
  function Horner(s: string): int {
    if s == [] then 0 else Horner(s[..|s| - 1]) * 10 + (s[|s| - 1] as int - '0' as int)
  }

  function Scale(e: Exponent): int {
    match e
    case NoExponent => 0
    case Exponent(_, sign, digits) => if sign.Minus? then -Horner(digits) else Horner(digits)
  }

  /** The number `n * 10^e`. */
  function Scaled(n: int, e: int): real
    decreases if e < 0 then -e else e
  {
    if e == 0 then n as real else if e > 0 then 10.0 * Scaled(n, e - 1) else Scaled(n, e + 1) / 10.0
  }

  /** What a rendering denotes, leaving its sign aside. */
  function Magnitude(r: Rendering): real {
    Scaled(Horner(r.whole + r.fraction), Scale(r.exponent) - |r.fraction|)
  }

  /** The number `0.digits * 10^exp10`, with a sign. */
  datatype Parts = Parts(negative: bool, digits: string, exp10: int)

  function PartsMagnitude(p: Parts): real {
    Scaled(Horner(p.digits), p.exp10 - |p.digits|)
  }

  predicate Normal(p: Parts) {
    && AllDigits(p.digits)
    && (p.digits != [] ==> p.digits[0] != '0' && p.digits[|p.digits| - 1] != '0')
  }

  // Taking a text apart.

  function Signed(s: string): (n: nat)
    ensures n <= |s|
  {
    if s != [] && (s[0] == '-' || s[0] == '+') then 1 else 0
  }

  function MarkFrom(s: string, i: nat): (k: nat)
    requires i <= |s|
    ensures i <= k <= |s|
    decreases |s| - i
  {
    if i == |s| || s[i] == 'e' || s[i] == 'E' then i else MarkFrom(s, i + 1)
  }

  function WithoutPoints(s: string): string {
    if s == [] then [] else
      WithoutPoints(s[..|s| - 1]) + if s[|s| - 1] == '.' then [] else [s[|s| - 1]]
  }

  /** How many digits precede the last point, or -1 without one. */
  function PointAfter(s: string): int {
    if s == [] then -1 else
    if s[|s| - 1] == '.' then |WithoutPoints(s[..|s| - 1])| else PointAfter(s[..|s| - 1])
  }

  function ReadScale(s: string): int {
    var digits := Horner(s[Signed(s)..]);
    if s != [] && s[0] == '-' then -digits else digits
  }

  function Leading(s: string): (n: nat)
    ensures n <= |s|
  {
    if s == [] || s[0] != '0' then 0 else 1 + Leading(s[1..])
  }

  function Trimmed(s: string): string {
    if s == [] || s[|s| - 1] != '0' then s else Trimmed(s[..|s| - 1])
  }

  function Stripped(negative: bool, mantissa: string, exp10: int): Parts {
    var lead := Leading(mantissa);
    Parts(negative, Trimmed(mantissa[lead..]), exp10 - lead)
  }

  /** A text as a sign, everything up to the exponent, and the exponent. */
  datatype Pieces = Pieces(negative: bool, body: string, scale: int)

  function Split(negative: bool, unsigned: string): Pieces {
    var mark := MarkFrom(unsigned, 0);
    Pieces(negative, unsigned[..mark], if mark < |unsigned| then ReadScale(unsigned[mark + 1..]) else 0)
  }

  function PointIn(body: string): int {
    if PointAfter(body) < 0 then |WithoutPoints(body)| else PointAfter(body)
  }

  function Assembled(p: Pieces): Parts {
    Stripped(p.negative, WithoutPoints(p.body), p.scale + PointIn(p.body))
  }

  function Decomposed(s: string): Parts {
    Assembled(Split(s != "" && s[0] == '-', s[Signed(s)..]))
  }

  /** The scan of `Decompose`: mantissa digits, the position of the point among them and the explicit exponent. */
  method ReadPieces(s: string) returns (mantissa: string, point: int, exp10: int)
    ensures var pieces := Split(false, s);
            mantissa == WithoutPoints(pieces.body) && point == PointAfter(pieces.body) && exp10 == pieces.scale
  {
    var i := 0;
    mantissa, point, exp10 := [], -1, 0;
    while i < |s|
      invariant 0 <= i <= |s|
      invariant MarkFrom(s, i) == MarkFrom(s, 0)
      invariant mantissa == WithoutPoints(s[..i]) && point == PointAfter(s[..i])
    {
      if s[i] == 'e' || s[i] == 'E' {
        exp10 := ReadExponent(s[i + 1..]);
        return;
      }
      ScanStep(s, i);
      if s[i] == '.' {
        point := |mantissa|;
      } else {
        mantissa := mantissa + [s[i]];
      }
      i := i + 1;
    }
  }

  lemma {:induction false} ScanStep(s: string, i: nat)
    requires i < |s|
    ensures WithoutPoints(s[..i + 1]) == WithoutPoints(s[..i]) + if s[i] == '.' then [] else [s[i]]
    ensures PointAfter(s[..i + 1]) == if s[i] == '.' then |WithoutPoints(s[..i])| else PointAfter(s[..i])
  {
    assert s[..i + 1][..i] == s[..i];
  }

  method ReadExponent(s: string) returns (e: int)
    ensures e == ReadScale(s)
  {
    var sign, i := 1, 0;
    if s != [] && (s[0] == '-' || s[0] == '+') {
      sign := if s[0] == '-' then -1 else 1;
      i := 1;
    }
    var start := i;
    e := 0;
    while i < |s|
      invariant start <= i <= |s| && e == Horner(s[start..i])
    {
      assert s[start..i + 1][..i - start] == s[start..i];
      e := e * 10 + (s[i] as int - '0' as int);
      i := i + 1;
    }
    assert i == |s| && s[start..i] == s[start..];
    e := sign * e;
  }

  method Strip(negative: bool, mantissa: string, exp10: int) returns (p: Parts)
    ensures p == Stripped(negative, mantissa, exp10)
  {
    var lead := 0;
    while lead < |mantissa| && mantissa[lead] == '0'
      invariant lead <= |mantissa| && lead + Leading(mantissa[lead..]) == Leading(mantissa)
    {
      lead := lead + 1;
      assert mantissa[lead - 1..][1..] == mantissa[lead..];
    }
    var digits := mantissa[lead..];
    while digits != [] && digits[|digits| - 1] == '0'
      invariant Trimmed(digits) == Trimmed(mantissa[lead..])
    {
      digits := digits[..|digits| - 1];
    }
    p := Parts(negative, digits, exp10 - lead);
  }

  method Decompose(s: string) returns (p: Parts)
    ensures p == Decomposed(s)
  {
    var mantissa, point, exp10 := ReadPieces(s[Signed(s)..]);
    p := Strip(s != [] && s[0] == '-', mantissa, exp10 + if point < 0 then |mantissa| else point);
  }

  // What the parts mean.

  lemma {:induction false} ScaledTen(n: int, e: int)
    ensures Scaled(10 * n, e) == Scaled(n, e + 1)
    decreases if e < 0 then -e else e
  {
    if e > 0 {
      ScaledTen(n, e - 1);
    } else if e < 0 {
      ScaledTen(n, e + 1);
    }
  }

  lemma {:induction false} LeadingZeros(s: string)
    ensures Horner(s) == Horner(s[Leading(s)..])
  {
    if s != "" && s[0] == '0' {
      LeadingZero(s);
      LeadingZeros(s[1..]);
      assert s[1..][Leading(s[1..])..] == s[Leading(s)..];
    } else {
      assert s[0..] == s;
    }
  }

  lemma {:induction false} LeadingZero(s: string)
    requires s != "" && s[0] == '0'
    ensures Horner(s) == Horner(s[1..])
  {
    if |s| > 1 {
      LeadingZero(s[..|s| - 1]);
      assert s[..|s| - 1][1..] == s[1..][..|s| - 2];
    }
  }

  lemma {:induction false} TrimmedScales(s: string, e: int)
    ensures Scaled(Horner(s), e - |s|) == Scaled(Horner(Trimmed(s)), e - |Trimmed(s)|)
  {
    if s != [] && s[|s| - 1] == '0' {
      var s' := s[..|s| - 1];
      TrimmedScales(s', e);
      ScaledTen(Horner(s'), e - |s|);
    }
  }

  lemma {:induction false} LeadingStops(s: string)
    ensures Leading(s) < |s| ==> s[Leading(s)] != '0'
  {
    if s != [] && s[0] == '0' { LeadingStops(s[1..]); }
  }

  lemma {:induction false} TrimmedStops(s: string)
    requires AllDigits(s)
    ensures var t := Trimmed(s); AllDigits(t) && (t != [] ==> t[0] == s[0] && t[|t| - 1] != '0')
  {
    if s != [] && s[|s| - 1] == '0' {
      DigitsSlice(s, 0, |s| - 1);
      assert s[0..|s| - 1] == s[..|s| - 1];
      TrimmedStops(s[..|s| - 1]);
    }
  }

  /** Stripping zeros on both sides leaves normal parts of the same value. */
  lemma {:induction false} StrippedMeans(negative: bool, mantissa: string, exp10: int)
    requires AllDigits(mantissa)
    ensures var p := Stripped(negative, mantissa, exp10);
            && Normal(p) && p.negative == negative
            && PartsMagnitude(p) == Scaled(Horner(mantissa), exp10 - |mantissa|)
  {
    var lead := Leading(mantissa);
    var rest := mantissa[lead..];
    LeadingZeros(mantissa);
    LeadingStops(mantissa);
    DigitsSlice(mantissa, lead, |mantissa|);
    assert mantissa[lead..|mantissa|] == rest;
    TrimmedStops(rest);
    TrimmedScales(rest, exp10 - lead);
  }

  lemma {:induction false} DigitsHaveNoPoint(a: string)
    requires AllDigits(a)
    ensures WithoutPoints(a) == a && PointAfter(a) == -1
  {
    if a != "" {
      DigitsSlice(a, 0, |a| - 1);
      assert a[0..|a| - 1] == a[..|a| - 1] && DigitAt(a, |a| - 1);
      DigitsHaveNoPoint(a[..|a| - 1]);
      assert a == a[..|a| - 1] + [a[|a| - 1]];
    }
  }

  lemma {:induction false} PointsOfDigits(a: string, b: string)
    requires AllDigits(a) && AllDigits(b)
    ensures WithoutPoints(a + ("." + b)) == a + b && PointAfter(a + ("." + b)) == |a|
    decreases |b|
  {
    var body := a + ("." + b);
    if b == "" {
      assert body[..|body| - 1] == a && a + b == a;
      DigitsHaveNoPoint(a);
    } else {
      var b' := b[..|b| - 1];
      DigitsSlice(b, 0, |b| - 1);
      assert b[0..|b| - 1] == b' && DigitAt(b, |b| - 1);
      assert body[..|body| - 1] == a + ("." + b') && a + b' + [b[|b| - 1]] == a + b;
      PointsOfDigits(a, b');
    }
  }

  lemma {:induction false} MarkIsAt(s: string, i: nat, k: nat)
    requires i <= k <= |s| && (k < |s| ==> s[k] == 'e' || s[k] == 'E')
    requires forall j :: i <= j < k ==> s[j] != 'e' && s[j] != 'E'
    ensures MarkFrom(s, i) == k
    decreases k - i
  {
    if i < k { MarkIsAt(s, i + 1, k); }
  }

  /** A sign before something that starts otherwise. */
  lemma {:induction false} SignIsFound(sign: Sign, x: string)
    requires x != "" && x[0] != '-' && x[0] != '+'
    ensures var s := WithSign(sign, x);
            s != "" && s[Signed(s)..] == x && (s[0] == '-' <==> sign.Minus?)
  {
  }

  lemma {:induction false} ScaleMeans(e: Exponent)
    requires e.Exponent? && AllDigits(e.digits) && e.digits != ""
    ensures ReadScale(ExponentText(e)[1..]) == Scale(e)
  {
    assert ExponentText(e)[1..] == WithSign(e.sign, e.digits);
    assert DigitAt(e.digits, 0);
    SignIsFound(e.sign, e.digits);
  }

  lemma {:induction false} SpelledStarts(r: Rendering)
    requires WellFormed(r) && r.sign != Plus
    ensures Spelled(r) != "" && (IsDigit(Spelled(r)[0]) || Spelled(r)[0] == '-')
  {
    assert DigitAt(r.whole, 0);
  }

  /** The mantissa ends where the exponent starts. */
  lemma {:induction false} MarkIsFound(r: Rendering)
    requires WellFormed(r)
    ensures var x, body := Mantissa(r) + ExponentText(r.exponent), Mantissa(r);
            MarkFrom(x, 0) == |body| && x[..|body|] == body && x[|body|..] == ExponentText(r.exponent)
  {
    var x := Mantissa(r) + ExponentText(r.exponent);
    forall j | 0 <= j < |Mantissa(r)|
      ensures x[j] != 'e' && x[j] != 'E'
    {
      assert x[j] == Mantissa(r)[j];
      assert if j < |r.whole| then DigitAt(r.whole, j) else j > |r.whole| ==> DigitAt(r.fraction, j - |r.whole| - 1);
    }
    MarkIsAt(x, 0, |Mantissa(r)|);
  }

  lemma {:induction false} ScaleAt(x: string, mark: nat, e: Exponent)
    requires mark <= |x| && x[mark..] == ExponentText(e) && (e.Exponent? ==> AllDigits(e.digits) && e.digits != "")
    ensures Scale(e) == if mark < |x| then ReadScale(x[mark + 1..]) else 0
  {
    if e.Exponent? {
      ScaleMeans(e);
      assert x[mark + 1..] == x[mark..][1..];
    }
  }

  lemma {:induction false} SplitsAt(negative: bool, x: string, mark: nat, body: string, scale: int)
    requires mark <= |x| && mark == MarkFrom(x, 0) && x[..mark] == body
    requires scale == if mark < |x| then ReadScale(x[mark + 1..]) else 0
    ensures Split(negative, x) == Pieces(negative, body, scale)
  {
  }

  lemma {:induction false} SpelledSplits(r: Rendering)
    requires WellFormed(r)
    ensures Split(r.sign.Minus?, Mantissa(r) + ExponentText(r.exponent)) == Pieces(r.sign.Minus?, Mantissa(r), Scale(r.exponent))
  {
    var x, mark := Mantissa(r) + ExponentText(r.exponent), |Mantissa(r)|;
    MarkIsFound(r);
    ScaleAt(x, mark, r.exponent);
    SplitsAt(r.sign.Minus?, x, mark, Mantissa(r), Scale(r.exponent));
  }

  lemma {:induction false} MantissaPoints(r: Rendering)
    requires WellFormed(r)
    ensures WithoutPoints(Mantissa(r)) == r.whole + r.fraction && PointIn(Mantissa(r)) == |r.whole|
  {
    if r.point {
      PointsOfDigits(r.whole, r.fraction);
    } else {
      DigitsHaveNoPoint(r.whole);
      assert r.whole + "" == r.whole;
    }
  }

  /** The parts that the pieces of a rendering amount to. */
  function PartsOf(r: Rendering): Parts {
    Stripped(r.sign.Minus?, r.whole + r.fraction, Scale(r.exponent) + |r.whole|)
  }

  lemma {:induction false} DecomposedPieces(r: Rendering)
    requires WellFormed(r)
    ensures Decomposed(Spelled(r)) == PartsOf(r)
  {
    assert Mantissa(r)[0] == r.whole[0] && DigitAt(r.whole, 0);
    SignIsFound(r.sign, Mantissa(r) + ExponentText(r.exponent));
    SpelledSplits(r);
    MantissaPoints(r);
  }

  lemma {:induction false} PartsMean(r: Rendering)
    requires WellFormed(r)
    ensures Normal(PartsOf(r)) && PartsOf(r).negative == r.sign.Minus? && PartsMagnitude(PartsOf(r)) == Magnitude(r)
  {
    var m, e := r.whole + r.fraction, Scale(r.exponent) + |r.whole|;
    DigitsConcat(r.whole, r.fraction);
    StrippedMeans(r.sign.Minus?, m, e);
    assert e - |m| == Scale(r.exponent) - |r.fraction|;
  }

  /** The parts read off a rendering have its sign and value. */
  lemma {:induction false} DecomposedMeans(r: Rendering)
    requires WellFormed(r)
    ensures var p := Decomposed(Spelled(r));
            Normal(p) && p.negative == r.sign.Minus? && PartsMagnitude(p) == Magnitude(r)
  {
    DecomposedPieces(r);
    PartsMean(r);
  }

  // Moving the decimal point.

  function LeftPadded(n: nat, s: string): string {
    if n == 0 then s else "0" + LeftPadded(n - 1, s)
  }

  function RightPadded(s: string, n: nat): string {
    if n == 0 then s else RightPadded(s, n - 1) + "0"
  }

  function Negation(negative: bool): Sign {
    if negative then Minus else Bare
  }

  /** `std::to_string` of a number that is not negative. */
  function Numeral(n: nat): (s: string)
    ensures AllDigits(s) && s != [] && Horner(s) == n
  {
    var digit := [('0' as int + n % 10) as char];
    assert DigitAt(digit, 0);
    if n < 10 then digit else
      DigitsConcat(Numeral(n / 10), digit);
      Numeral(n / 10) + digit
  }

  /** Plain decimal: the point is moved to where the exponent puts it, zeros filling the gap. */
  function FixedForm(p: Parts): Rendering {
    var sign, n := Negation(p.negative), |p.digits|;
    if p.digits == "" then Rendering(sign, "0", false, "", NoExponent)
    else if p.exp10 <= 0 then Rendering(sign, "0", true, LeftPadded(-p.exp10, p.digits), NoExponent)
    else if p.exp10 >= n then Rendering(sign, RightPadded(p.digits, p.exp10 - n), false, "", NoExponent)
    else Rendering(sign, p.digits[..p.exp10], true, p.digits[p.exp10..], NoExponent)
  }

  /** One digit before the point, and the exponent that makes up for it. */
  function ScientificForm(p: Parts): Rendering {
    var sign, e := Negation(p.negative), p.exp10 - 1;
    if p.digits == "" then Rendering(sign, "0", false, "", NoExponent)
    else
      Rendering(sign, [p.digits[0]], |p.digits| > 1, p.digits[1..],
                Exponent(false, if e < 0 then Minus else Plus, Numeral(if e < 0 then -e else e)))
  }

  function Fixed(p: Parts): string {
    var n := |p.digits|;
    WithSign(Negation(p.negative),
             if p.digits == "" then "0"
             else if p.exp10 <= 0 then "0." + LeftPadded(-p.exp10, p.digits)
             else if p.exp10 >= n then RightPadded(p.digits, p.exp10 - n)
             else p.digits[..p.exp10] + "." + p.digits[p.exp10..])
  }

  function Scientific(p: Parts): string {
    var e := p.exp10 - 1;
    WithSign(Negation(p.negative),
             if p.digits == "" then "0"
             else
               [p.digits[0]] + (if |p.digits| > 1 then "." + p.digits[1..] else "")
               + "e" + (if e < 0 then "-" else "+") + Numeral(if e < 0 then -e else e))
  }

  lemma {:induction false} FixedSpelled(p: Parts)
    ensures Fixed(p) == Spelled(FixedForm(p))
  {
    if p.digits != "" && p.exp10 <= 0 {
      Regrouped("0", ".", LeftPadded(-p.exp10, p.digits));
    } else if p.digits != "" && p.exp10 < |p.digits| {
      Regrouped(p.digits[..p.exp10], ".", p.digits[p.exp10..]);
    }
    assert Mantissa(FixedForm(p)) + "" == Mantissa(FixedForm(p));
  }

  lemma {:induction false} ScientificSpelled(p: Parts)
    ensures Scientific(p) == Spelled(ScientificForm(p))
  {
    if p.digits != "" {
      var r, e := ScientificForm(p), p.exp10 - 1;
      var mark, digits := if e < 0 then "-" else "+", Numeral(if e < 0 then -e else e);
      assert Mantissa(r) == [p.digits[0]] + if |p.digits| > 1 then "." + p.digits[1..] else "";
      assert ExponentText(r.exponent) == "e" + (mark + digits);
      Regrouped(Mantissa(r) + "e", mark, digits);
      Regrouped(Mantissa(r), "e", mark + digits);
    }
  }

  /** No exponent, no zeros that say nothing, no plus sign, and a point only before a fraction. */
  predicate IsPlain(r: Rendering) {
    && r.exponent.NoExponent? && !r.sign.Plus? && (|r.whole| > 1 ==> r.whole[0] != '0')
    && (r.point <==> r.fraction != "") && (r.point ==> r.fraction[|r.fraction| - 1] != '0')
  }

  /** One digit but zero before the point, a fraction that does not end in zero, and an exponent with its sign, a lower-case
      mark and no leading zero. */
  predicate IsScientific(r: Rendering) {
    && |r.whole| == 1 && r.whole[0] != '0' && !r.sign.Plus?
    && (r.point <==> r.fraction != "") && (r.point ==> r.fraction[|r.fraction| - 1] != '0')
    && r.exponent.Exponent? && !r.exponent.upper && !r.exponent.sign.Bare?
    && (|r.exponent.digits| > 1 ==> r.exponent.digits[0] != '0')
  }

  lemma {:induction false} NumeralStarts(n: nat)
    ensures n > 0 ==> Numeral(n)[0] != '0'
  {
    if n >= 10 { NumeralStarts(n / 10); }
  }

  lemma {:induction false} PaddedEnds(s: string, n: nat)
    requires s != ""
    ensures LeftPadded(n, s) != "" && LeftPadded(n, s)[|LeftPadded(n, s)| - 1] == s[|s| - 1]
    ensures RightPadded(s, n) != "" && RightPadded(s, n)[0] == s[0]
  {
    if n > 0 { PaddedEnds(s, n - 1); }
  }

  lemma {:induction false} FixedIsPlain(p: Parts)
    requires Normal(p) && p.digits != ""
    ensures IsPlain(FixedForm(p))
  {
    var n := |p.digits|;
    if p.exp10 <= 0 {
      PaddedEnds(p.digits, -p.exp10);
    } else if p.exp10 >= n {
      PaddedEnds(p.digits, p.exp10 - n);
    } else {
      var fraction := p.digits[p.exp10..];
      assert fraction[|fraction| - 1] == p.digits[n - 1];
    }
  }

  lemma {:induction false} FormShapes(p: Parts)
    requires Normal(p) && p.digits != ""
    ensures IsPlain(FixedForm(p)) && IsScientific(ScientificForm(p))
  {
    FixedIsPlain(p);
    var r, e, fraction := ScientificForm(p), p.exp10 - 1, p.digits[1..];
    NumeralStarts(if e < 0 then -e else e);
    assert r.whole == [p.digits[0]] && r.fraction == fraction;
    assert fraction != "" ==> fraction[|fraction| - 1] == p.digits[|p.digits| - 1];
    assert Numeral(0) == ['0'];
  }

  lemma {:induction false} StrippedLeft(p: Parts, a: nat)
    requires Normal(p) && p.digits != ""
    ensures Stripped(p.negative, LeftPadded(a, p.digits), p.exp10 + a) == p
  {
    LeadingOfPadded(a, p.digits);
  }

  lemma {:induction false} LeadingOfPadded(a: nat, s: string)
    requires s != "" && s[0] != '0'
    ensures Leading(LeftPadded(a, s)) == a && LeftPadded(a, s)[a..] == s
  {
    if a > 0 {
      LeadingOfPadded(a - 1, s);
      assert LeftPadded(a, s)[1..] == LeftPadded(a - 1, s);
      assert LeftPadded(a, s)[a..] == LeftPadded(a, s)[1..][a - 1..];
    }
  }

  lemma {:induction false} StrippedRight(p: Parts, b: nat)
    requires Normal(p) && p.digits != ""
    ensures Stripped(p.negative, RightPadded(p.digits, b), p.exp10) == p
  {
    TrimmedOfPadded(p.digits, b);
    assert RightPadded(p.digits, b)[0..] == RightPadded(p.digits, b);
  }

  lemma {:induction false} TrimmedOfPadded(s: string, b: nat)
    requires s != "" && s[|s| - 1] != '0'
    ensures var padded := RightPadded(s, b); padded != "" && padded[0] == s[0] && Trimmed(padded) == s
  {
    if b > 0 {
      TrimmedOfPadded(s, b - 1);
      var padded := RightPadded(s, b);
      assert padded[..|padded| - 1] == RightPadded(s, b - 1);
    }
  }

  lemma {:induction false} PaddedDigits(s: string, n: nat)
    requires AllDigits(s)
    ensures AllDigits(LeftPadded(n, s)) && AllDigits(RightPadded(s, n)) && |RightPadded(s, n)| == |s| + n
  {
    if n > 0 {
      PaddedDigits(s, n - 1);
      assert DigitAt("0", 0);
      DigitsConcat("0", LeftPadded(n - 1, s));
      DigitsConcat(RightPadded(s, n - 1), "0");
    }
  }

  /** Neither form loses anything: reading it gives the parts back. */
  lemma {:induction false} FormsKeep(p: Parts)
    requires Normal(p) && p.digits != ""
    ensures WellFormed(FixedForm(p)) && Decomposed(Spelled(FixedForm(p))) == p
    ensures WellFormed(ScientificForm(p)) && Decomposed(Spelled(ScientificForm(p))) == p
  {
    FixedKeeps(p);
    DecomposedPieces(FixedForm(p));
    ScientificKeeps(p);
    DecomposedPieces(ScientificForm(p));
  }

  lemma {:induction false} FixedKeeps(p: Parts)
    requires Normal(p) && p.digits != ""
    ensures WellFormed(FixedForm(p)) && PartsOf(FixedForm(p)) == p
  {
    var n, d := -p.exp10, p.digits;
    if p.exp10 <= 0 {
      PaddedDigits(d, n);
      assert DigitAt("0", 0);
      assert "0" + LeftPadded(n, d) == LeftPadded(n + 1, d);
      StrippedLeft(p, n + 1);
    } else if p.exp10 >= |d| {
      LargeKeeps(p);
    } else {
      DigitsSlice(d, 0, p.exp10);
      DigitsSlice(d, p.exp10, |d|);
      assert d[0..p.exp10] + d[p.exp10..|d|] == d && d[0..p.exp10] == d[..p.exp10] && d[p.exp10..|d|] == d[p.exp10..];
      StrippedRight(p, 0);
    }
  }

  lemma {:induction false} LargeKeeps(p: Parts)
    requires Normal(p) && p.digits != "" && p.exp10 >= |p.digits|
    ensures WellFormed(FixedForm(p)) && PartsOf(FixedForm(p)) == p
  {
    var b := p.exp10 - |p.digits|;
    PaddedDigits(p.digits, b);
    assert RightPadded(p.digits, b) + "" == RightPadded(p.digits, b);
    StrippedRight(p, b);
  }

  lemma {:induction false} ScientificKeeps(p: Parts)
    requires Normal(p) && p.digits != ""
    ensures WellFormed(ScientificForm(p)) && PartsOf(ScientificForm(p)) == p
  {
    var r, d := ScientificForm(p), p.digits;
    DigitsSlice(d, 0, 1);
    DigitsSlice(d, 1, |d|);
    assert d[0..1] == r.whole && d[1..|d|] == r.fraction;
    assert r.whole + r.fraction == p.digits && Scale(r.exponent) + |r.whole| == p.exp10;
    StrippedRight(p, 0);
  }

  // Parts are canonical.

  function Tens(n: nat): nat {
    if n == 0 then 1 else 10 * Tens(n - 1)
  }

  lemma {:induction false} HornerBounds(s: string)
    requires AllDigits(s)
    ensures 0 <= Horner(s) < Tens(|s|)
    ensures s != [] && s[0] != '0' ==> Tens(|s| - 1) <= Horner(s)
  {
    if s != [] {
      DigitsSlice(s, 0, |s| - 1);
      assert s[0..|s| - 1] == s[..|s| - 1] && DigitAt(s, |s| - 1);
      HornerBounds(s[..|s| - 1]);
    }
  }

  lemma {:induction false} MagnitudeIsPositive(r: Rendering)
    requires AllDigits(r.whole) && AllDigits(r.fraction)
    ensures Magnitude(r) >= 0.0
  {
    var s, e := r.whole + r.fraction, Scale(r.exponent) - |r.fraction|;
    DigitsConcat(r.whole, r.fraction);
    HornerBounds(s);
    ScaledOrder(0, Horner(s), e);
    ScaledZero(e);
  }

  lemma {:induction false} HornerInjective(s: string, t: string)
    requires AllDigits(s) && AllDigits(t) && |s| == |t| && Horner(s) == Horner(t)
    ensures s == t
  {
    if s != [] {
      var s', t' := s[..|s| - 1], t[..|t| - 1];
      DigitsSlice(s, 0, |s| - 1);
      DigitsSlice(t, 0, |t| - 1);
      assert s[0..|s| - 1] == s' && t[0..|t| - 1] == t' && DigitAt(s, |s| - 1) && DigitAt(t, |t| - 1);
      HornerInjective(s', t');
      assert s == s' + [s[|s| - 1]] && t == t' + [t[|t| - 1]];
    }
  }

  lemma {:induction false} ScaledTens(n: nat, e: int)
    ensures Scaled(Tens(n), e) == Scaled(1, e + n)
  {
    if n > 0 {
      ScaledTen(Tens(n - 1), e);
      ScaledTens(n - 1, e + 1);
    }
  }

  lemma {:induction false} ScaledOrder(a: int, b: int, e: int)
    ensures a <= b <==> Scaled(a, e) <= Scaled(b, e)
    ensures a > 0 <==> Scaled(a, e) > 0.0
    decreases if e < 0 then -e else e
  {
    if e > 0 {
      ScaledOrder(a, b, e - 1);
    } else if e < 0 {
      ScaledOrder(a, b, e + 1);
    }
  }

  lemma {:induction false} ScaledZero(e: int)
    ensures Scaled(0, e) == 0.0
    decreases if e < 0 then -e else e
  {
    if e > 0 { ScaledZero(e - 1); } else if e < 0 { ScaledZero(e + 1); }
  }

  lemma {:induction false} PowersOrder(a: int, b: int)
    requires a <= b
    ensures Scaled(1, a) <= Scaled(1, b)
    decreases b - a
  {
    if a < b {
      PowersOrder(a, b - 1);
      ScaledOrder(1, 1, b - 1);
    }
  }

  /** The magnitude lies between the powers of ten given by the exponent. */
  lemma {:induction false} PartsBounds(p: Parts)
    requires Normal(p) && p.digits != []
    ensures Scaled(1, p.exp10 - 1) <= PartsMagnitude(p) < Scaled(1, p.exp10)
  {
    var n, h := |p.digits|, Horner(p.digits);
    HornerBounds(p.digits);
    ScaledTens(n - 1, p.exp10 - n);
    ScaledTens(n, p.exp10 - n);
    ScaledOrder(Tens(n - 1), h, p.exp10 - n);
    ScaledOrder(Tens(n), h, p.exp10 - n);
  }

  lemma {:induction false} HornerPadded(s: string, n: nat, e: int)
    ensures Scaled(Horner(RightPadded(s, n)), e) == Scaled(Horner(s), e + n)
    decreases n
  {
    if n > 0 {
      var t := RightPadded(s, n);
      assert t[..|t| - 1] == RightPadded(s, n - 1);
      ScaledTen(Horner(RightPadded(s, n - 1)), e);
      HornerPadded(s, n - 1, e + 1);
    }
  }

  lemma {:induction false} SameLength(p: Parts, q: Parts)
    requires Normal(p) && Normal(q) && p.digits != [] && q.digits != [] && p.exp10 == q.exp10
    requires PartsMagnitude(p) == PartsMagnitude(q) && |p.digits| <= |q.digits|
    ensures p.digits == q.digits
  {
    var gap, e := |q.digits| - |p.digits|, q.exp10 - |q.digits|;
    var padded := RightPadded(p.digits, gap);
    PaddedDigits(p.digits, gap);
    if gap > 0 {
      assert padded[|padded| - 1] == '0';
    }
    HornerPadded(p.digits, gap, e);
    ScaledOrder(Horner(padded), Horner(q.digits), e);
    ScaledOrder(Horner(q.digits), Horner(padded), e);
    HornerInjective(padded, q.digits);
  }

  /** Normal parts other than those of zero are determined by sign and value. */
  lemma {:induction false} PartsAreCanonical(p: Parts, q: Parts)
    requires Normal(p) && Normal(q) && p.digits != [] && q.digits != []
    ensures p == q <==> p.negative == q.negative && PartsMagnitude(p) == PartsMagnitude(q)
  {
    PartsBounds(p);
    PartsBounds(q);
    if PartsMagnitude(p) == PartsMagnitude(q) {
      if p.exp10 < q.exp10 { PowersOrder(p.exp10, q.exp10 - 1); }
      if q.exp10 < p.exp10 { PowersOrder(q.exp10, p.exp10 - 1); }
      if |p.digits| <= |q.digits| { SameLength(p, q); } else { SameLength(q, p); }
    }
  }

  /** Two renderings come apart in the same way exactly when they denote the same number; zeros are the exception. */
  lemma {:induction false} DecomposedIsCanonical(r: Rendering, t: Rendering)
    requires WellFormed(r) && WellFormed(t)
    ensures Magnitude(r) == 0.0 <==> Decomposed(Spelled(r)).digits == []
    ensures Magnitude(r) != 0.0 && Magnitude(t) != 0.0 ==>
      (Decomposed(Spelled(r)) == Decomposed(Spelled(t)) <==>
       r.sign.Minus? == t.sign.Minus? && Magnitude(r) == Magnitude(t))
  {
    DecomposedMeans(r);
    DecomposedMeans(t);
    var p, q := Decomposed(Spelled(r)), Decomposed(Spelled(t));
    ZeroHasNoDigits(p);
    ZeroHasNoDigits(q);
    if p.digits != [] && q.digits != [] {
      PartsAreCanonical(p, q);
    }
  }

  lemma {:induction false} ZeroHasNoDigits(p: Parts)
    requires Normal(p)
    ensures PartsMagnitude(p) == 0.0 <==> p.digits == []
  {
    if p.digits != [] {
      PartsBounds(p);
      ScaledOrder(1, 1, p.exp10 - 1);
    } else {
      ScaledZero(p.exp10);
    }
  }

  /** `form` denotes the same number as `r`, and nothing but zeros can be told apart by their parts. */
  predicate SameNumber(form: Rendering, r: Rendering) {
    && WellFormed(form) && form.sign.Minus? == r.sign.Minus? && Magnitude(form) == Magnitude(r)
    && (Magnitude(r) != 0.0 ==> Decomposed(Spelled(form)) == Decomposed(Spelled(r)))
  }

  /** Moving the point keeps sign and value, in both forms; so every digit is kept as well. */
  lemma {:induction false} MovingThePointKeeps(r: Rendering)
    requires WellFormed(r)
    ensures var p := Decomposed(Spelled(r));
            && Fixed(p) == Spelled(FixedForm(p)) && SameNumber(FixedForm(p), r)
            && Scientific(p) == Spelled(ScientificForm(p)) && SameNumber(ScientificForm(p), r)
  {
    var p := Decomposed(Spelled(r));
    FixedSpelled(p);
    ScientificSpelled(p);
    FormIsSame(FixedForm(p), r);
    FormIsSame(ScientificForm(p), r);
  }

  lemma {:induction false} FormIsSame(form: Rendering, r: Rendering)
    requires WellFormed(r)
    requires var p := Decomposed(Spelled(r)); form == FixedForm(p) || form == ScientificForm(p)
    ensures SameNumber(form, r)
  {
    var p := Decomposed(Spelled(r));
    DecomposedMeans(r);
    ZeroHasNoDigits(p);
    FormMeans(form, p);
  }

  lemma {:induction false} FormMeans(form: Rendering, p: Parts)
    requires Normal(p) && (form == FixedForm(p) || form == ScientificForm(p))
    ensures WellFormed(form) && form.sign.Minus? == p.negative && Magnitude(form) == PartsMagnitude(p)
    ensures p.digits != [] ==> Decomposed(Spelled(form)) == p
  {
    if p.digits != [] {
      FormsKeep(p);
      DecomposedMeans(form);
    } else {
      ZeroIsZero(form);
      ScaledZero(p.exp10);
    }
  }

  lemma {:induction false} ZeroIsZero(r: Rendering)
    requires r.whole == "0" && r.fraction == ""
    ensures Magnitude(r) == 0.0
  {
    assert r.whole + r.fraction == "0";
    assert Horner("0") == 0;
    ScaledZero(Scale(r.exponent));
  }
}
