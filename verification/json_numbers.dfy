/** Numbers in JSON text. Conversion between doubles and decimal digits is left to the standard library. */
module JsonNumbers {
  import opened Options
  import opened Texts
  import opened Decimals
  import opened JsonStrings

  datatype Double = Finite(negative: bool, magnitude: real) | Infinite(negative: bool) | NaN

  /**
   * `nearest` is how `std::from_chars` rounds a magnitude, `None` standing for a result out of range;
   * `shortest` is the scientific rendering of a positive double by `std::to_chars`.
   */
  datatype Conversion = Conversion(nearest: real -> Option<real>, shortest: real -> string)

  /** Magnitudes of doubles are those that rounding leaves alone. */
  predicate IsDouble(c: Conversion, x: real) {
    c.nearest(x) == Some(x)
  }

  ghost predicate Shortest(c: Conversion, x: real, r: Rendering) {
    WellFormed(r) && r.sign == Bare && Spelled(r) == c.shortest(x) && c.nearest(Magnitude(r)) == Some(x)
  }

  /** Rounding gives doubles, and the shortest rendering of a double is rounded to it. */
  ghost predicate Faithful(c: Conversion) {
    && IsDouble(c, 0.0)
    && (forall v, x :: v >= 0.0 && c.nearest(v) == Some(x) ==> x >= 0.0 && IsDouble(c, x))
    && (forall x :: x > 0.0 && IsDouble(c, x) ==> exists r :: Shortest(c, x, r))
  }

  // Writing.

  function InScientific(magnitude: real): bool {
    magnitude < 0.000001 || magnitude >= 1000000000000000000000.0
  }

  function NumberText(c: Conversion, d: Double): string {
    match d
    case NaN => "nan"
    case Infinite(negative) => if negative then "-inf" else "inf"
    case Finite(negative, magnitude) =>
      if magnitude == 0.0 then WithSign(Negation(negative), "0") else
        var p := Decomposed(WithSign(Negation(negative), c.shortest(magnitude)));
        if InScientific(magnitude) then Scientific(p) else Fixed(p)
  }

  method FormatNumber(c: Conversion, d: Double) returns (s: string)
    ensures s == NumberText(c, d)
    ensures d.NaN? ==> s == "nan"
    ensures d.Infinite? ==> s == if d.negative then "-inf" else "inf"
    ensures d.Finite? && d.magnitude == 0.0 ==> s == if d.negative then "-0" else "0"
  {
    if d.NaN? {
      return "nan";
    }
    if d.Infinite? {
      return if d.negative then "-inf" else "inf";
    }
    if d.magnitude == 0.0 {
      return if d.negative then "-0" else "0";
    }
    var p := Decompose(WithSign(Negation(d.negative), c.shortest(d.magnitude)));
    s := if InScientific(d.magnitude) then Scientific(p) else Fixed(p);
  }

  // Reading.

  /** The digits from `i` on, up to whatever is not a digit. */
  function DigitsAt(t: string, i: nat): (digits: string)
    requires i <= |t|
    ensures i + |digits| <= |t|
    decreases |t| - i
  {
    if i < |t| && IsDigit(t[i]) then [t[i]] + DigitsAt(t, i + 1) else ""
  }

  function ExponentAt(t: string, i: nat): (r: (Exponent, nat))
    requires i <= |t|
    ensures i <= r.1 <= |t|
  {
    if i == |t| || (t[i] != 'e' && t[i] != 'E') then (NoExponent, i) else
      var signed := i + 1 < |t| && (t[i + 1] == '+' || t[i + 1] == '-');
      var sign := if !signed then Bare else if t[i + 1] == '+' then Plus else Minus;
      var start := if signed then i + 2 else i + 1;
      var digits := DigitsAt(t, start);
      (if digits != "" then Exponent(t[i] == 'E', sign, digits) else NoExponent, start + |digits|)
  }

  /** The digits around the point, if there is one, and where they end. */
  function MantissaAt(t: string, i: nat): (r: (Rendering, nat))
    requires i <= |t|
    ensures i <= r.1 <= |t|
    ensures r.0.whole != "" || r.0.fraction != "" ==> i < r.1
  {
    var whole := DigitsAt(t, i);
    var mid := i + |whole|;
    if mid < |t| && t[mid] == '.' then
      var fraction := DigitsAt(t, mid + 1);
      (Rendering(Bare, whole, true, fraction, NoExponent), mid + 1 + |fraction|)
    else
      (Rendering(Bare, whole, false, "", NoExponent), mid)
  }

  /** The longest rendering at `p`; an exponent without digits is passed over, as `std::from_chars` does not use it. */
  function ScanNumber(t: string, p: nat): (r: (Rendering, nat))
    requires p <= |t|
    ensures p <= r.1 <= |t|
    ensures r.0.whole != "" || r.0.fraction != "" ==> p < r.1
  {
    var negative := p < |t| && t[p] == '-';
    var (mantissa, end) := MantissaAt(t, if negative then p + 1 else p);
    var (exponent, next) := ExponentAt(t, end);
    (Rendering(if negative then Minus else Bare, mantissa.whole, mantissa.point, mantissa.fraction, exponent), next)
  }

  function ReadNumber(c: Conversion, t: string, p: nat): (r: Read<Double>)
    requires p <= |t|
    ensures r.Read? ==> p < r.next <= |t|
  {
    var (r, next) := ScanNumber(t, p);
    if r.whole == "" && r.fraction == "" then Failed(InvalidNumber) else
      match c.nearest(Magnitude(r))
      case None => Failed(InvalidNumber)
      case Some(x) => Read(Finite(r.sign.Minus?, x), next)
  }

  // Reading what was written.

  /** Nothing at `q` could continue a number. */
  predicate Ends(t: string, q: nat) {
    q < |t| ==> !IsDigit(t[q]) && t[q] != '.' && t[q] != 'e' && t[q] != 'E'
  }

  lemma {:induction false} ReadsDigits(t: string, i: nat, w: string)
    requires At(t, i, w) && AllDigits(w) && (i + |w| < |t| ==> !IsDigit(t[i + |w|]))
    ensures DigitsAt(t, i) == w
    decreases |w|
  {
    if w != "" {
      assert w == w[..1] + w[1..];
      AtParts(t, i, w[..1], w[1..]);
      FirstAt(t, i, w);
      assert DigitAt(w, 0);
      DigitsSlice(w, 1, |w|);
      assert w[1..|w|] == w[1..];
      ReadsDigits(t, i + 1, w[1..]);
    }
  }

  /** What `ExponentAt` makes of a mark, a sign and digits. */
  lemma {:induction false} ExponentFrom(t: string, p: nat, e: Exponent, start: nat)
    requires e.Exponent? && p + 1 < |t| && t[p] == (if e.upper then 'E' else 'e')
    requires (t[p + 1] == '+' <==> e.sign.Plus?) && (t[p + 1] == '-' <==> e.sign.Minus?)
    requires start == (if e.sign.Bare? then p + 1 else p + 2) && start <= |t|
    requires DigitsAt(t, start) == e.digits && e.digits != ""
    ensures ExponentAt(t, p) == (e, start + |e.digits|)
  {
  }

  lemma {:induction false} ScansExponent(t: string, p: nat, e: Exponent, end: nat)
    requires At(t, p, ExponentText(e)) && end == p + |ExponentText(e)| && Ends(t, end)
    requires e.Exponent? ==> AllDigits(e.digits) && e.digits != ""
    ensures ExponentAt(t, p) == (e, end)
  {
    if e.Exponent? {
      FirstAt(t, p, ExponentText(e));
      AtParts(t, p, if e.upper then "E" else "e", WithSign(e.sign, e.digits));
      ScansSigned(t, p + 1, e.sign, e.digits);
      ExponentFrom(t, p, e, if e.sign.Bare? then p + 1 else p + 2);
    }
  }

  lemma {:induction false} ScansSigned(t: string, p: nat, sign: Sign, digits: string)
    requires At(t, p, WithSign(sign, digits)) && AllDigits(digits) && digits != ""
    requires var q := p + |WithSign(sign, digits)|; q < |t| ==> !IsDigit(t[q])
    ensures p < |t| && (t[p] == '+' <==> sign.Plus?) && (t[p] == '-' <==> sign.Minus?)
    ensures var start := if sign.Bare? then p else p + 1;
            DigitsAt(t, start) == digits && start + |digits| == p + |WithSign(sign, digits)|
  {
    FirstAt(t, p, WithSign(sign, digits));
    assert DigitAt(digits, 0);
    match sign
    case Bare => ReadsDigits(t, p, digits);
    case Plus =>
      AtParts(t, p, "+", digits);
      ReadsDigits(t, p + 1, digits);
    case Minus =>
      AtParts(t, p, "-", digits);
      ReadsDigits(t, p + 1, digits);
  }

  lemma {:induction false} ReadsFraction(t: string, p: nat, fraction: string)
    requires At(t, p, "." + fraction) && AllDigits(fraction)
    requires var q := p + 1 + |fraction|; q < |t| ==> !IsDigit(t[q])
    ensures p < |t| && t[p] == '.' && DigitsAt(t, p + 1) == fraction
  {
    FirstAt(t, p, "." + fraction);
    AtParts(t, p, ".", fraction);
    ReadsDigits(t, p + 1, fraction);
  }

  lemma {:induction false} ScansMantissa(t: string, p: nat, r: Rendering)
    requires WellFormed(r) && At(t, p, Mantissa(r))
    requires var q := p + |Mantissa(r)|; q < |t| ==> !IsDigit(t[q]) && t[q] != '.'
    ensures MantissaAt(t, p) == (Rendering(Bare, r.whole, r.point, r.fraction, NoExponent), p + |Mantissa(r)|)
  {
    if r.point {
      AtParts(t, p, r.whole, "." + r.fraction);
      ReadsFraction(t, p + |r.whole|, r.fraction);
    }
    ReadsDigits(t, p, r.whole);
  }

  lemma {:induction false} MantissaStarts(t: string, p: nat, r: Rendering)
    requires WellFormed(r) && At(t, p, Mantissa(r))
    ensures p < |t| && IsDigit(t[p])
  {
    FirstAt(t, p, Mantissa(r));
    assert Mantissa(r)[0] == r.whole[0] && DigitAt(r.whole, 0);
  }

  /** A rendering without its sign. */
  lemma {:induction false} ScansUnsigned(t: string, p: nat, r: Rendering, mid: nat, end: nat)
    requires WellFormed(r) && At(t, p, Mantissa(r)) && mid == p + |Mantissa(r)|
    requires At(t, mid, ExponentText(r.exponent)) && end == mid + |ExponentText(r.exponent)| && Ends(t, end)
    ensures MantissaAt(t, p) == (Rendering(Bare, r.whole, r.point, r.fraction, NoExponent), mid)
    ensures ExponentAt(t, mid) == (r.exponent, end)
  {
    FirstAt(t, mid, ExponentText(r.exponent));
    ScansMantissa(t, p, r);
    ScansExponent(t, mid, r.exponent, end);
  }

  /** What `ScanNumber` makes of its three parts. */
  lemma {:induction false} ScansParts(t: string, p: nat, start: nat, mantissa: Rendering, mid: nat, exponent: Exponent, end: nat)
    requires p < |t| && start == (if t[p] == '-' then p + 1 else p) && mid <= |t|
    requires MantissaAt(t, start) == (mantissa, mid) && ExponentAt(t, mid) == (exponent, end)
    ensures var sign := if t[p] == '-' then Minus else Bare;
            ScanNumber(t, p) == (Rendering(sign, mantissa.whole, mantissa.point, mantissa.fraction, exponent), end)
  {
  }

  /** Where the parts of a rendering stand. */
  lemma {:induction false} SpelledAt(t: string, p: nat, r: Rendering, start: nat, mid: nat, end: nat)
    requires At(t, p, Spelled(r)) && start == (if r.sign.Bare? then p else p + 1)
    requires mid == start + |Mantissa(r)| && end == p + |Spelled(r)|
    ensures r.sign.Minus? ==> p < |t| && t[p] == '-'
    ensures At(t, start, Mantissa(r)) && At(t, mid, ExponentText(r.exponent)) && end == mid + |ExponentText(r.exponent)|
  {
    var unsigned := Mantissa(r) + ExponentText(r.exponent);
    FirstAt(t, p, Spelled(r));
    if r.sign.Plus? { AtParts(t, p, "+", unsigned); }
    if r.sign.Minus? { AtParts(t, p, "-", unsigned); }
    AtParts(t, start, Mantissa(r), ExponentText(r.exponent));
  }

  lemma {:induction false} ScansRendering(t: string, p: nat, r: Rendering, end: nat)
    requires WellFormed(r) && r.sign != Plus && At(t, p, Spelled(r)) && end == p + |Spelled(r)| && Ends(t, end)
    ensures ScanNumber(t, p) == (r, end)
  {
    var start := if r.sign.Bare? then p else p + 1;
    var mid := start + |Mantissa(r)|;
    SpelledAt(t, p, r, start, mid, end);
    MantissaStarts(t, start, r);
    ScansUnsigned(t, start, r, mid, end);
    ScansParts(t, p, start, Rendering(Bare, r.whole, r.point, r.fraction, NoExponent), mid, r.exponent, end);
  }

  lemma {:induction false} SignedSpells(r: Rendering, negative: bool)
    requires WellFormed(r) && r.sign == Bare
    ensures var signed := r.(sign := Negation(negative));
            WellFormed(signed) && Spelled(signed) == WithSign(Negation(negative), Spelled(r)) && Magnitude(signed) == Magnitude(r)
  {
  }

  /** `r` is a rendering of `d`: it has its sign and is rounded to its magnitude. */
  predicate Denotes(c: Conversion, r: Rendering, d: Double) {
    && d.Finite? && WellFormed(r) && r.sign == Negation(d.negative) && c.nearest(Magnitude(r)) == Some(d.magnitude)
  }

  lemma {:induction false} FormDenotes(c: Conversion, r: Rendering, d: Double, form: Rendering)
    requires Denotes(c, r, d)
    requires var p := Decomposed(Spelled(r)); form == if InScientific(d.magnitude) then ScientificForm(p) else FixedForm(p)
    ensures Denotes(c, form, d)
    ensures var p := Decomposed(Spelled(r)); Spelled(form) == if InScientific(d.magnitude) then Scientific(p) else Fixed(p)
  {
    MovingThePointKeeps(r);
    assert form.sign.Minus? || form.sign.Bare?;
  }

  /** What is written for a finite double is a rendering of it. */
  lemma {:induction false} NumberTextDenotes(c: Conversion, d: Double) returns (r: Rendering)
    requires Faithful(c) && d.Finite? && d.magnitude >= 0.0 && IsDouble(c, d.magnitude)
    ensures Denotes(c, r, d) && Spelled(r) == NumberText(c, d)
    ensures if 0.0 < d.magnitude && (1000000.0 * d.magnitude < 1.0 || d.magnitude >= 1000000000.0 * 1000000000000.0)
            then IsScientific(r) else IsPlain(r)
  {
    if d.magnitude == 0.0 {
      r := Rendering(Bare, "0", false, "", NoExponent);
      assert DigitAt("0", 0);
      ZeroIsZero(r);
      assert Spelled(r) == "0" + "" == "0";
      SignedSpells(r, d.negative);
      r := r.(sign := Negation(d.negative));
    } else {
      var s :| Shortest(c, d.magnitude, s);
      SignedSpells(s, d.negative);
      var signed := s.(sign := Negation(d.negative));
      var p := Decomposed(Spelled(signed));
      r := if InScientific(d.magnitude) then ScientificForm(p) else FixedForm(p);
      FormDenotes(c, signed, d, r);
      ShapeChosen(c, signed, d);
    }
  }

  lemma {:induction false} ShapeChosen(c: Conversion, r: Rendering, d: Double)
    requires Denotes(c, r, d) && d.magnitude > 0.0 && c.nearest(0.0) == Some(0.0)
    ensures var p := Decomposed(Spelled(r)); IsPlain(FixedForm(p)) && IsScientific(ScientificForm(p))
  {
    DecomposedMeans(r);
    DecomposedIsCanonical(r, r);
    FormShapes(Decomposed(Spelled(r)));
  }

  /** A rendering of a double, in any surroundings that end it, is read as that double, the sign of zero included. */
  lemma {:induction false} ReadsDenoted(c: Conversion, r: Rendering, d: Double, t: string, p: nat)
    requires Denotes(c, r, d) && At(t, p, Spelled(r)) && Ends(t, p + |Spelled(r)|)
    ensures ReadNumber(c, t, p) == Read(d, p + |Spelled(r)|)
  {
    ScansRendering(t, p, r, p + |Spelled(r)|);
  }

  /** A number that is read is a double. */
  lemma {:induction false} NumberIsDouble(c: Conversion, t: string, p: nat)
    requires Faithful(c) && p <= |t| && ReadNumber(c, t, p).Read?
    ensures var d := ReadNumber(c, t, p).value; d.Finite? && d.magnitude >= 0.0 && IsDouble(c, d.magnitude)
  {
    ScansDigits(t, p);
    MagnitudeIsPositive(ScanNumber(t, p).0);
  }

  lemma {:induction false} ScansDigits(t: string, p: nat)
    requires p <= |t|
    ensures var r := ScanNumber(t, p).0; AllDigits(r.whole) && AllDigits(r.fraction)
  {
    var start := if p < |t| && t[p] == '-' then p + 1 else p;
    DigitsAreDigits(t, start);
    var mid := start + |DigitsAt(t, start)|;
    if mid < |t| { DigitsAreDigits(t, mid + 1); }
  }

  lemma {:induction false} DigitsAreDigits(t: string, i: nat)
    requires i <= |t|
    ensures AllDigits(DigitsAt(t, i))
    decreases |t| - i
  {
    if i < |t| && IsDigit(t[i]) {
      DigitsAreDigits(t, i + 1);
      assert DigitAt([t[i]], 0);
      DigitsConcat([t[i]], DigitsAt(t, i + 1));
    }
  }
}
