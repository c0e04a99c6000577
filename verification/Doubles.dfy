/** From the fields of a finite double to the text printf gives it
    (web/packages/client/src/format.ts:104-260): every conversion prints the integer
    nearest to the double scaled by a power of ten, ties to the even one. */
module Doubles {
  import opened Digits
  import opened Decimals
  import opened Printf
  import Sexagesimal
  import Wire

  const IMPLICIT := 0x10_0000_0000_0000

  /** The mantissa of a finite double's fields: subnormals drop the leading one. */
  function Mantissa(biased: nat, fraction: nat): nat {
    if biased == 0 then fraction else fraction + IMPLICIT
  }

  /** The power of two it is multiplied by: subnormals share the smallest. */
  function Exponent(biased: nat): int {
    (if biased == 0 then 1 else biased) - 1075
  }

  /** The whole expansion of a double. */
  function Expanded(negative: bool, biased: nat, fraction: nat): (d: Decimal)
    ensures Canonical(d) && d.negative == negative
  {
    ExpansionCanonical(negative, Mantissa(biased, fraction), Exponent(biased));
    ToDecimalIsExact(negative, Mantissa(biased, fraction), Exponent(biased));
    ToDecimal(negative, Mantissa(biased, fraction), Exponent(biased))
  }

  lemma {:induction false} PowerOfTwo(k: nat, n: nat)
    requires n > 0 && Pow(2, k) == n
    ensures Pow(2, k + 1) == 2 * n && Pow(2, 2 * k) == n * n
  {
    PowAdds(k, k);
  }

  lemma {:induction false} PowAdds(a: nat, b: nat)
    ensures Pow(2, a + b) == Pow(2, a) * Pow(2, b)
  {
    if a > 0 {
      PowAdds(a - 1, b);
    }
  }

  /** The fields are those of section 3.4 of IEEE 754 (binary64): with the exponent field 1023 and no
      fraction the double is one; one more in the exponent field doubles it; and the smallest
      normal number is one unit above the largest subnormal one. */
  lemma FieldsAreBinary64(biased: nat, fraction: nat)
    ensures Exponent(1023) < 0 && Mantissa(1023, 0) == Pow(2, -Exponent(1023))
    ensures biased > 0 ==> Mantissa(biased + 1, fraction) == Mantissa(biased, fraction)
                           && Exponent(biased + 1) == Exponent(biased) + 1
    ensures Mantissa(0, fraction) == fraction && Mantissa(1, 0) == 0xF_FFFF_FFFF_FFFF + 1 && Exponent(1) == Exponent(0)
  {
    assert Pow(2, 13) == 0x2000;
    PowerOfTwo(13, 0x2000);
    PowerOfTwo(26, 0x400_0000);
  }

  /** `q` is the integer nearest to mantissa times two to the exponent times ten to the
      places, the even one of two that are equally near. */
  predicate Nearest(q: nat, mantissa: nat, exponent: int, places: int) {
    HalfEven(q, mantissa * Pow(2, Negated(-exponent)) * Pow10(Negated(-places)),
             Pow(2, Negated(exponent)) * Pow10(Negated(places)))
  }

  /** Ten to the `e` is at most mantissa times two to the exponent, and ten times it is more. */
  predicate Decade(mantissa: nat, exponent: int, e: int) {
    var n := mantissa * Pow(2, Negated(-exponent)) * Pow10(Negated(e));
    var d := Pow(2, Negated(exponent)) * Pow10(Negated(-e));
    d <= n < 10 * d
  }

  lemma ScaleHalfEven(q: int, n: int, d: int, c: int)
    requires d > 0 && c > 0
    ensures HalfEven(q, n * c, d * c) <==> HalfEven(q, n, d)
  {
    var gap := 2 * (q * d - n);
    assert 2 * (q * (d * c) - n * c) == gap * c by {
      assert q * (d * c) == q * d * c;
    }
    SameOrder(gap, d, c);
    SameOrder(-d, gap, c);
    SameOrder(gap, -d, c);
    SameOrder(d, gap, c);
  }

  lemma SameOrder(x: int, y: int, c: int)
    requires c > 0
    ensures x * c <= y * c <==> x <= y
  {
    if x <= y {
      TimesMonotone(x, y, c);
    } else {
      TimesMonotone(y + 1, x, c);
      TimesPlus(y, 1, c);
    }
  }

  lemma ExactIsNearest(q: nat, n: nat, d: nat)
    requires d > 0 && q * d == n
    ensures HalfEven(q, n, d)
  {
  }

  lemma PowPositive(k: nat)
    ensures Pow(2, k) > 0
  {
    if k > 0 {
      PowPositive(k - 1);
    }
  }

  lemma ProductPositive(a: nat, b: nat)
    requires a > 0 && b > 0
    ensures a * b > 0
  {
  }

  /** What a double's expansion holds: the value times two to what the exponent lacks is
      the mantissa times two to what it has, in units of the last digit. */
  lemma ExpansionScaled(negative: bool, mantissa: nat, exponent: int)
    ensures var d := ToDecimal(negative, mantissa, exponent);
            && Valid(d)
            && Val(d.digits) * Pow(2, Negated(exponent))
               == mantissa * Pow(2, Negated(-exponent)) * Pow10(Fraction(d))
  {
    ToDecimalIsExact(negative, mantissa, exponent);
    var d := ToDecimal(negative, mantissa, exponent);
    if exponent >= 0 {
      assert Pow(2, 0) == 1 && Pow10(0) == 1;
    } else {
      assert Pow(2, 0) == 1;
    }
  }

  lemma Apart(v: nat, a: nat, m: nat, f: nat, t: nat)
    requires v * a == m * f
    ensures v * (a * t) == (m * t) * f
  {
    assert v * (a * t) == (v * a) * t;
    assert (m * f) * t == (m * t) * f;
  }

  lemma Exchange(g: nat, t: nat, u: nat, f: nat, a: nat)
    requires g * t == u * f
    ensures g * (a * t) == (a * u) * f
  {
    assert g * (a * t) == a * (g * t);
    assert a * (u * f) == (a * u) * f;
  }

  lemma RoundedScaled(q: nat, v: nat, g: nat, n: nat, d: nat, c: nat, f: nat)
    requires g > 0 && d > 0 && c > 0 && f > 0
    requires HalfEven(q, v, g) && v * c == n * f && g * c == d * f
    ensures HalfEven(q, n, d)
  {
    ScaleHalfEven(q, v, g, c);
    ScaleHalfEven(q, n, d, f);
  }

  /** Rounding the expansion rounds the double. */
  lemma QuotientIsNearest(negative: bool, mantissa: nat, exponent: int, places: int)
    requires Valid(ToDecimal(negative, mantissa, exponent))
    requires ToDecimal(negative, mantissa, exponent).point + places >= 1
    ensures Nearest(Quotient(ToDecimal(negative, mantissa, exponent), places), mantissa, exponent, places)
  {
    hide ToDecimal, HalfEven, Pow, Pow10, Val;
    var d := ToDecimal(negative, mantissa, exponent);
    var v, f, q := Val(d.digits), Fraction(d), Quotient(d, places);
    var half, whole := Pow(2, Negated(exponent)), mantissa * Pow(2, Negated(-exponent));
    var up, down := Negated(-places), Negated(places);
    ExpansionScaled(negative, mantissa, exponent);
    PowPositive(Negated(exponent));
    Pow10Positive(up);
    Pow10Positive(down);
    Pow10Positive(f);
    ProductPositive(half, Pow10(up));
    ProductPositive(half, Pow10(down));
    Apart(v, half, whole, Pow10(f), Pow10(up));
    if places >= f {
      ExactScaled(v, half, whole, f, places);
    } else {
      QuotientIsHalfEven(d, places);
      Pow10Positive(f - places);
      Pow10Plus(f - places, up);
      Pow10Plus(down, f);
      Exchange(Pow10(f - places), Pow10(up), Pow10(down), Pow10(f), half);
      RoundedScaled(q, v, Pow10(f - places), whole * Pow10(up), half * Pow10(down), half * Pow10(up), Pow10(f));
    }
  }

  lemma ExactScaled(v: nat, half: nat, whole: nat, f: nat, places: nat)
    requires half > 0 && v * half == whole * Pow10(f) && places >= f
    ensures HalfEven(v * Pow10(places - f), whole * Pow10(places), half * Pow10(0))
  {
    hide HalfEven, Pow10;
    var more := Pow10(places - f);
    Pow10Plus(f, places - f);
    Apart(v, half, whole, Pow10(f), more);
    Exchange(v, half, whole, Pow10(f), more);
    assert v * more * half == whole * (Pow10(f) * more);
    Pow10Zero();
    ExactIsNearest(v * more, whole * Pow10(places), half * Pow10(0));
  }

  lemma Pow10Zero()
    ensures Pow10(0) == 1
  {
  }

  lemma Pow10Positive(n: nat)
    ensures Pow10(n) > 0
  {
  }

  lemma CancelFactor(a: nat, b: nat, f: nat)
    requires f > 0
    ensures a * f <= b * f <==> a <= b
    ensures a * f < b * f <==> a < b
  {
    SameOrder(a, b, f);
    SameOrder(b, a, f);
  }

  /** The expansion's decimal exponent is the double's. */
  lemma ExponentIsDecade(negative: bool, mantissa: nat, exponent: int)
    requires mantissa > 0
    ensures Valid(ToDecimal(negative, mantissa, exponent))
    ensures Decade(mantissa, exponent, ExponentOf(ToDecimal(negative, mantissa, exponent)))
  {
    hide ToDecimal, Pow, Pow10, Val;
    var d := ToDecimal(negative, mantissa, exponent);
    ExpansionScaled(negative, mantissa, exponent);
    var v, f, e := Val(d.digits), Fraction(d), ExponentOf(d);
    var half, whole := Pow(2, Negated(exponent)), mantissa * Pow(2, Negated(-exponent));
    var up, down := Negated(-e), Negated(e);
    PowPositive(Negated(exponent));
    PowPositive(Negated(-exponent));
    Pow10Positive(f);
    Pow10Positive(down);
    ProductPositive(mantissa, Pow(2, Negated(-exponent)));
    ProductPositive(whole, Pow10(f));
    assert v > 0 by {
      assert 0 * half == 0;
    }
    ExponentOfIsExponent(d);
    Pow10Plus(e + f, down);
    Pow10Plus(up, f);
    Pow10Next(e + f);
    DecadeScaled(v, Pow10(e + f), half, whole, Pow10(f), Pow10(up), Pow10(down));
  }

  lemma Pow10Next(n: nat)
    ensures Pow10(n + 1) == 10 * Pow10(n)
  {
  }

  lemma DecadeScaled(v: nat, p: nat, half: nat, whole: nat, f: nat, up: nat, down: nat)
    requires half > 0 && f > 0 && down > 0
    requires p <= v < 10 * p && v * half == whole * f && p * down == up * f
    ensures half * up <= whole * down < 10 * (half * up)
  {
    ProductPositive(half, down);
    CancelFactor(p, v, half * down);
    CancelFactor(v, 10 * p, half * down);
    Apart(v, half, whole, f, down);
    Exchange(p, down, up, f, half);
    assert 10 * p * (half * down) == 10 * (half * up) * f;
    CancelFactor(half * up, whole * down, f);
    CancelFactor(whole * down, 10 * (half * up), f);
  }

  // ------------------------------------------------------------------------ //
  // The three conversions                                                     //
  // ------------------------------------------------------------------------ //

  /** `%.pf` prints, over ten to the p, the integer nearest to the double times ten to the p:
      its whole part as a plain number and the rest as exactly p digits behind the point. */
  lemma FixedBodyOfDouble(negative: bool, biased: nat, fraction: nat, precision: nat)
    returns (q: nat, whole: string, part: string)
    ensures Nearest(q, Mantissa(biased, fraction), Exponent(biased), precision)
    ensures FixedBody(Expanded(negative, biased, fraction), precision) == Text(whole, part, "")
    ensures Spells(whole, part, q) && |part| == precision
    ensures Denotes(Text(whole, part, ""), q, 0 - precision)
  {
    hide FixedBody, Denotes, Nearest, ToDecimal, Quotient, Text, Spells, Val;
    var d := Expanded(negative, biased, fraction);
    q := Quotient(d, precision);
    whole, part := FixedBodyPrints(d, precision);
    QuotientIsNearest(negative, Mantissa(biased, fraction), Exponent(biased), precision);
  }

  /** The decimal exponent of a double: 0 for zero, and the decade it is in otherwise. */
  predicate IsExponent(mantissa: nat, exponent: int, e: int) {
    if mantissa == 0 then e == 0 else Decade(mantissa, exponent, e)
  }

  lemma ExponentOfDouble(negative: bool, biased: nat, fraction: nat)
    ensures IsExponent(Mantissa(biased, fraction), Exponent(biased), ExponentOf(Expanded(negative, biased, fraction)))
  {
    hide Mantissa, Decade;
    if Mantissa(biased, fraction) > 0 {
      ExponentIsDecade(negative, Mantissa(biased, fraction), Exponent(biased));
    } else {
      ZeroExpands(negative, Exponent(biased));
    }
  }

  lemma ZeroExpands(negative: bool, exponent: int)
    ensures ToDecimal(negative, 0, exponent) == Decimal(negative, "0", 1)
    ensures Valid(ToDecimal(negative, 0, exponent)) && ExponentOf(ToDecimal(negative, 0, exponent)) == 0
  {
  }

  /** The exponent that is printed, and the number the digits spell, when the nearest integer
      to p + 1 significant digits has carried to one more. */
  function Carried(q: nat, p: nat, e: int): (int, nat) {
    if q == Pow10(p + 1) then (e + 1, Pow10(p)) else (e, q)
  }

  lemma CarriedIs(d: Decimal, p: nat)
    requires Valid(d)
    ensures Carried(Quotient(d, PlacesFor(d, p)), p, ExponentOf(d)) == (SettledExponent(d, p), Significand(d, p))
  {
    hide Quotient, ExponentOf, Pow10, SettledExponent;
    SettledIs(d, p);
  }

  /** `%.pe` prints, with e the double's decimal exponent, the integer nearest to the double
      times ten to the p less e: one digit, the point and exactly p digits, and e with its sign
      and at least two digits. A nearest integer of one digit more is printed as the power of
      ten it is. */
  lemma ScientificBodyOfDouble(negative: bool, biased: nat, fraction: nat, precision: nat, marker: char)
    returns (q: nat, e: int, whole: string, part: string, exponent: string)
    requires marker == 'e' || marker == 'E'
    ensures IsExponent(Mantissa(biased, fraction), Exponent(biased), e)
    ensures Nearest(q, Mantissa(biased, fraction), Exponent(biased), precision - e)
    ensures ScientificBody(Expanded(negative, biased, fraction), precision, marker)
            == Text(whole, part, [marker] + exponent)
    ensures Denotes(Text(whole, part, [marker] + exponent), q, e - precision)
    ensures |whole| == 1 && |part| == precision && Spells(whole, part, Carried(q, precision, e).1)
    ensures SpellsExponent(exponent, Carried(q, precision, e).0)
  {
    hide ScientificBody, Denotes, Nearest, ToDecimal, Quotient, ExponentOf, IsExponent, Text, Spells, SpellsExponent,
         ExponentText, Carried, SettledExponent, Significand;
    var d := Expanded(negative, biased, fraction);
    q, e := Quotient(d, PlacesFor(d, precision)), ExponentOf(d);
    whole, part := ScientificBodySpells(d, precision, marker);
    exponent := ExponentText(SettledExponent(d, precision));
    CarriedIs(d, precision);
    ExponentSpells(SettledExponent(d, precision));
    ScientificBodyPrints(d, precision, marker);
    ExponentOfDouble(negative, biased, fraction);
    QuotientIsNearest(negative, Mantissa(biased, fraction), Exponent(biased), precision - e);
  }

  /** `%.pg` prints the integer nearest to the double at p significant digits, in whichever
      style: with an exponent exactly when the double's, one more if the rounding carried, is
      below -4 or at least p, one digit then ahead of the point; otherwise the whole part as a
      plain number. `full` is all p digits' worth of fraction, and trimmed it loses the zeros
      it ends in and nothing else. */
  lemma GeneralBodyOfDouble(negative: bool, biased: nat, fraction: nat, precision: nat, trim: bool, marker: char)
    returns (q: nat, e: int, whole: string, full: string, part: string, tail: string)
    requires marker == 'e' || marker == 'E'
    ensures IsExponent(Mantissa(biased, fraction), Exponent(biased), e)
    ensures var p: nat := if precision == 0 then 0 else precision - 1;
            var (settled, n) := Carried(q, p, e);
            && Nearest(q, Mantissa(biased, fraction), Exponent(biased), p - e)
            && GeneralBody(Expanded(negative, biased, fraction), precision, trim, marker) == Text(whole, part, tail)
            && Denotes(Text(whole, part, tail), q, e - p)
            && Spells(whole, full, n)
            && (if settled < -4 || settled > p
                then |whole| == 1 && |full| == p && tail != "" && tail[0] == marker && SpellsExponent(tail[1..], settled)
                else |full| == p - settled && tail == "")
    ensures |part| <= |full| && full == part + Zeros(|full| - |part|)
    ensures if trim then part != "" ==> part[|part| - 1] != '0' else part == full
  {
    hide GeneralBody, Text, Denotes, Nearest, ToDecimal, Quotient, ExponentOf, IsExponent, ExponentText, Spells,
         SpellsExponent, Carried, SettledExponent, Significand, Zeros;
    var d := Expanded(negative, biased, fraction);
    var p: nat := if precision == 0 then 0 else precision - 1;
    q, e := Quotient(d, PlacesFor(d, p)), ExponentOf(d);
    whole, full, part, tail := GeneralBodySpells(d, precision, trim, marker);
    CarriedIs(d, p);
    ExponentSpells(SettledExponent(d, p));
    assert ([marker] + ExponentText(SettledExponent(d, p)))[1..] == ExponentText(SettledExponent(d, p));
    var whole', part', tail' := GeneralBodyPrints(d, precision, trim, marker);
    ExponentOfDouble(negative, biased, fraction);
    QuotientIsNearest(negative, Mantissa(biased, fraction), Exponent(biased), p - e);
  }

  // ------------------------------------------------------------------------ //
  // Printing and reading                                                      //
  // ------------------------------------------------------------------------ //

  /** What is read of text, behind the sign of a number. */
  function ReadBack(negative: bool, text: string): Sexagesimal.Parsing {
    Sexagesimal.Parsed(Sexagesimal.SignText(negative) + text)
  }

  /** The reader of numbers reads `%.pf` of a double as its nearest multiple of ten to minus p. */
  lemma FixedReads(negative: bool, biased: nat, fraction: nat, precision: nat) returns (q: nat)
    ensures Nearest(q, Mantissa(biased, fraction), Exponent(biased), precision)
    ensures ReadBack(negative, FixedBody(Expanded(negative, biased, fraction), precision))
            == Sexagesimal.Value(Sexagesimal.Signed(negative, Sexagesimal.Scaled(q, 0 - precision)))
  {
    hide FixedBody, Denotes, Nearest, ToDecimal, Quotient, Text, Spells, Val, Sexagesimal.Parsed, Sexagesimal.Scaled;
    var d := Expanded(negative, biased, fraction);
    q := Quotient(d, precision);
    var whole, part := FixedBodyPrints(d, precision);
    QuotientIsNearest(negative, Mantissa(biased, fraction), Exponent(biased), precision);
    Sexagesimal.PrintedReads(negative, whole, part, 'e', Wire.None, q, 0 - precision);
  }

  /** It reads `%.pe` of a double as the nearest number of p + 1 significant digits. */
  lemma ScientificReads(negative: bool, biased: nat, fraction: nat, precision: nat, marker: char)
    returns (q: nat, e: int)
    requires marker == 'e' || marker == 'E'
    ensures IsExponent(Mantissa(biased, fraction), Exponent(biased), e)
    ensures Nearest(q, Mantissa(biased, fraction), Exponent(biased), precision - e)
    ensures ReadBack(negative, ScientificBody(Expanded(negative, biased, fraction), precision, marker))
            == Sexagesimal.Value(Sexagesimal.Signed(negative, Sexagesimal.Scaled(q, e - precision)))
  {
    hide ScientificBody, Denotes, Nearest, ToDecimal, Quotient, ExponentOf, IsExponent, Text, Spells, ExponentText,
         SettledExponent, Significand, Sexagesimal.Parsed, Sexagesimal.Scaled;
    var d := Expanded(negative, biased, fraction);
    q, e := Quotient(d, PlacesFor(d, precision)), ExponentOf(d);
    var whole, part := ScientificBodySpells(d, precision, marker);
    ScientificBodyPrints(d, precision, marker);
    ExponentOfDouble(negative, biased, fraction);
    QuotientIsNearest(negative, Mantissa(biased, fraction), Exponent(biased), precision - e);
    SpelledDigits(whole, part, Significand(d, precision));
    Sexagesimal.PrintedReads(negative, whole, part, marker, Wire.Some(SettledExponent(d, precision)), q, e - precision);
  }

  /** It reads `%.pg` of a double, in either style and trimmed or not, as the nearest number of
      p significant digits. */
  lemma GeneralReads(negative: bool, biased: nat, fraction: nat, precision: nat, trim: bool, marker: char)
    returns (q: nat, e: int)
    requires marker == 'e' || marker == 'E'
    ensures IsExponent(Mantissa(biased, fraction), Exponent(biased), e)
    ensures var p: nat := if precision == 0 then 0 else precision - 1;
            && Nearest(q, Mantissa(biased, fraction), Exponent(biased), p - e)
            && ReadBack(negative, GeneralBody(Expanded(negative, biased, fraction), precision, trim, marker))
               == Sexagesimal.Value(Sexagesimal.Signed(negative, Sexagesimal.Scaled(q, e - p)))
  {
    hide GeneralBody, Text, Denotes, Nearest, ToDecimal, Quotient, ExponentOf, IsExponent, ExponentText, SettledExponent,
         Sexagesimal.Parsed, Sexagesimal.Scaled;
    var d := Expanded(negative, biased, fraction);
    var p: nat := if precision == 0 then 0 else precision - 1;
    q, e := Quotient(d, PlacesFor(d, p)), ExponentOf(d);
    var whole, part, tail := GeneralBodyPrints(d, precision, trim, marker);
    ExponentOfDouble(negative, biased, fraction);
    QuotientIsNearest(negative, Mantissa(biased, fraction), Exponent(biased), p - e);
    var exponent := if ExponentStyle(d, p + 1) then Wire.Some(SettledExponent(d, p)) else Wire.None;
    Sexagesimal.PrintedReads(negative, whole, part, marker, exponent, q, e - p);
  }
}
