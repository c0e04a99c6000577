/** The printf conversions of web/packages/client/src/format.ts:161-220, and a reader of
    decimal text that says what number a printed text denotes. */
module Printf {
  import opened Digits
  import opened Decimals

  // ------------------------------------------------------------------------ //
  // The conversions                                                           //
  // ------------------------------------------------------------------------ //

  /** `%f`: the rounded digits cut at the point, which is left out before no digits. */
  function FixedBody(d: Decimal, precision: nat): string
    requires Valid(d)
  {
    var rounded := RoundDecimal(d, precision);
    assert Counts(rounded, Quotient(d, precision), precision) by { RoundDecimalIsQuotient(d, precision); }
    var whole := rounded.digits[..rounded.point];
    if precision > 0 then whole + "." + rounded.digits[rounded.point..] else whole
  }

  /** The significant digits `%e` prints, and the exponent it prints them with. */
  function Significant(d: Decimal, precision: nat): (string, int)
    requires Valid(d)
  {
    var exponent := ExponentOf(d);
    var rounded := RoundDecimal(d, precision - exponent);
    assert Counts(rounded, Quotient(d, PlacesFor(d, precision)), PlacesFor(d, precision)) by {
      RoundDecimalIsQuotient(d, PlacesFor(d, precision));
    }
    Picked(rounded, exponent, precision)
  }

  /** The digits of a rounded value from its first significant one on: a carry can only
      have landed on a power of ten. */
  function Picked(rounded: Decimal, exponent: int, precision: nat): (string, int)
    requires Valid(rounded)
  {
    var carried := ExponentOf(rounded) != exponent;
    var first := LeadingZeros(rounded.digits);
    if carried then ("1" + Zeros(precision), exponent + 1)
    else if first == |rounded.digits| then (Zeros(precision + 1), exponent)
    else (Slice(rounded.digits, first, first + precision + 1), exponent)
  }

  /** `slice`: the part of a string between two indices, as far as it goes. */
  function Slice(s: string, from: nat, to: nat): string
    requires from <= |s| && from <= to
  {
    if to <= |s| then s[from..to] else s[from..]
  }

  /** `padStart(2, "0")` of the exponent's magnitude, behind its sign. */
  function ExponentText(exponent: int): string {
    (if exponent < 0 then "-" else "+") + PadZeros(ToText(if exponent < 0 then -exponent else exponent), 2)
  }

  /** `%e`: one significant digit, the others behind the point, and a tail. */
  function ScientificBody(d: Decimal, precision: nat, marker: char): string
    requires Valid(d)
  {
    var (significant, exponent) := Significant(d, precision);
    var mantissa := if precision > 0 then Slice(significant, 0, 1) + "." + Slice(significant, 1, |significant|)
                    else significant;
    mantissa + [marker] + ExponentText(exponent)
  }

  /** What `%g` strips from the text ahead of its tail, where that has a point. */
  function TrimTrailingZeros(text: string): string {
    var marker := Find(text, 'e', 'E');
    var head := text[..marker];
    if '.' !in head then text else TrimHead(head) + text[marker..]
  }

  /** `replace(/\.?0+$/, "")`. */
  function TrimHead(head: string): string {
    var kept := StripZeros(head);
    if kept != head && kept != [] && kept[|kept| - 1] == '.' then kept[..|kept| - 1] else kept
  }

  function StripZeros(s: string): (r: string)
    ensures |r| <= |s| && r == s[..|r|] && forall i :: |r| <= i < |s| ==> s[i] == '0'
    ensures r != [] ==> r[|r| - 1] != '0'
  {
    if s != [] && s[|s| - 1] == '0' then StripZeros(s[..|s| - 1]) else s
  }

  /** `%g`: the style is chosen by the exponent the rounded value has. */
  function GeneralBody(d: Decimal, precision: nat, trim: bool, marker: char): string
    requires Valid(d)
  {
    var significant := if precision == 0 then 1 else precision;
    var rounded := RoundDecimal(d, significant - 1 - ExponentOf(d));
    assert Counts(rounded, Quotient(d, PlacesFor(d, significant - 1)), PlacesFor(d, significant - 1)) by {
      RoundDecimalIsQuotient(d, PlacesFor(d, significant - 1));
    }
    var exponent := ExponentOf(rounded);
    var body :=
      if exponent < -4 || exponent >= significant then ScientificBody(d, significant - 1, marker)
      else FixedBody(d, significant - 1 - exponent);
    if trim then TrimTrailingZeros(body) else body
  }

  // ------------------------------------------------------------------------ //
  // A reader of what was printed                                              //
  // ------------------------------------------------------------------------ //

  /** The first position of either character, or the length. */
  function Find(s: string, a: char, b: char): (at: nat)
    ensures at <= |s| && forall i :: 0 <= i < at ==> s[i] != a && s[i] != b
    ensures at < |s| ==> s[at] == a || s[at] == b
  {
    if s == [] || s[0] == a || s[0] == b then 0 else 1 + Find(s[1..], a, b)
  }

  datatype Reading = Unreadable | Reading(digits: string, scale: int)

  /** The exponent a tail `e+07` carries; 0 for no tail. */
  function ReadExponent(tail: string): int {
    if |tail| >= 3 && IsDigits(tail[2..]) then
      (if tail[1] == '-' then -(Val(tail[2..]) as int) else Val(tail[2..]))
    else 0
  }

  /** The digits of a decimal text and the power of ten they count. */
  function Read(text: string): Reading {
    var marker := Find(text, 'e', 'E');
    var head := text[..marker];
    var point := Find(head, '.', '.');
    var digits := head[..point] + (if point < |head| then head[point + 1..] else "");
    var places := if point < |head| then |head| - point - 1 else 0;
    if IsDigits(digits) && digits != "" then Reading(digits, ReadExponent(text[marker..]) - places) else Unreadable
  }

  /** The text denotes n times ten to the s. */
  predicate Denotes(text: string, n: nat, s: int) {
    && Read(text).Reading?
    && IsDigits(Read(text).digits)
    && SameNumber(Val(Read(text).digits), Read(text).scale, n, s)
  }

  lemma {:induction false} FindIs(s: string, a: char, b: char, at: nat)
    requires at <= |s| && (forall i :: 0 <= i < at ==> s[i] != a && s[i] != b)
    requires at < |s| ==> s[at] == a || s[at] == b
    ensures Find(s, a, b) == at
  {
    if at > 0 {
      FindIs(s[1..], a, b, at - 1);
    }
  }

  lemma ExponentReads(marker: char, exponent: int)
    ensures ReadExponent([marker] + ExponentText(exponent)) == exponent
  {
    var n: nat := if exponent < 0 then 0 - exponent else exponent;
    ToTextVal(n);
    PadZerosVal(ToText(n), 2);
    assert ([marker] + ExponentText(exponent))[2..] == PadZeros(ToText(n), 2);
  }

  /** A sign, always, and the magnitude: two digits at least, and no zero leads more. */
  predicate SpellsExponent(text: string, e: int) {
    && |text| >= 3 && text[0] == (if e < 0 then '-' else '+')
    && IsDigits(text[1..]) && (|text| > 3 ==> text[1] != '0')
    && Val(text[1..]) == if e < 0 then -e else e
  }

  lemma ExponentSpells(e: int)
    ensures SpellsExponent(ExponentText(e), e)
  {
    var n: nat := if e < 0 then -e else e;
    ToTextVal(n);
    PadZerosVal(ToText(n), 2);
    assert ExponentText(e)[1..] == PadZeros(ToText(n), 2);
    if n > 0 {
      ToTextLead(n);
    }
  }

  /** Decimal text from its parts: the point only when a fraction follows it. */
  function Text(whole: string, fraction: string, tail: string): string {
    Head(whole, fraction) + tail
  }

  function Head(whole: string, fraction: string): string {
    if fraction != "" then whole + "." + fraction else whole
  }

  /** Either no exponent or one behind its marker. */
  predicate IsTail(tail: string) {
    tail == "" || tail[0] == 'e' || tail[0] == 'E'
  }

  lemma HeadParts(whole: string, fraction: string)
    requires IsDigits(whole) && IsDigits(fraction)
    ensures var head := Head(whole, fraction);
            && Find(head, '.', '.') == |whole| && head[..|whole|] == whole
            && (fraction != "" ==> |head| == |whole| + 1 + |fraction| && head[|whole| + 1..] == fraction)
  {
    var head := Head(whole, fraction);
    FindIs(head, '.', '.', |whole|);
    assert head[..|whole|] == whole;
    if fraction != "" {
      assert head[|whole| + 1..] == fraction;
    }
  }

  lemma TailParts(whole: string, fraction: string, tail: string)
    requires IsDigits(whole) && IsDigits(fraction) && IsTail(tail)
    ensures var text, head := Text(whole, fraction, tail), Head(whole, fraction);
            Find(text, 'e', 'E') == |head| && text[..|head|] == head && text[|head|..] == tail
  {
    var text, head := Text(whole, fraction, tail), Head(whole, fraction);
    FindIs(text, 'e', 'E', |head|);
    assert text[..|head|] == head && text[|head|..] == tail;
  }

  /** Reading decimal text gives back its digits, over ten to the digits after the
      point, times the exponent's power of ten. */
  lemma TextReads(whole: string, fraction: string, tail: string)
    requires IsDigits(whole) && whole != "" && IsDigits(fraction) && IsTail(tail)
    ensures Read(Text(whole, fraction, tail)) == Reading(whole + fraction, ReadExponent(tail) - |fraction|)
  {
    HeadParts(whole, fraction);
    TailParts(whole, fraction, tail);
    if fraction == "" {
      assert whole + "" == whole;
    }
  }

  // ------------------------------------------------------------------------ //
  // Equal numbers                                                             //
  // ------------------------------------------------------------------------ //

  lemma SameNumberSelf(n: nat, s: int)
    ensures SameNumber(n, s, n, s)
  {
    assert Pow10(0) == 1;
  }

  lemma CancelPower(a: nat, b: nat, p: nat)
    requires p > 0 && a * p == b * p
    ensures a == b
  {
    if a < b {
      TimesMonotone(a + 1, b, p);
      TimesPlus(a, 1, p);
    } else if b < a {
      TimesMonotone(b + 1, a, p);
      TimesPlus(b, 1, p);
    }
  }

  lemma Shuffle(x: nat, y: nat, z: nat)
    ensures x * y * z == x * (y * z) && x * (y * z) == x * (z * y) && x * y * z == x * z * y
  {
    assert y * z == z * y;
    assert x * y * z == x * (y * z);
    assert x * z * y == x * (z * y);
  }

  /** Zeros at the end of a fraction count nothing. */
  lemma DropPower(n: nat, k: nat, s: int, m: nat, t: int)
    requires SameNumber(n * Pow10(k), s, m, t)
    ensures SameNumber(n, s + k, m, t)
  {
    var p := Pow10(k);
    if s >= t {
      Pow10Plus(s - t, k);
      Shuffle(n, p, Pow10(s - t));
    } else if s + k >= t {
      var a, b := Pow10(t - s), Pow10(s + k - t);
      Pow10Plus(s + k - t, t - s);
      Shuffle(n, b, a);
      CancelPower(n * b, m, a);
    } else {
      Pow10Plus(t - s - k, k);
      Shuffle(m, Pow10(t - s - k), p);
      CancelPower(n, m * Pow10(t - s - k), p);
    }
  }

  // ------------------------------------------------------------------------ //
  // What the conversions print                                                //
  // ------------------------------------------------------------------------ //

  lemma FixedBodyText(d: Decimal, precision: nat) returns (whole: string, fraction: string)
    requires Valid(d)
    ensures IsDigits(whole) && whole != "" && IsDigits(fraction) && |fraction| == precision
    ensures FixedBody(d, precision) == Text(whole, fraction, "")
    ensures Val(whole + fraction) == Quotient(d, precision)
    ensures Canonical(d) ==> Spells(whole, fraction, Quotient(d, precision))
  {
    var r := RoundDecimal(d, precision);
    RoundDecimalIsQuotient(d, precision);
    whole, fraction := r.digits[..r.point], r.digits[r.point..];
    assert whole + fraction == r.digits;
    assert Pow10(0) == 1;
    assert Head(whole, fraction) + "" == Head(whole, fraction);
    if Canonical(d) {
      RoundingCanonical(d, precision);
      CutSpells(whole, fraction, Quotient(d, precision));
    }
  }

  /** `%f` prints the exact value rounded half to even at its precision, with exactly
      that many digits after the point and, of a canonical value, no zero too many ahead. */
  lemma FixedBodyPrints(d: Decimal, precision: nat) returns (whole: string, fraction: string)
    requires Valid(d)
    ensures IsDigits(whole) && whole != "" && IsDigits(fraction) && |fraction| == precision
    ensures FixedBody(d, precision) == Text(whole, fraction, "")
    ensures Canonical(d) ==> Spells(whole, fraction, Quotient(d, precision))
    ensures Denotes(FixedBody(d, precision), Quotient(d, precision), 0 - precision)
  {
    whole, fraction := FixedBodyText(d, precision);
    TextReads(whole, fraction, "");
    SameNumberSelf(Quotient(d, precision), 0 - precision);
  }

  /** Where the significant digits of a rounded value stop. */
  lemma SignificantSpan(r: Decimal, q: nat, places: int, precision: nat)
    requires Counts(r, q, places) && Pow10(precision) <= q < Pow10(precision + 1)
    ensures |r.digits| - LeadingZeros(r.digits) == precision + 1 + Negated(places)
  {
    SizedProduct(q, precision, Negated(places));
    LeadingZerosVal(r.digits);
    SizeUnique(Val(r.digits), precision + Negated(places), |r.digits| - LeadingZeros(r.digits) - 1);
  }

  lemma QuotientPart(a: nat, b: nat, q: nat, p: nat)
    requires b < p && a * p + b == q * p
    ensures a == q
  {
    if a < q {
      TimesMonotone(a + 1, q, p);
      TimesPlus(a, 1, p);
    } else if q < a {
      TimesMonotone(q + 1, a, p);
      TimesPlus(q, 1, p);
    }
  }

  /** The digits kept of a value with zeros put back denote what they count. */
  lemma KeptDigits(s: string, keep: nat, q: nat)
    requires IsDigits(s) && keep <= |s| && Val(s) == q * Pow10(|s| - keep)
    ensures Val(s[..keep]) == q
  {
    assert s == s[..keep] + s[keep..];
    ValConcat(s[..keep], s[keep..]);
    ValBound(s[keep..]);
    QuotientPart(Val(s[..keep]), Val(s[keep..]), q, Pow10(|s| - keep));
  }

  lemma SignificantSlice(r: Decimal, q: nat, places: int, precision: nat)
    requires Counts(r, q, places) && Pow10(precision) <= q < Pow10(precision + 1)
    ensures var first := LeadingZeros(r.digits);
            && first + precision + 1 <= |r.digits| && r.digits[first] != '0'
            && Val(r.digits[first..first + precision + 1]) == q
  {
    SignificantSpan(r, q, places, precision);
    var first := LeadingZeros(r.digits);
    DropLeadingZeros(r.digits);
    KeptDigits(r.digits[first..], precision + 1, q);
    assert r.digits[first..][..precision + 1] == r.digits[first..first + precision + 1];
  }

  lemma PickedPlain(r: Decimal, q: nat, places: int, precision: nat)
    requires Counts(r, q, places) && Pow10(precision) <= q < Pow10(precision + 1)
    ensures var (digits, exponent) := Picked(r, precision - places, precision);
            && IsDigits(digits) && |digits| == precision + 1 && digits[0] != '0' && exponent == precision - places
            && Val(digits) == q
  {
    hide Val, ExponentOf, Pow10, LeadingZeros;
    CountsExponent(r, q, places, precision);
    SignificantSlice(r, q, places, precision);
  }

  lemma SignificantPlain(d: Decimal, precision: nat)
    requires Valid(d) && Val(d.digits) > 0 && Quotient(d, PlacesFor(d, precision)) < Pow10(precision + 1)
    ensures var (digits, exponent) := Significant(d, precision);
            && IsDigits(digits) && |digits| == precision + 1 && digits[0] != '0' && exponent == ExponentOf(d)
            && Val(digits) == Quotient(d, PlacesFor(d, precision))
  {
    hide RoundDecimal, Quotient, Picked, Val, ExponentOf;
    RoundDecimalIsQuotient(d, PlacesFor(d, precision));
    SignificantSize(d, precision);
    PickedPlain(RoundDecimal(d, PlacesFor(d, precision)), Quotient(d, PlacesFor(d, precision)),
                PlacesFor(d, precision), precision);
  }

  lemma PowerOfTenText(n: nat)
    ensures IsDigits("1" + Zeros(n)) && Val("1" + Zeros(n)) == Pow10(n)
  {
    assert "1"[..0] == "" && Val("1") == 1;
    AppendZeros("1", n);
  }

  lemma PickedCarried(r: Decimal, places: int, precision: nat)
    requires Counts(r, Pow10(precision + 1), places)
    ensures Picked(r, precision - places, precision) == ("1" + Zeros(precision), precision - places + 1)
  {
    CountsExponent(r, Pow10(precision + 1), places, precision + 1);
  }

  lemma SignificantCarried(d: Decimal, precision: nat)
    requires Valid(d) && Val(d.digits) > 0 && Quotient(d, PlacesFor(d, precision)) == Pow10(precision + 1)
    ensures Significant(d, precision) == ("1" + Zeros(precision), ExponentOf(d) + 1)
  {
    RoundDecimalIsQuotient(d, PlacesFor(d, precision));
    PickedCarried(RoundDecimal(d, PlacesFor(d, precision)), PlacesFor(d, precision), precision);
  }

  lemma PickedZero(r: Decimal, places: int, precision: nat)
    requires Counts(r, 0, places)
    ensures ExponentOf(r) == 0 && Picked(r, 0, precision) == (Zeros(precision + 1), 0)
  {
    assert 0 * Pow10(Negated(places)) == 0;
    LeadingZerosVal(r.digits);
  }

  lemma SignificantZero(d: Decimal, precision: nat)
    requires Valid(d) && Val(d.digits) == 0
    ensures Significant(d, precision) == (Zeros(precision + 1), 0)
    ensures ExponentOf(d) == 0 && Quotient(d, PlacesFor(d, precision)) == 0
  {
    RoundDecimalIsQuotient(d, PlacesFor(d, precision));
    QuotientOfZero(d, PlacesFor(d, precision));
    ExponentOfIsExponent(d);
    PickedZero(RoundDecimal(d, PlacesFor(d, precision)), PlacesFor(d, precision), precision);
  }

  lemma OneMore(p: nat, s: int)
    ensures SameNumber(Pow10(p), s + 1, Pow10(p + 1), s)
  {
    assert Pow10(1) == 10;
  }

  /** The significant digits: one more than the precision, the first not zero unless the
      value is, denoting the exact value rounded half to even to that many digits. */
  lemma SignificantDigits(d: Decimal, precision: nat)
    requires Valid(d)
    ensures var (digits, exponent) := Significant(d, precision);
            && IsDigits(digits) && |digits| == precision + 1
            && (digits[0] == '0' <==> Val(d.digits) == 0)
            && SameNumber(Val(digits), exponent - precision,
                          Quotient(d, PlacesFor(d, precision)), 0 - PlacesFor(d, precision))
    ensures Val(d.digits) > 0 && Quotient(d, PlacesFor(d, precision)) == Pow10(precision + 1) ==>
              Significant(d, precision) == ("1" + Zeros(precision), ExponentOf(d) + 1)
    ensures !(Val(d.digits) > 0 && Quotient(d, PlacesFor(d, precision)) == Pow10(precision + 1)) ==>
              Significant(d, precision).1 == ExponentOf(d)
  {
    hide Pow10, Val, Quotient, SameNumber, Significant;
    var q := Quotient(d, PlacesFor(d, precision));
    if Val(d.digits) == 0 {
      SignificantZero(d, precision);
      ValZeros(precision + 1);
      SameNumberSelf(0, 0 - precision);
    } else {
      SignificantSize(d, precision);
      if q == Pow10(precision + 1) {
        SignificantCarried(d, precision);
        PowerOfTenText(precision);
        OneMore(precision, ExponentOf(d) - precision);
      } else {
        SignificantPlain(d, precision);
        SameNumberSelf(q, ExponentOf(d) - precision);
      }
    }
  }

  lemma ScientificBodyText(d: Decimal, precision: nat, marker: char) returns (whole: string, fraction: string, tail: string)
    requires Valid(d) && (marker == 'e' || marker == 'E')
    ensures var (digits, exponent) := Significant(d, precision);
            && whole + fraction == digits && tail == [marker] + ExponentText(exponent)
    ensures |whole| == 1 && |fraction| == precision && IsDigits(whole) && IsDigits(fraction) && IsTail(tail)
    ensures ScientificBody(d, precision, marker) == Text(whole, fraction, tail)
  {
    hide Significant, ExponentText;
    SignificantShape(d, precision);
    var (digits, exponent) := Significant(d, precision);
    whole, fraction, tail := digits[..1], digits[1..], [marker] + ExponentText(exponent);
    ExponentIsTail(marker, exponent);
    assert Slice(digits, 0, 1) == whole && Slice(digits, 1, |digits|) == fraction;
    assert precision == 0 ==> digits == whole;
    assert Text(whole, fraction, tail) == Head(whole, fraction) + [marker] + ExponentText(exponent);
  }

  /** The number the significant digits spell: the rounded one, or a power of ten. */
  function Significand(d: Decimal, precision: nat): nat
    requires Valid(d)
  {
    var q := Quotient(d, PlacesFor(d, precision));
    if q == Pow10(precision + 1) then Pow10(precision) else q
  }

  lemma SignificandDigits(d: Decimal, precision: nat)
    requires Valid(d)
    ensures var (digits, exponent) := Significant(d, precision);
            && IsDigits(digits) && Val(digits) == Significand(d, precision)
            && exponent == SettledExponent(d, precision)
  {
    hide Val, Quotient, Significant, Pow10, Zeros;
    var q := Quotient(d, PlacesFor(d, precision));
    SignificantDigits(d, precision);
    SettledIs(d, precision);
    PowerOfTenText(precision);
    SameScale(Val(Significant(d, precision).0), q, 0 - PlacesFor(d, precision));
  }

  lemma SameScale(m: nat, n: nat, s: int)
    ensures SameNumber(m, s, n, s) <==> m == n
  {
    assert Pow10(0) == 1;
  }

  lemma SettledIs(d: Decimal, precision: nat)
    requires Valid(d)
    ensures SettledExponent(d, precision)
            == if Quotient(d, PlacesFor(d, precision)) == Pow10(precision + 1) then ExponentOf(d) + 1 else ExponentOf(d)
  {
    hide Quotient, ExponentOf;
    if Val(d.digits) == 0 {
      QuotientOfZero(d, PlacesFor(d, precision));
    }
  }

  /** `%e` spells its significand with one digit ahead of the point. */
  lemma ScientificBodySpells(d: Decimal, precision: nat, marker: char)
    returns (whole: string, fraction: string)
    requires Valid(d) && (marker == 'e' || marker == 'E')
    ensures ScientificBody(d, precision, marker)
            == Text(whole, fraction, [marker] + ExponentText(SettledExponent(d, precision)))
    ensures |whole| == 1 && IsDigits(whole) && |fraction| == precision
            && Spells(whole, fraction, Significand(d, precision))
  {
    hide ScientificBody, Significant, SettledExponent, Significand, ExponentText, Spells, Text, Val;
    var tail;
    whole, fraction, tail := ScientificBodyText(d, precision, marker);
    SignificandDigits(d, precision);
    CutSpells(whole, fraction, Significand(d, precision));
  }

  lemma SignificantShape(d: Decimal, precision: nat)
    requires Valid(d)
    ensures IsDigits(Significant(d, precision).0) && |Significant(d, precision).0| == precision + 1
  {
    hide Significant, Val, Quotient, SameNumber, Pow10;
    SignificantDigits(d, precision);
  }

  lemma ExponentIsTail(marker: char, exponent: int)
    requires marker == 'e' || marker == 'E'
    ensures IsTail([marker] + ExponentText(exponent))
  {
    hide ExponentText;
  }

  /** `%e` prints one digit, `precision` more after the point, and an exponent of at
      least two digits: the exact value rounded half to even to that many significant
      digits, the first of them zero only for zero. */
  lemma ScientificBodyPrints(d: Decimal, precision: nat, marker: char)
    requires Valid(d) && (marker == 'e' || marker == 'E')
    ensures Denotes(ScientificBody(d, precision, marker),
                    Quotient(d, PlacesFor(d, precision)), 0 - PlacesFor(d, precision))
    ensures var digits := Read(ScientificBody(d, precision, marker)).digits;
            |digits| == precision + 1 && (digits[0] == '0' <==> Val(d.digits) == 0)
  {
    var whole, fraction, tail := ScientificBodyText(d, precision, marker);
    SignificantDigits(d, precision);
    TextReads(whole, fraction, tail);
    ExponentReads(marker, Significant(d, precision).1);
  }

  // ------------------------------------------------------------------------ //
  // Trimming                                                                  //
  // ------------------------------------------------------------------------ //

  lemma {:induction false} StripZerosOf(s: string, zeros: nat)
    requires s != [] && s[|s| - 1] != '0'
    ensures StripZeros(s + Zeros(zeros)) == s
  {
    if zeros == 0 {
      assert s + Zeros(0) == s;
    } else {
      StripZerosOf(s, zeros - 1);
      assert (s + Zeros(zeros))[..|s| + zeros - 1] == s + Zeros(zeros - 1);
    }
  }

  lemma StrippedParts(s: string) returns (kept: string, zeros: nat)
    ensures s == kept + Zeros(zeros) && (kept != "" ==> kept[|kept| - 1] != '0')
  {
    kept := StripZeros(s);
    zeros := |s| - |kept|;
    assert s[|kept|..] == Zeros(zeros);
    assert s == s[..|kept|] + s[|kept|..];
  }

  lemma TrimHeadOf(whole: string, kept: string, zeros: nat)
    requires kept != "" ==> kept[|kept| - 1] != '0'
    requires IsDigits(whole) && IsDigits(kept) && kept + Zeros(zeros) != ""
    ensures TrimHead(Head(whole, kept + Zeros(zeros))) == Head(whole, kept)
  {
    var point := whole + "." + kept;
    assert Head(whole, kept + Zeros(zeros)) == point + Zeros(zeros);
    assert point[|point| - 1] == if kept == "" then '.' else kept[|kept| - 1];
    StripZerosOf(point, zeros);
    if kept == "" {
      assert point[..|point| - 1] == whole;
    } else {
      assert IsDigit(kept[|kept| - 1]);
    }
  }

  lemma TrimText(whole: string, kept: string, zeros: nat, tail: string)
    requires kept != "" ==> kept[|kept| - 1] != '0'
    requires IsDigits(whole) && IsDigits(kept) && IsTail(tail)
    ensures IsDigits(kept + Zeros(zeros))
    ensures TrimTrailingZeros(Text(whole, kept + Zeros(zeros), tail)) == Text(whole, kept, tail)
  {
    var fraction := kept + Zeros(zeros);
    HeadParts(whole, fraction);
    TailParts(whole, fraction, tail);
    if fraction == "" {
      assert kept == "" && '.' !in whole;
    } else {
      assert Head(whole, fraction)[|whole|] == '.';
      TrimHeadOf(whole, kept, zeros);
    }
  }

  lemma TrimmedReads(whole: string, kept: string, zeros: nat, tail: string, n: nat, s: int)
    requires IsDigits(whole) && whole != "" && IsDigits(kept) && IsTail(tail)
    requires IsDigits(kept + Zeros(zeros)) && Denotes(Text(whole, kept + Zeros(zeros), tail), n, s)
    ensures Denotes(Text(whole, kept, tail), n, s)
  {
    hide Text, ReadExponent, Val, Read, SameNumber, Pow10, Zeros;
    TextReads(whole, kept + Zeros(zeros), tail);
    TextReads(whole, kept, tail);
    assert whole + (kept + Zeros(zeros)) == (whole + kept) + Zeros(zeros);
    AppendZeros(whole + kept, zeros);
    DropPower(Val(whole + kept), zeros, ReadExponent(tail) - |kept| - zeros, n, s);
  }

  /** Trimming keeps the number and the exponent's text, and leaves no fraction that
      ends in zero. */
  lemma TrimKeepsNumber(whole: string, fraction: string, tail: string, n: nat, s: int) returns (kept: string)
    requires IsDigits(whole) && whole != "" && IsDigits(fraction) && IsTail(tail)
    requires Denotes(Text(whole, fraction, tail), n, s)
    ensures IsDigits(kept) && (kept != "" ==> kept[|kept| - 1] != '0')
    ensures TrimTrailingZeros(Text(whole, fraction, tail)) == Text(whole, kept, tail)
    ensures Denotes(TrimTrailingZeros(Text(whole, fraction, tail)), n, s)
  {
    var zeros;
    kept, zeros := StrippedParts(fraction);
    assert forall i :: 0 <= i < |kept| ==> kept[i] == fraction[i];
    TrimText(whole, kept, zeros, tail);
    TrimmedReads(whole, kept, zeros, tail, n, s);
  }

  // ------------------------------------------------------------------------ //
  // The general conversion                                                    //
  // ------------------------------------------------------------------------ //

  /** The exponent a value has after rounding to a number of significant digits. */
  function SettledExponent(d: Decimal, precision: nat): int
    requires Valid(d)
  {
    if Val(d.digits) > 0 && Quotient(d, PlacesFor(d, precision)) == Pow10(precision + 1) then ExponentOf(d) + 1
    else ExponentOf(d)
  }

  lemma RoundedToSettled(d: Decimal, precision: nat)
    requires Valid(d)
    ensures var r := RoundDecimal(d, PlacesFor(d, precision));
            Valid(r) && ExponentOf(r) == SettledExponent(d, precision)
  {
    var places := PlacesFor(d, precision);
    RoundDecimalIsQuotient(d, places);
    if Val(d.digits) > 0 {
      RoundedExponent(d, precision);
    } else {
      QuotientOfZero(d, places);
      ExponentOfIsExponent(d);
      PickedZero(RoundDecimal(d, places), places, precision);
    }
  }

  /** The fixed style's own rounding of the exact value gives the number the style was
      chosen by. */
  lemma FixedStyleAgrees(d: Decimal, precision: nat)
    requires Valid(d) && SettledExponent(d, precision) <= precision
    ensures Denotes(FixedBody(d, precision - SettledExponent(d, precision)),
                    Quotient(d, PlacesFor(d, precision)), 0 - PlacesFor(d, precision))
  {
    hide Text, FixedBody, Quotient, SameNumber;
    var places: nat := precision - SettledExponent(d, precision);
    var whole, fraction := FixedBodyText(d, places);
    TextReads(whole, fraction, "");
    if SettledExponent(d, precision) == ExponentOf(d) {
      SameNumberSelf(Quotient(d, places), 0 - places);
    } else {
      CarriesAlike(d, precision);
      OneMore(precision, 0 - places - 1);
    }
  }

  /** Whether `%g` takes the exponent style, per section 7.21.6.1 of ISO C11. */
  predicate ExponentStyle(d: Decimal, significant: nat)
    requires Valid(d) && significant > 0
  {
    SettledExponent(d, significant - 1) < -4 || SettledExponent(d, significant - 1) >= significant
  }

  lemma GeneralBodyUntrimmed(d: Decimal, precision: nat, marker: char)
    returns (whole: string, fraction: string, tail: string)
    requires Valid(d) && (marker == 'e' || marker == 'E')
    ensures IsDigits(whole) && whole != "" && IsDigits(fraction) && IsTail(tail)
    ensures GeneralBody(d, precision, false, marker) == Text(whole, fraction, tail)
    ensures var significant := if precision == 0 then 1 else precision;
            tail == if ExponentStyle(d, significant)
                    then [marker] + ExponentText(SettledExponent(d, significant - 1)) else ""
    ensures var p := (if precision == 0 then 1 else precision) - 1;
            Denotes(Text(whole, fraction, tail), Quotient(d, PlacesFor(d, p)), 0 - PlacesFor(d, p))
  {
    hide Text, FixedBody, ScientificBody, RoundDecimal, Quotient, Denotes, Significant, ExponentText;
    var p: nat := (if precision == 0 then 1 else precision) - 1;
    RoundedToSettled(d, p);
    if ExponentStyle(d, p + 1) {
      whole, fraction, tail := ScientificBodyText(d, p, marker);
      SignificantDigits(d, p);
      ScientificBodyPrints(d, p, marker);
    } else {
      whole, fraction := FixedBodyText(d, p - SettledExponent(d, p));
      tail := "";
      FixedStyleAgrees(d, p);
    }
  }

  lemma GeneralBodyTrims(d: Decimal, precision: nat, marker: char)
    requires Valid(d)
    ensures GeneralBody(d, precision, true, marker) == TrimTrailingZeros(GeneralBody(d, precision, false, marker))
  {
  }

  /** `%g` denotes the exact value rounded half to even to its significant digits,
      whichever style it takes and whether or not it trims; it takes the exponent style
      exactly when the exponent after rounding says so, and then prints that exponent;
      a trimmed fraction does not end in zero. */
  lemma GeneralBodyPrints(d: Decimal, precision: nat, trim: bool, marker: char)
    returns (whole: string, fraction: string, tail: string)
    requires Valid(d) && (marker == 'e' || marker == 'E')
    ensures IsDigits(whole) && whole != "" && IsDigits(fraction)
    ensures GeneralBody(d, precision, trim, marker) == Text(whole, fraction, tail)
    ensures var significant := if precision == 0 then 1 else precision;
            tail == if ExponentStyle(d, significant)
                    then [marker] + ExponentText(SettledExponent(d, significant - 1)) else ""
    ensures var p := (if precision == 0 then 1 else precision) - 1;
            Denotes(GeneralBody(d, precision, trim, marker), Quotient(d, PlacesFor(d, p)), 0 - PlacesFor(d, p))
    ensures trim && fraction != "" ==> fraction[|fraction| - 1] != '0'
  {
    hide GeneralBody, Text, Denotes, Quotient, ExponentText;
    whole, fraction, tail := GeneralBodyUntrimmed(d, precision, marker);
    if trim {
      GeneralBodyTrims(d, precision, marker);
      var p: nat := (if precision == 0 then 1 else precision) - 1;
      fraction := TrimKeepsNumber(whole, fraction, tail, Quotient(d, PlacesFor(d, p)), 0 - PlacesFor(d, p));
    }
  }

  /** The fixed style spells the same significand, behind the point as many digits as make
      up the precision. */
  lemma FixedStyleSpells(d: Decimal, precision: nat) returns (whole: string, fraction: string)
    requires Canonical(d) && SettledExponent(d, precision) <= precision
    ensures FixedBody(d, precision - SettledExponent(d, precision)) == Text(whole, fraction, "")
    ensures IsDigits(whole) && |fraction| == precision - SettledExponent(d, precision)
            && Spells(whole, fraction, Significand(d, precision))
  {
    hide FixedBody, Spells, Text, Val, Quotient, SettledExponent, Pow10;
    var places: nat := precision - SettledExponent(d, precision);
    whole, fraction := FixedBodyText(d, places);
    SettledIs(d, precision);
    if Quotient(d, PlacesFor(d, precision)) == Pow10(precision + 1) {
      CarriesAlike(d, precision);
    }
  }

  /** `%g` prints the significand its style spells and the exponent of that style, and trimmed
      just that without the zeros at the end of its fraction. */
  lemma GeneralBodySpells(d: Decimal, precision: nat, trim: bool, marker: char)
    returns (whole: string, fraction: string, kept: string, tail: string)
    requires Canonical(d) && (marker == 'e' || marker == 'E')
    ensures GeneralBody(d, precision, trim, marker) == Text(whole, kept, tail)
    ensures IsDigits(whole) && IsDigits(kept) && |kept| <= |fraction|
    ensures fraction == kept + Zeros(|fraction| - |kept|)
    ensures if trim then kept != "" ==> kept[|kept| - 1] != '0' else kept == fraction
    ensures var p: nat := (if precision == 0 then 1 else precision) - 1;
            && Spells(whole, fraction, Significand(d, p))
            && (ExponentStyle(d, p + 1) ==> |whole| == 1 && |fraction| == p
                                            && tail == [marker] + ExponentText(SettledExponent(d, p)))
            && (!ExponentStyle(d, p + 1) ==> |fraction| == p - SettledExponent(d, p) && tail == "")
  {
    hide FixedBody, ScientificBody, RoundDecimal, Quotient, Spells, Significand, ExponentText, Text, TrimTrailingZeros,
         StripZeros, Zeros;
    var p: nat := (if precision == 0 then 1 else precision) - 1;
    RoundedToSettled(d, p);
    if ExponentStyle(d, p + 1) {
      whole, fraction := ScientificBodySpells(d, p, marker);
      tail := [marker] + ExponentText(SettledExponent(d, p));
      ExponentIsTail(marker, SettledExponent(d, p));
    } else {
      whole, fraction := FixedStyleSpells(d, p);
      tail := "";
    }
    SpelledDigits(whole, fraction, Significand(d, p));
    kept := fraction;
    if trim {
      var zeros;
      kept, zeros := StrippedParts(fraction);
      KeptAreDigits(fraction, kept, zeros);
      TrimText(whole, kept, zeros, tail);
    } else {
      assert kept + Zeros(0) == kept;
    }
  }

  lemma SpelledDigits(whole: string, fraction: string, n: nat)
    requires Spells(whole, fraction, n)
    ensures IsDigits(fraction)
  {
  }

  lemma KeptAreDigits(fraction: string, kept: string, zeros: nat)
    requires IsDigits(fraction) && fraction == kept + Zeros(zeros)
    ensures IsDigits(kept) && zeros == |fraction| - |kept|
  {
    assert forall i :: 0 <= i < |kept| ==> kept[i] == fraction[i];
  }
}
