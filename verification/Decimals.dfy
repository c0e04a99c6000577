/** Exact decimal arithmetic (web/packages/client/src/format.ts:75-159): a double's
    whole decimal expansion, and rounding it half to even on the digits. */
module Decimals {
  import opened Digits

  /** A sign and all the digits of a magnitude, `point` of them whole. */
  datatype Decimal = Decimal(negative: bool, digits: string, point: nat)

  predicate Valid(d: Decimal) {
    IsDigits(d.digits) && 1 <= d.point <= |d.digits|
  }

  /** How many digits follow the decimal point. */
  function Fraction(d: Decimal): nat
    requires Valid(d)
  {
    |d.digits| - d.point
  }

  function Pow(base: nat, n: nat): nat {
    if n == 0 then 1 else base * Pow(base, n - 1)
  }

  // ------------------------------------------------------------------------ //
  // Expansion                                                                 //
  // ------------------------------------------------------------------------ //

  /** The expansion of mantissa times two to the exponent. */
  function ToDecimal(negative: bool, mantissa: nat, exponent: int): Decimal {
    if mantissa == 0 then Decimal(negative, "0", 1)
    else if exponent >= 0 then
      var digits := ToText(mantissa * Pow(2, exponent));
      Decimal(negative, digits, |digits|)
    else
      var k := -exponent;
      var digits := PadZeros(ToText(mantissa * Pow(5, k)), k + 1);
      Decimal(negative, digits, |digits| - k)
  }

  lemma {:induction false} PowFiveTwo(k: nat)
    ensures Pow(5, k) * Pow(2, k) == Pow10(k)
  {
    if k > 0 {
      PowFiveTwo(k - 1);
      Regroup(Pow(5, k - 1), Pow(2, k - 1));
    }
  }

  lemma Regroup(x: nat, y: nat)
    ensures (5 * x) * (2 * y) == 10 * (x * y)
  {
  }

  lemma Associate(x: nat, y: nat, z: nat)
    ensures x * y * z == x * (y * z)
  {
  }

  lemma FractionIsExact(mantissa: nat, k: nat)
    ensures var digits := PadZeros(ToText(mantissa * Pow(5, k)), k + 1);
            IsDigits(digits) && Val(digits) * Pow(2, k) == mantissa * Pow10(k)
  {
    ToTextVal(mantissa * Pow(5, k));
    PadZerosVal(ToText(mantissa * Pow(5, k)), k + 1);
    PowFiveTwo(k);
    Associate(mantissa, Pow(5, k), Pow(2, k));
  }

  /** The expansion denotes exactly mantissa times two to the exponent: as an integer
      when the exponent is not negative, otherwise over ten to the digits it keeps. */
  lemma ToDecimalIsExact(negative: bool, mantissa: nat, exponent: int)
    ensures var d := ToDecimal(negative, mantissa, exponent);
            && Valid(d) && d.negative == negative
            && (exponent >= 0 ==> Fraction(d) == 0 && Val(d.digits) == mantissa * Pow(2, exponent))
            && (exponent < 0 ==> Val(d.digits) * Pow(2, -exponent) == mantissa * Pow10(Fraction(d)))
            && (exponent < 0 && mantissa > 0 ==> Fraction(d) == -exponent)
  {
    if mantissa == 0 {
      AllZeros("0");
    } else if exponent >= 0 {
      ToTextVal(mantissa * Pow(2, exponent));
    } else {
      FractionIsExact(mantissa, -exponent);
    }
  }

  // ------------------------------------------------------------------------ //
  // Rounding                                                                  //
  // ------------------------------------------------------------------------ //

  /** Whether the digits dropped round the kept ones up: past half, or half onto odd. */
  predicate RoundsUp(head: string, dropped: string)
    requires IsDigits(head) && head != [] && IsDigits(dropped) && dropped != []
  {
    var first := dropped[0];
    var above := first > '5' || (first == '5' && LeadingZeros(dropped[1..]) < |dropped| - 1);
    var halfway := first == '5' && !above;
    var odd := DigitOf(head[|head| - 1]) % 2 == 1;
    above || (halfway && odd)
  }

  /** Keep the digits down to ten to minus `places`, bumping them if what is cut off says so. */
  function RoundDecimal(d: Decimal, places: int): Decimal
    requires Valid(d) && d.point + places >= 1
  {
    var fraction := Fraction(d);
    if places >= fraction then d.(digits := d.digits + Zeros(places - fraction))
    else
      var keep := d.point + places;
      var head, dropped := d.digits[..keep], d.digits[keep..];
      var zeros := Zeros(Negated(places));
      if !RoundsUp(head, dropped) then d.(digits := head + zeros)
      else
        var bumped := ToText(Val(head) + 1);
        if |bumped| > |head| then d.(digits := bumped + zeros, point := d.point + 1)
        else d.(digits := PadZeros(bumped, |head|) + zeros)
  }

  /** `Math.max(0, -places)`: the digits dropped that still count towards the size. */
  function Negated(places: int): nat {
    if places < 0 then -places else 0
  }

  /** `q` is the integer nearest to n / d, the even one of two that are equally near. */
  predicate HalfEven(q: int, n: int, d: int) {
    && -d <= 2 * (q * d - n) <= d
    && (2 * (q * d - n) == d || 2 * (q * d - n) == -d ==> q % 2 == 0)
  }

  lemma TimesMonotone(x: int, y: int, d: int)
    requires x <= y && d > 0
    ensures x * d <= y * d
  {
  }

  lemma TimesPlus(x: int, n: int, d: int)
    ensures (x + n) * d == x * d + n * d
  {
  }

  lemma NearByOne(q: int, q': int, d: int)
    requires d > 0 && q * d - q' * d <= d
    ensures q - q' <= 1
    ensures q - q' == 1 ==> q * d - q' * d == d
  {
    TimesPlus(q', 1, d);
    TimesPlus(q', 2, d);
    if q >= q' + 2 {
      TimesMonotone(q' + 2, q, d);
    }
  }

  /** There is only one such integer. */
  lemma HalfEvenUnique(q: int, q': int, n: int, d: int)
    requires d > 0 && HalfEven(q, n, d) && HalfEven(q', n, d)
    ensures q == q'
  {
    NearByOne(q, q', d);
    NearByOne(q', q, d);
  }

  /** `h` and `r` over `p`, rounded half to even. */
  function Settled(h: nat, r: nat, p: nat): nat {
    if 2 * r > p || (2 * r == p && h % 2 == 1) then h + 1 else h
  }

  /** How many multiples of ten to minus `places` the rounded value is. */
  function Quotient(d: Decimal, places: int): nat
    requires Valid(d) && d.point + places >= 1
  {
    var fraction := Fraction(d);
    if places >= fraction then Val(d.digits) * Pow10(places - fraction)
    else
      Settled(Val(d.digits[..d.point + places]), Val(d.digits[d.point + places..]), Pow10(fraction - places))
  }

  lemma ChooseHalfEven(h: nat, r: nat, p: nat)
    requires r < p
    ensures HalfEven(Settled(h, r, p), h * p + r, p)
  {
    TimesPlus(h, 1, p);
  }

  /** The quotient is the exact value rounded half to even. */
  lemma QuotientIsHalfEven(d: Decimal, places: int)
    requires Valid(d) && d.point + places >= 1 && places < Fraction(d)
    ensures HalfEven(Quotient(d, places), Val(d.digits), Pow10(Fraction(d) - places))
  {
    var keep := d.point + places;
    var head, rest := d.digits[..keep], d.digits[keep..];
    assert d.digits == head + rest;
    ValConcat(head, rest);
    ValBound(rest);
    ChooseHalfEven(Val(head), Val(rest), Pow10(|rest|));
  }

  lemma FirstDigitDecides(f: nat, v: nat, p: nat)
    requires f <= 9 && v < p
    ensures 2 * (f * p + v) > 10 * p <==> f > 5 || (f == 5 && v > 0)
    ensures 2 * (f * p + v) == 10 * p <==> f == 5 && v == 0
  {
    if f <= 4 {
      TimesMonotone(f, 4, p);
    } else if f >= 6 {
      TimesMonotone(6, f, p);
    }
  }

  lemma FirstDigit(s: string)
    requires IsDigits(s) && s != []
    ensures Val(s) == DigitOf(s[0]) * Pow10(|s| - 1) + Val(s[1..])
    ensures Pow10(|s|) == 10 * Pow10(|s| - 1) && Val(s[1..]) < Pow10(|s| - 1)
  {
    assert s == [s[0]] + s[1..];
    ValConcat([s[0]], s[1..]);
    assert [s[0]][..0] == [] && Val([s[0]]) == DigitOf(s[0]);
    ValBound(s[1..]);
  }

  lemma DigitOrder(c: char)
    requires IsDigit(c)
    ensures (c > '5' <==> DigitOf(c) > 5) && (c == '5' <==> DigitOf(c) == 5) && DigitOf(c) <= 9
  {
  }

  lemma LastDigitParity(head: string)
    requires IsDigits(head) && head != []
    ensures Val(head) % 2 == DigitOf(head[|head| - 1]) % 2
  {
  }

  /** The digits decide the rounding as the numbers they denote would. */
  lemma DigitsDecide(head: string, dropped: string)
    requires IsDigits(head) && head != [] && IsDigits(dropped) && dropped != []
    ensures Settled(Val(head), Val(dropped), Pow10(|dropped|))
            == if RoundsUp(head, dropped) then Val(head) + 1 else Val(head)
  {
    FirstDigit(dropped);
    LeadingZerosVal(dropped[1..]);
    DigitOrder(dropped[0]);
    LastDigitParity(head);
    FirstDigitDecides(DigitOf(dropped[0]), Val(dropped[1..]), Pow10(|dropped| - 1));
  }

  /** Adding one to `head` outgrows it exactly when every digit was a nine. */
  lemma BumpedSize(head: string)
    requires IsDigits(head) && head != []
    ensures |ToText(Val(head) + 1)| <= |head| + 1
    ensures |ToText(Val(head) + 1)| == |head| + 1 <==> Val(head) + 1 == Pow10(|head|)
  {
    ValBound(head);
    ToTextLead(Val(head) + 1);
    var size := |ToText(Val(head) + 1)|;
    if size > |head| + 1 {
      Pow10Monotone(|head| + 1, size - 1);
    }
    if size <= |head| {
      Pow10Monotone(size, |head|);
    }
  }

  lemma AppendZeros(s: string, n: nat)
    requires IsDigits(s)
    ensures IsDigits(s + Zeros(n)) && Val(s + Zeros(n)) == Val(s) * Pow10(n)
  {
    ValConcat(s, Zeros(n));
    ValZeros(n);
  }

  /** The kept digits plus one, written out again. */
  lemma BumpedDigits(head: string)
    requires IsDigits(head) && head != []
    ensures var bumped := ToText(Val(head) + 1);
            var digits := if |bumped| > |head| then bumped else PadZeros(bumped, |head|);
            && IsDigits(digits) && Val(digits) == Val(head) + 1
            && |digits| == if |bumped| > |head| then |head| + 1 else |head|
  {
    BumpedSize(head);
    ToTextVal(Val(head) + 1);
    PadZerosVal(ToText(Val(head) + 1), |head|);
  }

  /** `r` is `q` multiples of ten to minus `places`, its decimal point where it belongs. */
  predicate Counts(r: Decimal, q: nat, places: int) {
    && Valid(r) && Fraction(r) == (if places < 0 then 0 else places)
    && Val(r.digits) == q * Pow10(Negated(places))
  }

  lemma RoundingNothing(d: Decimal, places: int)
    requires Valid(d) && places >= Fraction(d)
    ensures Counts(d.(digits := d.digits + Zeros(places - Fraction(d))),
                   Val(d.digits) * Pow10(places - Fraction(d)), places)
  {
    AppendZeros(d.digits, places - Fraction(d));
    assert Pow10(0) == 1;
  }

  lemma RoundingDown(d: Decimal, head: string, places: int)
    requires Valid(d) && IsDigits(head) && |head| == d.point + places >= 1
    ensures Counts(d.(digits := head + Zeros(Negated(places))), Val(head), places)
  {
    AppendZeros(head, Negated(places));
  }

  lemma RoundingUp(d: Decimal, head: string, places: int)
    requires Valid(d) && IsDigits(head) && |head| == d.point + places >= 1
    ensures var bumped := ToText(Val(head) + 1);
            var zeros := Zeros(Negated(places));
            Counts(if |bumped| > |head| then d.(digits := bumped + zeros, point := d.point + 1)
                   else d.(digits := PadZeros(bumped, |head|) + zeros), Val(head) + 1, places)
  {
    BumpedDigits(head);
    var bumped := ToText(Val(head) + 1);
    AppendZeros(if |bumped| > |head| then bumped else PadZeros(bumped, |head|), Negated(places));
  }

  /** What rounding keeps and what it drops, and which way it goes. */
  lemma RoundingParts(d: Decimal, places: int) returns (head: string, dropped: string)
    requires Valid(d) && d.point + places >= 1 && places < Fraction(d)
    ensures IsDigits(head) && |head| == d.point + places && IsDigits(dropped) && dropped != []
    ensures d.digits == head + dropped
    ensures Quotient(d, places) == if RoundsUp(head, dropped) then Val(head) + 1 else Val(head)
    ensures !RoundsUp(head, dropped) ==> RoundDecimal(d, places) == d.(digits := head + Zeros(Negated(places)))
    ensures RoundsUp(head, dropped) ==>
              var bumped := ToText(Val(head) + 1);
              var zeros := Zeros(Negated(places));
              RoundDecimal(d, places) ==
              if |bumped| > |head| then d.(digits := bumped + zeros, point := d.point + 1)
              else d.(digits := PadZeros(bumped, |head|) + zeros)
  {
    head, dropped := d.digits[..d.point + places], d.digits[d.point + places..];
    DigitsDecide(head, dropped);
    assert Fraction(d) - places == |dropped|;
  }

  /** Rounding gives `Quotient` multiples of ten to minus `places`, with the decimal
      point where it belongs, through a carry out of the leading digit too. */
  lemma RoundDecimalIsQuotient(d: Decimal, places: int)
    requires Valid(d) && d.point + places >= 1
    ensures Counts(RoundDecimal(d, places), Quotient(d, places), places)
    ensures RoundDecimal(d, places).negative == d.negative
  {
    if places >= Fraction(d) {
      RoundingNothing(d, places);
    } else {
      var head, dropped := RoundingParts(d, places);
      if RoundsUp(head, dropped) {
        RoundingUp(d, head, places);
      } else {
        RoundingDown(d, head, places);
      }
    }
  }

  /** Nothing but a lone zero leads the digits ahead of the point. */
  predicate Canonical(d: Decimal) {
    Valid(d) && (d.point == 1 || d.digits[0] != '0')
  }

  lemma ExpansionCanonical(negative: bool, mantissa: nat, exponent: int)
    ensures Canonical(ToDecimal(negative, mantissa, exponent))
  {
    hide ToText, Pow;
    if mantissa > 0 {
      var n := mantissa * Pow(if exponent >= 0 then 2 else 5, if exponent >= 0 then exponent else -exponent);
      OneDigitZero();
      if n > 0 {
        ToTextLead(n);
      }
    }
  }

  lemma OneDigitZero()
    ensures ToText(0) == "0"
  {
  }

  /** Bumping digits that lead with no zero needs no padding. */
  lemma BumpedLead(head: string)
    requires IsDigits(head) && head != "" && head[0] != '0'
    ensures |ToText(Val(head) + 1)| >= |head| && ToText(Val(head) + 1)[0] != '0'
  {
    ValLead(head);
    ToTextLead(Val(head) + 1);
    if |ToText(Val(head) + 1)| < |head| {
      Pow10Monotone(|ToText(Val(head) + 1)|, |head| - 1);
    }
  }

  /** Rounding puts no zero ahead of the digits. */
  lemma RoundingCanonical(d: Decimal, places: int)
    requires Canonical(d) && d.point + places >= 1
    ensures Canonical(RoundDecimal(d, places))
  {
    hide ToText, Val, RoundsUp;
    RoundDecimalIsQuotient(d, places);
    if places < Fraction(d) {
      var head, dropped := RoundingParts(d, places);
      ToTextLead(Val(head) + 1);
      if d.point > 1 {
        BumpedLead(head);
      }
    }
  }

  // ------------------------------------------------------------------------ //
  // The decimal exponent                                                      //
  // ------------------------------------------------------------------------ //

  /** The decimal exponent of a value; 0 for zero. */
  function ExponentOf(d: Decimal): int
    requires Valid(d)
  {
    var first := LeadingZeros(d.digits);
    if first == |d.digits| then 0 else d.point - 1 - first
  }

  /** Ten to the `e` is at most n over ten to the `fraction`, which is below ten to the e + 1. */
  predicate HasExponent(n: nat, fraction: nat, e: int) {
    e + fraction >= 0 && Pow10(e + fraction) <= n < Pow10(e + fraction + 1)
  }

  lemma ExponentOfIsExponent(d: Decimal)
    requires Valid(d)
    ensures Val(d.digits) == 0 ==> ExponentOf(d) == 0
    ensures Val(d.digits) > 0 ==> HasExponent(Val(d.digits), Fraction(d), ExponentOf(d))
  {
    LeadingZerosVal(d.digits);
  }

  lemma ExponentUnique(n: nat, fraction: nat, a: int, b: int)
    requires HasExponent(n, fraction, a) && HasExponent(n, fraction, b)
    ensures a == b
  {
    SizeUnique(n, a + fraction, b + fraction);
  }

  // ------------------------------------------------------------------------ //
  // Rounding to significant digits                                            //
  // ------------------------------------------------------------------------ //

  /** The places that keep `precision` digits after the leading one. */
  function PlacesFor(d: Decimal, precision: nat): (places: int)
    requires Valid(d)
    ensures d.point + places >= 1
  {
    precision - ExponentOf(d)
  }

  lemma HalfEvenBelow(q: int, n: int, d: int, bound: int)
    requires d > 0 && HalfEven(q, n, d) && n < bound * d
    ensures q <= bound
  {
    if q >= bound + 1 {
      TimesMonotone(bound + 1, q, d);
      TimesPlus(bound, 1, d);
    }
  }

  lemma HalfEvenAbove(q: int, n: int, d: int, bound: int)
    requires d > 0 && HalfEven(q, n, d) && bound * d <= n
    ensures bound <= q
  {
    if q <= bound - 1 {
      TimesMonotone(q, bound - 1, d);
      TimesPlus(bound - 1, 1, d);
    }
  }

  lemma SizeOfExact(n: nat, size: nat, more: nat)
    requires Pow10(size) <= n < Pow10(size + 1)
    ensures Pow10(size + more) <= n * Pow10(more) <= Pow10(size + more + 1)
  {
    SizedProduct(n, size, more);
  }

  lemma SizeOfRounded(q: nat, n: nat, size: nat, less: nat)
    requires Pow10(size + less) <= n < Pow10(size + less + 1) && HalfEven(q, n, Pow10(less))
    ensures Pow10(size) <= q <= Pow10(size + 1)
  {
    Pow10Plus(size, less);
    Pow10Plus(size + 1, less);
    HalfEvenAbove(q, n, Pow10(less), Pow10(size));
    HalfEvenBelow(q, n, Pow10(less), Pow10(size + 1));
  }

  /** A nonzero value keeps its size under rounding, or becomes the next power of ten. */
  lemma SignificantSize(d: Decimal, precision: nat)
    requires Valid(d) && Val(d.digits) > 0
    ensures Pow10(precision) <= Quotient(d, PlacesFor(d, precision)) <= Pow10(precision + 1)
  {
    ExponentOfIsExponent(d);
    var places, n, f := PlacesFor(d, precision), Val(d.digits), Fraction(d);
    if places >= f {
      SizeOfExact(n, ExponentOf(d) + f, places - f);
    } else {
      QuotientIsHalfEven(d, places);
      SizeOfRounded(Quotient(d, places), n, precision, f - places);
    }
  }

  lemma {:induction false} QuotientOfZero(d: Decimal, places: int)
    requires Valid(d) && d.point + places >= 1 && Val(d.digits) == 0
    ensures Quotient(d, places) == 0
  {
    if places < Fraction(d) {
      QuotientIsHalfEven(d, places);
      HalfEvenUnique(Quotient(d, places), 0, 0, Pow10(Fraction(d) - places));
    }
  }

  /** The size of a count of multiples of ten to minus `places` is its exponent's. */
  lemma CountsExponent(r: Decimal, q: nat, places: int, size: nat)
    requires Counts(r, q, places) && Pow10(size) <= q < Pow10(size + 1)
    ensures Val(r.digits) > 0 && ExponentOf(r) == size - places
  {
    SizedProduct(q, size, Negated(places));
    assert (size - places) + Fraction(r) == size + Negated(places);
    ExponentOfIsExponent(r);
    ExponentUnique(Val(r.digits), Fraction(r), ExponentOf(r), size - places);
  }

  /** Rounding moves the exponent exactly when it carries out of the leading digit. */
  lemma RoundedExponent(d: Decimal, precision: nat)
    requires Valid(d) && Val(d.digits) > 0
    ensures var q := Quotient(d, PlacesFor(d, precision));
            var r := RoundDecimal(d, PlacesFor(d, precision));
            && Valid(r) && Val(r.digits) > 0
            && ExponentOf(r) == if q == Pow10(precision + 1) then ExponentOf(d) + 1 else ExponentOf(d)
  {
    var places := PlacesFor(d, precision);
    var r, q := RoundDecimal(d, places), Quotient(d, places);
    RoundDecimalIsQuotient(d, places);
    SignificantSize(d, precision);
    CountsExponent(r, q, places, if q == Pow10(precision + 1) then precision + 1 else precision);
  }

  lemma SizedProduct(q: nat, size: nat, z: nat)
    requires Pow10(size) <= q < Pow10(size + 1)
    ensures Pow10(size + z) <= q * Pow10(z) < Pow10(size + z + 1)
  {
    Pow10Plus(size, z);
    Pow10Plus(size + 1, z);
    TimesMonotone(Pow10(size), q, Pow10(z));
    TimesMonotone(q + 1, Pow10(size + 1), Pow10(z));
    TimesPlus(q, 1, Pow10(z));
  }

  lemma Associated(x: nat, p: nat)
    ensures (10 * x) * p == x * (10 * p)
  {
  }

  lemma CancelTen(n: nat, p: nat, q: nat)
    requires n * (10 * p) == 10 * q
    ensures n * p == q
  {
    TenTimes(n, p);
  }

  /** Ten times `t`, nearest to n / d, leaves `t` nearest to a tenth of it. */
  lemma TenthIsNearest(t: nat, n: nat, d: nat)
    requires d > 0 && HalfEven(10 * t, n, d)
    ensures HalfEven(t, n, 10 * d)
  {
    Associated(t, d);
  }

  lemma TenthOfExact(d: Decimal, places: int, t: nat)
    requires Valid(d) && d.point + places - 1 >= 1 && places >= Fraction(d)
    requires Quotient(d, places) == 10 * t
    ensures Quotient(d, places - 1) == t
  {
    var n, f := Val(d.digits), Fraction(d);
    if places > f {
      CancelTen(n, Pow10(places - 1 - f), t);
    } else {
      assert Pow10(0) == 1 && Pow10(1) == 10 && n == 10 * t;
      QuotientIsHalfEven(d, places - 1);
      HalfEvenUnique(Quotient(d, places - 1), t, n, 10);
    }
  }

  lemma TenthOfRounded(d: Decimal, places: int, t: nat)
    requires Valid(d) && d.point + places - 1 >= 1 && places < Fraction(d)
    requires Quotient(d, places) == 10 * t
    ensures Quotient(d, places - 1) == t
  {
    var n, p := Val(d.digits), Pow10(Fraction(d) - places);
    QuotientIsHalfEven(d, places);
    QuotientIsHalfEven(d, places - 1);
    TenthIsNearest(t, n, p);
    HalfEvenUnique(Quotient(d, places - 1), t, n, 10 * p);
  }

  /** When keeping `precision` digits after the lead carries to a power of ten, keeping
      one fewer rounds the exact value to that same power: no second rounding differs. */
  lemma CarriesAlike(d: Decimal, precision: nat)
    requires Valid(d) && d.point + PlacesFor(d, precision) - 1 >= 1
    requires Quotient(d, PlacesFor(d, precision)) == Pow10(precision + 1)
    ensures Quotient(d, PlacesFor(d, precision) - 1) == Pow10(precision)
  {
    if PlacesFor(d, precision) >= Fraction(d) {
      TenthOfExact(d, PlacesFor(d, precision), Pow10(precision));
    } else {
      TenthOfRounded(d, PlacesFor(d, precision), Pow10(precision));
    }
  }
}
