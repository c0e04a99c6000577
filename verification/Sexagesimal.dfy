/** The `%m` number format and the reader of numbers: format_number and parse_number of
    src/indikit/protocol/numbers.py, and the browser's formatSexagesimal
    (web/packages/client/src/format.ts:41-73). A number is a real here. */
module Sexagesimal {
  import opened Digits
  import opened Printf
  import Wire

  type Option<T> = Wire.Option<T>

  // ------------------------------------------------------------------------ //
  // Printing                                                                  //
  // ------------------------------------------------------------------------ //

  /** How many parts of a degree a precision counts: one of five constants. */
  function FracBase(frac: nat): (base: nat)
    ensures IsBase(base)
  {
    if frac == 9 then 360000 else if frac == 8 then 36000
    else if frac == 6 then 3600 else if frac == 5 then 600 else 60
  }

  function Abs(x: real): (a: real)
    ensures a >= 0.0
  {
    if x < 0.0 then -x else x
  }

  /** The magnitude in parts, a half counting as the next one up. */
  function Ticks(value: real, base: nat): (n: nat) {
    var n := (Abs(value) * base as real + 0.5).Floor;
    assert n >= 0 by { assert Abs(value) * base as real >= 0.0; }
    n
  }

  function Spaces(n: nat): string {
    seq(n, i => ' ')
  }

  /** `rjust` and `padStart` with spaces. */
  function PadLeft(s: string, width: nat): string {
    if |s| >= width then s else Spaces(width - |s|) + s
  }

  function Pad2(n: nat): string {
    PadZeros(ToText(n), 2)
  }

  function Field(width: nat, frac: nat): nat {
    if width <= frac then 1 else width - frac
  }

  predicate IsBase(base: nat) {
    base == 60 || base == 600 || base == 3600 || base == 36000 || base == 360000
  }

  /** `format_number` on a `%<width>.<frac>m` format. */
  function FormatNumber(value: real, width: nat, frac: nat): string {
    var base := FracBase(frac);
    var n := Ticks(value, base);
    var d, f := n / base, n % base;
    var dd := (if value < 0.0 then "-" else "") + ToText(d);
    Layout(PadLeft(dd, Field(width, frac)), f, base)
  }

  /** The form each base is printed in. */
  function Layout(dd: string, f: nat, base: nat): string {
    if base == 60 then dd + ":" + Pad2(f)
    else if base == 600 then dd + ":" + Pad2(f / 10) + "." + ToText(f % 10)
    else if base == 3600 then dd + ":" + Pad2(f / 60) + ":" + Pad2(f % 60)
    else if base == 36000 then dd + ":" + Pad2(f / 600) + ":" + Pad2(f % 600 / 10) + "." + ToText(f % 10)
    else dd + ":" + Pad2(f / 6000) + ":" + Pad2(f % 6000 / 100) + "." + Pad2(f % 100)
  }

  /** `Math.round`: the nearest integer, a half going up. */
  function MathRound(x: real): int {
    (x + 0.5).Floor
  }

  /** `Math.floor` of a quotient of integers. */
  function FloorOf(a: int, b: int): int
    requires b != 0
  {
    (a as real / b as real).Floor
  }

  lemma FloorDivides(a: nat, b: nat)
    requires b == 10 || b == 60 || b == 100 || b == 600 || b == 3600 || b == 6000 || b == 36000 || b == 360000
    ensures FloorOf(a, b) == a / b
  {
    var q := a / b;
    assert q * b <= a < q * b + b;
    assert (q as real) <= a as real / b as real < (q as real) + 1.0;
  }

  /** The digits without the zeros they end in. */
  function TrimZeros(digits: string): (s: string)
    ensures s <= digits && (digits != "" ==> s != "")
  {
    if |digits| > 1 && digits[|digits| - 1] == '0' then TrimZeros(digits[..|digits| - 1]) else digits
  }

  /** `String(d)` of a whole number, by Number::toString of ECMAScript (section 6.1.6.1.20):
      all its digits if there are at most 21, and an exponent otherwise. */
  function StringOf(d: nat): string {
    var digits := ToText(d);
    if |digits| <= 21 then digits
    else
      var s := TrimZeros(digits);
      (if |s| == 1 then s else s[..1] + "." + s[1..]) + "e+" + ToText(|digits| - 1)
  }

  /** `formatSexagesimal`, its numbers all being doubles that hold integers. */
  function FormatSexagesimal(value: real, width: nat, frac: nat): string {
    var base := FracBase(frac);
    var n: nat := Ticks(value, base);
    assert n == MathRound(Abs(value) * base as real);
    FloorDivides(n, base);
    var d: nat, f := FloorOf(n, base), n % base;
    FloorDivides(f, 10);
    FloorDivides(f, 60);
    FloorDivides(f, 600);
    FloorDivides(f, 6000);
    FloorDivides(f % 600, 10);
    FloorDivides(f % 6000, 100);
    var dd := PadLeft((if value < 0.0 then "-" else "") + StringOf(d), Field(width, frac));
    match base
    case 60 => dd + ":" + Pad2(f)
    case 600 => dd + ":" + Pad2(FloorOf(f, 10)) + "." + ToText(f % 10)
    case 3600 => dd + ":" + Pad2(FloorOf(f, 60)) + ":" + Pad2(f % 60)
    case 36000 => dd + ":" + Pad2(FloorOf(f, 600)) + ":" + Pad2(FloorOf(f % 600, 10)) + "." + ToText(f % 10)
    case _ => dd + ":" + Pad2(FloorOf(f, 6000)) + ":" + Pad2(FloorOf(f % 6000, 100)) + "." + Pad2(f % 100)
  }

  // ------------------------------------------------------------------------ //
  // Reading                                                                   //
  // ------------------------------------------------------------------------ //

  /** A number, or the error the reader raises. */
  datatype Parsing = Refused | Value(value: real)

  predicate IsSpace(c: char) {
    c == ' ' || '\t' <= c <= '\r' || '\U{1c}' <= c <= '\U{1f}'
  }

  function LeftStrip(s: string): string {
    if s != "" && IsSpace(s[0]) then LeftStrip(s[1..]) else s
  }

  function RightStrip(s: string): string {
    if s != "" && IsSpace(s[|s| - 1]) then RightStrip(s[..|s| - 1]) else s
  }

  function Strip(s: string): string {
    RightStrip(LeftStrip(s))
  }

  /** n times ten to the e. */
  function Scaled(n: nat, e: int): real {
    if e >= 0 then (n * Pow10(e)) as real else n as real / Pow10(-e) as real
  }

  /** The exponent behind `e`: an optional sign and at least one digit. */
  function ExponentPart(s: string): Option<int> {
    var signed := s != "" && (s[0] == '+' || s[0] == '-');
    var digits := if signed then s[1..] else s;
    if digits == "" || !IsDigits(digits) then Wire.None
    else Wire.Some(if signed && s[0] == '-' then -(Val(digits) as int) else Val(digits))
  }

  /** `float` on unsigned text: digits, a point among them, an exponent behind. */
  function Unsigned(s: string): Parsing {
    var marker := Find(s, 'e', 'E');
    var head := s[..marker];
    var point := Find(head, '.', '.');
    var digits := head[..point] + (if point < |head| then head[point + 1..] else "");
    var places := |digits| - point;
    if digits == "" || !IsDigits(digits) then Refused
    else if marker == |s| then Value(Scaled(Val(digits), -places))
    else
      match ExponentPart(s[marker + 1..])
      case None => Refused
      case Some(exponent) => Value(Scaled(Val(digits), exponent - places))
  }

  /** `float` on text without white space around it. */
  function Float(s: string): Parsing {
    if s != "" && s[0] == '-' then
      match Unsigned(s[1..])
      case Refused => Refused
      case Value(v) => Value(-v)
    else if s != "" && s[0] == '+' then Unsigned(s[1..])
    else Unsigned(s)
  }

  predicate IsSeparator(c: char) {
    c == ':' || IsSpace(c)
  }

  /** The first separator, or the length. */
  function NextSeparator(s: string): (at: nat)
    ensures at <= |s| && (forall i :: 0 <= i < at ==> !IsSeparator(s[i])) && (at < |s| ==> IsSeparator(s[at]))
  {
    if s == "" || IsSeparator(s[0]) then 0 else 1 + NextSeparator(s[1..])
  }

  function SkipSeparators(s: string): (rest: string)
    ensures |rest| <= |s|
    ensures s != "" && IsSeparator(s[0]) ==> |rest| < |s|
  {
    if s != "" && IsSeparator(s[0]) then SkipSeparators(s[1..]) else s
  }

  /** `re.split` on runs of colons and white space. */
  function Split(s: string): (parts: seq<string>)
    ensures parts != []
    decreases |s|
  {
    var at := NextSeparator(s);
    if at == |s| then [s] else [s[..at]] + Split(SkipSeparators(s[at..]))
  }

  datatype Numbers = BadNumber | Numbers(values: seq<real>)

  /** The magnitudes of the parts that are not empty, if all of them are numbers. */
  function Magnitudes(parts: seq<string>): Numbers {
    if parts == [] then Numbers([])
    else
      match Magnitudes(parts[1..])
      case BadNumber => BadNumber
      case Numbers(rest) =>
        if parts[0] == "" then Numbers(rest)
        else
          match Float(parts[0])
          case Refused => BadNumber
          case Value(v) => Numbers([Abs(v)] + rest)
  }

  /** What a list of degrees, minutes, seconds and so on amounts to. */
  function Weighted(values: seq<real>): real {
    if values == [] then 0.0 else values[0] + Weighted(values[1..]) / 60.0
  }

  /** What `parse_number` reads. */
  function Parsed(text: string): Parsing {
    var s := Strip(text);
    if s == "" then Value(0.0)
    else if Float(s).Value? then Float(s)
    else
      match Magnitudes(Split(s))
      case BadNumber => Refused
      case Numbers(values) =>
        var first := LeftStrip(Split(s)[0]);
        Value(if first != "" && first[0] == '-' then -Weighted(values) else Weighted(values))
  }

  function Pow60(i: nat): (p: real)
    ensures p > 0.0
  {
    if i == 0 then 1.0 else 60.0 * Pow60(i - 1)
  }

  lemma SplitShare(x: real, y: real, p: real)
    requires p > 0.0
    ensures (x + y / 60.0) / p == x / p + y / (60.0 * p)
  {
    assert (x + y / 60.0) / p == x / p + (y / 60.0) / p;
    var z := (y / 60.0) / p;
    assert z * p == y / 60.0;
    assert z * (60.0 * p) == 60.0 * (z * p);
  }

  /** The accumulating loop of `_decimal_or_sexagesimal`. */
  method Accumulate(values: seq<real>) returns (acc: real)
    ensures acc == Weighted(values)
  {
    acc := 0.0;
    var i, power := 0, 1.0;
    while i < |values|
      invariant 0 <= i <= |values| && power == Pow60(i)
      invariant acc + Weighted(values[i..]) / power == Weighted(values)
    {
      SplitShare(values[i], Weighted(values[i + 1..]), power);
      assert values[i..][1..] == values[i + 1..];
      acc := acc + values[i] / power;
      i, power := i + 1, 60.0 * power;
    }
    assert values[i..] == [];
  }

  /** `parse_number`. */
  method ParseNumber(text: string) returns (result: Parsing)
    ensures result == Parsed(text)
  {
    var s := Strip(text);
    if s == "" {
      return Value(0.0);
    }
    if Float(s).Value? {
      return Float(s);
    }
    var parts := Split(s);
    var first := LeftStrip(parts[0]);
    var numbers := Magnitudes(parts);
    if numbers.BadNumber? {
      return Refused;
    }
    var acc := Accumulate(numbers.values);
    result := Value((if first != "" && first[0] == '-' then -1.0 else 1.0) * acc);
  }

  // ------------------------------------------------------------------------ //
  // Reading what was printed                                                  //
  // ------------------------------------------------------------------------ //

  /** A part of a sexagesimal number: not empty, no separator in it. */
  predicate Clean(s: string) {
    s != "" && forall i :: 0 <= i < |s| ==> !IsSeparator(s[i])
  }

  lemma {:induction false} NextSeparatorIs(s: string, at: nat)
    requires at <= |s| && (forall i :: 0 <= i < at ==> !IsSeparator(s[i])) && (at < |s| ==> IsSeparator(s[at]))
    ensures NextSeparator(s) == at
  {
    if at > 0 {
      NextSeparatorIs(s[1..], at - 1);
    }
  }

  lemma SplitLast(a: string)
    requires Clean(a)
    ensures Split(a) == [a]
  {
    NextSeparatorIs(a, |a|);
  }

  lemma SkipOne(rest: string)
    requires rest != "" && !IsSeparator(rest[0])
    ensures SkipSeparators(":" + rest) == rest
  {
    assert (":" + rest)[1..] == rest;
  }

  lemma SplitFirst(a: string, rest: string)
    requires Clean(a) && rest != "" && !IsSeparator(rest[0])
    ensures Split(a + ":" + rest) == [a] + Split(rest)
  {
    hide SkipSeparators, NextSeparator;
    var s := a + ":" + rest;
    NextSeparatorIs(s, |a|);
    assert s[..|a|] == a && s[|a|..] == ":" + rest;
    SkipOne(rest);
  }

  lemma MagnitudesStep(part: string, x: real, rest: seq<string>, values: seq<real>)
    requires part != "" && Float(part) == Value(x) && Magnitudes(rest) == Numbers(values)
    ensures Magnitudes([part] + rest) == Numbers([Abs(x)] + values)
  {
    hide Float;
    assert ([part] + rest)[1..] == rest;
  }

  lemma WeightedStep(x: real, values: seq<real>)
    ensures Weighted([x] + values) == x + Weighted(values) / 60.0
  {
    assert ([x] + values)[1..] == values;
  }

  lemma {:induction false} LeftStripSpaces(n: nat, s: string)
    requires s != "" && !IsSpace(s[0])
    ensures LeftStrip(Spaces(n) + s) == s
  {
    if n == 0 {
      assert Spaces(0) + s == s;
    } else {
      LeftStripSpaces(n - 1, s);
      assert (Spaces(n) + s)[1..] == Spaces(n - 1) + s;
    }
  }

  lemma StripPadded(s: string, width: nat, tail: string)
    requires s != "" && !IsSpace(s[0]) && tail != "" && !IsSpace(tail[|tail| - 1])
    ensures Strip(PadLeft(s, width) + tail) == s + tail
  {
    var n := if |s| >= width then 0 else width - |s|;
    assert PadLeft(s, width) + tail == Spaces(n) + (s + tail);
    LeftStripSpaces(n, s + tail);
  }

  lemma UnsignedColon(s: string, i: nat)
    requires i < |s| && s[i] == ':'
    ensures Unsigned(s) == Refused
  {
    var marker := Find(s, 'e', 'E');
    var head := s[..marker];
    var point := Find(head, '.', '.');
    var digits := head[..point] + (if point < |head| then head[point + 1..] else "");
    if i < marker {
      assert digits[if i < point then i else i - 1] == ':';
      assert !IsDigits(digits);
    } else {
      ExponentColon(s[marker + 1..], i - marker - 1);
    }
  }

  lemma ExponentColon(s: string, i: nat)
    requires i < |s| && s[i] == ':'
    ensures ExponentPart(s) == Wire.None
  {
    var signed := s[0] == '+' || s[0] == '-';
    var digits := if signed then s[1..] else s;
    assert digits[if signed then i - 1 else i] == ':';
    assert !IsDigits(digits);
  }

  /** Text with a colon in it is no decimal number. */
  lemma FloatColon(s: string, i: nat)
    requires i < |s| && s[i] == ':'
    ensures Float(s) == Refused
  {
    if s[0] == '-' || s[0] == '+' {
      UnsignedColon(s[1..], i - 1);
    } else {
      UnsignedColon(s, i);
    }
  }

  /** A part's text, digits with or without a point, is the number it shows. */
  lemma UnsignedReads(whole: string, fraction: string)
    requires IsDigits(whole) && whole != "" && IsDigits(fraction)
    ensures IsDigits(whole + fraction)
    ensures Unsigned(Head(whole, fraction)) == Value(Scaled(Val(whole + fraction), -|fraction|))
  {
    var s := Head(whole, fraction);
    HeadParts(whole, fraction);
    FindIs(s, 'e', 'E', |s|);
    assert s[..|s|] == s;
    if fraction == "" {
      assert whole + "" == whole;
    }
  }

  lemma FloatReads(whole: string, fraction: string)
    requires IsDigits(whole) && whole != "" && IsDigits(fraction)
    ensures IsDigits(whole + fraction) && Clean(Head(whole, fraction))
    ensures Float(Head(whole, fraction)) == Value(Scaled(Val(whole + fraction), -|fraction|))
  {
    hide Unsigned, Float, Clean, Val, Scaled, Head, IsDigits, IsDigit;
    UnsignedReads(whole, fraction);
    HeadClean(whole, fraction);
    PlainRead(Head(whole, fraction));
  }

  lemma HeadClean(whole: string, fraction: string)
    requires IsDigits(whole) && whole != "" && IsDigits(fraction)
    ensures Clean(Head(whole, fraction)) && IsDigit(Head(whole, fraction)[0])
  {
    assert Head(whole, fraction)[0] == whole[0];
  }

  function SignText(negative: bool): string {
    if negative then "-" else ""
  }

  lemma MinusRead(s: string)
    requires Unsigned(s).Value?
    ensures Float("-" + s) == Value(-Unsigned(s).value)
  {
    hide Unsigned;
    assert ("-" + s)[1..] == s;
  }

  lemma PlainRead(s: string)
    requires s != "" && IsDigit(s[0])
    ensures Float(s) == Unsigned(s)
  {
    hide Unsigned;
  }

  lemma DegreesRead(negative: bool, d: nat)
    ensures Clean(SignText(negative) + ToText(d))
    ensures Float(SignText(negative) + ToText(d)) == Value(Signed(negative, d as real))
  {
    hide Unsigned, Float, ToText, Val;
    UnsignedReads(ToText(d), "");
    ToTextVal(d);
    assert ToText(d) + "" == ToText(d) && Head(ToText(d), "") == ToText(d);
    assert Pow10(0) == 1;
    if negative {
      MinusRead(ToText(d));
    } else {
      assert "" + ToText(d) == ToText(d);
      PlainRead(ToText(d));
    }
  }

  function Signed(negative: bool, x: real): real {
    if negative then -x else x
  }

  lemma ParsedParts(text: string, s: string, negative: bool, values: seq<real>)
    requires Strip(text) == s && s != "" && Float(s) == Refused && Magnitudes(Split(s)) == Numbers(values)
    requires Clean(Split(s)[0]) && (Split(s)[0][0] == '-' <==> negative)
    ensures Parsed(text) == Value(Signed(negative, Weighted(values)))
  {
    hide Strip, Float, Magnitudes, Split, Weighted;
    assert LeftStrip(Split(s)[0]) == Split(s)[0];
  }

  /** What is read of a text whose parts are known: the first one decides the sign. */
  lemma PartsRead(negative: bool, d: nat, width: nat, rest: string, values: seq<real>)
    requires rest != "" && !IsSeparator(rest[0]) && !IsSpace(rest[|rest| - 1])
    requires Magnitudes(Split(rest)) == Numbers(values)
    ensures Parsed(PadLeft(SignText(negative) + ToText(d), width) + (":" + rest))
            == Value(Signed(negative, d as real + Weighted(values) / 60.0))
  {
    hide ToText, Unsigned, Float, PadLeft, Strip, Parsed, Split, Magnitudes, Weighted;
    var first := SignText(negative) + ToText(d);
    DegreesRead(negative, d);
    assert IsDigit(ToText(d)[0]);
    StripPadded(first, width, ":" + rest);
    var s := first + ":" + rest;
    assert s == first + (":" + rest) && s[|first|] == ':';
    FloatColon(s, |first|);
    SplitFirst(first, rest);
    MagnitudesStep(first, Signed(negative, d as real), Split(rest), values);
    WeightedStep(d as real, values);
    ParsedParts(PadLeft(first, width) + (":" + rest), s, negative, [d as real] + values);
  }

  lemma ScaledPositive(n: nat, e: int)
    ensures Scaled(n, e) >= 0.0
  {
  }

  lemma NoParts()
    ensures Magnitudes([]) == Numbers([]) && Weighted([]) == 0.0
  {
  }

  /** A last part on its own. */
  lemma OnePart(whole: string, fraction: string)
    requires IsDigits(whole) && whole != "" && IsDigits(fraction)
    ensures IsDigits(whole + fraction)
    ensures var x := Scaled(Val(whole + fraction), -|fraction|);
            Magnitudes(Split(Head(whole, fraction))) == Numbers([x]) && Weighted([x]) == x
  {
    hide Float, Val, Scaled, Magnitudes, Split, Weighted, Head;
    FloatReads(whole, fraction);
    var part, x := Head(whole, fraction), Scaled(Val(whole + fraction), -|fraction|);
    SplitLast(part);
    ScaledPositive(Val(whole + fraction), -|fraction|);
    NoParts();
    MagnitudesStep(part, x, [], []);
    assert [part] + [] == [part] && [x] + [] == [x];
    WeightedStep(x, []);
  }

  lemma HeadEnds(whole: string, fraction: string)
    requires IsDigits(whole) && whole != "" && IsDigits(fraction)
    ensures var part := Head(whole, fraction); part != "" && IsDigit(part[0]) && IsDigit(part[|part| - 1])
  {
  }

  lemma TwoParts(negative: bool, d: nat, width: nat, whole: string, fraction: string)
    requires IsDigits(whole) && whole != "" && IsDigits(fraction)
    ensures IsDigits(whole + fraction)
    ensures Parsed(PadLeft(SignText(negative) + ToText(d), width) + (":" + Head(whole, fraction)))
            == Value(Signed(negative, d as real + Scaled(Val(whole + fraction), -|fraction|) / 60.0))
  {
    hide Parsed, PadLeft, ToText, Split, Magnitudes, Weighted, Scaled, Head;
    OnePart(whole, fraction);
    HeadEnds(whole, fraction);
    PartsRead(negative, d, width, Head(whole, fraction), [Scaled(Val(whole + fraction), -|fraction|)]);
  }

  lemma MinutesRead(minutes: string, rest: string, values: seq<real>)
    requires IsDigits(minutes) && minutes != "" && rest != "" && !IsSeparator(rest[0])
    requires Magnitudes(Split(rest)) == Numbers(values)
    ensures Magnitudes(Split(minutes + ":" + rest)) == Numbers([Val(minutes) as real] + values)
  {
    hide Split, Magnitudes, Float, Val;
    FloatReads(minutes, "");
    assert minutes + "" == minutes && Pow10(0) == 1;
    SplitFirst(minutes, rest);
    MagnitudesStep(minutes, Val(minutes) as real, Split(rest), values);
  }

  lemma ThreeParts(negative: bool, d: nat, width: nat, minutes: string, whole: string, fraction: string)
    requires IsDigits(minutes) && minutes != "" && IsDigits(whole) && whole != "" && IsDigits(fraction)
    ensures IsDigits(whole + fraction)
    ensures Parsed(PadLeft(SignText(negative) + ToText(d), width) + (":" + (minutes + ":" + Head(whole, fraction))))
            == Value(Signed(negative, d as real + (Val(minutes) as real
                 + Scaled(Val(whole + fraction), -|fraction|) / 60.0) / 60.0))
  {
    hide Parsed, PadLeft, ToText, Split, Magnitudes, Weighted, Scaled, Head;
    var part := Head(whole, fraction);
    OnePart(whole, fraction);
    HeadEnds(whole, fraction);
    var x := Scaled(Val(whole + fraction), -|fraction|);
    MinutesRead(minutes, part, [x]);
    WeightedStep(Val(minutes) as real, [x]);
    PartsRead(negative, d, width, minutes + ":" + part, [Val(minutes) as real] + [x]);
  }

  // ------------------------------------------------------------------------ //
  // The round trip                                                            //
  // ------------------------------------------------------------------------ //

  lemma Pad2Digits(n: nat)
    ensures IsDigits(Pad2(n)) && |Pad2(n)| >= 2 && Val(Pad2(n)) == n
    ensures n < 100 ==> |Pad2(n)| == 2
  {
    ToTextVal(n);
    PadZerosVal(ToText(n), 2);
  }

  lemma OneDigit(n: nat)
    requires n < 10
    ensures |ToText(n)| == 1 && Val(ToText(n)) == n
  {
    ToTextVal(n);
  }

  /** The decimals of a field counted in tenths or hundredths, or none. */
  function FractionText(n: nat, unit: nat): (s: string)
    requires unit == 1 || unit == 10 || unit == 100
  {
    if unit == 1 then "" else if unit == 10 then ToText(n % 10) else Pad2(n % 100)
  }

  lemma FractionReads(n: nat, unit: nat)
    requires unit == 1 || unit == 10 || unit == 100
    ensures var s := FractionText(n, unit);
            IsDigits(s) && Pow10(|s|) == unit && Val(s) == n % unit
  {
    hide Val, ToText;
    assert Pow10(0) == 1 && Pow10(1) == 10 && Pow10(2) == 100;
    if unit == 1 {
      ValZeros(0);
      assert Zeros(0) == "";
    } else if unit == 10 {
      OneDigit(n % 10);
    } else {
      Pad2Digits(n % 100);
    }
  }

  lemma ScaledByPower(n: nat, places: nat)
    ensures Scaled(n, -(places as int)) == n as real / Pow10(places) as real
  {
    if places == 0 {
      assert Pow10(0) == 1;
    }
  }

  /** A decimal field shows its number of units. */
  lemma DecimalField(n: nat, unit: nat)
    requires unit == 1 || unit == 10 || unit == 100
    ensures var whole, fraction := Pad2(n / unit), FractionText(n, unit);
            && IsDigits(whole) && whole != "" && IsDigits(fraction) && IsDigits(whole + fraction)
            && Scaled(Val(whole + fraction), -|fraction|) == n as real / unit as real
  {
    hide Val, ToText, Pad2, FractionText, Pow10, Scaled;
    Pad2Digits(n / unit);
    FractionReads(n, unit);
    ValConcat(Pad2(n / unit), FractionText(n, unit));
    assert n == n / unit * unit + n % unit;
    ScaledByPower(n, |FractionText(n, unit)|);
  }

  /** What follows the degrees: minutes with decimals, or minutes and seconds. */
  function Tail(f: nat, base: nat): string
    requires IsBase(base)
  {
    if base < 3600 then ":" + Head(Pad2(f / (base / 60)), FractionText(f, base / 60))
    else
      var n, unit := f % (base / 60), base / 3600;
      ":" + (Pad2(f / (base / 60)) + ":" + Head(Pad2(n / unit), FractionText(n, unit)))
  }

  lemma ModuloTen(f: nat)
    ensures f % 600 % 10 == f % 10
  {
    var q, r := f / 600, f % 600;
    assert f == 10 * (60 * q + r / 10) + r % 10;
  }

  lemma ModuloHundred(f: nat)
    ensures f % 6000 % 100 == f % 100
  {
    var q, r := f / 6000, f % 6000;
    assert f == 100 * (60 * q + r / 100) + r % 100;
  }

  lemma JoinTwo(dd: string, whole: string, fraction: string)
    requires fraction != ""
    ensures dd + ":" + whole == dd + (":" + Head(whole, ""))
    ensures dd + ":" + whole + "." + fraction == dd + (":" + Head(whole, fraction))
  {
  }

  lemma JoinThree(dd: string, minutes: string, whole: string, fraction: string)
    requires fraction != ""
    ensures dd + ":" + minutes + ":" + whole == dd + (":" + (minutes + ":" + Head(whole, "")))
    ensures dd + ":" + minutes + ":" + whole + "." + fraction == dd + (":" + (minutes + ":" + Head(whole, fraction)))
  {
  }

  lemma LayoutIs(dd: string, f: nat, base: nat)
    requires IsBase(base)
    ensures Layout(dd, f, base) == dd + Tail(f, base)
  {
    hide Pad2, ToText, Head;
    if base == 60 {
      JoinTwo(dd, Pad2(f), "0");
    } else if base == 600 {
      JoinTwo(dd, Pad2(f / 10), ToText(f % 10));
    } else if base == 3600 {
      JoinThree(dd, Pad2(f / 60), Pad2(f % 60), "0");
    } else if base == 36000 {
      ModuloTen(f);
      JoinThree(dd, Pad2(f / 600), Pad2(f % 600 / 10), ToText(f % 10));
    } else {
      ModuloHundred(f);
      Pad2Digits(f % 100);
      JoinThree(dd, Pad2(f / 6000), Pad2(f % 6000 / 100), Pad2(f % 100));
    }
  }

  lemma FormatIs(value: real, width: nat, frac: nat)
    ensures var base := FracBase(frac);
            var n := Ticks(value, base);
            FormatNumber(value, width, frac)
            == PadLeft(SignText(value < 0.0) + ToText(n / base), Field(width, frac)) + Tail(n % base, base)
  {
    hide Layout, Tail, PadLeft, ToText, Ticks;
    var base := FracBase(frac);
    var n := Ticks(value, base);
    LayoutIs(PadLeft(SignText(value < 0.0) + ToText(n / base), Field(width, frac)), n % base, base);
  }

  lemma DivideAgain(f: nat, unit: nat)
    requires unit > 0
    ensures f == unit * (f / unit) + f % unit
  {
  }

  lemma Shares(q: real, r: real, k: real)
    requires k > 0.0
    ensures (q + r / k / 60.0) / 60.0 == (60.0 * k * q + r) / (3600.0 * k)
  {
    var x := r / k;
    assert r == x * k;
    var n := 60.0 * q + x;
    assert 60.0 * k * q + r == n * k;
    assert (n * k) / (3600.0 * k) == n / 3600.0 by {
      assert (n / 3600.0) * (3600.0 * k) == n * k;
    }
  }

  lemma ThreeBases(f: nat, base: nat)
    requires base == 3600 || base == 36000 || base == 360000
    ensures var k := (base / 3600) as real;
            k > 0.0 && base as real == 3600.0 * k
            && f as real == 60.0 * k * (f / (base / 60)) as real + (f % (base / 60)) as real
  {
    DivideAgain(f, base / 60);
    if base == 3600 {
      UnitTimes(60, f / 60, f % 60, f);
    } else if base == 36000 {
      UnitTimes(600, f / 600, f % 600, f);
    } else {
      UnitTimes(6000, f / 6000, f % 6000, f);
    }
  }

  lemma UnitTimes(unit: nat, q: nat, r: nat, f: nat)
    requires f == unit * q + r
    ensures f as real == unit as real * q as real + r as real
  {
    assert (unit * q) as real == unit as real * q as real;
  }

  /** Minutes and seconds are the parts they were divided from. */
  lemma SharesOf(f: nat, base: nat)
    requires base == 3600 || base == 36000 || base == 360000
    ensures var unit := base / 60;
            ((f / unit) as real + (f % unit) as real / (base / 3600) as real / 60.0) / 60.0 == f as real / base as real
  {
    ThreeBases(f, base);
    Shares((f / (base / 60)) as real, (f % (base / 60)) as real, (base / 3600) as real);
  }

  lemma TwoFieldsRead(negative: bool, d: nat, width: nat, f: nat, base: nat)
    requires base == 60 || base == 600
    ensures Parsed(PadLeft(SignText(negative) + ToText(d), width) + Tail(f, base))
            == Value(Signed(negative, d as real + f as real / base as real))
  {
    hide Parsed, PadLeft, ToText, Pad2, FractionText, Scaled, Head, Val;
    DecimalField(f, base / 60);
    TwoParts(negative, d, width, Pad2(f / (base / 60)), FractionText(f, base / 60));
  }

  lemma ThreeFieldsRead(negative: bool, d: nat, width: nat, f: nat, base: nat)
    requires base == 3600 || base == 36000 || base == 360000
    ensures Parsed(PadLeft(SignText(negative) + ToText(d), width) + Tail(f, base))
            == Value(Signed(negative, d as real + f as real / base as real))
  {
    hide Parsed, PadLeft, ToText, Pad2, FractionText, Scaled, Head, Val, IsDigits;
    var unit := base / 60;
    Pad2Digits(f / unit);
    DecimalField(f % unit, base / 3600);
    ThreeParts(negative, d, width, Pad2(f / unit), Pad2(f % unit / (base / 3600)), FractionText(f % unit, base / 3600));
    SharesOf(f, base);
  }

  /** The value a printed text stands for: whole parts of a degree. */
  function Rounded(value: real, base: nat): real
    requires base > 0
  {
    Signed(value < 0.0, Ticks(value, base) as real / base as real)
  }

  /** Reading a printed value gives back its whole parts of a degree, sign and all, for
      every value and every format. */
  lemma PrintThenRead(value: real, width: nat, frac: nat)
    ensures Parsed(FormatNumber(value, width, frac)) == Value(Rounded(value, FracBase(frac)))
  {
    hide Parsed, FormatNumber, Ticks, Tail, PadLeft, ToText;
    var base := FracBase(frac);
    var n := Ticks(value, base);
    FormatIs(value, width, frac);
    if base < 3600 {
      TwoFieldsRead(value < 0.0, n / base, Field(width, frac), n % base, base);
    } else {
      ThreeFieldsRead(value < 0.0, n / base, Field(width, frac), n % base, base);
    }
    assert n == n / base * base + n % base;
  }

  /** What is read back is at most half a part away, and a half counts as a whole part. */
  lemma RoundedIsNear(value: real, base: nat)
    requires IsBase(base)
    ensures -0.5 <= (Rounded(value, base) - value) * base as real <= 0.5
    ensures (Rounded(value, base) - value) * base as real == 0.5 ==> value >= 0.0
    ensures (Rounded(value, base) - value) * base as real == -0.5 ==> value < 0.0
  {
    var n := Ticks(value, base);
    assert n as real <= Abs(value) * base as real + 0.5 < n as real + 1.0;
  }

  lemma TicksOfRounded(value: real, base: nat)
    requires IsBase(base)
    ensures Ticks(Rounded(value, base), base) == Ticks(value, base)
    ensures Rounded(value, base) < 0.0 <==> value < 0.0 && Ticks(value, base) > 0
  {
    var n := Ticks(value, base);
    assert Abs(Rounded(value, base)) * base as real == n as real;
  }

  lemma SignShows(negative: bool, t: string, tail: string, width: nat)
    requires t != "" && IsDigit(t[0])
    ensures PadLeft(SignText(true) + t, width) + tail != PadLeft(SignText(false) + t, width) + tail
  {
    var a, b := PadLeft("-" + t, width) + tail, PadLeft(t, width) + tail;
    assert "" + t == t;
    if width > |t| {
      var i := width - |t| - 1;
      assert a[i] == '-' && b[i] == ' ';
    } else {
      assert |a| == |b| + 1;
    }
  }

  /** Printing what was read prints the same text, unless a negative value rounded to
      zero and lost its sign. */
  lemma ReadThenPrint(value: real, width: nat, frac: nat)
    ensures FormatNumber(Rounded(value, FracBase(frac)), width, frac) == FormatNumber(value, width, frac)
            <==> !(value < 0.0 && Ticks(value, FracBase(frac)) == 0)
  {
    hide FormatNumber, Ticks, Tail, PadLeft, ToText, Rounded, SignText;
    var base := FracBase(frac);
    var n := Ticks(value, base);
    FormatIs(value, width, frac);
    FormatIs(Rounded(value, base), width, frac);
    TicksOfRounded(value, base);
    SignShows(true, ToText(n / base), Tail(n % base, base), Field(width, frac));
  }

  /** The minute and second fields of a printed value are always below sixty: two
      digits each, and what they show. */
  lemma FieldsBelowSixty(value: real, width: nat, frac: nat) returns (minutes: nat, seconds: nat)
    ensures var base := FracBase(frac);
            var dd := PadLeft(SignText(value < 0.0) + ToText(Ticks(value, base) / base), Field(width, frac));
            && minutes < 60 && seconds < 60
            && |Pad2(minutes)| == 2 && |Pad2(seconds)| == 2
            && (base < 3600 ==> dd + ":" + Pad2(minutes) <= FormatNumber(value, width, frac))
            && (base >= 3600 ==> dd + ":" + Pad2(minutes) + ":" + Pad2(seconds) <= FormatNumber(value, width, frac))
  {
    hide ToText, PadLeft, Ticks, Pad2, Tail, FormatNumber;
    var base := FracBase(frac);
    var n := Ticks(value, base);
    var f := n % base;
    var dd := PadLeft(SignText(value < 0.0) + ToText(n / base), Field(width, frac));
    minutes := f / (base / 60);
    seconds := if base < 3600 then 0 else f % (base / 60) / (base / 3600);
    FieldBounds(f, base);
    Pad2Digits(minutes);
    Pad2Digits(seconds);
    FormatIs(value, width, frac);
    TailStarts(dd, f, base);
  }

  lemma FieldBounds(f: nat, base: nat)
    requires IsBase(base) && f < base
    ensures f / (base / 60) < 60 && (base >= 3600 ==> f % (base / 60) / (base / 3600) < 60)
  {
  }

  lemma TailStarts(dd: string, f: nat, base: nat)
    requires IsBase(base)
    ensures base < 3600 ==> dd + ":" + Pad2(f / (base / 60)) <= dd + Tail(f, base)
    ensures base >= 3600 ==>
              dd + ":" + Pad2(f / (base / 60)) + ":" + Pad2(f % (base / 60) / (base / 3600)) <= dd + Tail(f, base)
  {
    hide Pad2, FractionText;
    if base < 3600 {
      var whole, fraction := Pad2(f / (base / 60)), FractionText(f, base / 60);
      assert dd + (":" + Head(whole, fraction)) == (dd + ":" + whole) + Head(whole, fraction)[|whole|..];
    } else {
      var n, unit := f % (base / 60), base / 3600;
      var minutes, whole, fraction := Pad2(f / (base / 60)), Pad2(n / unit), FractionText(n, unit);
      assert dd + (":" + (minutes + ":" + Head(whole, fraction)))
             == (dd + ":" + minutes + ":" + whole) + Head(whole, fraction)[|whole|..];
    }
  }

  /** How many characters follow the degrees: the precision, where it is one that has a
      form of its own, and a colon and two digits of minutes otherwise. */
  function Behind(frac: nat): nat {
    if frac == 5 || frac == 6 || frac == 8 || frac == 9 then frac else 3
  }

  /** The form of a printed value: blanks, the sign and the degrees without leading zeros,
      and behind them as many characters as the precision says, from a colon on; the whole
      of it as wide as the width asks, or wider if the degrees need it. */
  lemma TextWidth(value: real, width: nat, frac: nat) returns (blanks: nat, degrees: string, tail: string)
    ensures FormatNumber(value, width, frac) == Spaces(blanks) + (SignText(value < 0.0) + degrees) + tail
    ensures IsDigits(degrees) && degrees == ToText(Val(degrees))
    ensures |tail| == Behind(frac) && tail[0] == ':'
    ensures var text := FormatNumber(value, width, frac);
            var least := |SignText(value < 0.0) + degrees| + frac;
            frac == Behind(frac) ==> |text| == if width > least then width else least
  {
    hide FormatNumber, Ticks, ToText, Tail, Val, SignText;
    var base := FracBase(frac);
    var n := Ticks(value, base);
    degrees, tail := ToText(n / base), Tail(n % base, base);
    ToTextVal(n / base);
    var dd, field := SignText(value < 0.0) + degrees, Field(width, frac);
    blanks := if |dd| >= field then 0 else field - |dd|;
    FormatIs(value, width, frac);
    TailLength(n % base, frac);
    assert PadLeft(dd, field) == Spaces(blanks) + dd;
  }

  lemma TailLength(f: nat, frac: nat)
    requires f < FracBase(frac)
    ensures |Tail(f, FracBase(frac))| == Behind(frac) && Tail(f, FracBase(frac))[0] == ':'
  {
    hide Pad2, ToText;
    var base := FracBase(frac);
    FieldBounds(f, base);
    Pad2Digits(f / (base / 60));
    Pad2Digits(f % 100);
    OneDigit(f % 10);
    if base >= 3600 {
      var rest := f % (base / 60);
      Pad2Digits(rest / (base / 3600));
      Pad2Digits(rest % 100);
      OneDigit(rest % 10);
    }
  }

  /** Degrees and minutes are read apart by colons, blanks, tabs and line ends alike, and by
      any number of them together. */
  lemma SeparatorsAlike(a: string, between: string, b: string)
    requires Clean(a) && Clean(b) && between != ""
    requires forall i :: 0 <= i < |between| ==> between[i] in ": \t\n\r"
    ensures Split(a + between + b) == [a, b]
  {
    hide SkipSeparators, NextSeparator;
    var s := a + between + b;
    assert s[|a|] == between[0];
    NextSeparatorIs(s, |a|);
    assert s[..|a|] == a && s[|a|..] == between + b;
    SkipAll(between, b);
    SplitLast(b);
  }

  lemma {:induction false} SkipAll(between: string, rest: string)
    requires rest != "" && !IsSeparator(rest[0])
    requires forall i :: 0 <= i < |between| ==> between[i] in ": \t\n\r"
    ensures SkipSeparators(between + rest) == rest
  {
    if between == "" {
      assert between + rest == rest;
    } else {
      assert between[0] in ": \t\n\r";
      assert (between + rest)[1..] == between[1..] + rest;
      SkipAll(between[1..], rest);
    }
  }

  /** A whole number has at most 21 digits exactly when it is below ten to the 21st. */
  lemma DigitsOf(d: nat)
    ensures |ToText(d)| <= 21 <==> d < Pow10(21)
  {
    hide Pow10, ToText;
    if d > 0 {
      ToTextLead(d);
      if |ToText(d)| <= 21 {
        Pow10Monotone(|ToText(d)|, 21);
      } else {
        Pow10Monotone(21, |ToText(d)| - 1);
      }
    } else {
      ZeroText();
    }
  }

  lemma ZeroText()
    ensures |ToText(0)| == 1
  {
  }

  /** What a printed text is made of but for the degrees. */
  predicate Plain(s: string) {
    forall i :: 0 <= i < |s| ==> s[i] != 'e'
  }

  lemma PlainParts(s: string, width: nat)
    ensures Plain(PadLeft(s, width)) <==> Plain(s)
  {
    var t := PadLeft(s, width);
    assert forall i :: 0 <= i < |s| ==> t[|t| - |s| + i] == s[i];
  }

  lemma PlainJoin(a: string, b: string)
    ensures Plain(a + b) <==> Plain(a) && Plain(b)
  {
    assert forall i :: 0 <= i < |a| ==> (a + b)[i] == a[i];
    assert forall i :: 0 <= i < |b| ==> (a + b)[|a| + i] == b[i];
  }

  lemma StringIsPlain(d: nat)
    ensures Plain(ToText(d)) && (Plain(StringOf(d)) <==> d < Pow10(21))
    ensures d < Pow10(21) ==> StringOf(d) == ToText(d)
  {
    DigitsOf(d);
    var digits := ToText(d);
    hide Pow10, ToText, TrimZeros;
    if |digits| > 21 {
      var s := TrimZeros(digits);
      var head := if |s| == 1 then s else s[..1] + "." + s[1..];
      assert "e+"[0] == 'e';
      PlainJoin(head, "e+");
      PlainJoin(head + "e+", ToText(|digits| - 1));
    }
  }

  /** The browser's text around its degrees. */
  lemma BrowserIs(value: real, width: nat, frac: nat)
    ensures var base := FracBase(frac);
            var n := Ticks(value, base);
            FormatSexagesimal(value, width, frac)
            == Layout(PadLeft((if value < 0.0 then "-" else "") + StringOf(n / base), Field(width, frac)), n % base, base)
  {
    hide Pad2, PadLeft, ToText, StringOf, Ticks, FloorOf;
    var base := FracBase(frac);
    var n := Ticks(value, base);
    FloorDivides(n, base);
    var f := n % base;
    FloorDivides(f, 10);
    FloorDivides(f, 60);
    FloorDivides(f, 600);
    FloorDivides(f, 6000);
    FloorDivides(f % 600, 10);
    FloorDivides(f % 6000, 100);
  }

  lemma PlainLayout(dd: string, f: nat, base: nat)
    requires IsBase(base) && f < base
    ensures Plain(Layout(dd, f, base)) ==> Plain(dd)
    ensures dd <= Layout(dd, f, base)
  {
    hide Pad2, ToText;
  }

  /** The browser prints what the server prints exactly when the degrees are below ten to
      the 21st, from where JavaScript writes a number with an exponent. */
  lemma PrintersAgree(value: real, width: nat, frac: nat)
    ensures FormatSexagesimal(value, width, frac) == FormatNumber(value, width, frac)
            <==> Ticks(value, FracBase(frac)) / FracBase(frac) < Pow10(21)
  {
    hide Pad2, PadLeft, ToText, StringOf, Ticks, FormatSexagesimal, Plain, Layout, Pow10;
    var base := FracBase(frac);
    var n := Ticks(value, base);
    var sign := if value < 0.0 then "-" else "";
    BrowserIs(value, width, frac);
    StringIsPlain(n / base);
    if n / base >= Pow10(21) {
      ServerIsPlain(value, width, frac);
      PlainJoin(sign, StringOf(n / base));
      PlainParts(sign + StringOf(n / base), Field(width, frac));
      PlainLayout(PadLeft(sign + StringOf(n / base), Field(width, frac)), n % base, base);
    }
  }

  lemma ServerIsPlain(value: real, width: nat, frac: nat)
    ensures Plain(FormatNumber(value, width, frac))
  {
    hide PadLeft, ToText, Ticks, FracBase, Field, Layout, Plain;
    var base := FracBase(frac);
    var n := Ticks(value, base);
    var sign := if value < 0.0 then "-" else "";
    StringIsPlain(n / base);
    SignIsPlain(sign);
    PlainJoin(sign, ToText(n / base));
    PlainParts(sign + ToText(n / base), Field(width, frac));
    LayoutIsPlain(PadLeft(sign + ToText(n / base), Field(width, frac)), n % base, base);
  }

  lemma SignIsPlain(sign: string)
    requires sign == "" || sign == "-"
    ensures Plain(sign)
  {
  }

  lemma PlainColon(a: string, n: nat)
    requires Plain(a)
    ensures Plain(a + ":" + Pad2(n))
  {
    hide Pad2;
    Pad2IsPlain(n);
    PlainJoin(a, ":");
    PlainJoin(a + ":", Pad2(n));
  }

  lemma PlainDot(a: string, b: string)
    requires Plain(a) && Plain(b)
    ensures Plain(a + "." + b)
  {
    PlainJoin(a, ".");
    PlainJoin(a + ".", b);
  }

  lemma LayoutIsPlain(dd: string, f: nat, base: nat)
    requires Plain(dd)
    ensures Plain(Layout(dd, f, base))
  {
    hide Plain, Pad2, ToText, Pow10;
    StringIsPlain(f % 10);
    Pad2IsPlain(f % 100);
    if base == 60 {
      PlainColon(dd, f);
    } else if base == 600 {
      PlainColon(dd, f / 10);
      PlainDot(dd + ":" + Pad2(f / 10), ToText(f % 10));
    } else if base == 3600 {
      PlainColon(dd, f / 60);
      PlainColon(dd + ":" + Pad2(f / 60), f % 60);
    } else if base == 36000 {
      PlainColon(dd, f / 600);
      PlainColon(dd + ":" + Pad2(f / 600), f % 600 / 10);
      PlainDot(dd + ":" + Pad2(f / 600) + ":" + Pad2(f % 600 / 10), ToText(f % 10));
    } else {
      PlainColon(dd, f / 6000);
      PlainColon(dd + ":" + Pad2(f / 6000), f % 6000 / 100);
      PlainDot(dd + ":" + Pad2(f / 6000) + ":" + Pad2(f % 6000 / 100), Pad2(f % 100));
    }
  }

  lemma Pad2IsPlain(n: nat)
    ensures Plain(Pad2(n))
  {
    hide Pow10, ToText, StringOf;
    StringIsPlain(n);
  }

  lemma TenTimesText(n: nat)
    requires n > 0
    ensures ToText(10 * n) == ToText(n) + "0"
  {
    assert 10 * n / 10 == n && 10 * n % 10 == 0;
  }

  lemma OneText()
    ensures ToText(Pow10(0)) == "1" + Zeros(0) && TrimZeros("1" + Zeros(0)) == "1"
  {
    assert "1" + Zeros(0) == "1";
  }

  lemma NextPower(k: nat)
    requires k > 0
    ensures Pow10(k) == 10 * Pow10(k - 1)
  {
  }

  lemma TrimOne(digits: string)
    requires digits != ""
    ensures TrimZeros(digits + "0") == TrimZeros(digits)
  {
    assert (digits + "0")[..|digits|] == digits;
  }

  lemma {:induction false} PowerText(k: nat)
    ensures ToText(Pow10(k)) == "1" + Zeros(k) && TrimZeros("1" + Zeros(k)) == "1"
  {
    hide ToText, TrimZeros, Pow10;
    if k == 0 {
      OneText();
    } else {
      NextPower(k);
      PowerText(k - 1);
      assert "1" + Zeros(k) == ("1" + Zeros(k - 1)) + "0";
      TenTimesText(Pow10(k - 1));
      TrimOne("1" + Zeros(k - 1));
    }
  }

  /** Where they differ first: ten to the 21st degrees in `%9.6m`. */
  lemma PrintersDiffer()
    ensures FormatSexagesimal(Pow10(21) as real, 9, 6) == "1e+21:00:00"
    ensures FormatNumber(Pow10(21) as real, 9, 6) == "1" + Zeros(21) + ":00:00"
  {
    hide Pow10, ToText, TrimZeros, FormatSexagesimal, FormatNumber, StringOf;
    PowerText(21);
    StringOfPower();
    WholeDegrees(Pow10(21));
    assert "1e+21" + ":00:00" == "1e+21:00:00";
  }

  lemma StringOfPower()
    ensures StringOf(Pow10(21)) == "1e+21"
  {
    hide Pow10, ToText, TrimZeros;
    PowerText(21);
    TextOf21();
  }

  lemma WholeTicks(d: nat)
    ensures Ticks(d as real, 3600) == d * 3600
  {
  }

  /** What whole degrees are printed as in `%9.6m`. */
  lemma WholeDegrees(d: nat)
    ensures FormatNumber(d as real, 9, 6) == PadLeft(ToText(d), 3) + ":00:00"
    ensures FormatSexagesimal(d as real, 9, 6) == PadLeft(StringOf(d), 3) + ":00:00"
  {
    hide ToText, StringOf, FormatSexagesimal, Ticks, PadLeft, Pad2;
    WholeTicks(d);
    assert d * 3600 / 3600 == d && d * 3600 % 3600 == 0;
    BrowserIs(d as real, 9, 6);
    NoMinutes();
    assert "" + StringOf(d) == StringOf(d) && "" + ToText(d) == ToText(d);
    assert PadLeft(ToText(d), 3) + ":" + "00" + ":" + "00" == PadLeft(ToText(d), 3) + ":00:00";
    assert PadLeft(StringOf(d), 3) + ":" + "00" + ":" + "00" == PadLeft(StringOf(d), 3) + ":00:00";
  }

  lemma NoMinutes()
    ensures Pad2(0) == "00"
  {
  }

  lemma TextOf21()
    ensures ToText(21) == "21"
  {
    assert ToText(2) == "2";
  }

  // ------------------------------------------------------------------------ //
  // Reading what the printf conversions print                                 //
  // ------------------------------------------------------------------------ //

  lemma ExponentPartReads(e: int)
    ensures ExponentPart(ExponentText(e)) == Wire.Some(e)
  {
    var n: nat := if e < 0 then -e else e;
    ToTextVal(n);
    PadZerosVal(ToText(n), 2);
    assert ExponentText(e)[1..] == PadZeros(ToText(n), 2);
  }

  /** What stands behind the digits: nothing, or an exponent behind its marker. */
  function TailText(marker: char, exponent: Option<int>): string {
    if exponent.None? then "" else [marker] + ExponentText(exponent.value)
  }

  lemma UnsignedTail(whole: string, fraction: string, marker: char, exponent: Option<int>)
    requires IsDigits(whole) && whole != "" && IsDigits(fraction) && (marker == 'e' || marker == 'E')
    ensures Unsigned(Text(whole, fraction, TailText(marker, exponent)))
            == Value(Scaled(Val(whole + fraction), (if exponent.Some? then exponent.value else 0) - |fraction|))
  {
    hide ExponentText, Val, Scaled, Unsigned, Text, Head, IsDigits;
    if exponent.Some? {
      UnsignedExponent(whole, fraction, marker, exponent.value);
    } else {
      UnsignedReads(whole, fraction);
      TextWithoutTail(whole, fraction);
    }
  }

  lemma TextWithoutTail(whole: string, fraction: string)
    ensures Text(whole, fraction, "") == Head(whole, fraction)
  {
  }

  lemma UnsignedOf(s: string, at: nat, point: nat, digits: string, e: int)
    requires Find(s, 'e', 'E') == at < |s| && Find(s[..at], '.', '.') == point
    requires digits == s[..at][..point] + (if point < at then s[..at][point + 1..] else "")
    requires IsDigits(digits) && digits != "" && ExponentPart(s[at + 1..]) == Wire.Some(e)
    ensures Unsigned(s) == Value(Scaled(Val(digits), e - (|digits| - point)))
  {
    hide Find, Val, Scaled, ExponentPart, IsDigits;
  }

  lemma UnsignedExponent(whole: string, fraction: string, marker: char, e: int)
    requires IsDigits(whole) && whole != "" && IsDigits(fraction) && (marker == 'e' || marker == 'E')
    ensures Unsigned(Text(whole, fraction, [marker] + ExponentText(e)))
            == Value(Scaled(Val(whole + fraction), e - |fraction|))
  {
    hide ExponentText, Val, Scaled, ExponentPart, Find, Text, Head, Unsigned;
    var tail := [marker] + ExponentText(e);
    var s, head := Text(whole, fraction, tail), Head(whole, fraction);
    ExponentIsTail(marker, e);
    HeadParts(whole, fraction);
    TailParts(whole, fraction, tail);
    ExponentPartReads(e);
    HeadLength(whole, fraction);
    TextLength(whole, fraction, tail);
    BehindMarker(s, |head|, marker, ExponentText(e));
    HeadDigits(whole, fraction);
    UnsignedOf(s, |head|, |whole|, whole + fraction, e);
  }

  lemma HeadDigits(whole: string, fraction: string)
    ensures var head := Head(whole, fraction);
            && |whole| <= |head|
            && whole + fraction == head[..|whole|] + (if |whole| < |head| then head[|whole| + 1..] else "")
  {
    if fraction == "" {
      assert whole + "" == whole;
    } else {
      assert Head(whole, fraction)[|whole| + 1..] == fraction;
    }
  }

  lemma TextLength(whole: string, fraction: string, tail: string)
    ensures |Text(whole, fraction, tail)| == |Head(whole, fraction)| + |tail|
  {
  }

  lemma BehindMarker(s: string, at: nat, marker: char, rest: string)
    requires at < |s| && s[at..] == [marker] + rest
    ensures s[at + 1..] == rest
  {
    assert s[at..][1..] == s[at + 1..];
  }

  lemma HeadLength(whole: string, fraction: string)
    ensures |Head(whole, fraction)| == |whole| + if fraction == "" then 0 else 1 + |fraction|
  {
  }

  lemma ScaledPlaces(n: nat, k: nat, s: int)
    ensures Scaled(n * Pow10(k), s) == Scaled(n, s + k)
  {
    hide Pow10, Scaled;
    if s >= 0 {
      Pow10Plus(k, s);
      Grouped(n, Pow10(k), Pow10(s));
      ScaledUp(n * Pow10(k), s);
      ScaledUp(n, s + k);
    } else if s + k >= 0 {
      Pow10Plus(s + k, -s);
      CancelReal(n, Pow10(s + k), Pow10(-s));
      ScaledDown(n * Pow10(k), s);
      ScaledUp(n, s + k);
    } else {
      Pow10Plus(-s - k, k);
      ShareReal(n, Pow10(k), Pow10(-s - k));
      ScaledDown(n * Pow10(k), s);
      ScaledDown(n, s + k);
    }
  }

  lemma Grouped(x: nat, y: nat, z: nat)
    ensures x * y * z == x * (y * z)
  {
  }

  lemma ScaledUp(n: nat, e: int)
    requires e >= 0
    ensures Scaled(n, e) == (n * Pow10(e)) as real
  {
    hide Pow10;
  }

  lemma ScaledDown(n: nat, e: int)
    requires e < 0
    ensures Scaled(n, e) == n as real / Pow10(-e) as real
  {
    hide Pow10;
  }

  lemma CancelReal(n: nat, a: nat, b: nat)
    requires b > 0
    ensures (n * (a * b)) as real / b as real == (n * a) as real
  {
    assert n * (a * b) == (n * a) * b;
    assert ((n * a) * b) as real == (n * a) as real * b as real;
  }

  lemma ShareReal(n: nat, p: nat, b: nat)
    requires p > 0 && b > 0
    ensures (n * p) as real / (b * p) as real == n as real / b as real
  {
    var q := n as real / b as real;
    assert q * b as real == n as real;
    assert (b * p) as real == b as real * p as real > 0.0;
    assert (n * p) as real == n as real * p as real;
    assert q * (b as real * p as real) == q * b as real * p as real;
  }

  /** Equal numbers of powers of ten are the same real. */
  lemma SameScaled(n: nat, s: int, m: nat, t: int)
    requires SameNumber(n, s, m, t)
    ensures Scaled(n, s) == Scaled(m, t)
  {
    hide Scaled;
    if s >= t {
      ScaledPlaces(n, s - t, t);
    } else {
      ScaledPlaces(m, t - s, s);
    }
  }

  /** Text that is stripped of nothing. */
  lemma StripsNothing(s: string)
    requires s != "" && !IsSpace(s[0]) && !IsSpace(s[|s| - 1])
    ensures Strip(s) == s
  {
  }

  /** The reader of numbers reads any decimal text with a sign, a point and an exponent as
      the number it denotes. */
  lemma PrintedReads(negative: bool, whole: string, fraction: string, marker: char, exponent: Option<int>, n: nat, s: int)
    requires IsDigits(whole) && whole != "" && IsDigits(fraction) && (marker == 'e' || marker == 'E')
    requires Denotes(Text(whole, fraction, TailText(marker, exponent)), n, s)
    ensures Parsed(SignText(negative) + Text(whole, fraction, TailText(marker, exponent)))
            == Value(Signed(negative, Scaled(n, s)))
  {
    hide Unsigned, Float, Strip, Scaled, Val, Split, Magnitudes, Weighted, SameNumber, Read;
    var tail := TailText(marker, exponent);
    var text := Text(whole, fraction, tail);
    UnsignedTail(whole, fraction, marker, exponent);
    TailReads(marker, exponent);
    TextReads(whole, fraction, tail);
    SameScaled(Val(whole + fraction), Read(text).scale, n, s);
    EndsInDigit(whole, fraction, marker, exponent);
    assert text[0] == whole[0] && IsDigit(text[0]);
    StripsNothing(SignText(negative) + text);
    if negative {
      MinusRead(text);
    } else {
      assert "" + text == text;
      PlainRead(text);
    }
  }

  lemma TailReads(marker: char, exponent: Option<int>)
    requires marker == 'e' || marker == 'E'
    ensures IsTail(TailText(marker, exponent))
    ensures ReadExponent(TailText(marker, exponent)) == if exponent.Some? then exponent.value else 0
  {
    if exponent.Some? {
      ExponentReads(marker, exponent.value);
      ExponentIsTail(marker, exponent.value);
    }
  }

  lemma EndsInDigit(whole: string, fraction: string, marker: char, exponent: Option<int>)
    requires IsDigits(whole) && whole != "" && IsDigits(fraction)
    ensures var text := Text(whole, fraction, TailText(marker, exponent)); text != "" && IsDigit(text[|text| - 1])
  {
    if exponent.Some? {
      ExponentSpells(exponent.value);
      var t := ExponentText(exponent.value);
      assert t[1..][|t| - 2] == t[|t| - 1];
    }
  }
}
