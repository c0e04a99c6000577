/** Decimal digit strings and the numbers they denote. */
module Digits {

  function Pow10(n: nat): (p: nat)
    ensures p >= 1
  {
    if n == 0 then 1 else 10 * Pow10(n - 1)
  }

  predicate IsDigit(c: char) {
    '0' <= c <= '9'
  }

  predicate IsDigits(s: string) {
    forall i :: 0 <= i < |s| ==> IsDigit(s[i])
  }

  function DigitOf(c: char): nat
    requires IsDigit(c)
  {
    c as int - '0' as int
  }

  function CharOf(d: nat): (c: char)
    requires d <= 9
    ensures IsDigit(c) && DigitOf(c) == d
  {
    ('0' as int + d) as char
  }

  /** The number a digit string denotes. */
  function Val(s: string): nat
    requires IsDigits(s)
  {
    if s == [] then 0 else 10 * Val(s[..|s| - 1]) + DigitOf(s[|s| - 1])
  }

  /** Decimal digits without leading zeros; "0" for zero. */
  function ToText(n: nat): (s: string)
    ensures IsDigits(s) && |s| >= 1
  {
    if n < 10 then [CharOf(n)] else ToText(n / 10) + [CharOf(n % 10)]
  }

  function Zeros(n: nat): (s: string)
    ensures |s| == n && IsDigits(s)
  {
    seq(n, i => '0')
  }

  /** `String.padStart` with zeros. */
  function PadZeros(s: string, width: nat): string {
    if |s| >= width then s else Zeros(width - |s|) + s
  }

  lemma TenTimes(x: int, y: int)
    ensures 10 * (x * y) == x * (10 * y)
  {
  }

  lemma {:induction false} Pow10Plus(a: nat, b: nat)
    ensures Pow10(a + b) == Pow10(a) * Pow10(b)
  {
    if a > 0 {
      Pow10Plus(a - 1, b);
    }
  }

  lemma {:induction false} Pow10Monotone(a: nat, b: nat)
    requires a <= b
    ensures Pow10(a) <= Pow10(b)
    decreases b
  {
    if a < b {
      Pow10Monotone(a, b - 1);
    }
  }

  lemma {:induction false} ValConcat(a: string, b: string)
    requires IsDigits(a) && IsDigits(b)
    ensures IsDigits(a + b) && Val(a + b) == Val(a) * Pow10(|b|) + Val(b)
  {
    if b == [] {
      assert a + b == a;
    } else {
      var init := b[..|b| - 1];
      ValConcat(a, init);
      assert (a + b)[..|a + b| - 1] == a + init;
      TenTimes(Val(a), Pow10(|init|));
      assert Pow10(|b|) == 10 * Pow10(|init|);
    }
  }

  lemma {:induction false} ValBound(s: string)
    requires IsDigits(s)
    ensures Val(s) < Pow10(|s|)
  {
    if s != [] {
      ValBound(s[..|s| - 1]);
    }
  }

  lemma {:induction false} ValZeros(n: nat)
    ensures Val(Zeros(n)) == 0
  {
    if n > 0 {
      ValZeros(n - 1);
      assert Zeros(n)[..n - 1] == Zeros(n - 1);
    }
  }

  lemma {:induction false} ToTextVal(n: nat)
    ensures Val(ToText(n)) == n
  {
    if n >= 10 {
      ToTextVal(n / 10);
      assert ToText(n)[..|ToText(n)| - 1] == ToText(n / 10);
    } else {
      assert [CharOf(n)][..0] == [];
    }
  }

  /** The text of a positive number leads with a digit that is not zero. */
  lemma {:induction false} ToTextLead(n: nat)
    requires n > 0
    ensures ToText(n)[0] != '0'
    ensures Pow10(|ToText(n)| - 1) <= n < Pow10(|ToText(n)|)
  {
    if n >= 10 {
      ToTextLead(n / 10);
    } else {
      assert Pow10(1) == 10;
    }
  }

  lemma PadZerosVal(s: string, width: nat)
    requires IsDigits(s)
    ensures IsDigits(PadZeros(s, width)) && Val(PadZeros(s, width)) == Val(s)
  {
    if |s| < width {
      ValConcat(Zeros(width - |s|), s);
      ValZeros(width - |s|);
    }
  }

  /** `search(/[1-9]/)`: where the first digit other than zero is, or the length. */
  function LeadingZeros(s: string): (n: nat)
    requires IsDigits(s)
    ensures n <= |s| && forall i :: 0 <= i < n ==> s[i] == '0'
    ensures n < |s| ==> s[n] != '0'
  {
    if s == [] || s[0] != '0' then 0 else 1 + LeadingZeros(s[1..])
  }

  lemma {:induction false} AllZeros(s: string)
    requires IsDigits(s) && forall i :: 0 <= i < |s| ==> s[i] == '0'
    ensures Val(s) == 0
  {
    if s != [] {
      AllZeros(s[..|s| - 1]);
    }
  }

  /** A string that leads with a nonzero digit uses its whole length. */
  lemma {:induction false} ValLead(s: string)
    requires IsDigits(s) && s != [] && s[0] != '0'
    ensures Pow10(|s| - 1) <= Val(s) < Pow10(|s|)
  {
    ValBound(s);
    if |s| > 1 {
      ValLead(s[..|s| - 1]);
    }
  }

  lemma ZeroPrefix(zeros: string, s: string)
    requires IsDigits(zeros) && IsDigits(s) && Val(zeros) == 0
    ensures IsDigits(zeros + s) && Val(zeros + s) == Val(s)
  {
    ValConcat(zeros, s);
    var p := Pow10(|s|);
    assert 0 * p == 0;
  }

  /** Dropping leading zeros keeps the number. */
  lemma DropLeadingZeros(s: string)
    requires IsDigits(s)
    ensures Val(s[LeadingZeros(s)..]) == Val(s)
  {
    var n := LeadingZeros(s);
    AllZeros(s[..n]);
    ZeroPrefix(s[..n], s[n..]);
    assert s == s[..n] + s[n..];
  }

  /** The digits after the leading zeros fix a number's size. */
  lemma LeadingZerosVal(s: string)
    requires IsDigits(s)
    ensures LeadingZeros(s) == |s| <==> Val(s) == 0
    ensures LeadingZeros(s) < |s| ==>
              Pow10(|s| - LeadingZeros(s) - 1) <= Val(s) < Pow10(|s| - LeadingZeros(s))
  {
    var tail := s[LeadingZeros(s)..];
    DropLeadingZeros(s);
    if tail != [] {
      ValLead(tail);
    }
  }

  /** Between which powers of ten a number lies says how many digits it has. */
  lemma SizeUnique(n: nat, a: nat, b: nat)
    requires Pow10(a) <= n < Pow10(a + 1) && Pow10(b) <= n < Pow10(b + 1)
    ensures a == b
  {
    if a < b {
      Pow10Monotone(a + 1, b);
    } else if b < a {
      Pow10Monotone(b + 1, a);
    }
  }

  /** n times ten to the s and m times ten to the t are the same number. */
  predicate SameNumber(n: nat, s: int, m: nat, t: int) {
    if s >= t then n * Pow10(s - t) == m else n == m * Pow10(t - s)
  }

  /** No leading zero but a lone one. */
  predicate Unpadded(s: string) {
    |s| == 1 || (s != "" && s[0] != '0')
  }

  /** A number has one plain text. */
  lemma {:induction false} UnpaddedText(s: string)
    requires IsDigits(s) && Unpadded(s)
    ensures s == ToText(Val(s))
  {
    var init, last := s[..|s| - 1], s[|s| - 1];
    assert CharOf(DigitOf(last)) == last;
    if |s| == 1 {
      assert s == [last];
    } else {
      UnpaddedText(init);
      ValLead(init);
      assert s == init + [last];
    }
  }

  lemma ProductGap(a: nat, c: nat, p: nat)
    requires a < c
    ensures a * p + p <= c * p
  {
    assert c * p == a * p + (c - a) * p;
    assert (c - a) * p == p + (c - a - 1) * p;
  }

  lemma DivisionUnique(a: nat, b: nat, c: nat, r: nat, p: nat)
    requires b < p && r < p && a * p + b == c * p + r
    ensures a == c && b == r
  {
    if a < c {
      ProductGap(a, c, p);
    } else if c < a {
      ProductGap(c, a, p);
    }
  }

  lemma QuotientAndRest(a: nat, b: nat, p: nat, n: nat)
    requires b < p && a * p + b == n
    ensures n / p == a && n % p == b
  {
    var c, r := n / p, n % p;
    assert n == c * p + r;
    DivisionUnique(a, b, c, r, p);
  }

  function DivMod(n: nat, p: nat): (nat, nat)
    requires p > 0
  {
    (n / p, n % p)
  }

  /** Decimal notation of a number over ten to the length of `part`: ahead of the point its
      plain text, behind it exactly that many digits. */
  predicate Spells(whole: string, part: string, n: nat) {
    var (most, rest) := DivMod(n, Pow10(|part|));
    IsDigits(part) && whole == ToText(most) && Val(part) == rest
  }

  lemma CutSpells(whole: string, part: string, n: nat)
    requires IsDigits(whole) && IsDigits(part) && Unpadded(whole) && Val(whole + part) == n
    ensures Spells(whole, part, n)
  {
    hide Val, ToText, Pow10;
    UnpaddedText(whole);
    ValConcat(whole, part);
    ValBound(part);
    QuotientAndRest(Val(whole), Val(part), Pow10(|part|), n);
  }
}
