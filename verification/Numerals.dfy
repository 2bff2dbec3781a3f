/** Decimal digit strings. */
module Numerals {
  predicate IsDigit(c: char) { '0' <= c <= '9' }

  predicate AllDigits(s: string) { forall i | 0 <= i < |s| :: IsDigit(s[i]) }

  function DigitChar(d: nat): (c: char)
    requires d < 10
    ensures IsDigit(c) && DigitOf(c) == d
  {
    '0' + d as char
  }

  function DigitOf(c: char): (d: nat)
    requires IsDigit(c)
    ensures d < 10
  {
    c as int - '0' as int
  }

  /** The value of a digit string (`BigInt`; the empty string is 0). */
  function Value(s: string): nat
    requires AllDigits(s)
  {
    if s == [] then 0 else 10 * Value(s[..|s| - 1]) + DigitOf(s[|s| - 1])
  }

  /** `toString` of a non-negative integer. */
  function Digits(n: nat): (s: string)
    ensures AllDigits(s) && |s| > 0
  {
    if n < 10 then [DigitChar(n)] else Digits(n / 10) + [DigitChar(n % 10)]
  }

  function Zeros(k: nat): (s: string)
    ensures |s| == k && AllDigits(s)
  {
    seq(k, _ => '0')
  }

  /** n in exactly k digits. */
  function Fixed(n: nat, k: nat): (s: string)
    ensures |s| == k && AllDigits(s)
  {
    if k == 0 then [] else Fixed(n / 10, k - 1) + [DigitChar(n % 10)]
  }

  function Pow10(k: nat): (p: nat)
    ensures p > 0
  {
    if k == 0 then 1 else 10 * Pow10(k - 1)
  }

  lemma {:induction false} ValueOfFixed(n: nat, k: nat)
    requires n < Pow10(k)
    ensures Value(Fixed(n, k)) == n
  {
    if k > 0 {
      ValueOfFixed(n / 10, k - 1);
      assert Fixed(n, k)[..k - 1] == Fixed(n / 10, k - 1);
    }
  }

  lemma {:induction false} FixedOfValue(s: string)
    requires AllDigits(s)
    ensures Value(s) < Pow10(|s|) && Fixed(Value(s), |s|) == s
  {
    if s != [] {
      var init := s[..|s| - 1];
      FixedOfValue(init);
      assert s == init + [s[|s| - 1]];
    }
  }

  /** Printing takes just enough digits: the fixed form at its own width, with no leading zero. */
  lemma {:induction false} DigitsAreFixed(n: nat)
    ensures Digits(n) == Fixed(n, |Digits(n)|) && n < Pow10(|Digits(n)|)
    ensures |Digits(n)| > 1 ==> n >= Pow10(|Digits(n)| - 1)
  {
    var k := |Digits(n)|;
    if n < 10 {
      assert Fixed(n, 1) == Fixed(n / 10, 0) + [DigitChar(n % 10)];
      assert Pow10(1) == 10 * Pow10(0);
    } else {
      DigitsAreFixed(n / 10);
      assert |Digits(n / 10)| == k - 1;
      if k == 2 { assert Pow10(1) == 10 * Pow10(0); }
    }
  }

  lemma {:induction false} Pow10Monotone(a: nat, b: nat)
    requires a <= b
    ensures Pow10(a) <= Pow10(b)
  {
    if a < b { Pow10Monotone(a, b - 1); }
  }

  lemma {:induction false} ValueOfDigits(n: nat)
    ensures Value(Digits(n)) == n
  {
    DigitsAreFixed(n);
    ValueOfFixed(n, |Digits(n)|);
  }

  lemma {:induction false} FixedOfSmall(n: nat, j: nat, k: nat)
    requires j <= k && n < Pow10(j)
    ensures Fixed(n, k) == Zeros(k - j) + Fixed(n, j)
    decreases k
  {
    if j == 0 {
      if k > 0 {
        FixedOfSmall(0, 0, k - 1);
        assert Zeros(k) == Zeros(k - 1) + ['0'];
      }
    } else {
      FixedOfSmall(n / 10, j - 1, k - 1);
    }
  }

  /** A digit string without a leading zero is what its value prints as. */
  predicate NoLeadingZero(s: string) { s != [] && AllDigits(s) && (|s| == 1 || s[0] != '0') }

  lemma {:induction false} LeadingDigit(s: string)
    requires AllDigits(s) && |s| > 0
    ensures s[0] != '0' <==> Value(s) >= Pow10(|s| - 1)
  {
    var init := s[..|s| - 1];
    if |s| > 1 {
      LeadingDigit(init);
      assert init[0] == s[0];
    } else {
      assert Value(init) == 0 && s[0] == DigitChar(DigitOf(s[0]));
    }
  }

  function Max(a: nat, b: nat): nat { if a < b then b else a }

  lemma {:induction false} SameWidth(n: nat, j: nat, k: nat)
    requires 1 <= j && n < Pow10(j) && (j > 1 ==> n >= Pow10(j - 1))
    requires 1 <= k && n < Pow10(k) && (k > 1 ==> n >= Pow10(k - 1))
    ensures j == k
  {
    Pow10Monotone(j, Max(j, k - 1));
    Pow10Monotone(k, Max(k, j - 1));
  }

  lemma {:induction false} DigitsOfValue(s: string)
    requires NoLeadingZero(s)
    ensures Digits(Value(s)) == s
  {
    var n := Value(s);
    var d := Digits(n);
    FixedOfValue(s);
    DigitsAreFixed(n);
    LeadingDigit(s);
    SameWidth(n, |d|, |s|);
  }

  lemma {:induction false} NoLeadingZeroInDigits(n: nat)
    ensures NoLeadingZero(Digits(n))
  {
    DigitsAreFixed(n);
    ValueOfDigits(n);
    LeadingDigit(Digits(n));
  }

  /** How many digits a string starts with. */
  function LeadingDigits(s: string): (k: nat)
    ensures k <= |s| && AllDigits(s[..k]) && (k < |s| ==> !IsDigit(s[k]))
  {
    if s == [] || !IsDigit(s[0]) then 0 else 1 + LeadingDigits(s[1..])
  }

  lemma {:induction false} LeadingDigitsStop(a: string, b: string)
    requires AllDigits(a) && b != [] && !IsDigit(b[0])
    ensures LeadingDigits(a + b) == |a|
  {
    if a == [] {
      assert a + b == b;
    } else {
      assert (a + b)[1..] == a[1..] + b;
      LeadingDigitsStop(a[1..], b);
    }
  }
}
