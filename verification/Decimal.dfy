/** Fixed six-digit decimals: printing a scaled integer and parsing it back. */
module Decimal {
  import opened Bytes
  import opened Numerals

  const DECIMALS := 6
  const SCALE := 1_000_000

  // ---- padding -------------------------------------------------------------

  /** `padStart(DECIMALS, "0")` and `padEnd(DECIMALS, "0")`. */
  function PadStart(s: string): string { Zeros(SaturatingSub(DECIMALS, |s|)) + s }

  function PadEnd(s: string): string { s + Zeros(SaturatingSub(DECIMALS, |s|)) }

  /** A fraction pads to exactly six digits. */
  lemma {:induction false} PadStartIsFixed(n: nat)
    requires n < SCALE
    ensures PadStart(Digits(n)) == Fixed(n, DECIMALS)
  {
    var k := |Digits(n)|;
    DigitsAreFixed(n);
    Pow10Six();
    if k > DECIMALS { Pow10Monotone(DECIMALS, k - 1); }
    FixedOfSmall(n, k, DECIMALS);
  }

  lemma {:induction false} Pow10Six()
    ensures Pow10(6) == SCALE
  {
    assert Pow10(3) == 1000;
    assert Pow10(6) == 10 * (10 * (10 * Pow10(3)));
  }

  // ---- printing and parsing ------------------------------------------------

  function Abs(x: int): nat { if x < 0 then -x else x }

  function Signed(neg: bool, body: string): string { if neg then "-" + body else body }

  /** Digits with a six-digit fraction. */
  function Body(n: nat): string { Digits(n / SCALE) + ("." + PadStart(Digits(n % SCALE))) }

  /** `rawToDecimal`. */
  function Print(x: int): string { Signed(x < 0, Body(Abs(x))) }

  /** The characters `trim` removes. */
  predicate IsSpace(c: char) {
    || '\U{9}' <= c <= '\U{D}' || c == ' ' || c == '\U{A0}' || c == '\U{1680}' || '\U{2000}' <= c <= '\U{200A}'
    || c == '\U{2028}' || c == '\U{2029}' || c == '\U{202F}' || c == '\U{205F}' || c == '\U{3000}' || c == '\U{FEFF}'
  }

  function Trim(s: string): string
    decreases |s|
  {
    if s == [] then s
    else if IsSpace(s[0]) then Trim(s[1..])
    else if IsSpace(s[|s| - 1]) then Trim(s[..|s| - 1])
    else s
  }

  /** The unsigned part of the accepted grammar: digits, then optionally a point and one to six digits. */
  function Parts(s: string): (r: Option<(string, string)>)
    ensures r.Some? ==> AllDigits(r.value.0) && AllDigits(r.value.1) && r.value.0 != [] && |r.value.1| <= DECIMALS
  {
    var k := LeadingDigits(s);
    if k == 0 then None
    else if k == |s| then Some((s[..k], []))
    else if s[k] == '.' && 1 <= |s[k + 1..]| <= DECIMALS && AllDigits(s[k + 1..]) then Some((s[..k], s[k + 1..]))
    else None
  }

  function Scaled(whole: string, frac: string): nat
    requires AllDigits(whole) && AllDigits(frac)
  {
    Value(whole) * SCALE + Value(PadEnd(frac))
  }

  function Apply(neg: bool, n: nat): int { if neg then 0 - n else n }

  function ParseSigned(neg: bool, body: string): Option<int> {
    match Parts(body)
    case Some((whole, frac)) => Some(Apply(neg, Scaled(whole, frac)))
    case None => None
  }

  /** `decimalToRaw`; `None` where the source throws. */
  function Parse(s: string): Option<int> {
    var t := Trim(s);
    if t != [] && t[0] == '-' then ParseSigned(true, t[1..]) else ParseSigned(false, t)
  }

  lemma {:induction false} PartsOf(whole: string, frac: string)
    requires AllDigits(whole) && whole != [] && AllDigits(frac) && |frac| == DECIMALS
    ensures Parts(whole + ("." + frac)) == Some((whole, frac)) && PadEnd(frac) == frac
  {
    var s := whole + ("." + frac);
    LeadingDigitsStop(whole, "." + frac);
    assert s[..|whole|] == whole && s[|whole|] == '.' && s[|whole| + 1..] == frac;
  }

  lemma {:induction false} ParseBody(n: nat, neg: bool)
    ensures ParseSigned(neg, Body(n)) == Some(Apply(neg, n))
  {
    PadStartIsFixed(n % SCALE);
    Pow10Six();
    ValueOfFixed(n % SCALE, DECIMALS);
    ValueOfDigits(n / SCALE);
    PartsOf(Digits(n / SCALE), Fixed(n % SCALE, DECIMALS));
  }

  lemma {:induction false} BodyEnds(n: nat)
    ensures |Body(n)| > 1 && IsDigit(Body(n)[0]) && IsDigit(Body(n)[|Body(n)| - 1])
  {
    PadStartIsFixed(n % SCALE);
  }

  lemma {:induction false} ParseOfSigned(neg: bool, body: string)
    requires |body| > 1 && IsDigit(body[0]) && IsDigit(body[|body| - 1])
    ensures Parse(Signed(neg, body)) == ParseSigned(neg, body)
  {
    assert ("-" + body)[1..] == body;
    assert Trim(Signed(neg, body)) == Signed(neg, body);
  }

  /** Parsing a printed integer returns it, for every integer. */
  lemma {:induction false} ParseAfterPrint(x: int)
    ensures Parse(Print(x)) == Some(x)
  {
    BodyEnds(Abs(x));
    ParseOfSigned(x < 0, Body(Abs(x)));
    ParseBody(Abs(x), x < 0);
  }

  // ---- the canonical form --------------------------------------------------

  /** An optional minus, an integer without leading zeros, a point and exactly six digits; no minus zero. */
  ghost predicate CanonicalParts(s: string, neg: bool, whole: string, frac: string) {
    && s == Signed(neg, whole + ("." + frac))
    && NoLeadingZero(whole) && AllDigits(frac) && |frac| == DECIMALS
    && (neg ==> Value(whole) * SCALE + Value(frac) != 0)
  }

  ghost predicate Canonical(s: string) {
    exists neg, whole, frac :: CanonicalParts(s, neg, whole, frac)
  }

  lemma {:induction false} PrintIsCanonical(x: int)
    ensures Canonical(Print(x))
  {
    var n := Abs(x);
    PadStartIsFixed(n % SCALE);
    Pow10Six();
    NoLeadingZeroInDigits(n / SCALE);
    ValueOfDigits(n / SCALE);
    ValueOfFixed(n % SCALE, DECIMALS);
    assert CanonicalParts(Print(x), x < 0, Digits(n / SCALE), Fixed(n % SCALE, DECIMALS));
  }

  lemma {:induction false} CanonicalIsPrinted(s: string) returns (x: int)
    requires Canonical(s)
    ensures s == Print(x)
  {
    var neg, whole, frac :| CanonicalParts(s, neg, whole, frac);
    var w, f := Value(whole), Value(frac);
    var n := w * SCALE + f;
    FixedOfValue(frac);
    Pow10Six();
    assert n / SCALE == w && n % SCALE == f;
    DigitsOfValue(whole);
    PadStartIsFixed(f);
    x := Apply(neg, n);
  }

  /** A string is a fixed point of parse-then-print exactly when it is canonical. */
  lemma {:induction false} FixedPoints(s: string)
    ensures Canonical(s) <==> Parse(s).Some? && Print(Parse(s).value) == s
  {
    if Canonical(s) {
      var x := CanonicalIsPrinted(s);
      ParseAfterPrint(x);
    }
    if Parse(s).Some? { PrintIsCanonical(Parse(s).value); }
  }

  /** For every accepted string, the printed form of its value is accepted with the same value and is a
      fixed point of parse-then-print. */
  lemma {:induction false} NormalForm(s: string)
    requires Parse(s).Some?
    ensures var t := Print(Parse(s).value); Parse(t) == Parse(s) && Print(Parse(t).value) == t && Canonical(t)
  {
    ParseAfterPrint(Parse(s).value);
    PrintIsCanonical(Parse(s).value);
  }
}
