/** Price text in the admin form: reading it as cents and writing cents back
    (frontend/src/lib/price-input.ts). */
module PriceInput {
  import opened Basics

  const MAX_SAFE_INTEGER := 9_007_199_254_740_991
  const WHOLE_DIGITS := 13
  /** The first amount whose whole part needs a fourteenth digit. */
  const LIMIT := 1_000_000_000_000_000

  predicate Digit(c: char) {
    '0' <= c <= '9'
  }

  predicate Digits(text: string) {
    forall i | 0 <= i < |text| :: Digit(text[i])
  }

  /** `BigInt(text)` of decimal digits. */
  function Value(text: string): nat
    requires Digits(text)
  {
    if text == "" then 0
    else 10 * Value(text[..|text| - 1]) + (text[|text| - 1] as int - '0' as int)
  }

  function Pow10(n: nat): nat {
    if n == 0 then 1 else 10 * Pow10(n - 1)
  }

  /** Where the whole part ends: the first dot, or the end of the text. */
  function Dot(text: string): (k: nat)
    ensures k <= |text| && (k < |text| ==> text[k] == '.')
    ensures forall i | 0 <= i < k :: text[i] != '.'
  {
    if text == "" || text[0] == '.' then 0 else 1 + Dot(text[1..])
  }

  function Whole(text: string): string {
    text[..Dot(text)]
  }

  function Fraction(text: string): string {
    if Dot(text) == |text| then "" else text[Dot(text) + 1..]
  }

  /** The accepted shape: 1 to 13 digits, then optionally a dot and one or two digits. */
  predicate PriceShape(text: string) {
    && 1 <= |Whole(text)| <= WHOLE_DIGITS && Digits(Whole(text))
    && (Dot(text) < |text| ==> 1 <= |Fraction(text)| <= 2)
    && Digits(Fraction(text))
  }

  function Zeros(n: nat): string {
    if n == 0 then "" else Zeros(n - 1) + "0"
  }

  function PadEnd(text: string): string {
    if |text| >= 2 then text else text + Zeros(2 - |text|)
  }

  function PadStart(text: string): string {
    if |text| >= 2 then text else Zeros(2 - |text|) + text
  }

  function ParsePriceCents(text: string): Option<int> {
    if !PriceShape(text) then None
    else
      var cents := Value(Whole(text)) * 100 + Value(PadEnd(Fraction(text)));
      if 0 < cents <= MAX_SAFE_INTEGER then Some(cents) else None
  }

  /** `String(n)` of a nonnegative integer. */
  function Print(n: nat): string {
    if n < 10 then [('0' as int + n) as char]
    else Print(n / 10) + [('0' as int + n % 10) as char]
  }

  function PriceInputValue(cents: nat): string {
    Print(cents / 100) + "." + PadStart(Print(cents % 100))
  }

  /** The accepted shape by position: 1 to 13 digits, or those, a dot and one or two digits. */
  lemma ShapeExactly(text: string)
    ensures PriceShape(text) <==>
      || (1 <= |text| <= 13 && forall i | 0 <= i < |text| :: '0' <= text[i] <= '9')
      || (exists k | 1 <= k <= 13 :: Dotted(text, k))
  {
    var k := Dot(text);
    if PriceShape(text) {
      forall i | 0 <= i < |text| && i != k ensures '0' <= text[i] <= '9' {
        if i < k {
          assert text[i] == Whole(text)[i];
        } else {
          assert text[i] == Fraction(text)[i - k - 1];
        }
      }
      assert k < |text| ==> Dotted(text, k);
    }
    forall m: nat | Dotted(text, m) ensures k == m {
    }
  }

  /** A dot at `k` with one or two digits after it, and digits everywhere else. */
  predicate Dotted(text: string, k: nat) {
    && (|text| == k + 2 || |text| == k + 3) && text[k] == '.'
    && forall i | 0 <= i < |text| && i != k :: '0' <= text[i] <= '9'
  }

  // --- Decimal numerals ---------------------------------------------------------

  lemma {:induction false} PrintValue(n: nat)
    ensures Digits(Print(n)) && Value(Print(n)) == n && |Print(n)| >= 1
    ensures Pow10(|Print(n)| - 1) <= n || n == 0
    ensures n < Pow10(|Print(n)|)
  {
    var text := Print(n);
    if n >= 10 {
      PrintValue(n / 10);
      assert text[..|text| - 1] == Print(n / 10);
    } else {
      assert text[..0] == "";
      assert Pow10(1) == 10;
    }
  }

  lemma {:induction false} Pow10Monotone(a: nat, b: nat)
    requires a <= b
    ensures Pow10(a) <= Pow10(b)
  {
    if a < b {
      Pow10Monotone(a, b - 1);
    }
  }

  lemma {:induction false} ValueBound(text: string)
    requires Digits(text)
    ensures Value(text) < Pow10(|text|)
  {
    if text != "" {
      ValueBound(text[..|text| - 1]);
    }
  }

  lemma TenTimes(a: nat, p: nat)
    ensures a * (10 * p) == 10 * (a * p)
  {
  }

  lemma {:induction false} ValueConcat(a: string, b: string)
    requires Digits(a) && Digits(b)
    ensures Digits(a + b) && Value(a + b) == Value(a) * Pow10(|b|) + Value(b)
  {
    if b == "" {
      assert a + b == a;
    } else {
      var n := |b| - 1;
      assert (a + b)[..|a + b| - 1] == a + b[..n];
      ValueConcat(a, b[..n]);
      TenTimes(Value(a), Pow10(n));
    }
  }

  lemma LimitIsPow10()
    ensures Pow10(WHOLE_DIGITS) * 100 == LIMIT
  {
    assert Pow10(4) == 10_000;
    assert Pow10(8) == 100_000_000;
    assert Pow10(12) == 1_000_000_000_000;
  }

  /** A number has at most 13 digits exactly when it is below 10 to the 13th. */
  lemma PrintWidth(n: nat)
    ensures |Print(n)| <= WHOLE_DIGITS <==> n < Pow10(WHOLE_DIGITS)
  {
    PrintValue(n);
    if |Print(n)| <= WHOLE_DIGITS {
      Pow10Monotone(|Print(n)|, WHOLE_DIGITS);
    } else {
      Pow10Monotone(WHOLE_DIGITS, |Print(n)| - 1);
    }
  }

  // --- Round trip -----------------------------------------------------------------

  lemma TwoDigits(n: nat)
    requires n < 100
    ensures var text := PadStart(Print(n));
      |text| == 2 && Digits(text) && Value(text) == n
  {
    PrintValue(n);
    var text := PadStart(Print(n));
    if n < 10 {
      assert Zeros(1) == Zeros(0) + "0" == "0";
      assert text == "0" + Print(n);
      ValueConcat("0", Print(n));
    } else {
      assert Print(n / 10) == [('0' as int + n / 10) as char];
    }
  }

  lemma {:induction false} DotAfter(whole: string, fraction: string)
    requires forall i | 0 <= i < |whole| :: whole[i] != '.'
    ensures Dot(whole + "." + fraction) == |whole|
  {
    var text := whole + "." + fraction;
    assert text[|whole|] == '.';
  }

  lemma PrintedParts(cents: nat)
    ensures var text := PriceInputValue(cents);
      && Whole(text) == Print(cents / 100)
      && Fraction(text) == PadStart(Print(cents % 100))
      && Dot(text) < |text|
  {
    PrintValue(cents / 100);
    DotAfter(Print(cents / 100), PadStart(Print(cents % 100)));
  }

  lemma PrintedShape(cents: nat)
    ensures PriceShape(PriceInputValue(cents)) <==> cents / 100 < Pow10(WHOLE_DIGITS)
  {
    PrintedParts(cents);
    PrintValue(cents / 100);
    PrintWidth(cents / 100);
    TwoDigits(cents % 100);
  }

  lemma PrintedCents(cents: nat)
    ensures var text := PriceInputValue(cents);
      && Digits(Whole(text)) && Digits(PadEnd(Fraction(text)))
      && Value(Whole(text)) * 100 + Value(PadEnd(Fraction(text))) == cents
  {
    var fraction := PadStart(Print(cents % 100));
    PrintedParts(cents);
    PrintValue(cents / 100);
    TwoDigits(cents % 100);
    assert PadEnd(fraction) == fraction;
  }

  /** A printed amount reads back as itself exactly from 1 cent up to the 13-digit limit; any other
      amount prints to a text that is refused. */
  lemma PrintThenParse(cents: nat)
    ensures ParsePriceCents(PriceInputValue(cents)) == if 1 <= cents < LIMIT then Some(cents) else None
  {
    PrintedShape(cents);
    PrintedCents(cents);
    WholeWithin(cents);
    ParseKnown(PriceInputValue(cents), cents);
  }

  /** What parsing gives for a text whose digits are known to denote `cents`. */
  lemma ParseKnown(text: string, cents: nat)
    requires Digits(Whole(text)) && Digits(PadEnd(Fraction(text)))
    requires Value(Whole(text)) * 100 + Value(PadEnd(Fraction(text))) == cents
    requires PriceShape(text) <==> cents < LIMIT
    ensures ParsePriceCents(text) == if 1 <= cents < LIMIT then Some(cents) else None
  {
  }

  lemma WholeWithin(cents: nat)
    ensures cents / 100 < Pow10(WHOLE_DIGITS) <==> cents < LIMIT
  {
    LimitIsPow10();
  }

  /** Every accepted text denotes its amount exactly, whether written with no, one or two decimals;
      the amount lies within the limit and prints to a text that reads back as the same amount. */
  lemma ParsedIsExact(text: string)
    requires ParsePriceCents(text).Some?
    ensures var cents := ParsePriceCents(text).value;
      && 1 <= cents < LIMIT
      && Digits(Whole(text) + Fraction(text))
      && cents * Pow10(|Fraction(text)|) == 100 * Value(Whole(text) + Fraction(text))
      && ParsePriceCents(PriceInputValue(cents)) == Some(cents)
  {
    Denotes(text);
    ParsedValue(text);
    PrintThenParse(ParsePriceCents(text).value);
  }

  lemma ParsedValue(text: string)
    requires ParsePriceCents(text).Some?
    ensures PriceShape(text) && Digits(PadEnd(Fraction(text)))
    ensures ParsePriceCents(text).value == Value(Whole(text)) * 100 + Value(PadEnd(Fraction(text)))
    ensures ParsePriceCents(text).value > 0
  {
    PadValue(Fraction(text));
  }

  lemma Denotes(text: string)
    requires PriceShape(text)
    ensures var cents := Value(Whole(text)) * 100 + Value(PadEnd(Fraction(text)));
      && cents < LIMIT
      && Digits(Whole(text) + Fraction(text))
      && cents * Pow10(|Fraction(text)|) == 100 * Value(Whole(text) + Fraction(text))
  {
    var whole, fraction := Whole(text), Fraction(text);
    ValueConcat(whole, fraction);
    WholeBound(whole);
    PaddedFraction(fraction);
    Scaled(Value(whole), Value(PadEnd(fraction)), Value(fraction), Pow10(|fraction|));
  }

  lemma WholeBound(whole: string)
    requires Digits(whole) && |whole| <= WHOLE_DIGITS
    ensures Value(whole) * 100 + 99 < LIMIT
  {
    ValueBound(whole);
    Pow10Monotone(|whole|, WHOLE_DIGITS);
    LimitIsPow10();
  }

  lemma Scaled(whole: nat, padded: nat, fraction: nat, scale: nat)
    requires padded * scale == 100 * fraction
    ensures (whole * 100 + padded) * scale == 100 * (whole * scale + fraction)
  {
    assert (whole * 100 + padded) * scale == (whole * 100) * scale + padded * scale;
    assert (whole * 100) * scale == 100 * (whole * scale);
  }

  lemma PaddedFraction(fraction: string)
    requires Digits(fraction) && |fraction| <= 2
    ensures Digits(PadEnd(fraction)) && Value(PadEnd(fraction)) < 100
    ensures Value(PadEnd(fraction)) * Pow10(|fraction|) == 100 * Value(fraction)
  {
    PadValue(fraction);
    PadScale(Value(fraction), |fraction|);
    ValueBound(fraction);
  }

  lemma PadValue(fraction: string)
    requires Digits(fraction) && |fraction| <= 2
    ensures Digits(PadEnd(fraction)) && Value(PadEnd(fraction)) == Value(fraction) * Pow10(2 - |fraction|)
  {
    var zeros := Zeros(2 - |fraction|);
    ZerosValue(2 - |fraction|);
    ValueConcat(fraction, zeros);
    assert fraction + zeros == PadEnd(fraction);
  }

  lemma PadScale(value: nat, digits: nat)
    requires digits <= 2
    ensures (value * Pow10(2 - digits)) * Pow10(digits) == 100 * value
    ensures value < Pow10(digits) ==> value * Pow10(2 - digits) < 100
  {
    assert Pow10(0) == 1 && Pow10(1) == 10 && Pow10(2) == 100;
    if digits == 0 {
    } else if digits == 1 {
    }
  }

  lemma {:induction false} ZerosValue(n: nat)
    ensures Digits(Zeros(n)) && Value(Zeros(n)) == 0 && |Zeros(n)| == n
  {
    if n > 0 {
      ZerosValue(n - 1);
      assert Zeros(n)[..n - 1] == Zeros(n - 1);
    }
  }

  /** A text is refused exactly when it has the wrong shape or denotes nothing but zero: the
      safe-integer bound is never what refuses it. */
  lemma RefusedExactly(text: string)
    ensures ParsePriceCents(text).None? <==>
      !PriceShape(text) || Value(Whole(text) + Fraction(text)) == 0
  {
    if PriceShape(text) {
      var whole, fraction := Whole(text), Fraction(text);
      ValueConcat(whole, fraction);
      WholeBound(whole);
      PaddedFraction(fraction);
      Scaled(Value(whole), Value(PadEnd(fraction)), Value(fraction), Pow10(|fraction|));
      assert |fraction| == 0 || |fraction| == 1 || |fraction| == 2;
      assert Pow10(0) == 1 && Pow10(1) == 10 && Pow10(2) == 100;
    }
  }

  function Distance(x: real, y: real): real {
    if x <= y then y - x else x - y
  }

  /** A double nearest to `cents / 100`. Below 2^47 every multiple of 1/64 is a double, so none of them is
      nearer. */
  ghost predicate NearestQuotient(cents: nat, q: real) {
    var x := cents as real / 100.0;
    forall m: nat | m <= MAX_SAFE_INTEGER :: Distance(q, x) <= Distance(Sixtyfourths(m), x)
  }

  function Sixtyfourths(m: nat): real {
    m as real / 64.0
  }

  /** Rounding never reaches the next integer: it is further away than 63/64, or than the whole part itself. */
  lemma FloatFloorExact(cents: nat, q: real)
    requires cents <= MAX_SAFE_INTEGER && NearestQuotient(cents, q)
    ensures q.Floor == cents / 100
  {
    var whole, x := cents / 100, cents as real / 100.0;
    assert cents == 100 * whole + cents % 100;
    assert x == whole as real + (cents % 100) as real / 100.0;
    assert Sixtyfourths(64 * whole) == whole as real;
    assert Sixtyfourths(64 * whole + 63) == whole as real + 63.0 / 64.0;
    assert Distance(q, x) <= Distance(whole as real, x);
    assert Distance(q, x) <= Distance(whole as real + 63.0 / 64.0, x);
  }
}
