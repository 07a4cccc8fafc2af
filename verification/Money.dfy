/** Exact money texts: the display helpers of packages/contracts/src/billing-checkout.ts
    and the formatter of apps/web/components/billing-payment-records.tsx. */
module Money {
  import opened Results
  import opened Text

  // ------------------------------------------------------------------ the printers

  /** `BigInt.prototype.toString` */
  function IntText(n: int): string {
    Signed(n, Numeral(Magnitude(n), 10))
  }

  function PadStart(s: string, width: nat, c: char): string
    decreases width - |s|
  {
    if |s| >= width then s else PadStart([c] + s, width, c)
  }

  function Whole(magnitude: nat, scale: nat): string {
    PowPositive(scale);
    Numeral(magnitude / Pow(10, scale), 10)
  }

  function Fraction(magnitude: nat, scale: nat): string {
    PowPositive(scale);
    PadStart(Numeral(magnitude % Pow(10, scale), 10), scale, '0')
  }

  function Magnitude(value: int): nat {
    if value < 0 then -value else value
  }

  function Signed(value: int, text: string): string {
    if value < 0 then "-" + text else text
  }

  function ScaledIntegerString(value: int, scale: int): string {
    if scale <= 0 then IntText(value)
    else Signed(value, Whole(Magnitude(value), scale) + "." + Fraction(Magnitude(value), scale))
  }

  /** `s.replace(/0+$/, '')` */
  function StripZeros(s: string): string {
    if s != "" && s[|s| - 1] == '0' then StripZeros(s[..|s| - 1]) else s
  }

  function TrimFractionZeros(s: string): string {
    if '.' !in s then s
    else
      var trimmed := StripZeros(s);
      if trimmed != "" && trimmed[|trimmed| - 1] == '.' then trimmed[..|trimmed| - 1] else trimmed
  }

  // ------------------------------------------------------- what a decimal text denotes

  /** `coefficient / 10 ** scale`, written with `scale` fractional digits. */
  datatype Decimal = Decimal(coefficient: int, scale: nat)

  function ParseUnsigned(s: string): Option<Decimal> {
    var f := Split(s, '.');
    if |f| == 1 && f[0] != "" && IsNumeral(f[0], 10) then Some(Decimal(Value(f[0], 10), 0))
    else if |f| == 2 && f[0] != "" && f[1] != "" && IsNumeral(f[0] + f[1], 10)
    then Some(Decimal(Value(f[0] + f[1], 10), |f[1]|))
    else None
  }

  function ParseDecimal(s: string): Option<Decimal> {
    if s != "" && s[0] == '-' then Negated(ParseUnsigned(s[1..])) else ParseUnsigned(s)
  }

  function Negated(d: Option<Decimal>): Option<Decimal> {
    if d.None? then None else Some(Decimal(-d.value.coefficient, d.value.scale))
  }

  lemma ParseSigned(value: int, text: string, k: nat)
    requires text != "" && text[0] != '-' && ParseUnsigned(text) == Some(Decimal(Magnitude(value), k))
    ensures ParseDecimal(Signed(value, text)) == Some(Decimal(value, k))
  {
    assert ("-" + text)[1..] == text;
  }

  /** `n * 10 ** k` */
  function ScaleUp(n: int, k: nat): int {
    if k == 0 then n else 10 * ScaleUp(n, k - 1)
  }

  /** Two decimals are the same rational number. */
  predicate SameNumber(a: Decimal, b: Decimal) {
    ScaleUp(a.coefficient, b.scale) == ScaleUp(b.coefficient, a.scale)
  }

  // -------------------------------------------------------------- digit by digit

  lemma {:induction false} PowPositive(k: nat)
    ensures Pow(10, k) >= 1
  {
    if k > 0 {
      PowPositive(k - 1);
    }
  }

  lemma DivideByTen(m: nat, p: nat)
    requires p >= 1
    ensures m / (10 * p) == m / 10 / p
    ensures m % (10 * p) == 10 * (m / 10 % p) + m % 10
  {
    var q, r := m / 10 / p, m / 10 % p;
    assert m / 10 == q * p + r;
    assert 10 * (q * p) == q * (10 * p);
    QuotientUnique(m, q, 10 * r + m % 10, 10 * p);
  }

  lemma {:induction false} PadStartAppend(s: string, width: nat, d: char)
    requires 1 <= width
    ensures PadStart(s + [d], width, '0') == PadStart(s, width - 1, '0') + [d]
    decreases width - |s|
  {
    if |s| < width - 1 {
      assert ['0'] + (s + [d]) == (['0'] + s) + [d];
      PadStartAppend(['0'] + s, width, d);
    }
  }

  lemma PadOneZero(width: nat, d: char)
    requires 2 <= width
    ensures PadStart([d], width, '0') == PadStart("0", width - 1, '0') + [d]
  {
    assert ['0'] + [d] == "0" + [d];
    PadStartAppend("0", width, d);
  }

  /** The fraction one digit shorter, and the last digit. */
  lemma FractionStep(r: nat, d: nat, k: nat)
    requires d < 10 && 2 <= k
    ensures PadStart(Numeral(10 * r + d, 10), k, '0') == PadStart(Numeral(r, 10), k - 1, '0') + [DigitChar(d)]
  {
    if r == 0 {
      PadOneZero(k, DigitChar(d));
    } else {
      NumeralStep(r, d);
      PadStartAppend(Numeral(r, 10), k, DigitChar(d));
    }
  }

  lemma PartsStep(m: nat, k: nat)
    requires 2 <= k
    ensures Whole(m, k) == Whole(m / 10, k - 1)
    ensures Fraction(m, k) == Fraction(m / 10, k - 1) + [DigitChar(m % 10)]
  {
    PowPositive(k - 1);
    var p := Pow(10, k - 1);
    assert Pow(10, k) == 10 * p;
    DivideByTen(m, p);
    FractionStep(m / 10 % p, m % 10, k);
  }

  lemma PartsOfOne(m: nat)
    ensures Whole(m, 1) == Numeral(m / 10, 10) && Fraction(m, 1) == [DigitChar(m % 10)]
  {
    assert Pow(10, 1) == 10;
  }

  /** The printed digits are those of the scaled integer, `k` of them after the point. */
  lemma {:induction false} PartsDenote(m: nat, k: nat)
    requires 1 <= k
    ensures |Fraction(m, k)| == k
    ensures IsNumeral(Whole(m, k) + Fraction(m, k), 10) && Value(Whole(m, k) + Fraction(m, k), 10) == m
  {
    var d := [DigitChar(m % 10)];
    if k == 1 {
      PartsOfOne(m);
      AppendDigit(Numeral(m / 10, 10), m % 10);
      NumeralValue(m / 10, 10);
    } else {
      PartsStep(m, k);
      PartsDenote(m / 10, k - 1);
      var digits := Whole(m / 10, k - 1) + Fraction(m / 10, k - 1);
      assert Whole(m, k) + Fraction(m, k) == digits + d;
      AppendDigit(digits, m % 10);
    }
  }

  lemma AppendDigit(s: string, d: nat)
    requires IsNumeral(s, 10) && d < 10
    ensures IsNumeral(s + [DigitChar(d)], 10)
    ensures Value(s + [DigitChar(d)], 10) == 10 * Value(s, 10) + d
  {
    assert (s + [DigitChar(d)])[..|s|] == s;
  }

  lemma NumeralHasNo(s: string, c: char)
    requires IsNumeral(s, 10) && !IsDigit(c)
    ensures Free(s, c)
  {
    FreeByIndex(s, c);
  }

  lemma PartsHaveNo(m: nat, k: nat, c: char)
    requires 1 <= k && !IsDigit(c)
    ensures Free(Whole(m, k), c) && Free(Fraction(m, k), c)
  {
    var w, f := Whole(m, k), Fraction(m, k);
    PartsDenote(m, k);
    assert forall i | 0 <= i < |f| :: f[i] == (w + f)[|w| + i];
    NumeralHasNo(w, c);
    NumeralHasNo(f, c);
  }

  lemma UnsignedDenotes(m: nat, k: nat)
    requires 1 <= k
    ensures ParseUnsigned(Whole(m, k) + "." + Fraction(m, k)) == Some(Decimal(m, k))
    ensures (Whole(m, k) + "." + Fraction(m, k))[0] != '-'
  {
    var w, f := Whole(m, k), Fraction(m, k);
    PartsDenote(m, k);
    PartsHaveNo(m, k, '.');
    PartsHaveNo(m, k, '-');
    FreeByIndex(w, '-');
    SplitAppend(w, '.', f);
    SplitFree(w, '.');
    SplitFree(f, '.');
    assert Split(w + "." + f, '.') == [w] + [f];
  }

  lemma NumeralDenotes(m: nat)
    ensures var t := Numeral(m, 10);
      ParseUnsigned(t) == Some(Decimal(m, 0)) && t[0] != '-' && Free(t, '.') && Free(t, '-')
  {
    var t := Numeral(m, 10);
    NumeralHasNo(t, '.');
    NumeralHasNo(t, '-');
    FreeByIndex(t, '-');
    SplitFree(t, '.');
    NumeralValue(m, 10);
  }

  lemma IntTextDenotes(n: int)
    ensures ParseDecimal(IntText(n)) == Some(Decimal(n, 0)) && Free(IntText(n), '.')
  {
    NumeralDenotes(Magnitude(n));
    ParseSigned(n, Numeral(Magnitude(n), 10), 0);
  }

  /** `scaledIntegerString` denotes exactly `value / 10^scale`, with `scale` fractional digits. */
  lemma ScaledDenotes(value: int, scale: nat)
    ensures ParseDecimal(ScaledIntegerString(value, scale)) == Some(Decimal(value, scale))
  {
    if scale == 0 {
      IntTextDenotes(value);
    } else {
      var m := Magnitude(value);
      UnsignedDenotes(m, scale);
      ParseSigned(value, Whole(m, scale) + "." + Fraction(m, scale), scale);
    }
  }

  // ------------------------------------------------------------------ trimming zeros

  /** The same number with the fewest fractional digits. */
  function Reduced(value: int, scale: nat): Decimal
    decreases scale
  {
    if scale == 0 || value % 10 != 0 then Decimal(value, scale) else Reduced(value / 10, scale - 1)
  }

  lemma TenthOf(value: int)
    requires value % 10 == 0
    ensures Magnitude(value) / 10 == Magnitude(value / 10) && Magnitude(value) % 10 == 0
    ensures value < 0 <==> value / 10 < 0
  {
  }

  lemma ScaledStep(value: int, scale: nat)
    requires 1 <= scale && value % 10 == 0
    ensures ScaledIntegerString(value, scale) ==
            ScaledIntegerString(value / 10, scale - 1) + if scale == 1 then ".0" else "0"
  {
    TenthOf(value);
    assert DigitChar(0) == '0';
    if scale == 1 {
      PartsOfOne(Magnitude(value));
    } else {
      PartsStep(Magnitude(value), scale);
    }
  }

  lemma DotIsIn(value: int, scale: nat)
    requires 1 <= scale
    ensures '.' in ScaledIntegerString(value, scale)
  {
    var m := Magnitude(value);
    var t := Whole(m, scale) + "." + Fraction(m, scale);
    assert t[|Whole(m, scale)|] == '.';
    assert ("-" + t)[|Whole(m, scale)| + 1] == '.';
  }

  lemma LastDigit(value: int, scale: nat)
    requires 1 <= scale
    ensures var s := ScaledIntegerString(value, scale);
      s != "" && s[|s| - 1] == DigitChar(Magnitude(value) % 10)
  {
    if scale == 1 {
      PartsOfOne(Magnitude(value));
    } else {
      PartsStep(Magnitude(value), scale);
    }
  }

  lemma NothingToTrim(value: int, scale: nat)
    requires 1 <= scale && value % 10 != 0
    ensures TrimFractionZeros(ScaledIntegerString(value, scale)) == ScaledIntegerString(value, scale)
  {
    DotIsIn(value, scale);
    LastDigit(value, scale);
    assert Magnitude(value) % 10 != 0;
    assert forall d | 0 < d < 10 :: DigitChar(d) != '0' && DigitChar(d) != '.';
  }

  lemma TrimIgnoresLastZero(s: string, t: string)
    requires s == t + "0" && '.' in t
    ensures TrimFractionZeros(s) == TrimFractionZeros(t)
  {
    assert s[..|t|] == t;
    assert StripZeros(s) == StripZeros(t);
  }

  lemma TrimOneZero(value: int, scale: nat)
    requires 2 <= scale && value % 10 == 0
    ensures TrimFractionZeros(ScaledIntegerString(value, scale)) ==
            TrimFractionZeros(ScaledIntegerString(value / 10, scale - 1))
  {
    ScaledStep(value, scale);
    DotIsIn(value / 10, scale - 1);
    TrimIgnoresLastZero(ScaledIntegerString(value, scale), ScaledIntegerString(value / 10, scale - 1));
  }

  lemma TrimWholeFraction(value: int)
    requires value % 10 == 0
    ensures TrimFractionZeros(ScaledIntegerString(value, 1)) == ScaledIntegerString(value / 10, 0)
  {
    var t := IntText(value / 10);
    ScaledStep(value, 1);
    DotIsIn(value, 1);
    assert (t + ".0")[..|t| + 1] == t + ".";
    assert StripZeros(t + ".0") == StripZeros(t + ".");
    assert StripZeros(t + ".") == t + ".";
    assert (t + ".")[..|t|] == t;
  }

  function DecimalText(d: Decimal): string {
    ScaledIntegerString(d.coefficient, d.scale)
  }

  lemma NoFraction(value: int)
    ensures TrimFractionZeros(ScaledIntegerString(value, 0)) == ScaledIntegerString(value, 0)
  {
    IntTextDenotes(value);
  }

  lemma TrimStep(value: int, scale: nat)
    ensures TrimmedText(value, scale) ==
            if scale == 0 || value % 10 != 0 then ScaledIntegerString(value, scale)
            else TrimmedText(value / 10, scale - 1)
  {
    if scale == 0 {
      NoFraction(value);
    } else if value % 10 != 0 {
      NothingToTrim(value, scale);
    } else if scale == 1 {
      TrimWholeFraction(value);
      NoFraction(value / 10);
    } else {
      TrimOneZero(value, scale);
    }
  }

  function TrimmedText(value: int, scale: int): string {
    TrimFractionZeros(ScaledIntegerString(value, scale))
  }

  /** Cutting one trailing zero changes neither text. */
  lemma CutZero(value: int, scale: nat, text: string)
    requires 1 <= scale && value % 10 == 0
    ensures TrimmedText(value, scale) == text <==> TrimmedText(value / 10, scale - 1) == text
  {
    TrimStep(value, scale);
  }

  lemma NoZeroToCut(value: int, scale: nat)
    requires scale == 0 || value % 10 != 0
    ensures TrimmedText(value, scale) == DecimalText(Decimal(value, scale))
  {
    TrimStep(value, scale);
  }

  /** Trimming stops at the last digit that is not a zero, or drops the whole fraction. */
  lemma {:induction false} TrimmedIs(value: int, scale: nat, d: Decimal, text: string)
    requires d == Reduced(value, scale) && text == DecimalText(d)
    ensures TrimmedText(value, scale) == text
    decreases scale
  {
    if scale == 0 || value % 10 != 0 {
      NoZeroToCut(value, scale);
    } else {
      TrimmedIs(value / 10, scale - 1, d, text);
      CutZero(value, scale, text);
    }
  }

  lemma TrimmedIsReduced(value: int, scale: nat)
    ensures TrimmedText(value, scale) == DecimalText(Reduced(value, scale))
  {
    TrimmedIs(value, scale, Reduced(value, scale), DecimalText(Reduced(value, scale)));
  }

  lemma {:induction false} ScaleUpShift(n: int, k: nat)
    ensures ScaleUp(10 * n, k) == 10 * ScaleUp(n, k)
  {
    if k > 0 {
      ScaleUpShift(n, k - 1);
    }
  }

  lemma {:induction false} ScaleUpInjective(a: int, b: int, k: nat)
    ensures ScaleUp(a, k) == ScaleUp(b, k) <==> a == b
  {
    if k > 0 {
      ScaleUpInjective(a, b, k - 1);
    }
  }

  lemma {:induction false} ScaleUpSum(n: int, j: nat, k: nat)
    ensures ScaleUp(ScaleUp(n, j), k) == ScaleUp(n, j + k)
  {
    if k > 0 {
      ScaleUpSum(n, j, k - 1);
    }
  }

  lemma {:induction false} ReducedIsSameNumber(value: int, scale: nat)
    ensures SameNumber(Reduced(value, scale), Decimal(value, scale))
    ensures Reduced(value, scale).scale <= scale
    decreases scale
  {
    if scale > 0 && value % 10 == 0 {
      var r := Reduced(value / 10, scale - 1);
      ReducedIsSameNumber(value / 10, scale - 1);
      assert value == 10 * (value / 10);
      ScaleUpShift(value / 10, r.scale);
    }
  }

  lemma SameNumberTransitive(a: Decimal, b: Decimal, c: Decimal)
    requires SameNumber(a, b) && SameNumber(b, c)
    ensures SameNumber(a, c)
  {
    ScaleUpSum(a.coefficient, b.scale, c.scale);
    ScaleUpSum(b.coefficient, a.scale, c.scale);
    ScaleUpSum(b.coefficient, c.scale, a.scale);
    ScaleUpSum(c.coefficient, b.scale, a.scale);
    ScaleUpSum(a.coefficient, c.scale, b.scale);
    ScaleUpSum(c.coefficient, a.scale, b.scale);
    ScaleUpInjective(ScaleUp(a.coefficient, c.scale), ScaleUp(c.coefficient, a.scale), b.scale);
  }

  predicate IsReduced(d: Decimal) {
    d.scale == 0 || d.coefficient % 10 != 0
  }

  lemma {:induction false} ReducedIsReduced(value: int, scale: nat)
    ensures IsReduced(Reduced(value, scale))
    decreases scale
  {
    if scale > 0 && value % 10 == 0 {
      ReducedIsReduced(value / 10, scale - 1);
    }
  }

  lemma {:induction false} ReducedUnique(a: Decimal, b: Decimal)
    requires IsReduced(a) && IsReduced(b) && SameNumber(a, b)
    ensures a == b
  {
    SameScale(a.coefficient, a.scale, b.coefficient, b.scale);
    ScaleUpInjective(a.coefficient, b.coefficient, a.scale);
  }

  lemma {:induction false} SameScale(a: int, j: nat, b: int, k: nat)
    requires ScaleUp(a, k) == ScaleUp(b, j)
    requires j > 0 ==> a % 10 != 0
    requires k > 0 ==> b % 10 != 0
    ensures j == k
    decreases j
  {
    if j > 0 && k > 0 {
      SameScale(a, j - 1, b, k - 1);
    }
  }

  /** Trimming preserves the number and is idempotent. */
  lemma TrimmingPreservesValue(value: int, scale: nat)
    ensures var trimmed := TrimmedText(value, scale);
      && ParseDecimal(trimmed).Some?
      && SameNumber(ParseDecimal(trimmed).value, Decimal(value, scale))
      && IsReduced(ParseDecimal(trimmed).value)
      && TrimFractionZeros(trimmed) == trimmed
  {
    var r := Reduced(value, scale);
    TrimmedIsReduced(value, scale);
    ScaledDenotes(r.coefficient, r.scale);
    ReducedIsSameNumber(value, scale);
    ReducedIsReduced(value, scale);
    TrimmedIsReduced(r.coefficient, r.scale);
  }

  /** Canonical printing: two scaled integers print the same trimmed text exactly
      when they are the same rational number. */
  lemma TrimmedTextIsCanonical(v: int, j: nat, w: int, k: nat)
    ensures TrimmedText(v, j) == TrimmedText(w, k) <==>
            SameNumber(Decimal(v, j), Decimal(w, k))
  {
    var a, b := Reduced(v, j), Reduced(w, k);
    TrimmedIsReduced(v, j);
    TrimmedIsReduced(w, k);
    ScaledDenotes(a.coefficient, a.scale);
    ScaledDenotes(b.coefficient, b.scale);
    ReducedIsSameNumber(v, j);
    ReducedIsSameNumber(w, k);
    ReducedIsReduced(v, j);
    ReducedIsReduced(w, k);
    if SameNumber(Decimal(v, j), Decimal(w, k)) {
      SameNumberTransitive(a, Decimal(v, j), Decimal(w, k));
      SameNumberTransitive(a, Decimal(w, k), b);
      ReducedUnique(a, b);
    }
    if a == b {
      SameNumberTransitive(Decimal(v, j), a, Decimal(w, k));
    }
  }

  // ------------------------------------------------------------- the three displays

  function UsdAmountDisplay(amountMinor: int): string {
    var dollars := ScaledIntegerString(amountMinor, 2);
    LongEnough(amountMinor);
    "$" + if amountMinor % 100 == 0 then dollars[..|dollars| - 3] else dollars
  }

  lemma LongEnough(amountMinor: int)
    ensures |ScaledIntegerString(amountMinor, 2)| >= 3
  {
    PartsDenote(Magnitude(amountMinor), 2);
  }

  function PaymentAmountDisplay(currency: string, amountMinor: int, exponent: int): string {
    currency + " " + ScaledIntegerString(amountMinor, exponent)
  }

  function FxRateDisplay(base: string, quote: string, rateScaled: int, rateScale: int): string {
    "1 " + base + " = " + TrimmedText(rateScaled, rateScale) + " " + quote
  }

  lemma AfterSign(text: string)
    ensures ("$" + text)[1..] == text
  {
  }

  lemma WholeAmount(amountMinor: int)
    requires amountMinor % 100 == 0
    ensures UsdAmountDisplay(amountMinor) == "$" + IntText(amountMinor / 100)
  {
    WholeDollars(amountMinor / 100);
  }

  lemma BrokenAmount(amountMinor: int)
    requires amountMinor % 100 != 0
    ensures UsdAmountDisplay(amountMinor) == "$" + ScaledIntegerString(amountMinor, 2)
  {
  }

  /** Whole dollars print without a fraction, anything else with two digits; the
      amount can be read back either way. */
  lemma UsdDisplayIsExact(amountMinor: int)
    ensures var shown := UsdAmountDisplay(amountMinor)[1..];
      && ParseDecimal(shown) ==
         Some(if amountMinor % 100 == 0 then Decimal(amountMinor / 100, 0) else Decimal(amountMinor, 2))
      && (amountMinor % 100 == 0 ==> shown == IntText(amountMinor / 100))
  {
    if amountMinor % 100 == 0 {
      WholeAmount(amountMinor);
      AfterSign(IntText(amountMinor / 100));
      IntTextDenotes(amountMinor / 100);
    } else {
      BrokenAmount(amountMinor);
      AfterSign(ScaledIntegerString(amountMinor, 2));
      ScaledDenotes(amountMinor, 2);
    }
  }

  lemma LastZero(value: int, scale: nat, tenth: int, less: nat)
    requires 2 <= scale && value == 10 * tenth && less == scale - 1
    ensures ScaledIntegerString(value, scale) == ScaledIntegerString(tenth, less) + "0"
  {
    ScaledStep(value, scale);
  }

  lemma OnlyZero(value: int, one: nat, whole: int)
    requires one == 1 && value == 10 * whole
    ensures ScaledIntegerString(value, one) == IntText(whole) + ".0"
  {
    ScaledStep(value, one);
  }

  lemma CentsAreZeros(cents: int, dimes: int, dollars: int, two: nat, one: nat)
    requires cents == 10 * dimes && dimes == 10 * dollars && two == one + 1 && one == 1
    ensures ScaledIntegerString(cents, two) == IntText(dollars) + ".0" + "0"
  {
    LastZero(cents, two, dimes, one);
    OnlyZero(dimes, one, dollars);
  }

  lemma WholeDollars(dollars: int)
    ensures var s := ScaledIntegerString(100 * dollars, 2);
      |s| >= 3 && s[..|s| - 3] == IntText(dollars)
  {
    CentsAreZeros(100 * dollars, 10 * dollars, dollars, 2, 1);
    DropThree(IntText(dollars));
  }

  lemma DropThree(t: string)
    ensures (t + ".0" + "0")[..|t|] == t
  {
  }

  /** Two rates of one currency pair disclose the same line exactly when they are the same rate. */
  lemma FxDisclosureIsCanonical(base: string, quote: string, v: int, j: nat, w: int, k: nat)
    ensures FxRateDisplay(base, quote, v, j) == FxRateDisplay(base, quote, w, k) <==>
            SameNumber(Decimal(v, j), Decimal(w, k))
  {
    TrimmedTextIsCanonical(v, j, w, k);
    Framed("1 " + base + " = ", TrimmedText(v, j), TrimmedText(w, k), " " + quote);
    FxDisplayParts(base, quote, v, j);
    FxDisplayParts(base, quote, w, k);
  }

  lemma FxDisplayParts(base: string, quote: string, v: int, j: nat)
    ensures FxRateDisplay(base, quote, v, j) == ("1 " + base + " = ") + TrimmedText(v, j) + (" " + quote)
  {
  }

  lemma Framed(head: string, s: string, t: string, tail: string)
    ensures head + s + tail == head + t + tail <==> s == t
  {
    var x, y := head + s + tail, head + t + tail;
    assert s == x[|head|..|x| - |tail|];
    assert t == y[|head|..|y| - |tail|];
  }

  // ------------------------------------------------------------- the records formatter

  /** What `Intl.NumberFormat('en-GH')` does to the digits of a whole number. */
  function Grouped(digits: string): string {
    if |digits| <= 3 then digits else Grouped(digits[..|digits| - 3]) + "," + digits[|digits| - 3..]
  }

  /** An amount of a verified record is a positive number of pesewas. */
  function FormatGhsMinorUnits(amountMinor: nat): string {
    "GHS " + Grouped(Numeral(amountMinor / 100, 10)) + "." + PadStart(Numeral(amountMinor % 100, 10), 2, '0')
  }

  function WithoutCommas(s: string): string {
    if s == "" then ""
    else if s[0] == ',' then WithoutCommas(s[1..])
    else [s[0]] + WithoutCommas(s[1..])
  }

  lemma {:induction false} WithoutCommasAppend(a: string, b: string)
    ensures WithoutCommas(a + b) == WithoutCommas(a) + WithoutCommas(b)
  {
    if a == "" {
      assert a + b == b;
    } else {
      assert (a + b)[1..] == a[1..] + b;
      WithoutCommasAppend(a[1..], b);
    }
  }

  lemma {:induction false} WithoutCommasFree(s: string)
    requires Free(s, ',')
    ensures WithoutCommas(s) == s
  {
    if s != "" {
      WithoutCommasFree(s[1..]);
    }
  }

  lemma WithoutOneComma(g: string, tail: string)
    requires Free(tail, ',')
    ensures WithoutCommas(g + "," + tail) == WithoutCommas(g) + tail
  {
    WithoutCommasAppend(g + ",", tail);
    WithoutCommasAppend(g, ",");
    WithoutCommasFree(tail);
  }

  lemma {:induction false} GroupingKeepsDigits(digits: string)
    requires Free(digits, ',')
    ensures WithoutCommas(Grouped(digits)) == digits
  {
    if |digits| <= 3 {
      WithoutCommasFree(digits);
    } else {
      var head, tail := digits[..|digits| - 3], digits[|digits| - 3..];
      GroupingKeepsDigits(head);
      WithoutOneComma(Grouped(head), tail);
      assert digits == head + tail;
    }
  }

  /** A comma after every third digit from the right, and nowhere else. */
  lemma {:induction false} GroupsOfThree(digits: string)
    requires digits != "" && Free(digits, ',')
    ensures var groups := Split(Grouped(digits), ',');
      1 <= |groups[0]| <= 3 && forall i | 1 <= i < |groups| :: |groups[i]| == 3
  {
    if |digits| <= 3 {
      SplitFree(digits, ',');
    } else {
      var head, tail := digits[..|digits| - 3], digits[|digits| - 3..];
      GroupsOfThree(head);
      SplitAppend(Grouped(head), ',', tail);
      SplitFree(tail, ',');
    }
  }

  lemma PesewaParts(amountMinor: nat)
    ensures Whole(amountMinor, 2) == Numeral(amountMinor / 100, 10)
    ensures Fraction(amountMinor, 2) == PadStart(Numeral(amountMinor % 100, 10), 2, '0')
    ensures Free(Whole(amountMinor, 2), ',') && Free(Fraction(amountMinor, 2), ',')
  {
    assert Pow(10, 2) == 100;
    PartsHaveNo(amountMinor, 2, ',');
  }

  lemma UngroupedText(w: string, f: string)
    requires Free(w, ',') && Free(f, ',')
    ensures WithoutCommas("GHS " + Grouped(w) + "." + f) == "GHS " + (w + "." + f)
  {
    var g := Grouped(w);
    GroupingKeepsDigits(w);
    WithoutCommasFree("GHS ");
    WithoutCommasFree(".");
    WithoutCommasFree(f);
    WithoutCommasAppend("GHS ", g);
    WithoutCommasAppend("GHS " + g, ".");
    WithoutCommasAppend("GHS " + g + ".", f);
    Regroup("GHS ", w, f);
  }

  lemma Regroup(a: string, w: string, f: string)
    ensures a + w + "." + f == a + (w + "." + f)
  {
  }

  lemma AmountText(currency: string, amountMinor: nat, exponent: nat)
    requires 1 <= exponent
    ensures PaymentAmountDisplay(currency, amountMinor, exponent) ==
            currency + " " + (Whole(amountMinor, exponent) + "." + Fraction(amountMinor, exponent))
  {
  }

  lemma AmountReadsBack(currency: string, amountMinor: nat, exponent: nat)
    ensures ParseDecimal(PaymentAmountDisplay(currency, amountMinor, exponent)[|currency| + 1..]) ==
            Some(Decimal(amountMinor, exponent))
  {
    var text := ScaledIntegerString(amountMinor, exponent);
    ScaledDenotes(amountMinor, exponent);
    assert (currency + " " + text)[|currency| + 1..] == text;
  }

  lemma RecordsText(amountMinor: nat, w: string, f: string)
    requires w == Numeral(amountMinor / 100, 10) && f == PadStart(Numeral(amountMinor % 100, 10), 2, '0')
    ensures FormatGhsMinorUnits(amountMinor) == "GHS " + Grouped(w) + "." + f
  {
  }

  /** The two formatters agree: without its grouping commas the records text is
      the checkout text, and either reads back as the amount in pesewas. */
  lemma FormattersAgree(amountMinor: nat)
    ensures WithoutCommas(FormatGhsMinorUnits(amountMinor)) == PaymentAmountDisplay("GHS", amountMinor, 2)
    ensures ParseDecimal(PaymentAmountDisplay("GHS", amountMinor, 2)[4..]) == Some(Decimal(amountMinor, 2))
  {
    var w, f := Whole(amountMinor, 2), Fraction(amountMinor, 2);
    PesewaParts(amountMinor);
    RecordsText(amountMinor, w, f);
    UngroupedText(w, f);
    AmountText("GHS", amountMinor, 2);
    AmountReadsBack("GHS", amountMinor, 2);
  }
}
