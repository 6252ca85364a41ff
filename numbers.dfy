/** Python's float(), round(x, 2) and "%.Nf" formatting on exact reals.
    Binary floating point is not modelled: values are the exact decimals the
    text denotes. */
module Numbers {
  import opened Text

  function Pow10(n: nat): (p: nat)
    ensures p >= 1
  {
    if n == 0 then 1 else 10 * Pow10(n - 1)
  }

  function Abs(x: real): (r: real)
    ensures r >= 0.0 && (r == x || r == -x)
  {
    if x < 0.0 then -x else x
  }

  /** Index of the first '.', or |s|. */
  function DotIndex(s: string): (k: nat)
    ensures k <= |s|
    ensures k < |s| ==> s[k] == '.'
    ensures forall i :: 0 <= i < k ==> s[i] != '.'
  {
    if s == [] || s[0] == '.' then 0 else 1 + DotIndex(s[1..])
  }

  /** k / 10^places as an exact real. */
  function Shifted(k: nat, places: nat): real {
    k as real / Pow10(places) as real
  }

  /** The value of the numeral whole.frac. */
  function DecimalValue(whole: string, frac: string): real {
    DigitsValue(whole) as real + Shifted(DigitsValue(frac), |frac|)
  }

  /** An unsigned decimal numeral: digits, at most one '.', at least one digit. */
  function ParseUnsigned(s: string): Option<real> {
    var k := DotIndex(s);
    var whole := s[..k];
    var frac := if k < |s| then s[k + 1..] else "";
    if AllDigits(whole) && AllDigits(frac) && |whole| + |frac| > 0 then
      Some(DecimalValue(whole, frac))
    else
      None
  }

  /** A decimal numeral with an optional sign. */
  function ParseDecimal(s: string): Option<real> {
    if s != [] && (s[0] == '-' || s[0] == '+') then
      match ParseUnsigned(s[1..])
      case None => None
      case Some(v) => Some(if s[0] == '-' then -v else v)
    else
      ParseUnsigned(s)
  }

  /** float(s) for a str or bytes token; None where Python raises ValueError. */
  function ParseFloat(s: string): Option<real> {
    ParseDecimal(Strip(s))
  }

  /** Rounding to the nearest integer, ties to the even one. */
  function RoundHalfEven(y: real): (k: int)
    ensures y - 0.5 <= k as real <= y + 0.5
  {
    var f := y.Floor;
    var d := y - f as real;
    if d < 0.5 then f
    else if d > 0.5 then f + 1
    else if f % 2 == 0 then f
    else f + 1
  }

  /** round(x, 2). */
  function Round2(x: real): (r: real)
    ensures -0.005 <= r - x <= 0.005
  {
    RoundHalfEven(x * 100.0) as real / 100.0
  }

  lemma RoundHalfEvenOfInt(k: int)
    ensures RoundHalfEven(k as real) == k
  {
    assert (k as real).Floor == k;
  }

  /** Rounding a value that is already rounded changes nothing, so the
      report's second round(v, 2) is a no-op. */
  lemma Round2Idempotent(x: real)
    ensures Round2(Round2(x)) == Round2(x)
  {
    var k := RoundHalfEven(x * 100.0);
    assert Round2(x) * 100.0 == k as real;
    RoundHalfEvenOfInt(k);
  }

  /** A whole number of hundredths. */
  predicate OnHundredths(x: real) {
    (x * 100.0).Floor as real == x * 100.0
  }

  /** round(x, 2) leaves a whole number of hundredths alone. */
  lemma Round2OnHundredths(x: real)
    requires OnHundredths(x)
    ensures Round2(x) == x
  {
    RoundHalfEvenOfInt((x * 100.0).Floor);
  }

  /** Negating, or subtracting from a whole number, keeps hundredths whole. */
  lemma OnHundredthsShift(x: real, n: int)
    requires OnHundredths(x)
    ensures OnHundredths(-x) && OnHundredths(n as real - x)
  {
    var m := (x * 100.0).Floor;
    assert -x * 100.0 == (-m) as real;
    assert ((-m) as real).Floor == -m;
    assert (n as real - x) * 100.0 == (100 * n - m) as real;
    assert ((100 * n - m) as real).Floor == 100 * n - m;
  }

  /** The digits "%.Nf" prints: |x| scaled by 10^N, rounded half to even. */
  function ScaledDigits(x: real, places: nat): (k: nat)
  {
    var y := Abs(x) * Pow10(places) as real;
    var k := RoundHalfEven(y);
    assert k as real >= y - 0.5 >= -0.5;
    k
  }

  /** The unsigned text of k / 10^N with N fraction digits: k zero-padded to
      N + 1 digits, the point before the last N. */
  function FixedBody(k: nat, places: nat): (body: string)
    ensures body != [] && IsDigit(body[0]) && IsDigit(body[|body| - 1])
  {
    var d := PadZeros(k, places + 1);
    d[..|d| - places] + (if places == 0 then "" else "." + d[|d| - places..])
  }

  /** f"{x:.Nf}": the sign, then the rounded magnitude. */
  function FormatFixed(x: real, places: nat): string {
    (if x < 0.0 then "-" else "") + FixedBody(ScaledDigits(x, places), places)
  }

  /** The value that "%.Nf" denotes. */
  function RoundedFixed(x: real, places: nat): real {
    var v := Shifted(ScaledDigits(x, places), places);
    if x < 0.0 then -v else v
  }

  /** One more digit appended to both a + b and b. */
  lemma ConcatStep(x: int, p: int, v: int, c: int)
    ensures 10 * (x * p + v) + c == x * (10 * p) + (10 * v + c)
  {
  }

  lemma {:induction false} DigitsValueConcat(a: string, b: string)
    ensures DigitsValue(a + b) == DigitsValue(a) * Pow10(|b|) + DigitsValue(b)
    decreases |b|
  {
    if b == [] {
      assert a + b == a;
    } else {
      var b' := b[..|b| - 1];
      var c := DigitValue(b[|b| - 1]);
      assert (a + b)[..|a + b| - 1] == a + b';
      assert (a + b)[|a + b| - 1] == b[|b| - 1];
      assert DigitsValue(a + b) == 10 * DigitsValue(a + b') + c;
      assert DigitsValue(b) == 10 * DigitsValue(b') + c;
      assert Pow10(|b|) == 10 * Pow10(|b'|);
      DigitsValueConcat(a, b');
      ConcatStep(DigitsValue(a), Pow10(|b'|), DigitsValue(b'), c);
    }
  }

  lemma StripNoSpaceEnds(s: string)
    requires s != [] && !IsSpace(s[0]) && !IsSpace(s[|s| - 1])
    ensures Strip(s) == s
  {
  }

  lemma UnsignedValue(w: string, f: string)
    requires AllDigits(w) && AllDigits(f) && |w| > 0
    ensures ParseUnsigned(w + "." + f) == Some(DecimalValue(w, f))
  {
    var s := w + "." + f;
    assert s[|w|] == '.';
    assert forall i :: 0 <= i < |w| ==> s[i] == w[i] && s[i] != '.';
    assert DotIndex(s) == |w|;
    assert s[..|w|] == w;
    assert s[|w| + 1..] == f;
  }

  lemma UnsignedWholeValue(w: string)
    requires AllDigits(w) && |w| > 0
    ensures ParseUnsigned(w) == Some(DigitsValue(w) as real)
  {
    assert forall i :: 0 <= i < |w| ==> w[i] != '.';
    assert DotIndex(w) == |w|;
    assert w[..|w|] == w;
    assert DecimalValue(w, "") == DigitsValue(w) as real by {
      assert DigitsValue("") == 0 && Pow10(0) == 1;
    }
  }

  /** n = a*b + c read as reals and divided by b. */
  lemma DivideSplit(n: int, a: int, b: int, c: int)
    requires b > 0 && n == a * b + c
    ensures n as real / b as real == a as real + c as real / b as real
  {
    assert n as real == a as real * b as real + c as real;
  }

  lemma SplitDigitsValue(d: string, places: nat)
    requires |d| >= places
    ensures DigitsValue(d)
         == DigitsValue(d[..|d| - places]) * Pow10(places) + DigitsValue(d[|d| - places..])
  {
    assert d == d[..|d| - places] + d[|d| - places..];
    DigitsValueConcat(d[..|d| - places], d[|d| - places..]);
  }

  lemma DecimalValueOfSplit(d: string, places: nat)
    requires |d| >= places
    ensures DecimalValue(d[..|d| - places], d[|d| - places..])
         == Shifted(DigitsValue(d), places)
  {
    SplitDigitsValue(d, places);
    DivideSplit(DigitsValue(d), DigitsValue(d[..|d| - places]), Pow10(places), DigitsValue(d[|d| - places..]));
  }

  lemma FixedBodyValue(k: nat, places: nat)
    ensures ParseUnsigned(FixedBody(k, places)) == Some(Shifted(k, places))
  {
    var d := PadZeros(k, places + 1);
    var whole := d[..|d| - places];
    var frac := d[|d| - places..];
    assert DecimalValue(whole, frac) == Shifted(k, places) by {
      PadZerosValue(k, places + 1);
      DecimalValueOfSplit(d, places);
    }
    if places == 0 {
      assert FixedBody(k, places) == d;
      assert DecimalValue(d, "") == DigitsValue(d) as real by {
        assert whole == d && frac == "";
      }
      UnsignedWholeValue(d);
    } else {
      assert FixedBody(k, places) == whole + "." + frac;
      UnsignedValue(whole, frac);
    }
  }

  /** float() of an unsigned numeral with an optional minus sign in front. */
  lemma ParseSignedBody(body: string, v: real, negative: bool)
    requires body != [] && IsDigit(body[0]) && IsDigit(body[|body| - 1])
    requires ParseUnsigned(body) == Some(v)
    ensures ParseFloat((if negative then "-" else "") + body) == Some(if negative then -v else v)
  {
    var s := (if negative then "-" else "") + body;
    StripNoSpaceEnds(s);
    if negative {
      assert s[0] == '-' && s[1..] == body;
      assert ParseDecimal(s) == Some(-v);
    } else {
      assert s == body && !(s[0] == '-' || s[0] == '+');
      assert ParseDecimal(s) == Some(v);
    }
  }

  lemma ParseSignedFixed(k: nat, places: nat, negative: bool)
    ensures ParseFloat((if negative then "-" else "") + FixedBody(k, places))
         == Some(if negative then -Shifted(k, places) else Shifted(k, places))
  {
    FixedBodyValue(k, places);
    ParseSignedBody(FixedBody(k, places), Shifted(k, places), negative);
  }

  /** What "%.Nf" writes, float() reads back as the rounded value. */
  lemma ParseFormatFixed(x: real, places: nat)
    ensures ParseFloat(FormatFixed(x, places)) == Some(RoundedFixed(x, places))
  {
    var k := ScaledDigits(x, places);
    var negative := x < 0.0;
    assert FormatFixed(x, places) == (if negative then "-" else "") + FixedBody(k, places);
    assert RoundedFixed(x, places) == if negative then -Shifted(k, places) else Shifted(k, places);
    ParseSignedFixed(k, places, negative);
  }

  /** "%.Nf" with at least two places writes a whole number of hundredths
      exactly. */
  lemma FixedOnHundredths(x: real, places: nat)
    requires OnHundredths(x) && places >= 2
    ensures RoundedFixed(x, places) == x
  {
    OnHundredthsShift(x, 0);
    var m := (Abs(x) * 100.0).Floor;
    assert Abs(x) * 100.0 == m as real;
    var q := Pow10(places - 2);
    assert Pow10(places) == 100 * q;
    var y := Abs(x) * Pow10(places) as real;
    assert y == (m * q) as real;
    RoundHalfEvenOfInt(m * q);
    assert ScaledDigits(x, places) == m * q;
    assert (m * q) as real / (100 * q) as real == m as real / 100.0;
    assert Shifted(m * q, places) == Abs(x);
  }

  /** The characters "%.Nf" and f"{n}" write. */
  predicate IsNumeralChar(c: char) { IsDigit(c) || c == '-' || c == '.' }

  predicate AllNumeralChars(s: string) { forall i :: 0 <= i < |s| ==> IsNumeralChar(s[i]) }

  /** "%.Nf" writes an optional minus sign, digits and a point, beginning and
      ending with something other than blank. */
  lemma FormatFixedChars(x: real, places: nat)
    ensures var s := FormatFixed(x, places);
            s != [] && AllNumeralChars(s) && !IsSpace(s[0]) && IsDigit(s[|s| - 1])
  {
    var k := ScaledDigits(x, places);
    var d := PadZeros(k, places + 1);
    var body := FixedBody(k, places);
    assert body == d[..|d| - places] + (if places == 0 then "" else "." + d[|d| - places..]);
    assert AllNumeralChars(body);
    assert FormatFixed(x, places) == (if x < 0.0 then "-" else "") + body;
  }

  /** float() reads a decimal integer back as itself. */
  lemma ParseNatString(n: nat)
    ensures ParseFloat(NatToString(n)) == Some(n as real)
  {
    var s := NatToString(n);
    StripNoSpaceEnds(s);
    DigitsValueOfNat(n);
    UnsignedWholeValue(s);
    assert !(s[0] == '-' || s[0] == '+');
  }

  /** With no fraction digits, the fixed-point body is the integer's own
      decimal text. */
  lemma FixedBodyWhole(n: nat)
    ensures FixedBody(n, 0) == NatToString(n)
  {
    var d := PadZeros(n, 1);
    assert d == NatToString(n);
    assert d[..|d|] == d;
  }

  /** A negative integer's decimal text is what "%.0f" writes for it. */
  lemma {:induction false} NegativeIntIsFixed(i: int)
    requires i < 0
    ensures IntToString(i) == FormatFixed(i as real, 0)
    ensures RoundedFixed(i as real, 0) == i as real
  {
    var n: nat := -i;
    RoundHalfEvenOfInt(n);
    assert ScaledDigits(i as real, 0) == n;
    FixedBodyWhole(n);
  }

  /** float() reads the decimal text of a negative integer back as it. */
  lemma {:induction false} ParseNegativeIntString(i: int)
    requires i < 0
    ensures ParseFloat(IntToString(i)) == Some(i as real)
  {
    NegativeIntIsFixed(i);
    ParseFormatFixed(i as real, 0);
  }

  /** float() reads the decimal text of any integer, signed or not, back as
      that integer. */
  lemma {:induction false} ParseIntString(i: int)
    ensures ParseFloat(IntToString(i)) == Some(i as real)
  {
    if i < 0 {
      ParseNegativeIntString(i);
    } else {
      ParseNatString(i);
    }
  }
}
