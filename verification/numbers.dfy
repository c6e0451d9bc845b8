/** Decimal text and numbers: `toString()` of an integer and the subset of
    JavaScript's `Number(text)` that the voucher form's inputs can produce. */
module Numbers {
  import opened Wrappers
  import Text

  predicate IsDigit(c: char) { '0' <= c <= '9' }

  predicate AllDigits(s: string) {
    forall i :: 0 <= i < |s| ==> IsDigit(s[i])
  }

  function DigitChar(d: nat): char
    requires d < 10
  {
    ('0' as int + d) as char
  }

  function DigitValue(c: char): nat
    requires IsDigit(c)
  {
    c as int - '0' as int
  }

  function Pow10(n: nat): (p: nat)
    ensures p >= 1
  {
    if n == 0 then 1 else 10 * Pow10(n - 1)
  }

  // ---------------------------------------------------------------------------
  // Rendering: Number.prototype.toString on integers
  // ---------------------------------------------------------------------------

  /** The canonical decimal numeral of `n`: digits only, no leading zero. */
  function NatToDecimal(n: nat): (s: string)
    ensures |s| >= 1 && AllDigits(s)
    ensures |s| > 1 ==> s[0] != '0'
  {
    if n < 10 then [DigitChar(n)] else NatToDecimal(n / 10) + [DigitChar(n % 10)]
  }

  /** `n.toString()` for an integer `n`: a minus sign for negative values. */
  function IntToDecimal(n: int): (s: string)
    ensures |s| >= 1
    ensures s[0] == '-' <==> n < 0
    ensures AllDigits(if n < 0 then s[1..] else s)
  {
    if n < 0 then "-" + NatToDecimal(-n) else NatToDecimal(n)
  }

  /** The value of a string of decimal digits (0 for the empty string). */
  function DigitsValue(s: string): nat
    requires AllDigits(s)
  {
    if s == [] then 0 else 10 * DigitsValue(s[..|s| - 1]) + DigitValue(s[|s| - 1])
  }

  /** Reading back a rendered numeral gives the number. */
  lemma {:induction false} NatToDecimalRoundTrip(n: nat)
    ensures DigitsValue(NatToDecimal(n)) == n
  {
    if n >= 10 {
      var s := NatToDecimal(n);
      NatToDecimalRoundTrip(n / 10);
      assert s[..|s| - 1] == NatToDecimal(n / 10);
    }
  }

  /** Two integers render alike only if they are equal. */
  lemma IntToDecimalInjective(m: int, n: int)
    requires IntToDecimal(m) == IntToDecimal(n)
    ensures m == n
  {
    ToNumberOfDecimal(m);
    ToNumberOfDecimal(n);
  }

  /** A rendered integer holds only digits and the minus sign, so in particular
      no upper-case letter: lower-casing leaves it unchanged. */
  lemma {:induction false} IntToDecimalChars(n: int)
    ensures forall i :: 0 <= i < |IntToDecimal(n)| ==> IsDigit(IntToDecimal(n)[i]) || IntToDecimal(n)[i] == '-'
    ensures Text.Lower(IntToDecimal(n)) == IntToDecimal(n)
  {
    var s := IntToDecimal(n);
    forall i | 0 <= i < |s| ensures IsDigit(s[i]) || s[i] == '-' {
      if n < 0 && i > 0 {
        assert s[i] == s[1..][i - 1];
      }
    }
    Text.LowerOfNoUpper(s);
  }

  // ---------------------------------------------------------------------------
  // Parsing: Number(text)
  // ---------------------------------------------------------------------------

  /** The result of JavaScript's `Number(...)`: a finite value or NaN. */
  datatype JsNumber = Finite(value: real) | NaN

  /** Position of the first exponent mark (`e` or `E`), or `|s|` if none. */
  function ExponentMark(s: string): (k: nat)
    ensures k <= |s|
    ensures forall i :: 0 <= i < k ==> s[i] != 'e' && s[i] != 'E'
    ensures k < |s| ==> s[k] == 'e' || s[k] == 'E'
  {
    if s == [] || s[0] == 'e' || s[0] == 'E' then 0 else 1 + ExponentMark(s[1..])
  }

  /** The significand of a floating-point numeral: `D+`, `D+.D+` or `.D+`. */
  function ParseSignificand(m: string): Option<real> {
    var whole := Text.BeforeFirst(m, '.');
    if |whole| == |m| then
      if m != [] && AllDigits(m) then Some(DigitsValue(m) as real) else None
    else
      var frac := m[|whole| + 1..];
      if AllDigits(whole) && frac != [] && AllDigits(frac)
      then Some(DigitsValue(whole) as real + DigitsValue(frac) as real / Pow10(|frac|) as real)
      else None
  }

  /** The exponent of a floating-point numeral: `[+-]D+`. */
  function ParseExponent(x: string): Option<int> {
    var neg := x != [] && x[0] == '-';
    var digits := if x != [] && (x[0] == '-' || x[0] == '+') then x[1..] else x;
    if digits != [] && AllDigits(digits) then
      Some(if neg then -(DigitsValue(digits) as int) else DigitsValue(digits))
    else None
  }

  /** `v` times ten to the power `e`, exactly. */
  function Scale(v: real, e: int): real {
    if e >= 0 then v * Pow10(e) as real else v / Pow10(-e) as real
  }

  /** The value of an unsigned numeral: a significand and an optional
      exponent. */
  function ParseUnsigned(body: string): Option<real> {
    var k := ExponentMark(body);
    var significand := ParseSignificand(body[..k]);
    var exponent := if k == |body| then Some(0) else ParseExponent(body[k + 1..]);
    if significand.Some? && exponent.Some? then Some(Scale(significand.value, exponent.value))
    else None
  }

  /** The value of a valid floating-point number in the sense of the HTML
      standard (`-`? significand, then an optional exponent) — the only
      non-empty text a number input hands to the form. */
  function ParseFloat(s: string): Option<real> {
    var neg := s != [] && s[0] == '-';
    match ParseUnsigned(if neg then s[1..] else s)
    case Some(v) => Some(if neg then -v else v)
    case None => None
  }

  /** `Number(text)`: the empty text is 0, a valid numeral its value, and any
      other text NaN. */
  function ToNumber(s: string): JsNumber {
    if s == [] then Finite(0.0)
    else match ParseFloat(s)
      case Some(v) => Finite(v)
      case None => NaN
  }

  /** `Number(n.toString())` is `n` again: the partner of `IntToDecimal`. */
  lemma ToNumberOfDecimal(n: int)
    ensures ToNumber(IntToDecimal(n)) == Finite(n as real)
  {
    var m: nat := if n < 0 then -n else n;
    var body := NatToDecimal(m);
    NatToDecimalRoundTrip(m);
    UnsignedOfDigits(body);
    if n < 0 {
      assert IntToDecimal(n)[1..] == body;
    }
  }

  /** A non-empty run of digits is an unsigned numeral worth its digits. */
  lemma UnsignedOfDigits(s: string)
    requires s != [] && AllDigits(s)
    ensures ParseUnsigned(s) == Some(DigitsValue(s) as real)
  {
    assert forall i :: 0 <= i < |s| ==> s[i] != 'e' && s[i] != 'E' && s[i] != '.';
    assert ExponentMark(s) == |s|;
    assert |Text.BeforeFirst(s, '.')| == |s|;
    assert s[..|s|] == s;
    var v := DigitsValue(s) as real;
    assert ParseSignificand(s) == Some(v);
    assert Pow10(0) == 1;
    assert Scale(v, 0) == v;
  }
}
