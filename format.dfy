/** Python floats as the engine sees them, and `TI84Engine._format_result`. */
module Format {
  import opened Wrappers

  /** A Python float: a finite value (modelled by a real, without rounding),
      NaN, or an infinity. */
  datatype Float = Num(r: real) | NaN | Inf(negative: bool)

  /** IEEE subtraction on the special values; finite operands subtract exactly. */
  function Sub(a: Float, b: Float): (d: Float)
    ensures d.Num? <==> a.Num? && b.Num?
    ensures d.Num? ==> d.r == a.r - b.r
  {
    match (a, b)
    case (Num(x), Num(y)) => Num(x - y)
    case (NaN, _) => NaN
    case (_, NaN) => NaN
    case (Inf(n), Inf(m)) => if n == m then NaN else Inf(n)
    case (Inf(n), Num(_)) => Inf(n)
    case (Num(_), Inf(m)) => Inf(!m)
  }

  function Abs(x: real): real
  {
    if x < 0.0 then -x else x
  }

  /** `1e-10`: results smaller than this in magnitude are shown as `0`. */
  const SnapBelow: real := 0.0000000001
  /** `1e4`: integral results smaller than this in magnitude are shown as integers. */
  const IntegerBelow: real := 10000.0

  predicate IsIntegral(x: real)
  {
    x.Floor as real == x
  }

  function DigitChar(d: nat): char
    requires d < 10
  {
    ('0' as int + d) as char
  }

  predicate AllDigitChars(s: string)
  {
    forall k :: 0 <= k < |s| ==> '0' <= s[k] <= '9'
  }

  /** Decimal digits of `n`, most significant first, with no leading zero. */
  function Digits(n: nat): (s: string)
    ensures |s| >= 1
    ensures AllDigitChars(s)
    ensures |s| > 1 ==> s[0] != '0'
  {
    if n < 10 then [DigitChar(n)] else Digits(n / 10) + [DigitChar(n % 10)]
  }

  /** Python's `str(n)` for an `int`. */
  function IntToString(n: int): string
  {
    if n < 0 then "-" + Digits(-n) else Digits(n)
  }

  /** The value of a string of decimal digits. */
  function DigitsValue(s: string): nat
    requires AllDigitChars(s)
  {
    if s == [] then 0 else DigitsValue(s[..|s| - 1]) * 10 + (s[|s| - 1] as int - '0' as int)
  }

  /** Reading an optionally signed decimal integer, the partner of `IntToString`. */
  function ParseInt(s: string): Option<int>
  {
    if s != [] && s[0] == '-' then
      var t := s[1..];
      if t != [] && AllDigitChars(t) then Some(-(DigitsValue(t) as int)) else None
    else if s != [] && AllDigitChars(s) then Some(DigitsValue(s) as int)
    else None
  }

  lemma {:induction false} DigitsRoundTrip(n: nat)
    ensures DigitsValue(Digits(n)) == n
  {
    if n >= 10 {
      var s := Digits(n);
      assert s[..|s| - 1] == Digits(n / 10);
      DigitsRoundTrip(n / 10);
    }
  }

  lemma ParseDigits(t: string)
    requires t != [] && AllDigitChars(t)
    ensures ParseInt(t) == Some(DigitsValue(t) as int)
  {
    assert '0' <= t[0] <= '9';
  }

  lemma ParseSignedDigits(t: string)
    requires t != [] && AllDigitChars(t)
    ensures ParseInt("-" + t) == Some(-(DigitsValue(t) as int))
  {
    var s := "-" + t;
    assert s[0] == '-' && s[1..] == t;
  }

  /** `str(n)` reads back as `n`. */
  lemma IntToStringRoundTrip(n: int)
    ensures ParseInt(IntToString(n)) == Some(n)
  {
    if n < 0 {
      var t := Digits(-n);
      DigitsRoundTrip(-n);
      ParseSignedDigits(t);
      assert IntToString(n) == "-" + t;
    } else {
      var t := Digits(n);
      DigitsRoundTrip(n);
      ParseDigits(t);
      assert IntToString(n) == t;
    }
  }

  /** `_format_result`. `sig10` stands for Python's `f"{value:.10g}"` on a finite
      value; on NaN and the infinities that format gives `nan`, `inf` and `-inf`. */
  function FormatResult(v: Float, sig10: real -> string): (s: string)
    ensures v.Num? && Abs(v.r) < SnapBelow ==> s == "0"
    ensures v.Num? && Abs(v.r) < IntegerBelow && IsIntegral(v.r) ==> ParseInt(s) == Some(v.r.Floor)
    ensures v.Num? && SnapBelow <= Abs(v.r) && !(Abs(v.r) < IntegerBelow && IsIntegral(v.r)) ==> s == sig10(v.r)
    ensures v.NaN? ==> s == "nan"
    ensures v.Inf? ==> s == (if v.negative then "-inf" else "inf")
  {
    match v
    case NaN => "nan"
    case Inf(negative) => if negative then "-inf" else "inf"
    case Num(x) =>
      var y := if Abs(x) < SnapBelow then 0.0 else x;
      if Abs(y) < IntegerBelow && IsIntegral(y) then
        IntToStringRoundTrip(y.Floor);
        IntToString(y.Floor)
      else sig10(y)
  }

  /** An integral result in the integer range is shown as a plain decimal
      integer: an optional minus sign, then digits without a leading zero. */
  lemma FormatIntegral(n: int, sig10: real -> string)
    requires -10000 < n < 10000
    ensures FormatResult(Num(n as real), sig10) == IntToString(n)
  {
    if n != 0 {
      assert Abs(n as real) >= 1.0;
    }
  }

  /** Example: `4/2` gives `2`. */
  lemma FormatTwo(sig10: real -> string)
    ensures FormatResult(Num(2.0), sig10) == "2"
  {
    FormatIntegral(2, sig10);
  }
}
