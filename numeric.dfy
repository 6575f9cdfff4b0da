/**
 * Numeric strings and their value, the test the range filter applies to every
 * bound (`is_numeric`) and the coercion `$value + 0` that follows it.
 *
 * This is a strict base-10 recogniser: an optional sign, digits with at most
 * one decimal point and at least one digit, and an optional exponent `e`/`E`
 * with an optional sign and at least one digit. No whitespace, no hexadecimal,
 * no `INF`/`NAN`. The value is exact (a `real`), so PHP's int/float split and
 * float rounding are not modelled.
 */
module Numeric {
  import opened Options

  predicate IsDigit(c: char)
  {
    '0' <= c <= '9'
  }

  predicate AllDigits(s: string)
  {
    forall i :: 0 <= i < |s| ==> IsDigit(s[i])
  }

  function DigitValue(c: char): nat
    requires IsDigit(c)
  {
    c as int - '0' as int
  }

  function DigitChar(d: nat): (c: char)
    requires d < 10
    ensures IsDigit(c) && DigitValue(c) == d
  {
    ('0' as int + d) as char
  }

  /** The value of a string of decimal digits, most significant first. */
  function DigitsValue(s: string): nat
    requires AllDigits(s)
    decreases |s|
  {
    if |s| == 0 then 0 else 10 * DigitsValue(s[..|s| - 1]) + DigitValue(s[|s| - 1])
  }

  function Pow10(n: nat): (r: nat)
    ensures r >= 1
  {
    if n == 0 then 1 else 10 * Pow10(n - 1)
  }

  /** Ten to the power `e`, for a negative `e` too. */
  function Scale(e: int): real
  {
    if e >= 0 then Pow10(e) as real else 1.0 / Pow10(-e) as real
  }

  /** The first index at or after `i` that holds `c1` or `c2`, or `|s|` when there is none. */
  function IndexOfEither(s: string, c1: char, c2: char, i: nat): (k: nat)
    requires i <= |s|
    decreases |s| - i
    ensures i <= k <= |s|
    ensures k < |s| ==> s[k] == c1 || s[k] == c2
    ensures forall j :: i <= j < k ==> s[j] != c1 && s[j] != c2
  {
    if i == |s| || s[i] == c1 || s[i] == c2 then i else IndexOfEither(s, c1, c2, i + 1)
  }

  /** Digits with at most one decimal point and at least one digit: `12`, `12.`, `.5`, `1.25`. */
  function ParseMantissa(m: string): Option<real>
  {
    var d := IndexOfEither(m, '.', '.', 0);
    var whole := m[..d];
    var frac := if d < |m| then m[d + 1..] else "";
    if AllDigits(whole) && AllDigits(frac) && |whole| + |frac| > 0 then
      Some(DecimalValue(whole, frac))
    else
      None
  }

  /** The value of `whole.frac`. */
  function DecimalValue(whole: string, frac: string): real
    requires AllDigits(whole) && AllDigits(frac)
  {
    DigitsValue(whole) as real + DigitsValue(frac) as real / Pow10(|frac|) as real
  }

  /** The part after `e`/`E`: an optional sign and at least one digit. */
  function ParseExponent(t: string): Option<int>
  {
    var signed := |t| > 0 && (t[0] == '+' || t[0] == '-');
    var digits := if signed then t[1..] else t;
    if |digits| > 0 && AllDigits(digits) then
      var v: int := DigitsValue(digits);
      Some(if signed && t[0] == '-' then -v else v)
    else
      None
  }

  function ParseUnsigned(u: string): Option<real>
  {
    var k := IndexOfEither(u, 'e', 'E', 0);
    if k == |u| then ParseMantissa(u)
    else
      match (ParseMantissa(u[..k]), ParseExponent(u[k + 1..]))
      case (Some(m), Some(e)) => Some(m * Scale(e))
      case _ => None
  }

  /** `is_numeric($s) ? $s + 0 : null`. */
  function ParseNumeric(s: string): Option<real>
  {
    if |s| > 0 && (s[0] == '+' || s[0] == '-') then
      match ParseUnsigned(s[1..])
      case None => None
      case Some(v) => Some(if s[0] == '-' then -v else v)
    else
      ParseUnsigned(s)
  }

  predicate IsNumeric(s: string)
  {
    ParseNumeric(s).Some?
  }

  /** The characters a numeric string may hold. */
  predicate NumericChar(c: char)
  {
    IsDigit(c) || c == '.' || c == 'e' || c == 'E' || c == '+' || c == '-'
  }

  /** No two decimal points stand side by side. */
  predicate NoAdjacentDots(s: string)
  {
    forall j :: 0 <= j < |s| - 1 && s[j] == '.' ==> s[j + 1] != '.'
  }

  /** The decimal representation PHP gives an integer (`(string) $n`). */
  function NatToString(n: nat): (s: string)
    decreases n
  {
    if n < 10 then [DigitChar(n)] else NatToString(n / 10) + [DigitChar(n % 10)]
  }

  function IntToString(n: int): string
  {
    if n < 0 then "-" + NatToString(-n) else NatToString(n)
  }

  lemma {:induction false} NatToStringValue(n: nat)
    ensures |NatToString(n)| > 0 && AllDigits(NatToString(n))
    ensures DigitsValue(NatToString(n)) == n
    decreases n
  {
    if n >= 10 {
      NatToStringValue(n / 10);
      var s := NatToString(n);
      assert s[..|s| - 1] == NatToString(n / 10);
    }
  }

  lemma MantissaOfDigits(s: string)
    requires AllDigits(s) && |s| > 0
    ensures ParseMantissa(s) == Some(DigitsValue(s) as real)
  {
    var d := IndexOfEither(s, '.', '.', 0);
    assert d == |s|;
    assert s[..d] == s;
    assert DigitsValue("") == 0 && Pow10(0) == 1;
    assert DecimalValue(s, "") == DigitsValue(s) as real;
  }

  /** Every integer's decimal representation is numeric and has that integer as its value. */
  lemma NumeralRoundTrip(n: int)
    ensures ParseNumeric(IntToString(n)) == Some(n as real)
    ensures |IntToString(n)| > 0 && IntToString(n)[|IntToString(n)| - 1] != '.'
  {
    var m: nat := if n < 0 then -n else n;
    var t := NatToString(m);
    NatToStringValue(m);
    assert IndexOfEither(t, 'e', 'E', 0) == |t|;
    MantissaOfDigits(t);
    assert ParseUnsigned(t) == Some(m as real);
    if n < 0 {
      var s := "-" + t;
      assert s[1..] == t;
    } else {
      assert !IsDigit('+') && !IsDigit('-');
    }
  }

  lemma MantissaShape(m: string)
    requires ParseMantissa(m).Some?
    ensures |m| > 0
    ensures forall j :: 0 <= j < |m| ==> IsDigit(m[j]) || m[j] == '.'
    ensures NoAdjacentDots(m)
  {
    var d := IndexOfEither(m, '.', '.', 0);
    var whole := m[..d];
    var frac := if d < |m| then m[d + 1..] else "";
    forall j | 0 <= j < |m|
      ensures IsDigit(m[j]) || (j == d && m[j] == '.')
    {
      if j < d {
        assert m[j] == whole[j];
      } else if j > d {
        assert m[j] == frac[j - d - 1];
      }
    }
  }

  lemma ExponentShape(t: string)
    requires ParseExponent(t).Some?
    ensures forall j :: 0 <= j < |t| ==> IsDigit(t[j]) || t[j] == '+' || t[j] == '-'
  {
    var signed := |t| > 0 && (t[0] == '+' || t[0] == '-');
    var digits := if signed then t[1..] else t;
    forall j | 0 <= j < |t|
      ensures IsDigit(t[j]) || t[j] == '+' || t[j] == '-'
    {
      if signed && j > 0 {
        assert t[j] == digits[j - 1];
      } else if !signed {
        assert t[j] == digits[j];
      }
    }
  }

  lemma UnsignedShape(u: string)
    requires ParseUnsigned(u).Some?
    ensures |u| > 0
    ensures forall j :: 0 <= j < |u| ==> NumericChar(u[j])
    ensures NoAdjacentDots(u)
  {
    var k := IndexOfEither(u, 'e', 'E', 0);
    if k == |u| {
      MantissaShape(u);
    } else {
      var m, t := u[..k], u[k + 1..];
      MantissaShape(m);
      ExponentShape(t);
      forall j | 0 <= j < |u|
        ensures NumericChar(u[j]) && (u[j] == '.' ==> j < k - 1 || j + 1 == k)
      {
        if j < k {
          assert u[j] == m[j];
        } else if j > k {
          assert u[j] == t[j - k - 1];
        }
      }
      forall j | 0 <= j < |u| - 1 && u[j] == '.'
        ensures u[j + 1] != '.'
      {
        if j + 1 < k {
          assert u[j] == m[j] && u[j + 1] == m[j + 1];
        }
      }
    }
  }

  /**
   * A numeric string is not empty, holds only digits, signs, decimal points
   * and exponent letters, and never two decimal points side by side.
   */
  lemma NumericShape(s: string)
    requires IsNumeric(s)
    ensures |s| > 0
    ensures forall j :: 0 <= j < |s| ==> NumericChar(s[j])
    ensures NoAdjacentDots(s)
  {
    if |s| > 0 && (s[0] == '+' || s[0] == '-') {
      var u := s[1..];
      UnsignedShape(u);
      forall j | 1 <= j < |s| ensures s[j] == u[j - 1] { }
    } else {
      UnsignedShape(s);
    }
  }
}
