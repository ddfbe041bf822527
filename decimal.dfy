/**
  Decimal strings as the exchange sends them, and their numeric value.

  The source parses prices and quantities with Rust's `str::parse::<f64>`.
  This model accepts the plain decimal notation that the feed uses: an
  optional sign, digits, and an optional fractional part after a '.', with at
  least one digit in all. The value is an exact `real`.
*/
module Decimal {
  import opened Wrappers

  predicate IsDigit(c: char) {
    '0' <= c <= '9'
  }

  predicate AllDigits(s: string) {
    forall i :: 0 <= i < |s| ==> IsDigit(s[i])
  }

  function DigitValue(c: char): (d: nat)
    requires IsDigit(c)
    ensures d < 10
  {
    c as int - '0' as int
  }

  function DigitChar(d: nat): (c: char)
    requires d < 10
    ensures IsDigit(c) && DigitValue(c) == d
  {
    ('0' as int + d) as char
  }

  /** The value of a digit string read most significant digit first. */
  function DigitsValue(s: string): nat
    requires AllDigits(s)
  {
    if s == [] then 0 else DigitsValue(s[..|s| - 1]) * 10 + DigitValue(s[|s| - 1])
  }

  function Pow10(k: nat): (p: nat)
    ensures p >= 1
  {
    if k == 0 then 1 else 10 * Pow10(k - 1)
  }

  /** Decimal rendering of a natural number, without leading zeros. */
  function NatToString(n: nat): (s: string)
    ensures s != [] && AllDigits(s)
    ensures n >= 10 ==> s[0] != '0'
  {
    if n < 10 then [DigitChar(n)] else NatToString(n / 10) + [DigitChar(n % 10)]
  }

  /** Index of the first '.', or |s| when there is none. */
  function FindDot(s: string): (k: nat)
    ensures k <= |s|
    ensures k < |s| ==> s[k] == '.'
    ensures forall i :: 0 <= i < k ==> s[i] != '.'
  {
    if s == [] then 0 else if s[0] == '.' then 0 else 1 + FindDot(s[1..])
  }

  /** `whole[.frac]` with at least one digit in all. */
  function ParseUnsigned(s: string): (r: Option<real>)
    ensures r.Some? ==> r.value >= 0.0
    ensures r.Some? ==> exists i :: 0 <= i < |s| && IsDigit(s[i])
  {
    var k := FindDot(s);
    var whole := s[..k];
    var frac := if k < |s| then s[k + 1..] else [];
    if AllDigits(whole) && AllDigits(frac) && |whole| + |frac| > 0 then
      assert |whole| > 0 ==> IsDigit(s[0]);
      assert |whole| == 0 ==> IsDigit(s[k + 1]);
      Some(DigitsValue(whole) as real + DigitsValue(frac) as real / Pow10(|frac|) as real)
    else
      None
  }

  /** An optionally signed decimal; None when the string is not one. */
  function ParseDecimal(s: string): (r: Option<real>)
    ensures s == [] ==> r == None
    ensures r.Some? ==> exists i :: 0 <= i < |s| && IsDigit(s[i])
  {
    if s == [] then None
    else if s[0] == '-' || s[0] == '+' then
      match ParseUnsigned(s[1..])
      case None => None
      case Some(v) =>
        assert exists i :: 1 <= i < |s| && IsDigit(s[i]) by {
          var j :| 0 <= j < |s[1..]| && IsDigit(s[1..][j]);
          assert IsDigit(s[j + 1]);
        }
        Some(if s[0] == '-' then -v else v)
    else ParseUnsigned(s)
  }

  /** The value of `whole.frac`: the whole digits plus the fraction digits scaled down. */
  function DecimalValue(whole: string, frac: string): (v: real)
    requires AllDigits(whole) && AllDigits(frac)
    ensures v >= 0.0
  {
    DigitsValue(whole) as real + DigitsValue(frac) as real / Pow10(|frac|) as real
  }

  /** The first '.' after a run of digits is the one right after it. */
  lemma DotAfterDigits(w: string, t: string)
    requires AllDigits(w)
    ensures FindDot(w + "." + t) == |w|
  {
    var s := w + "." + t;
    var k := FindDot(s);
    assert s[|w|] == '.';
    assert forall i :: 0 <= i < |w| ==> s[i] == w[i];
  }

  /** An unsigned decimal `w.f` with at least one digit parses to its value. */
  lemma ParseUnsignedFraction(w: string, f: string)
    requires AllDigits(w) && AllDigits(f) && |w| + |f| > 0
    ensures ParseUnsigned(w + "." + f) == Some(DecimalValue(w, f))
  {
    var s := w + "." + f;
    DotAfterDigits(w, f);
    var k := FindDot(s);
    assert k == |w|;
    assert s[..k] == w;
    assert k < |s|;
    assert s[k + 1..] == f;
  }

  /** A non-empty digit string parses to its value. */
  lemma ParseUnsignedWhole(w: string)
    requires AllDigits(w) && w != []
    ensures ParseUnsigned(w) == Some(DigitsValue(w) as real)
  {
    var k := FindDot(w);
    assert k == |w| by {
      assert forall i :: 0 <= i < |w| ==> w[i] != '.';
    }
    assert w[..k] == w;
  }

  /** A sign in front of an unsigned decimal negates (`-`) or keeps (`+`) its value. */
  lemma ParseSigned(sign: char, u: string, v: real)
    requires sign == '-' || sign == '+'
    requires ParseUnsigned(u) == Some(v)
    ensures ParseDecimal([sign] + u) == Some(if sign == '-' then -v else v)
  {
    var s := [sign] + u;
    assert s[0] == sign;
    assert s[1..] == u;
  }

  /** An unsigned decimal that starts with a digit or '.' parses as it is. */
  lemma ParseUnsignedAlone(u: string, v: real)
    requires u != [] && (IsDigit(u[0]) || u[0] == '.')
    requires ParseUnsigned(u) == Some(v)
    ensures ParseDecimal(u) == Some(v)
  {
  }

  /** A decimal `w.f` with at least one digit parses to its value. */
  lemma ParseDecimalFraction(w: string, f: string)
    requires AllDigits(w) && AllDigits(f) && |w| + |f| > 0
    ensures ParseDecimal(w + "." + f) == Some(DecimalValue(w, f))
  {
    var s := w + "." + f;
    assert s[0] == if w != [] then w[0] else '.';
    ParseUnsignedFraction(w, f);
    ParseUnsignedAlone(s, DecimalValue(w, f));
  }

  /** A non-empty digit string parses to its value. */
  lemma ParseDecimalWhole(w: string)
    requires AllDigits(w) && w != []
    ensures ParseDecimal(w) == Some(DigitsValue(w) as real)
  {
    assert IsDigit(w[0]);
    ParseUnsignedWhole(w);
    ParseUnsignedAlone(w, DigitsValue(w) as real);
  }

  lemma {:induction false} DigitsValueOfNatToString(n: nat)
    ensures DigitsValue(NatToString(n)) == n
  {
    if n >= 10 {
      var s := NatToString(n);
      assert s[..|s| - 1] == NatToString(n / 10);
      DigitsValueOfNatToString(n / 10);
    }
  }

  /** Rendering a natural number and parsing it back gives the same value. */
  lemma ParseNatToString(n: nat)
    ensures ParseDecimal(NatToString(n)) == Some(n as real)
  {
    DigitsValueOfNatToString(n);
    ParseDecimalWhole(NatToString(n));
  }
}
