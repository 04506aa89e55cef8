/**
 * Decimal text: Python's `str()` of an integer and `float()` of a string made
 * of digits and dots, as the scripts use them for identities, query strings,
 * post contents and duration cells.
 */
module Decimal {
  import opened Wrappers

  predicate IsDigit(c: char) { '0' <= c <= '9' }

  predicate AllDigits(s: string) { forall i :: 0 <= i < |s| ==> IsDigit(s[i]) }

  function DigitChar(d: nat): (c: char)
    requires d < 10
    ensures IsDigit(c)
  {
    ('0' as int + d) as char
  }

  function DigitValue(c: char): nat
    requires IsDigit(c)
  {
    c as int - '0' as int
  }

  /** Python's `str(n)` for a non-negative integer: no sign, no leading zero. */
  function NatToString(n: nat): (s: string)
    ensures |s| >= 1 && AllDigits(s)
    ensures |s| > 1 ==> s[0] != '0'
    decreases n
  {
    if n < 10 then [DigitChar(n)] else NatToString(n / 10) + [DigitChar(n % 10)]
  }

  /** Python's `str(i)` for any integer. */
  function IntToString(i: int): string
  {
    if i < 0 then "-" + NatToString(-i) else NatToString(i)
  }

  /** The number a non-empty or empty run of ASCII digits denotes (0 for the empty run). */
  function DigitsValue(s: string): nat
    requires AllDigits(s)
    decreases |s|
  {
    if s == [] then 0 else DigitsValue(s[..|s| - 1]) * 10 + DigitValue(s[|s| - 1])
  }

  lemma {:induction false} DigitsValueOfNatToString(n: nat)
    ensures DigitsValue(NatToString(n)) == n
    decreases n
  {
    var s := NatToString(n);
    if n >= 10 {
      assert s[..|s| - 1] == NatToString(n / 10);
      DigitsValueOfNatToString(n / 10);
    }
  }

  /** Distinct integers have distinct decimal texts. */
  lemma IntToStringInjective(i: int, j: int)
    requires IntToString(i) == IntToString(j)
    ensures i == j
  {
    if i >= 0 && j >= 0 {
      DigitsValueOfNatToString(i);
      DigitsValueOfNatToString(j);
    } else if i < 0 && j < 0 {
      assert NatToString(-i) == IntToString(i)[1..];
      DigitsValueOfNatToString(-i);
      DigitsValueOfNatToString(-j);
    }
  }

  /** Index of the first occurrence of `c` in `s`. */
  function IndexOf(s: string, c: char): (r: Option<nat>)
    ensures r.None? ==> c !in s
    ensures r.Some? ==> r.value < |s| && s[r.value] == c && c !in s[..r.value]
  {
    if s == [] then None
    else if s[0] == c then Some(0)
    else match IndexOf(s[1..], c)
      case None => None
      case Some(k) => assert s[1..][..k] == s[1..k + 1]; Some(k + 1)
  }

  /** The value of the digits after a decimal point: `0.d1d2...` */
  function FractionValue(s: string): (v: real)
    requires AllDigits(s)
    ensures 0.0 <= v <= 1.0
  {
    if s == [] then 0.0 else (DigitValue(s[0]) as real + FractionValue(s[1..])) / 10.0
  }

  /**
   * Python's `float(s)` when `s` is made of ASCII digits and dots: `None` where
   * `float` raises (no digit at all, or more than one dot).
   */
  function DecimalValue(s: string): (r: Option<real>)
    ensures r.Some? ==> r.value >= 0.0
  {
    if !(forall i :: 0 <= i < |s| ==> IsDigit(s[i]) || s[i] == '.') then None
    else match IndexOf(s, '.')
      case None =>
        if s == [] then None else Some(DigitsValue(s) as real)
      case Some(d) =>
        var whole, frac := s[..d], s[d + 1..];
        if !AllDigits(frac) || (whole == [] && frac == []) then None
        else Some(DigitsValue(whole) as real + FractionValue(frac))
  }

  /** `float` of a digit string is its value. */
  lemma DecimalOfDigits(d: string)
    requires |d| > 0 && AllDigits(d)
    ensures DecimalValue(d) == Some(DigitsValue(d) as real)
  {
  }

  /** The only dot of `w.f` is the one between the parts. */
  lemma DotOfParts(w: string, f: string)
    requires AllDigits(w) && AllDigits(f)
    ensures IndexOf(w + "." + f, '.') == Some(|w|)
  {
    var s := w + "." + f;
    assert s[|w|] == '.';
  }

  /** `float("w.f")` is the whole part plus the fraction; either part may be empty, not both. */
  lemma DecimalOfParts(w: string, f: string)
    requires AllDigits(w) && AllDigits(f) && |w| + |f| > 0
    ensures DecimalValue(w + "." + f) == Some(DigitsValue(w) as real + FractionValue(f))
  {
    var s := w + "." + f;
    assert forall i :: 0 <= i < |s| ==> IsDigit(s[i]) || s[i] == '.' by {
      forall i | 0 <= i < |s| ensures IsDigit(s[i]) || s[i] == '.' {
        if i < |w| { assert s[i] == w[i]; } else if i > |w| { assert s[i] == f[i - |w| - 1]; }
      }
    }
    DotOfParts(w, f);
    assert s[..|w|] == w && s[|w| + 1..] == f;
    DecimalAtDot(s, |w|, w, f);
  }

  lemma DecimalAtDot(s: string, d: nat, w: string, f: string)
    requires forall i :: 0 <= i < |s| ==> IsDigit(s[i]) || s[i] == '.'
    requires IndexOf(s, '.') == Some(d) && w == s[..d] && f == s[d + 1..]
    requires AllDigits(w) && AllDigits(f) && |w| + |f| > 0
    ensures DecimalValue(s) == Some(DigitsValue(w) as real + FractionValue(f))
  {
  }

  /** `float(str(n))` gives back `n`. */
  lemma DecimalValueOfNatToString(n: nat)
    ensures DecimalValue(NatToString(n)) == Some(n as real)
  {
    DigitsValueOfNatToString(n);
  }

  /** A numeric text with an optional sign, as a lenient numeric conversion reads it. */
  function ParseNumber(s: string): (r: Option<real>)
  {
    if |s| > 0 && s[0] == '-' then
      match DecimalValue(s[1..]) case None => None case Some(v) => Some(-v)
    else if |s| > 0 && s[0] == '+' then DecimalValue(s[1..])
    else DecimalValue(s)
  }

  lemma ParseNumberOfIntToString(i: int)
    ensures ParseNumber(IntToString(i)) == Some(i as real)
  {
    if i < 0 {
      assert IntToString(i)[1..] == NatToString(-i);
      DecimalValueOfNatToString(-i);
    } else {
      DecimalValueOfNatToString(i);
    }
  }
}
