/**
 * Decimal integer literals, as Python's `int(s)` reads a string of ASCII digits.
 * Only non-empty runs of '0'..'9' are accepted; everything else is a parse failure.
 */
module Decimal {
  import opened Wrappers

  predicate IsDigit(c: char) {
    '0' <= c <= '9'
  }

  predicate AllDigits(s: string) {
    forall i :: 0 <= i < |s| ==> IsDigit(s[i])
  }

  function DigitValue(c: char): (d: nat)
    requires IsDigit(c)
    ensures d < 10
  {
    c as int - '0' as int
  }

  function DigitChar(d: nat): (c: char)
    requires d < 10
    ensures IsDigit(c) && DigitValue(c) == d
  {
    ('0' as int + d) as char
  }

  function Pow10(n: nat): (p: nat)
    ensures p >= 1
  {
    if n == 0 then 1 else 10 * Pow10(n - 1)
  }

  /** The value of a digit string read most-significant digit first. */
  function DecimalValue(s: string): (n: nat)
    requires AllDigits(s)
    ensures n < Pow10(|s|)
    decreases |s|
  {
    if s == [] then 0 else 10 * DecimalValue(s[..|s| - 1]) + DigitValue(s[|s| - 1])
  }

  /** `int(s)` on a string: defined exactly on non-empty ASCII digit strings. */
  function ParseInt(s: string): (r: Option<nat>)
    ensures r.Some? <==> s != [] && AllDigits(s)
  {
    if s != [] && AllDigits(s) then Some(DecimalValue(s)) else None
  }

  /** The canonical decimal spelling of a natural number (no leading zeros). */
  function DecimalString(n: nat): (s: string)
    ensures s != [] && AllDigits(s)
  {
    if n < 10 then [DigitChar(n)] else DecimalString(n / 10) + [DigitChar(n % 10)]
  }

  /** Parsing undoes printing. */
  lemma {:induction false} ParseDecimalString(n: nat)
    ensures ParseInt(DecimalString(n)) == Some(n)
  {
    var s := DecimalString(n);
    if n >= 10 {
      var p := DecimalString(n / 10);
      ParseDecimalString(n / 10);
      assert s[..|s| - 1] == p;
      assert DecimalValue(s) == 10 * (n / 10) + n % 10;
    }
  }

  /** Reading a concatenation: the left part is shifted by the length of the right part. */
  lemma {:induction false} DecimalValueAppend(s: string, t: string)
    requires AllDigits(s) && AllDigits(t)
    ensures AllDigits(s + t)
    ensures DecimalValue(s + t) == DecimalValue(s) * Pow10(|t|) + DecimalValue(t)
    decreases |t|
  {
    AllDigitsAppend(s, t);
    if t == [] {
      assert s + t == s;
    } else {
      var t' := t[..|t| - 1];
      var d := DigitValue(t[|t| - 1]);
      assert (s + t)[..|s + t| - 1] == s + t';
      assert (s + t)[|s + t| - 1] == t[|t| - 1];
      DecimalValueAppend(s, t');
      assert DecimalValue(s + t) == 10 * DecimalValue(s + t') + d;
      assert DecimalValue(t) == 10 * DecimalValue(t') + d;
      assert Pow10(|t|) == 10 * Pow10(|t'|);
      ShiftByTen(DecimalValue(s), Pow10(|t'|), DecimalValue(t'), d);
    }
  }

  lemma AllDigitsAppend(s: string, t: string)
    requires AllDigits(s) && AllDigits(t)
    ensures AllDigits(s + t)
  {
    forall i | 0 <= i < |s + t| ensures IsDigit((s + t)[i]) {
      if i >= |s| { assert (s + t)[i] == t[i - |s|]; }
    }
  }

  lemma ShiftByTen(a: int, p: int, v: int, d: int)
    ensures 10 * (a * p + v) + d == a * (10 * p) + (10 * v + d)
  {
  }

  /** Leading zeros do not change the value ("00123" reads as 123). */
  lemma LeadingZero(t: string)
    requires AllDigits(t)
    ensures AllDigits("0" + t) && DecimalValue("0" + t) == DecimalValue(t)
  {
    assert DecimalValue("0") == 0 by { assert "0"[..0] == []; }
    DecimalValueAppend("0", t);
  }
}
