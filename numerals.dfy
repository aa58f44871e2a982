/** Decimal text and numbers: Python's `str(n)` / `"%i" % n` for integers,
    and the subsets of `int(s)` and `float(s)` the reports use. */
module Numerals {
  import opened Wrappers
  import opened Text

  predicate IsDigit(c: char) {
    '0' <= c <= '9'
  }

  predicate AllDigits(s: string) {
    forall i :: 0 <= i < |s| ==> IsDigit(s[i])
  }

  function DigitChar(d: nat): (c: char)
    requires d < 10
    ensures IsDigit(c)
  {
    (('0' as int) + d) as char
  }

  /** The number a string of decimal digits denotes (leading zeros allowed). */
  function DigitsValue(s: string): nat
    requires AllDigits(s)
    decreases |s|
  {
    if |s| == 0 then 0
    else 10 * DigitsValue(s[..|s| - 1]) + ((s[|s| - 1] as int) - ('0' as int))
  }

  /** `str(n)` for a natural number: its shortest decimal numeral. */
  function NatToString(n: nat): (s: string)
    ensures |s| > 0 && AllDigits(s)
    decreases n
  {
    if n < 10 then [DigitChar(n)] else NatToString(n / 10) + [DigitChar(n % 10)]
  }

  /** Reading a numeral back gives the number it was made from. */
  lemma {:induction false} DigitsValueOfNat(n: nat)
    ensures DigitsValue(NatToString(n)) == n
    decreases n
  {
    if n >= 10 {
      var s := NatToString(n);
      DigitsValueOfNat(n / 10);
      assert s[..|s| - 1] == NatToString(n / 10);
    }
  }

  /** Distinct numbers have distinct numerals. */
  lemma NatToStringInjective(m: nat, n: nat)
    requires m != n
    ensures NatToString(m) != NatToString(n)
  {
    DigitsValueOfNat(m);
    DigitsValueOfNat(n);
  }

  /** `str(i)` / `"%i" % i` for any integer. */
  function IntToString(i: int): (s: string)
    ensures |s| > 0
  {
    if i < 0 then "-" + NatToString(-i) else NatToString(i)
  }

  lemma AllDigitsUnchangedByStrip(s: string)
    requires |s| > 0 && AllDigits(s)
    ensures Strip(s) == s
  {
    assert !IsSpace(s[0]) && !IsSpace(s[|s| - 1]);
  }

  /** `int(s)`: surrounding white space, an optional sign, then one or more
      decimal digits; anything else is a `ValueError`, here `None`. */
  function ParseInt(s: string): Option<int> {
    var t := Strip(s);
    if |t| > 1 && (t[0] == '-' || t[0] == '+') && AllDigits(t[1..]) then
      var v: int := DigitsValue(t[1..]);
      Some(if t[0] == '-' then -v else v)
    else if |t| > 0 && AllDigits(t) then Some(DigitsValue(t))
    else None
  }

  /** `int(str(i)) == i`. */
  lemma ParseIntOfString(i: int)
    ensures ParseInt(IntToString(i)) == Some(i)
  {
    if i < 0 {
      var n: nat := -i;
      ParseNegative(n);
      assert IntToString(i) == "-" + NatToString(n) && -(n as int) == i;
    } else {
      ParseNatural(i);
      assert IntToString(i) == NatToString(i);
    }
  }

  /** `int(str(n)) == n` for `n >= 0`. */
  lemma ParseNatural(n: nat)
    ensures ParseInt(NatToString(n)) == Some(n as int)
  {
    var s := NatToString(n);
    AllDigitsUnchangedByStrip(s);
    assert s[0] != '-' && s[0] != '+';
    DigitsValueOfNat(n);
  }

  /** `int("-" + str(n)) == -n`. */
  lemma ParseNegative(n: nat)
    ensures ParseInt("-" + NatToString(n)) == Some(-(n as int))
  {
    var d := NatToString(n);
    var s := "-" + d;
    assert s[0] == '-' && s[|s| - 1] == d[|d| - 1];
    StripUnchanged(s);
    assert s[1..] == d;
    DigitsValueOfNat(n);
  }

  function Pow10(k: nat): (p: nat)
    ensures p > 0
  {
    if k == 0 then 1 else 10 * Pow10(k - 1)
  }

  /** Value of a numeral with an optional fractional part, `digits[.digits]`,
      with at least one digit in all. */
  function DecimalValue(body: string): Option<real> {
    var parts := Split(body, ".");
    if |parts| == 1 && |body| > 0 && AllDigits(body) then
      Some(DigitsValue(body) as real)
    else if |parts| == 2 && AllDigits(parts[0]) && AllDigits(parts[1])
            && |parts[0]| + |parts[1]| > 0 then
      Some(DigitsValue(parts[0]) as real
           + DigitsValue(parts[1]) as real / Pow10(|parts[1]|) as real)
    else None
  }

  /** `float(s)` for plain decimal notation: surrounding white space, an
      optional sign, digits with an optional fractional part. */
  function ParseNumber(s: string): Option<real> {
    var t := Strip(s);
    if |t| > 0 && (t[0] == '-' || t[0] == '+') then
      match DecimalValue(t[1..])
      case None => None
      case Some(v) => Some(if t[0] == '-' then -v else v)
    else DecimalValue(t)
  }

  /** `float(str(n)) == n` for natural numbers. */
  lemma ParseNumberOfNat(n: nat)
    ensures ParseNumber(NatToString(n)) == Some(n as real)
  {
    var s := NatToString(n);
    AllDigitsUnchangedByStrip(s);
    assert IsDigit(s[0]);
    assert '.' !in s by {
      forall i | 0 <= i < |s| ensures s[i] != '.' { assert IsDigit(s[i]); }
    }
    SplitWithoutSeparator(s, ".");
    DigitsValueOfNat(n);
  }

  /** A part over a non-zero whole it does not exceed lies in [0, 1]. */
  lemma UnitQuotient(x: real, total: real)
    requires 0.0 <= x <= total && total != 0.0
    ensures 0.0 <= x / total <= 1.0
  {
    assert x / total * total == x;
  }
}
