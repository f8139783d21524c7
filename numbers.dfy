/** The decimal forms of Python's `float()` and `int()` that benchmark tools
    print, and `str()` of a non-negative int. */
module Numbers {
  import opened Options
  import opened Text

  predicate IsDigit(c: char) {
    '0' <= c <= '9'
  }

  /** Every character of `d` is a decimal digit. */
  predicate AllDigits(d: string)
    decreases |d|
  {
    |d| == 0 || (AllDigits(d[..|d| - 1]) && IsDigit(d[|d| - 1]))
  }

  /** A string of digits holds no character that is not a digit. */
  lemma {:induction false} DigitsLack(d: string, c: char)
    requires AllDigits(d) && !IsDigit(c)
    ensures c !in d
    decreases |d|
  {
    if |d| > 0 {
      DigitsLack(d[..|d| - 1], c);
      assert d == d[..|d| - 1] + [d[|d| - 1]];
    }
  }

  function DigitValue(c: char): nat
    requires IsDigit(c)
  {
    c as int - '0' as int
  }

  /** The number a string of decimal digits denotes (most significant first). */
  function DigitsValue(d: string): nat
    requires AllDigits(d)
    decreases |d|
  {
    if |d| == 0 then 0 else 10 * DigitsValue(d[..|d| - 1]) + DigitValue(d[|d| - 1])
  }

  function Pow10(n: nat): (p: nat)
    ensures p >= 1
  {
    if n == 0 then 1 else 10 * Pow10(n - 1)
  }

  /** Digits with an optional fractional part: "12", "12.5", "12." or ".5". */
  function ParseUnsigned(t: string): Option<real> {
    var k := IndexOf(t, '.');
    if k == |t| then
      if |t| > 0 && AllDigits(t) then Some(DigitsValue(t) as real) else None
    else
      var whole, frac := t[..k], t[k + 1..];
      if |whole| + |frac| > 0 && AllDigits(whole) && AllDigits(frac)
      then Some(DecimalValue(whole, frac))
      else None
  }

  /** The number `whole.frac` denotes. */
  function DecimalValue(whole: string, frac: string): real
    requires AllDigits(whole) && AllDigits(frac)
  {
    DigitsValue(whole) as real + DigitsValue(frac) as real / Pow10(|frac|) as real
  }

  /** `float(s)`, `None` where Python raises ValueError. */
  function ParseFloat(s: string): Option<real> {
    ParseSigned(Strip(s))
  }

  /** An optional sign before an unsigned decimal. */
  function ParseSigned(t: string): Option<real> {
    if |t| > 0 && (t[0] == '+' || t[0] == '-') then
      match ParseUnsigned(t[1..])
      case Some(x) => Some(if t[0] == '-' then -x else x)
      case None => None
    else ParseUnsigned(t)
  }

  /** `int(s)`, `None` where Python raises ValueError. */
  function ParseInt(s: string): Option<int> {
    var t := Strip(s);
    var negative := |t| > 0 && t[0] == '-';
    var digits := if |t| > 0 && (t[0] == '+' || t[0] == '-') then t[1..] else t;
    if |digits| > 0 && AllDigits(digits)
    then Some(if negative then -(DigitsValue(digits) as int) else DigitsValue(digits) as int)
    else None
  }

  function DigitChar(d: nat): (c: char)
    requires d < 10
    ensures IsDigit(c) && DigitValue(c) == d
  {
    ('0' as int + d) as char
  }

  /** `str(n)` for a non-negative int: its decimal digits, no leading zero. */
  function NatToString(n: nat): (s: string)
    ensures |s| >= 1 && AllDigits(s)
    ensures |s| > 1 ==> s[0] != '0'
  {
    if n < 10 then [DigitChar(n)] else NatToString(n / 10) + [DigitChar(n % 10)]
  }

  /** `int(str(n)) == n` */
  lemma {:induction false} NatToStringRoundTrip(n: nat)
    ensures DigitsValue(NatToString(n)) == n
  {
    if n >= 10 {
      var s := NatToString(n);
      assert s[..|s| - 1] == NatToString(n / 10);
      NatToStringRoundTrip(n / 10);
    }
  }

  /** Each character of a string of digits is a digit. */
  lemma {:induction false} DigitAt(d: string, i: nat)
    requires AllDigits(d) && i < |d|
    ensures IsDigit(d[i])
    decreases |d|
  {
    if i < |d| - 1 {
      DigitAt(d[..|d| - 1], i);
    }
  }

  /** `float()` of plain decimal digits is their value. */
  lemma ParseFloatDigits(d: string)
    requires |d| > 0 && AllDigits(d)
    ensures ParseFloat(d) == Some(DigitsValue(d) as real)
  {
    DigitAt(d, 0);
    DigitAt(d, |d| - 1);
    StripUnspaced(d);
    DigitsLack(d, '.');
    assert ParseSigned(d) == ParseUnsigned(d);
  }

  /** `int()` of plain decimal digits is their value. */
  lemma ParseIntDigits(d: string)
    requires |d| > 0 && AllDigits(d)
    ensures ParseInt(d) == Some(DigitsValue(d) as int)
  {
    DigitAt(d, 0);
    DigitAt(d, |d| - 1);
    StripUnspaced(d);
  }

  /** `float()` of digits, a point and digits is the decimal fraction they
      write. */
  lemma ParseFloatDecimal(whole: string, frac: string)
    requires |whole| > 0 && AllDigits(whole) && AllDigits(frac)
    ensures ParseFloat(whole + "." + frac) == Some(DecimalValue(whole, frac))
  {
    var t := whole + "." + frac;
    DigitAt(whole, 0);
    assert t[0] == whole[0];
    if |frac| > 0 {
      DigitAt(frac, |frac| - 1);
      assert t[|t| - 1] == frac[|frac| - 1];
    } else {
      assert t[|t| - 1] == '.';
    }
    StripUnspaced(t);
    assert ParseSigned(t) == ParseUnsigned(t);
    ParseUnsignedDecimal(whole, frac);
  }

  lemma ParseUnsignedDecimal(whole: string, frac: string)
    requires AllDigits(whole) && AllDigits(frac) && |whole| + |frac| > 0
    ensures ParseUnsigned(whole + "." + frac) == Some(DecimalValue(whole, frac))
  {
    var t := whole + "." + frac;
    DigitsLack(whole, '.');
    IndexOfAfter(whole, "." + frac, '.');
    assert t == whole + ("." + frac);
    var k := IndexOf(t, '.');
    assert k == |whole|;
    assert t[..k] == whole;
    assert t[k + 1..] == frac;
  }

  /** Length of the run of digits at the start of `s`. */
  function DigitRun(s: string): (n: nat)
    ensures n <= |s| && AllDigits(s[..n])
    ensures n < |s| ==> !IsDigit(s[n])
    decreases |s|
  {
    if |s| == 0 || !IsDigit(s[0]) then 0
    else
      var k := DigitRun(s[1..]);
      DigitsCons(s[0], s[1..][..k]);
      assert s[..1 + k] == [s[0]] + s[1..][..k];
      1 + k
  }

  /** A digit put in front of digits gives digits. */
  lemma {:induction false} DigitsCons(c: char, d: string)
    requires IsDigit(c) && AllDigits(d)
    ensures AllDigits([c] + d)
    decreases |d|
  {
    if |d| > 0 {
      DigitsCons(c, d[..|d| - 1]);
      assert ([c] + d)[..|d|] == [c] + d[..|d| - 1];
    }
  }

  /** Dropping the first digit of a string of digits leaves digits. */
  lemma {:induction false} DigitsTail(d: string)
    requires |d| > 0 && AllDigits(d)
    ensures AllDigits(d[1..])
    decreases |d|
  {
    if |d| > 1 {
      DigitsTail(d[..|d| - 1]);
      assert d[..|d| - 1][1..] == d[1..][..|d| - 2];
    } else {
      assert d[1..] == [];
    }
  }
}
