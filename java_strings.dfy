/**
 * The string conversions of the Java library the model relies on: the
 * decimal text of integers, as produced by String.valueOf(int/long) and read
 * back by Integer.parseInt / Long.parseLong, and what
 * StringBuilder.append writes for a null string.
 */
module JavaStrings {
  import opened Wrappers

  /** What StringBuilder.append writes for a possibly null string. */
  function JavaText(s: Option<string>): string
  {
    if s.None? then "null" else s.value
  }

  /** Concatenation regroups freely; proved apart so that no larger context is searched for it. */
  lemma ConcatAssoc(a: string, b: string, c: string)
    ensures (a + b) + c == a + (b + c)
  {
  }

  const INT_MIN: int := -0x8000_0000
  const INT_MAX: int := 0x7fff_ffff
  const LONG_MIN: int := -0x8000_0000_0000_0000
  const LONG_MAX: int := 0x7fff_ffff_ffff_ffff

  predicate IsDigit(c: char) { '0' <= c <= '9' }

  predicate AllDigits(s: string) { forall i :: 0 <= i < |s| ==> IsDigit(s[i]) }

  function DigitValue(c: char): nat
    requires IsDigit(c)
  {
    (c as int) - ('0' as int)
  }

  function DigitChar(d: nat): (c: char)
    requires d < 10
    ensures IsDigit(c) && DigitValue(c) == d
  {
    (('0' as int) + d) as char
  }

  /** The value of a string of decimal digits, most significant first. */
  function DigitsValue(s: string): nat
    requires AllDigits(s)
  {
    if |s| == 0 then 0 else DigitsValue(s[..|s| - 1]) * 10 + DigitValue(s[|s| - 1])
  }

  /** The shortest decimal text of a natural number. */
  function NatToDigits(n: nat): (s: string)
    ensures |s| > 0 && AllDigits(s)
    ensures |s| > 1 ==> s[0] != '0'
  {
    if n < 10 then [DigitChar(n)] else NatToDigits(n / 10) + [DigitChar(n % 10)]
  }

  lemma {:induction false} NatToDigitsValue(n: nat)
    ensures DigitsValue(NatToDigits(n)) == n
    decreases n
  {
    if n >= 10 {
      var s := NatToDigits(n);
      assert s[..|s| - 1] == NatToDigits(n / 10);
      NatToDigitsValue(n / 10);
    }
  }

  /** The text String.valueOf gives for an integer. */
  function IntToString(i: int): (s: string)
    ensures |s| > 0
    ensures i < 0 <==> s[0] == '-'
  {
    if i < 0 then "-" + NatToDigits(-i) else NatToDigits(i)
  }

  datatype NumberError = EmptyNumber | NotANumber | OutOfRange

  /**
   * Integer.parseInt / Long.parseLong over [lo, hi]: an optional sign
   * ('-' or '+'), then at least one digit, and a value in range. Only the
   * ASCII digits '0'..'9' are read as digits here; Java also accepts the
   * other Unicode decimal digits.
   */
  function ParseInteger(s: string, lo: int, hi: int): (r: Result<int, NumberError>)
    ensures r.Ok? ==> lo <= r.value <= hi
    ensures |s| == 0 <==> r == Err(EmptyNumber)
  {
    if |s| == 0 then Err(EmptyNumber)
    else
      var start := if s[0] == '-' || s[0] == '+' then 1 else 0;
      var digits := s[start..];
      if |digits| == 0 || !AllDigits(digits) then Err(NotANumber)
      else
        var v: int := if s[0] == '-' then 0 - DigitsValue(digits) as int else DigitsValue(digits);
        if lo <= v <= hi then Ok(v) else Err(OutOfRange)
  }

  /** What ParseInteger accepts: a sign at most, then digits only. */
  lemma ParseIntegerShape(s: string, lo: int, hi: int)
    requires ParseInteger(s, lo, hi).Ok?
    ensures exists k :: 0 <= k <= 1 && k < |s| && AllDigits(s[k..]) && (k == 1 ==> s[0] in "+-")
  {
    var k := if s[0] == '-' || s[0] == '+' then 1 else 0;
    assert AllDigits(s[k..]);
  }

  /** Parsing the decimal text of any in-range integer gives that integer back. */
  lemma ParseIntToString(i: int, lo: int, hi: int)
    requires lo <= i <= hi
    ensures ParseInteger(IntToString(i), lo, hi) == Ok(i)
  {
    var s := IntToString(i);
    if i < 0 {
      assert s[1..] == NatToDigits(-i);
      NatToDigitsValue(-i);
    } else {
      assert s[0..] == NatToDigits(i);
      assert IsDigit(s[0]);
      NatToDigitsValue(i);
    }
  }
}
