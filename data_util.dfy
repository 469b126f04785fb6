/**
 * DataUtil: trimming and the typed conversions behind the typed attribute
 * accessors of the input cursor. A Java null string is `None`.
 */
module DataUtil {
  import opened Wrappers
  import opened JavaStrings

  /** String.trim() strips every character at or below U+0020. */
  predicate IsTrimmable(c: char) { c <= ' ' }

  predicate AllTrimmable(s: string) { forall i :: 0 <= i < |s| ==> IsTrimmable(s[i]) }

  function TrimStart(s: string): (t: string)
    ensures |t| <= |s| && t == s[|s| - |t|..]
    ensures AllTrimmable(s[..|s| - |t|])
    ensures |t| > 0 ==> !IsTrimmable(t[0])
  {
    if |s| > 0 && IsTrimmable(s[0]) then
      var t := TrimStart(s[1..]);
      TrimmedFront(s, t);
      t
    else s
  }

  /** Cutting one more trimmable character in front of what was cut from s[1..]. */
  lemma TrimmedFront(s: string, t: string)
    requires |s| > 0 && IsTrimmable(s[0])
    requires |t| <= |s| - 1 && t == s[1..][|s| - 1 - |t|..] && AllTrimmable(s[1..][..|s| - 1 - |t|])
    ensures t == s[|s| - |t|..] && AllTrimmable(s[..|s| - |t|])
  {
    var k := |s| - |t|;
    forall i | 0 <= i < k
      ensures IsTrimmable(s[..k][i])
    {
      if i > 0 {
        assert s[..k][i] == s[1..][..k - 1][i - 1];
      }
    }
  }

  function TrimEnd(s: string): (t: string)
    ensures |t| <= |s| && t == s[..|t|]
    ensures AllTrimmable(s[|t|..])
    ensures |t| > 0 ==> !IsTrimmable(t[|t| - 1])
  {
    if |s| > 0 && IsTrimmable(s[|s| - 1]) then
      var t := TrimEnd(s[..|s| - 1]);
      assert s[|t|..] == s[..|s| - 1][|t|..] + [s[|s| - 1]];
      t
    else s
  }

  /** Java's String.trim(). */
  function JavaTrim(s: string): string
  {
    TrimEnd(TrimStart(s))
  }

  /** How many characters String.trim() cuts from the front. */
  function TrimmedLead(s: string): (a: nat)
    ensures a <= |s| - |JavaTrim(s)|
  {
    |s| - |TrimStart(s)|
  }

  /**
   * The trimmed text is the slice of the input after the cut front, it
   * neither starts nor ends with a trimmable character, and everything
   * cut off at either end was trimmable.
   */
  lemma JavaTrimSlice(s: string)
    ensures var t, a := JavaTrim(s), TrimmedLead(s); t == s[a..a + |t|]
    ensures AllTrimmable(s[..TrimmedLead(s)])
    ensures AllTrimmable(s[TrimmedLead(s) + |JavaTrim(s)|..])
    ensures var t := JavaTrim(s); |t| > 0 ==> !IsTrimmable(t[0]) && !IsTrimmable(t[|t| - 1])
  {
    var u := TrimStart(s);
    var t := TrimEnd(u);
    PrefixOfSuffix(s, u, t);
    if |t| > 0 {
      assert t[0] == u[0];
    }
  }

  /** A prefix t of the suffix u of s is a slice of s, and so is what follows t in u. */
  lemma PrefixOfSuffix(s: string, u: string, t: string)
    requires |u| <= |s| && u == s[|s| - |u|..]
    requires |t| <= |u| && t == u[..|t|]
    ensures t == s[|s| - |u|..|s| - |u| + |t|]
    ensures u[|t|..] == s[|s| - |u| + |t|..]
  {
  }

  /** Trimming text that has nothing to strip leaves it as it is. */
  lemma JavaTrimFixed(s: string)
    requires |s| > 0 ==> !IsTrimmable(s[0]) && !IsTrimmable(s[|s| - 1])
    ensures JavaTrim(s) == s
  {
  }

  /** Surrounding whitespace makes no difference to the trimmed text. */
  lemma {:induction false} JavaTrimPadding(w1: string, s: string, w2: string)
    requires AllTrimmable(w1) && AllTrimmable(w2)
    ensures JavaTrim(w1 + s + w2) == JavaTrim(s)
  {
    assert w1 + s + w2 == w1 + (s + w2);
    TrimStartPadding(w1, s + w2);
    TrimStartSuffix(s, w2);
    if TrimStart(s) != [] {
      TrimEndPadding(TrimStart(s), w2);
    }
  }

  lemma {:induction false} TrimStartPadding(w: string, s: string)
    requires AllTrimmable(w)
    ensures TrimStart(w + s) == TrimStart(s)
    decreases |w|
  {
    if |w| > 0 {
      assert (w + s)[1..] == w[1..] + s;
      TrimStartPadding(w[1..], s);
    } else {
      assert w + s == s;
    }
  }

  lemma {:induction false} TrimStartSuffix(s: string, w: string)
    requires AllTrimmable(w)
    ensures TrimStart(s) != [] ==> TrimStart(s + w) == TrimStart(s) + w
    ensures TrimStart(s) == [] ==> TrimStart(s + w) == []
    decreases |s|
  {
    if |s| == 0 {
      assert s + w == w;
      TrimStartPadding(w, []);
      assert w + [] == w;
    } else if IsTrimmable(s[0]) {
      assert (s + w)[1..] == s[1..] + w;
      TrimStartSuffix(s[1..], w);
    }
  }

  lemma {:induction false} TrimEndPadding(u: string, w: string)
    requires AllTrimmable(w)
    ensures TrimEnd(u + w) == TrimEnd(u)
    decreases |w|
  {
    if |w| == 0 {
      assert u + w == u;
    } else {
      assert (u + w)[..|u + w| - 1] == u + w[..|w| - 1];
      TrimEndPadding(u, w[..|w| - 1]);
    }
  }

  /** A non-blank value without surrounding whitespace comes out of trim as it went in. */
  lemma TrimUntrimmed(s: string)
    requires |s| > 0 && !IsTrimmable(s[0]) && !IsTrimmable(s[|s| - 1])
    ensures Trim(Some(s)) == Some(s) && EnsureNotEmpty(Some(s)) == Ok(s)
  {
    JavaTrimFixed(s);
  }

  /** DataUtil.trim: null, or the trimmed text unless it is empty. */
  function Trim(v: Option<string>): (r: Option<string>)
    ensures r.Some? ==> v.Some? && |r.value| > 0 && r.value == JavaTrim(v.value)
    ensures r.None? ==> v.None? || JavaTrim(v.value) == []
  {
    match v
    case None => None
    case Some(s) => var t := JavaTrim(s); if |t| > 0 then Some(t) else None
  }

  datatype DataError = MissingValue | InvalidBoolean(text: string) | InvalidNumber(text: string, why: NumberError)

  /** DataUtil.ensureNotEmpty: the trimmed text, or an error for null/blank. */
  function EnsureNotEmpty(v: Option<string>): (r: Result<string, DataError>)
    ensures r.Ok? <==> Trim(v).Some?
    ensures r.Ok? ==> r.value == Trim(v).value
    ensures r.Err? ==> r.error == MissingValue
  {
    match Trim(v)
    case None => Err(MissingValue)
    case Some(t) => Ok(t)
  }

  /** The text String.valueOf(boolean) gives. */
  function BoolText(b: bool): string
  {
    if b then "true" else "false"
  }

  /**
   * The boolean lookup table: "true" and "false", plus the digits "0" and
   * "1" mapped to `zeroMeans` and its negation.
   */
  function BoolTable(zeroMeans: bool, t: string): Option<bool>
  {
    if t == "true" then Some(true)
    else if t == "false" then Some(false)
    else if t == "0" then Some(zeroMeans)
    else if t == "1" then Some(!zeroMeans)
    else None
  }

  function ParseBooleanWith(zeroMeans: bool, v: Option<string>): (r: Result<bool, DataError>)
    ensures r.Ok? ==> Trim(v).Some? && BoolTable(zeroMeans, Trim(v).value) == Some(r.value)
    ensures r.Err? ==> r.error == MissingValue || (Trim(v).Some? && r.error == InvalidBoolean(Trim(v).value))
  {
    match EnsureNotEmpty(v)
    case Err(e) => Err(e)
    case Ok(t) =>
      match BoolTable(zeroMeans, t)
      case Some(b) => Ok(b)
      case None => Err(InvalidBoolean(t))
  }

  /** DataUtil.parseBoolean(String) exactly as the table is filled in the source. */
  function ParseBooleanAsWritten(v: Option<string>): (r: Result<bool, DataError>)
    ensures r.Ok? <==> Trim(v).Some? && Trim(v).value in {"true", "false", "0", "1"}
  {
    ParseBooleanWith(true, v)
  }

  /** As written, "1" reads as false and "0" as true. */
  lemma ParseBooleanAsWrittenSwapsDigits()
    ensures ParseBooleanAsWritten(Some("1")) == Ok(false)
    ensures ParseBooleanAsWritten(Some("0")) == Ok(true)
  {
    JavaTrimFixed("1");
    JavaTrimFixed("0");
  }

  /**
   * DataUtil.parseBoolean(String) with the intended table: after trimming,
   * "true" and "1" are true, "false" and "0" are false, a blank or null
   * value is a missing value and any other text is not a boolean.
   */
  function ParseBoolean(v: Option<string>): (r: Result<bool, DataError>)
    ensures r == Err(MissingValue) <==> Trim(v).None?
    ensures r.Ok? <==> Trim(v).Some? && Trim(v).value in {"true", "false", "0", "1"}
    ensures r.Ok? ==> (r.value <==> Trim(v).value in {"true", "1"})
    ensures Trim(v).Some? && r.Err? ==> r.error == InvalidBoolean(Trim(v).value)
  {
    ParseBooleanWith(false, v)
  }

  /** The intended table reads the digits the XML Schema way. */
  lemma ParseBooleanDigits()
    ensures ParseBoolean(Some("1")) == Ok(true)
    ensures ParseBoolean(Some("0")) == Ok(false)
  {
    JavaTrimFixed("1");
    JavaTrimFixed("0");
  }

  /** Reading back the text written for a boolean gives that boolean. */
  lemma ParseBooleanRoundTrip(b: bool)
    ensures ParseBoolean(Some(BoolText(b))) == Ok(b)
  {
    TrimUntrimmed(BoolText(b));
  }

  /** Whitespace around a boolean value does not change how it reads. */
  lemma ParseBooleanPadding(w1: string, s: string, w2: string)
    requires AllTrimmable(w1) && AllTrimmable(w2)
    ensures ParseBoolean(Some(w1 + s + w2)) == ParseBoolean(Some(s))
  {
    JavaTrimPadding(w1, s, w2);
  }

  /**
   * DataUtil.parseBoolean(String, boolean) over the table `zeroMeans`
   * selects: the trimmed value looked up, the default when the lookup
   * finds nothing (a null or blank value included). It never fails.
   */
  function ParseBooleanOrWith(zeroMeans: bool, v: Option<string>, def: bool): (r: bool)
    ensures ParseBooleanWith(zeroMeans, v).Ok? ==> r == ParseBooleanWith(zeroMeans, v).value
    ensures ParseBooleanWith(zeroMeans, v).Err? ==> r == def
  {
    match Trim(v)
    case None => def
    case Some(t) => if BoolTable(zeroMeans, t).Some? then BoolTable(zeroMeans, t).value else def
  }

  /** DataUtil.parseBoolean(String, boolean) over the table as filled in the source. */
  function ParseBooleanOrAsWritten(v: Option<string>, def: bool): (r: bool)
    ensures ParseBooleanAsWritten(v).Ok? ==> r == ParseBooleanAsWritten(v).value
    ensures ParseBooleanAsWritten(v).Err? ==> r == def
  {
    ParseBooleanOrWith(true, v, def)
  }

  /** As written, the lenient form also reads "1" as false and "0" as true, whatever the default. */
  lemma ParseBooleanOrAsWrittenSwapsDigits(def: bool)
    ensures ParseBooleanOrAsWritten(Some("1"), def) == false
    ensures ParseBooleanOrAsWritten(Some("0"), def) == true
  {
    ParseBooleanAsWrittenSwapsDigits();
  }

  /**
   * DataUtil.parseBoolean(String, boolean) over the intended table: the
   * value the strict form reads, or the default wherever the strict form
   * fails.
   */
  function ParseBooleanOr(v: Option<string>, def: bool): (r: bool)
    ensures ParseBoolean(v).Ok? ==> r == ParseBoolean(v).value
    ensures ParseBoolean(v).Err? ==> r == def
  {
    ParseBooleanOrWith(false, v, def)
  }

  /** With the intended table the lenient form reads the digits the XML Schema way, whatever the default. */
  lemma ParseBooleanOrDigits(def: bool)
    ensures ParseBooleanOr(Some("1"), def) == true
    ensures ParseBooleanOr(Some("0"), def) == false
  {
    ParseBooleanDigits();
  }

  /** Integer.parseInt / Long.parseLong applied to the trimmed, non-blank value. */
  function ParseNumber(v: Option<string>, lo: int, hi: int): (r: Result<int, DataError>)
    ensures r == Err(MissingValue) <==> Trim(v).None?
    ensures r.Ok? ==> lo <= r.value <= hi && Trim(v).Some? && ParseInteger(Trim(v).value, lo, hi) == Ok(r.value)
    ensures r.Err? && Trim(v).Some? ==> ParseInteger(Trim(v).value, lo, hi).Err?
  {
    match EnsureNotEmpty(v)
    case Err(e) => Err(e)
    case Ok(t) =>
      match ParseInteger(t, lo, hi)
      case Ok(i) => Ok(i)
      case Err(why) => Err(InvalidNumber(t, why))
  }

  /**
   * The default forms: a null or blank value gives the default; any other
   * value is parsed and may still fail, exactly as the strict form.
   */
  function ParseNumberOr(v: Option<string>, def: int, lo: int, hi: int): (r: Result<int, DataError>)
    ensures Trim(v).None? ==> r == Ok(def)
    ensures Trim(v).Some? ==> r == ParseNumber(v, lo, hi)
  {
    match Trim(v)
    case None => Ok(def)
    case Some(t) =>
      match ParseInteger(t, lo, hi)
      case Ok(i) => Ok(i)
      case Err(why) => Err(InvalidNumber(t, why))
  }

  /** DataUtil.parseInt(String). */
  function ParseInt(v: Option<string>): (r: Result<int, DataError>)
    ensures r.Ok? ==> INT_MIN <= r.value <= INT_MAX
    ensures r.Ok? ==> Trim(v).Some? && ParseInteger(Trim(v).value, INT_MIN, INT_MAX) == Ok(r.value)
    ensures r.Err? && Trim(v).Some? ==> ParseInteger(Trim(v).value, INT_MIN, INT_MAX).Err?
    ensures r == Err(MissingValue) <==> Trim(v).None?
  {
    ParseNumber(v, INT_MIN, INT_MAX)
  }

  /** DataUtil.parseInt(String, int). */
  function ParseIntOr(v: Option<string>, def: int): (r: Result<int, DataError>)
    ensures Trim(v).None? ==> r == Ok(def)
    ensures Trim(v).Some? ==> r == ParseInt(v)
  {
    ParseNumberOr(v, def, INT_MIN, INT_MAX)
  }

  /** DataUtil.parseLong(String). */
  function ParseLong(v: Option<string>): (r: Result<int, DataError>)
    ensures r.Ok? ==> LONG_MIN <= r.value <= LONG_MAX
    ensures r.Ok? ==> Trim(v).Some? && ParseInteger(Trim(v).value, LONG_MIN, LONG_MAX) == Ok(r.value)
    ensures r.Err? && Trim(v).Some? ==> ParseInteger(Trim(v).value, LONG_MIN, LONG_MAX).Err?
    ensures r == Err(MissingValue) <==> Trim(v).None?
  {
    ParseNumber(v, LONG_MIN, LONG_MAX)
  }

  /** DataUtil.parseLong(String, long). */
  function ParseLongOr(v: Option<string>, def: int): (r: Result<int, DataError>)
    ensures Trim(v).None? ==> r == Ok(def)
    ensures Trim(v).Some? ==> r == ParseLong(v)
  {
    ParseNumberOr(v, def, LONG_MIN, LONG_MAX)
  }

  /** Reading back the decimal text of any in-range number gives that number. */
  lemma ParseNumberRoundTrip(i: int, lo: int, hi: int)
    requires lo <= i <= hi
    ensures ParseNumber(Some(IntToString(i)), lo, hi) == Ok(i)
  {
    var s := IntToString(i);
    assert IsDigit(s[|s| - 1]);
    assert s[0] == '-' || IsDigit(s[0]);
    JavaTrimFixed(s);
    ParseIntToString(i, lo, hi);
  }

  /** The int and long parsers read back every value of their width. */
  lemma ParseIntLongRoundTrip(i: int)
    ensures INT_MIN <= i <= INT_MAX ==> ParseInt(Some(IntToString(i))) == Ok(i)
    ensures LONG_MIN <= i <= LONG_MAX ==> ParseLong(Some(IntToString(i))) == Ok(i)
  {
    if INT_MIN <= i <= INT_MAX { ParseNumberRoundTrip(i, INT_MIN, INT_MAX); }
    if LONG_MIN <= i <= LONG_MAX { ParseNumberRoundTrip(i, LONG_MIN, LONG_MAX); }
  }
}
