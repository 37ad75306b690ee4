/**
 * The values a decoded JSON token response carries, and the two Python
 * built-ins applied to them: truthiness (`if v:`) and `int(v)`.
 */
module PyValue {
  import opened Results
  import opened Text

  /** A decoded JSON value as Python holds it; floating-point numbers are not
      modelled. */
  datatype Json =
    | JNull
    | JBool(b: bool)
    | JInt(i: int)
    | JStr(s: string)
    | JArray(items: seq<Json>)
    | JObject(fields: map<string, Json>)

  /** Python truthiness: `None`, `False`, `0` and empty containers are false. */
  predicate Truthy(v: Json) {
    match v
    case JNull => false
    case JBool(b) => b
    case JInt(i) => i != 0
    case JStr(s) => |s| > 0
    case JArray(items) => |items| > 0
    case JObject(fields) => |fields| > 0
  }

  predicate IsDigit(c: char) {
    '0' <= c <= '9'
  }

  predicate AllDigits(s: string) {
    forall k :: 0 <= k < |s| ==> IsDigit(s[k])
  }

  function DigitValue(c: char): (d: nat)
    requires IsDigit(c)
    ensures d < 10
  {
    (c as int) - ('0' as int)
  }

  function DigitChar(d: nat): (c: char)
    requires d < 10
    ensures IsDigit(c) && DigitValue(c) == d
  {
    (('0' as int) + d) as char
  }

  /** The value of a run of decimal digits, most significant first. */
  function DigitsValue(ds: string): nat
    requires |ds| > 0 && AllDigits(ds)
  {
    if |ds| == 1 then DigitValue(ds[0])
    else DigitsValue(ds[..|ds| - 1]) * 10 + DigitValue(ds[|ds| - 1])
  }

  /** The shortest decimal spelling of `n`, as Python's `str(n)`. */
  function Digits(n: nat): (ds: string)
    ensures |ds| > 0 && AllDigits(ds)
    ensures NoSpace(ds)
    ensures |ds| > 1 ==> ds[0] != '0'
  {
    if n < 10 then [DigitChar(n)] else Digits(n / 10) + [DigitChar(n % 10)]
  }

  /** Reading back the spelling of `n` gives `n`. */
  lemma {:induction false} DigitsRoundTrip(n: nat)
    ensures DigitsValue(Digits(n)) == n
  {
    if n >= 10 {
      var ds := Digits(n);
      assert ds[..|ds| - 1] == Digits(n / 10);
      DigitsRoundTrip(n / 10);
    }
  }

  /** Python's `str(n)` for an integer. */
  function FormatInt(n: int): (s: string)
    ensures |s| > 0 && NoSpace(s)
  {
    if n < 0 then "-" + Digits(-n) else Digits(n)
  }

  /** `t` spells `n` in the form `int()` accepts once whitespace is gone:
      one or more decimal digits, optionally preceded by `+` or `-`. */
  ghost predicate SpellsInt(t: string, n: int) {
    || (|t| > 0 && AllDigits(t) && DigitsValue(t) == n)
    || (|t| > 1 && t[0] == '+' && AllDigits(t[1..]) && DigitsValue(t[1..]) == n)
    || (|t| > 1 && t[0] == '-' && AllDigits(t[1..]) && DigitsValue(t[1..]) == -n)
  }

  /** An optional sign followed by one or more decimal digits, nothing
      else; other text is `None`. */
  function ParseSigned(t: string): Option<int>
  {
    var signed := |t| > 0 && (t[0] == '+' || t[0] == '-');
    var body := if signed then t[1..] else t;
    if |body| > 0 && AllDigits(body) then
      var magnitude: int := DigitsValue(body);
      Some(if signed && t[0] == '-' then -magnitude else magnitude)
    else None
  }

  /** The ASCII information separators U+001C to U+001F. `str.isspace`
      counts them as whitespace, but `int()` does not: it turns only
      non-ASCII whitespace into spaces and then skips the six ASCII
      whitespace characters, so a separator anywhere is rejected. */
  predicate IsInfoSeparator(c: char) {
    '\U{1C}' <= c <= '\U{1F}'
  }

  predicate HasInfoSeparator(s: string) {
    exists k :: 0 <= k < |s| && IsInfoSeparator(s[k])
  }

  /** Python's `int(s)` for a string: surrounding whitespace is ignored, then
      an optional sign and one or more decimal digits; anything else raises
      `ValueError` (here `None`). Apart from the information separators,
      the whitespace `int()` skips is exactly the set `strip()` removes. */
  function ParseInt(s: string): Option<int>
  {
    if HasInfoSeparator(s) then None else ParseSigned(Strip(s))
  }

  /** The sign-and-digits reader accepts exactly the spellings of integers,
      each with its own value. */
  lemma ParseSignedSpelling(t: string, n: int)
    ensures ParseSigned(t) == Some(n) <==> SpellsInt(t, n)
  {
  }

  /** `int(s)` succeeds with `n` exactly when `s` holds no information
      separator and its strip spells `n`: the parser accepts nothing else
      and rejects nothing of that form. */
  lemma ParseIntSpelling(s: string, t: string, n: int)
    requires IsStripOf(s, t)
    ensures ParseInt(s) == Some(n) <==> !HasInfoSeparator(s) && SpellsInt(t, n)
  {
    var i :| IsStripAt(s, t, i);
    StripUnique(s, t, i);
    ParseSignedSpelling(t, n);
  }

  /** Text that is not a bare signed run of digits is rejected: a decimal
      point, the empty string, a sign separated from its digits, and digits
      after an information separator. */
  lemma ParseIntRejects()
    ensures ParseInt("1.5") == None
    ensures ParseInt("") == None
    ensures ParseInt("- 5") == None
    ensures ParseInt("\U{1C}5") == None
  {
    RejectsPoint();
    assert Strip("") == "";
    RejectsSpacedSign();
    assert IsInfoSeparator("\U{1C}5"[0]);
  }

  lemma RejectsPoint()
    ensures ParseInt("1.5") == None
  {
    RejectsInnerNonDigit("1.5", 1);
  }

  lemma RejectsSpacedSign()
    ensures ParseInt("- 5") == None
  {
    RejectsInnerNonDigit("- 5", 1);
  }

  /** A string whose ends are not whitespace and which has, after its first
      character, something other than a digit, is rejected. */
  lemma RejectsInnerNonDigit(s: string, k: int)
    requires |s| > 0 && !IsSpace(s[0]) && !IsSpace(s[|s| - 1])
    requires 0 < k < |s| && !IsDigit(s[k])
    ensures ParseInt(s) == None
  {
    if !HasInfoSeparator(s) {
      assert IsStripAt(s, s, 0);
      StripUnique(s, s, 0);
      assert s[1..][k - 1] == s[k];
    }
  }

  /** Whitespace without information separators around a string without
      whitespace brings in no separator. */
  lemma NoSeparatorInPadded(pad: string, s: string, pad': string)
    requires !HasInfoSeparator(pad) && NoSpace(s) && !HasInfoSeparator(pad')
    ensures !HasInfoSeparator(pad + s + pad')
  {
    var w := pad + s + pad';
    forall k | 0 <= k < |w| ensures !IsInfoSeparator(w[k]) {
      if k < |pad| {
        assert w[k] == pad[k];
      } else if k < |pad| + |s| {
        assert w[k] == s[k - |pad|];
      } else {
        assert w[k] == pad'[k - |pad| - |s|];
      }
    }
  }

  lemma ParseSignedFormat(n: int)
    ensures ParseSigned(FormatInt(n)) == Some(n)
  {
    var s := FormatInt(n);
    if n < 0 {
      var ds := Digits(-n);
      assert s[0] == '-' && s[1..] == ds;
      DigitsRoundTrip(-n);
    } else {
      assert IsDigit(s[0]);
      DigitsRoundTrip(n);
    }
  }

  /** `int(str(n)) == n`, and likewise with whitespace other than the
      information separators around the digits. */
  lemma ParseFormatRoundTrip(n: int, pad: string, pad': string)
    requires AllSpace(pad) && AllSpace(pad')
    requires !HasInfoSeparator(pad) && !HasInfoSeparator(pad')
    ensures ParseInt(FormatInt(n)) == Some(n)
    ensures ParseInt(pad + FormatInt(n) + pad') == Some(n)
  {
    NoSeparatorInPadded("", FormatInt(n), "");
    assert "" + FormatInt(n) + "" == FormatInt(n);
    NoSeparatorInPadded(pad, FormatInt(n), pad');
    StripNoSpace(FormatInt(n));
    StripPadded(pad, FormatInt(n), pad');
    ParseSignedFormat(n);
  }

  /** Python's `int(v)`: a bool gives 0 or 1, an integer itself, a string its
      parsed value; `None`, lists and dicts raise `TypeError`. Every raise
      is `None` here. */
  function ToInt(v: Json): Option<int>
  {
    match v
    case JBool(b) => Some(if b then 1 else 0)
    case JInt(i) => Some(i)
    case JStr(s) => ParseInt(s)
    case _ => None
  }

  /** `int(v)` succeeds with `n` for a bool that is `n`, for the integer
      `n`, and for a string without information separators whose strip
      spells `n`; for nothing else. */
  lemma ToIntSpelling(v: Json, n: int)
    ensures ToInt(v) == Some(n) <==>
              || (v.JBool? && n == (if v.b then 1 else 0))
              || v == JInt(n)
              || (v.JStr? && !HasInfoSeparator(v.s) && SpellsInt(Strip(v.s), n))
  {
    if v.JStr? {
      ParseIntSpelling(v.s, Strip(v.s), n);
    }
  }

  /** The false values are exactly `None`, `False`, `0`, the empty string
      and the empty containers. */
  lemma FalsyValues(v: Json)
    ensures !Truthy(v) <==> v in {JNull, JBool(false), JInt(0), JStr(""), JArray([]), JObject(map[])}
  {
    if v.JObject? && |v.fields| == 0 {
      assert v.fields == map[];
    }
  }

  /** The string "0" is the witness that truthiness is decided before
      conversion: it is true, yet converts to zero. */
  lemma ZeroStringIsTruthy()
    ensures Truthy(JStr("0")) && ToInt(JStr("0")) == Some(0)
  {
    ParseFormatRoundTrip(0, "", "");
    assert FormatInt(0) == "0";
  }
}
