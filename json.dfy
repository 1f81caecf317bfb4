/** The scalar JSON values that the queue messages, the catalog replies and the
    database parameters carry, with the Python conversions applied to them:
    truthiness, `== False`, `str()` and `int()`. */
module Json {
  import opened Wrappers
  import opened Text

  /** A JSON scalar as `json.loads` hands it to Python. */
  datatype Value = Null | Bool(b: bool) | Int(i: int) | Str(s: string)

  /** A JSON object: a dictionary from keys to scalars. */
  type Object = map<string, Value>

  /** `o.get(key, default)` */
  function Get(o: Object, key: string, default: Value): (v: Value)
    ensures key in o ==> v == o[key]
    ensures key !in o ==> v == default
  {
    if key in o then o[key] else default
  }

  /** Python truthiness: `None`, `False`, `0` and `""` are false. */
  predicate Truthy(v: Value) {
    match v
    case Null => false
    case Bool(b) => b
    case Int(i) => i != 0
    case Str(s) => s != ""
  }

  /** Python's `v == False`: true of `False` and of `0`, and of nothing else; in
      particular `"" == False` and `None == False` are false. */
  predicate EqualsFalse(v: Value) {
    v == Bool(false) || v == Int(0)
  }

  function DigitChar(d: nat): (c: char)
    requires d < 10
    ensures IsDigit(c) && (c as int) - ('0' as int) == d
  {
    (('0' as int) + d) as char
  }

  /** `str(n)` for a natural number: its decimal digits, most significant first. */
  function NatToString(n: nat): (s: string)
    decreases n
  {
    if n < 10 then [DigitChar(n)] else NatToString(n / 10) + [DigitChar(n % 10)]
  }

  /** `str(i)` for an integer. */
  function IntToString(i: int): string {
    if i < 0 then "-" + NatToString(-i) else NatToString(i)
  }

  function DigitValue(c: char): nat
    requires IsDigit(c)
  {
    (c as int) - ('0' as int)
  }

  /** The number a string of decimal digits denotes. */
  function DigitsValue(s: string): nat
    requires forall k :: 0 <= k < |s| ==> IsDigit(s[k])
  {
    if s == [] then 0 else DigitsValue(s[..|s| - 1]) * 10 + DigitValue(s[|s| - 1])
  }

  /** Reading back the decimal digits of `n` gives `n`. */
  lemma {:induction false} NatToStringRoundTrip(n: nat)
    ensures AllDigits(NatToString(n))
    ensures DigitsValue(NatToString(n)) == n
    decreases n
  {
    if n >= 10 {
      NatToStringRoundTrip(n / 10);
      var s := NatToString(n);
      assert s[..|s| - 1] == NatToString(n / 10);
    }
  }

  /** A printed integer starts with a minus sign exactly when it is negative. */
  lemma IntToStringSign(i: int)
    ensures |IntToString(i)| > 0
    ensures IntToString(i)[0] == '-' <==> i < 0
  {
    NatToStringRoundTrip(if i < 0 then -i else i);
  }

  /** Distinct integers print differently. */
  lemma IntToStringInjective(a: int, b: int)
    requires IntToString(a) == IntToString(b)
    ensures a == b
  {
    NatToStringRoundTrip(if a < 0 then -a else a);
    NatToStringRoundTrip(if b < 0 then -b else b);
    IntToStringSign(a);
    IntToStringSign(b);
    if a < 0 {
      assert NatToString(-a) == IntToString(a)[1..] == IntToString(b)[1..] == NatToString(-b);
    }
  }

  /** `str(v)` */
  function PyStr(v: Value): string {
    match v
    case Null => "None"
    case Bool(b) => if b then "True" else "False"
    case Int(i) => IntToString(i)
    case Str(s) => s
  }

  /** `str(v)` is empty only for the empty string: a missing key (`None`), `0` or
      `False` all print as non-empty text. */
  lemma PyStrEmptyIff(v: Value)
    ensures PyStr(v) == "" <==> v == Str("")
  {
    if v.Int? {
      NatToStringRoundTrip(if v.i < 0 then -v.i else v.i);
    }
  }

  /** `int(v)`: integers as they are, booleans as 0/1, and text holding an
      optionally signed run of decimal digits (surrounding whitespace allowed);
      anything else raises. */
  function PyInt(v: Value): (r: Result<int>)
    ensures v.Null? ==> r == Raised(TypeError)
    ensures v.Int? ==> r == Ok(v.i)
  {
    match v
    case Null => Raised(TypeError)
    case Bool(b) => Ok(if b then 1 else 0)
    case Int(i) => Ok(i)
    case Str(s) => ParseInt(Strip(s))
  }

  /** An optionally signed run of decimal digits. */
  function ParseInt(t: string): Result<int> {
    if |t| > 0 && (t[0] == '-' || t[0] == '+') && AllDigits(t[1..]) then
      Ok(if t[0] == '-' then -(DigitsValue(t[1..]) as int) else DigitsValue(t[1..]))
    else if AllDigits(t) then Ok(DigitsValue(t))
    else Raised(ValueError)
  }

  /** `int(str(i)) == i`: printing an integer and parsing it back is the identity. */
  lemma {:induction false} PyIntOfPyStr(i: int)
    ensures PyInt(Str(IntToString(i))) == Ok(i)
  {
    var n: nat := if i < 0 then -i else i;
    NatToStringRoundTrip(n);
    var s := IntToString(i);
    assert !IsSpace(s[0]) && !IsSpace(s[|s| - 1]);
    StripIdempotent(s);
    if i < 0 {
      assert s[1..] == NatToString(n);
    } else {
      assert !(s[0] == '-' || s[0] == '+');
    }
  }
}
