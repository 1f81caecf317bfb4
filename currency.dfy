/** The FIPE price as the catalog prints it ("R$ 10.234,56") and as the ingestors
    store it: the currency sign and the thousands dots are removed, the decimal
    comma becomes a point, and the text is read as a number (an empty text is 0). */
module Currency {
  import opened Wrappers
  import opened Text
  import opened Json

  /** `s.replace("R$ ", "").replace(".", "").replace(",", ".")` */
  function Normalize(s: string): string {
    ReplaceAll(ReplaceAll(ReplaceAll(s, "R$ ", ""), ".", ""), ",", ".")
  }

  function Pow10(k: nat): (p: nat)
    ensures p >= 1
  {
    if k == 0 then 1 else 10 * Pow10(k - 1)
  }

  /** Empty, or all decimal digits. */
  predicate OptDigits(s: string) {
    s == [] || AllDigits(s)
  }

  /** The number written by the digits `whole` '.' `frac`. */
  function DecimalValue(whole: string, frac: string): real
    requires OptDigits(whole) && OptDigits(frac)
  {
    DigitsValue(whole) as real + DigitsValue(frac) as real / Pow10(|frac|) as real
  }

  /** `float(t)` for the plain decimal forms: surrounding whitespace, an optional
      sign, and digits with at most one decimal point and at least one digit.
      Anything else raises ValueError. */
  function ParseFloat(t0: string): (r: Result<real>)
    ensures t0 == "" ==> r == Raised(ValueError)
  {
    var t := Strip(t0);
    var negative := |t| > 0 && t[0] == '-';
    var body := if |t| > 0 && (t[0] == '-' || t[0] == '+') then t[1..] else t;
    var parts := Split(body, '.');
    if |parts| == 1 && AllDigits(parts[0]) then
      var v := DigitsValue(parts[0]) as real;
      Ok(if negative then -v else v)
    else if |parts| == 2 && OptDigits(parts[0]) && OptDigits(parts[1]) && parts[0] + parts[1] != [] then
      var v := DecimalValue(parts[0], parts[1]);
      Ok(if negative then -v else v)
    else Raised(ValueError)
  }

  /** The value stored for `data['fipe_value']`: `float(normalized) if normalized else 0`. */
  function FipeValue(v: Value): (r: Result<real>)
    ensures Normalize(PyStr(v)) == "" ==> r == Ok(0.0)
  {
    var t := Normalize(PyStr(v));
    if t == "" then Ok(0.0) else ParseFloat(t)
  }

  /** Letters only, without the `R` of the currency sign. */
  predicate PlainWord(s: string) {
    |s| > 0 && 'R' !in s && forall k :: 0 <= k < |s| ==> ('a' <= s[k] <= 'z' || 'A' <= s[k] <= 'Z')
  }

  lemma NormalizeWord(s: string)
    requires PlainWord(s)
    ensures Normalize(s) == s
  {
    assert '.' !in s && ',' !in s;
    assert ReplaceAll(s, "R$ ", "") == s by { ReplaceAbsent(s, "R$ ", ""); }
    assert ReplaceAll(s, ".", "") == s by { ReplaceAbsent(s, ".", ""); }
    assert ReplaceAll(s, ",", ".") == s by { ReplaceAbsent(s, ",", "."); }
  }

  lemma ParseFloatRejectsWord(s: string)
    requires PlainWord(s)
    ensures ParseFloat(s).Raised?
  {
    assert !IsSpace(s[0]) && !IsSpace(s[|s| - 1]);
    assert Strip(s) == s by { StripIdempotent(s); }
    assert '.' !in s;
    SplitWithoutSeparator(s, '.');
    assert !AllDigits(s) by { assert !IsDigit(s[0]); }
  }

  /** A value that prints as a plain word (`None`, `False`, "Unknown") is not a
      price: it survives normalisation unchanged and no float reading accepts it. */
  lemma FipeValueOfWord(v: Value)
    requires PlainWord(PyStr(v))
    ensures FipeValue(v).Raised?
  {
    NormalizeWord(PyStr(v));
    ParseFloatRejectsWord(PyStr(v));
  }

  // ---------------------------------------------------------------------------
  // The catalog's format, and reading it back

  /** Three digits with leading zeros. */
  function ThreeDigits(m: nat): string
    requires m < 1000
  {
    [DigitChar(m / 100), DigitChar(m / 10 % 10), DigitChar(m % 10)]
  }

  /** Two digits with a leading zero. */
  function TwoDigits(m: nat): string
    requires m < 100
  {
    [DigitChar(m / 10), DigitChar(m % 10)]
  }

  /** A whole number with a dot between each group of three digits ("10.234"). */
  function Grouped(n: nat): string
    decreases n
  {
    if n < 1000 then NatToString(n) else Grouped(n / 1000) + "." + ThreeDigits(n % 1000)
  }

  /** A price of `cents` centavos as the catalog prints it: "R$ 10.234,56". */
  function Brl(cents: nat): string {
    "R$ " + Grouped(cents / 100) + "," + TwoDigits(cents % 100)
  }

  predicate DigitsAndDots(s: string) {
    forall k :: 0 <= k < |s| ==> IsDigit(s[k]) || s[k] == '.'
  }

  /** Appending digits shifts the number left by their count. */
  lemma {:induction false} DigitsValueAppend(a: string, b: string)
    requires OptDigits(a) && OptDigits(b)
    ensures OptDigits(a + b)
    ensures DigitsValue(a + b) == DigitsValue(a) * Pow10(|b|) + DigitsValue(b)
    decreases |b|
  {
    if b == [] {
      assert a + b == a;
    } else {
      var ab := a + b;
      forall k | 0 <= k < |ab| ensures IsDigit(ab[k]) {
        if k < |a| { assert ab[k] == a[k]; } else { assert ab[k] == b[k - |a|]; }
      }
      var b' := b[..|b| - 1];
      assert ab[..|ab| - 1] == a + b' && ab[|ab| - 1] == b[|b| - 1];
      DigitsValueAppend(a, b');
      assert Pow10(|b|) == 10 * Pow10(|b'|);
      ShiftStep(DigitsValue(a), Pow10(|b'|), DigitsValue(b'), DigitValue(b[|b| - 1]));
    }
  }

  lemma ShiftStep(x: nat, p: nat, y: nat, d: nat)
    ensures (x * p + y) * 10 + d == x * (10 * p) + (y * 10 + d)
  {
  }

  lemma ThreeDigitsValue(m: nat)
    requires m < 1000
    ensures AllDigits(ThreeDigits(m)) && DigitsValue(ThreeDigits(m)) == m
  {
    var s := ThreeDigits(m);
    var h, t, o := m / 100, m / 10 % 10, m % 10;
    assert DigitValue(s[0]) == h && DigitValue(s[1]) == t && DigitValue(s[2]) == o;
    assert s[..2][..1] == [s[0]] && [s[0]][..0] == [];
    assert DigitsValue([s[0]]) == h;
    assert DigitsValue(s[..2]) == h * 10 + t;
    assert DigitsValue(s) == (h * 10 + t) * 10 + o;
    ThreeSplit(m);
  }

  lemma ThreeSplit(m: nat)
    requires m < 1000
    ensures m == (m / 100) * 100 + (m / 10 % 10) * 10 + m % 10
  {
    assert m == (m / 10) * 10 + m % 10;
    assert m / 10 == (m / 100) * 10 + m / 10 % 10;
  }

  lemma TwoDigitsValue(m: nat)
    requires m < 100
    ensures AllDigits(TwoDigits(m)) && DigitsValue(TwoDigits(m)) == m
  {
    var s := TwoDigits(m);
    assert s[..1] == [s[0]] && [s[0]][..0] == [];
    assert DigitsValue([s[0]]) == DigitValue(s[0]);
    assert DigitsValue(s) == DigitsValue(s[..1]) * 10 + DigitValue(s[1]);
    assert DigitValue(s[0]) == m / 10 && DigitValue(s[1]) == m % 10;
  }

  /** A grouped number is digits and dots, and starts and ends with a digit. */
  lemma {:induction false} GroupedShape(n: nat)
    ensures DigitsAndDots(Grouped(n)) && |Grouped(n)| > 0
    ensures IsDigit(Grouped(n)[0]) && IsDigit(Grouped(n)[|Grouped(n)| - 1])
    decreases n
  {
    if n < 1000 {
      NatToStringRoundTrip(n);
    } else {
      var g := Grouped(n / 1000);
      var t := ThreeDigits(n % 1000);
      GroupedShape(n / 1000);
      ThreeDigitsValue(n % 1000);
      assert Grouped(n) == g + "." + t;
      forall k | 0 <= k < |Grouped(n)| ensures IsDigit(Grouped(n)[k]) || Grouped(n)[k] == '.' {
        if k < |g| { assert Grouped(n)[k] == g[k]; }
        else if k > |g| { assert Grouped(n)[k] == t[k - |g| - 1]; }
      }
    }
  }

  /** Three more digits after the digits of `n / 1000` read back as `n`. */
  lemma ThousandsStep(u: string, t: string, n: nat)
    requires AllDigits(u) && DigitsValue(u) == n / 1000
    requires AllDigits(t) && |t| == 3 && DigitsValue(t) == n % 1000
    ensures AllDigits(u + t) && DigitsValue(u + t) == n
  {
    DigitsValueAppend(u, t);
    assert Pow10(|t|) == 1000;
  }

  /** Removing the dots of a grouped number leaves its digits, which read back as
      the number. */
  lemma {:induction false} GroupedUndotted(n: nat)
    ensures DigitsAndDots(Grouped(n)) && |Grouped(n)| > 0
    ensures IsDigit(Grouped(n)[0]) && IsDigit(Grouped(n)[|Grouped(n)| - 1])
    ensures AllDigits(ReplaceAll(Grouped(n), ".", ""))
    ensures DigitsValue(ReplaceAll(Grouped(n), ".", "")) == n
    decreases n
  {
    GroupedShape(n);
    if n < 1000 {
      NatToStringRoundTrip(n);
      ReplaceAbsent(NatToString(n), ".", "");
    } else {
      var g := Grouped(n / 1000);
      var t := ThreeDigits(n % 1000);
      GroupedUndotted(n / 1000);
      ThreeDigitsValue(n % 1000);
      ReplaceCharConcat(g + ".", t, '.', "");
      ReplaceCharConcat(g, ".", '.', "");
      ReplaceAbsent(t, ".", "");
      assert ReplaceAll(".", ".", "") == "";
      var u := ReplaceAll(g, ".", "");
      assert ReplaceAll(Grouped(n), ".", "") == u + t;
      ThousandsStep(u, t, n);
    }
  }

  /** Normalising a catalog price leaves "<digits>.<two digits>". */
  lemma NormalizeBrl(cents: nat)
    ensures Normalize(Brl(cents)) == ReplaceAll(Grouped(cents / 100), ".", "") + "." + TwoDigits(cents % 100)
  {
    var g := Grouped(cents / 100);
    var cc := TwoDigits(cents % 100);
    GroupedUndotted(cents / 100);
    TwoDigitsValue(cents % 100);
    var rest := g + "," + cc;
    CurrencySignRemoved(g, cc);
    assert Brl(cents) == "R$ " + rest;
    var u := ReplaceAll(g, ".", "");
    DotsRemoved(g, cc);
    assert ReplaceAll(rest, ".", "") == u + "," + cc;
    CommaReplaced(u, cc);
  }

  /** The sign "R$ " at the front is the only one. */
  lemma CurrencySignRemoved(g: string, cc: string)
    requires DigitsAndDots(g) && AllDigits(cc)
    ensures ReplaceAll("R$ " + (g + "," + cc), "R$ ", "") == g + "," + cc
  {
    var rest := g + "," + cc;
    forall k | 0 <= k < |rest| ensures rest[k] != 'R' {
      if k < |g| { assert rest[k] == g[k]; }
      else if k > |g| { assert rest[k] == cc[k - |g| - 1]; }
    }
    assert ("R$ " + rest)[..3] == "R$ " && ("R$ " + rest)[3..] == rest;
    ReplaceAbsent(rest, "R$ ", "");
  }

  lemma DotsRemoved(g: string, cc: string)
    requires AllDigits(cc)
    ensures ReplaceAll(g + "," + cc, ".", "") == ReplaceAll(g, ".", "") + "," + cc
  {
    ReplaceCharConcat(g + ",", cc, '.', "");
    ReplaceCharConcat(g, ",", '.', "");
    ReplaceAbsent(",", ".", "");
    ReplaceAbsent(cc, ".", "");
  }

  lemma CommaReplaced(u: string, cc: string)
    requires AllDigits(u) && AllDigits(cc)
    ensures ReplaceAll(u + "," + cc, ",", ".") == u + "." + cc
  {
    ReplaceCharConcat(u + ",", cc, ',', ".");
    ReplaceCharConcat(u, ",", ',', ".");
    ReplaceAbsent(u, ",", ".");
    ReplaceAbsent(cc, ",", ".");
    assert ReplaceAll(",", ",", ".") == ".";
  }

  /** Digits, a point and digits read as the decimal number they write. */
  lemma ParseFloatDecimal(u: string, cc: string)
    requires AllDigits(u) && AllDigits(cc)
    ensures ParseFloat(u + "." + cc) == Ok(DecimalValue(u, cc))
  {
    var t := u + "." + cc;
    assert t[0] == u[0] && t[|t| - 1] == cc[|cc| - 1];
    StripIdempotent(t);
    assert '.' !in u;
    SplitAtFirst(u, '.', cc);
    SplitWithoutSeparator(cc, '.');
    ParseFloatTwoParts(t, u, cc);
  }

  /** An unsigned text without surrounding whitespace that splits at its one point
      into two digit strings reads as their decimal number. */
  lemma ParseFloatTwoParts(t: string, u: string, cc: string)
    requires Strip(t) == t && |t| > 0 && IsDigit(t[0])
    requires AllDigits(u) && AllDigits(cc) && Split(t, '.') == [u, cc]
    ensures ParseFloat(t) == Ok(DecimalValue(u, cc))
  {
  }

  /** The catalog's format is read back exactly: the stored value of "R$ 10.234,56"
      is 10234.56, and likewise for every price printed that way. */
  lemma FipeValueOfBrl(cents: nat)
    ensures FipeValue(Str(Brl(cents))) == Ok(cents as real / 100.0)
  {
    var u := ReplaceAll(Grouped(cents / 100), ".", "");
    var cc := TwoDigits(cents % 100);
    GroupedUndotted(cents / 100);
    TwoDigitsValue(cents % 100);
    NormalizeBrl(cents);
    assert PyStr(Str(Brl(cents))) == Brl(cents);
    ParseFloatDecimal(u, cc);
    DecimalCents(u, cc, cents);
  }

  /** The digits of the reais and of the centavos read as the price. */
  lemma DecimalCents(u: string, cc: string, cents: nat)
    requires AllDigits(u) && DigitsValue(u) == cents / 100
    requires AllDigits(cc) && |cc| == 2 && DigitsValue(cc) == cents % 100
    ensures DecimalValue(u, cc) == cents as real / 100.0
  {
    assert Pow10(|cc|) == 100;
    CentsSplit(cents);
  }

  lemma CentsSplit(c: nat)
    ensures (c / 100) as real + (c % 100) as real / 100.0 == c as real / 100.0
  {
    assert c == (c / 100) * 100 + c % 100;
    assert c as real == (c / 100) as real * 100.0 + (c % 100) as real;
  }
}
