/** The Python `str` operations the pipeline relies on: strip, lower, split on one
    character, replace and isdigit. */
module Text {

  /** Python's `str.isspace`, for the whitespace characters of Latin-1 and the
      ASCII separators. */
  predicate IsSpace(c: char) {
    c == ' ' || c == '\t' || c == '\n' || c == '\r' || c == '\U{B}' || c == '\U{C}'
    || c == '\U{1C}' || c == '\U{1D}' || c == '\U{1E}' || c == '\U{1F}'
    || c == '\U{85}' || c == '\U{A0}'
  }

  /** `s.lstrip()` */
  function TrimStart(s: string): string {
    if s != [] && IsSpace(s[0]) then TrimStart(s[1..]) else s
  }

  /** `s.rstrip()` */
  function TrimEnd(s: string): string {
    if s != [] && IsSpace(s[|s| - 1]) then TrimEnd(s[..|s| - 1]) else s
  }

  /** `lstrip` drops the leading whitespace and nothing else. */
  lemma {:induction false} TrimStartSpec(s: string)
    ensures var r := TrimStart(s);
            |r| <= |s| && r == s[|s| - |r|..]
            && (forall k :: 0 <= k < |s| - |r| ==> IsSpace(s[k]))
            && (r == [] || !IsSpace(r[0]))
  {
    if s != [] && IsSpace(s[0]) {
      TrimStartSpec(s[1..]);
      var r := TrimStart(s);
      assert r == TrimStart(s[1..]);
      assert s[1..][|s| - 1 - |r|..] == s[|s| - |r|..];
      forall k | 0 <= k < |s| - |r|
        ensures IsSpace(s[k])
      {
        if k > 0 {
          assert s[k] == s[1..][k - 1];
        }
      }
    }
  }

  /** `rstrip` drops the trailing whitespace and nothing else. */
  lemma {:induction false} TrimEndSpec(s: string)
    ensures var r := TrimEnd(s);
            |r| <= |s| && r == s[..|r|]
            && (forall k :: |r| <= k < |s| ==> IsSpace(s[k]))
            && (r == [] || !IsSpace(r[|r| - 1]))
  {
    if s != [] && IsSpace(s[|s| - 1]) {
      TrimEndSpec(s[..|s| - 1]);
    }
  }

  /** `s.strip()` */
  function Strip(s: string): string {
    TrimEnd(TrimStart(s))
  }

  /** Stripping twice is stripping once, and a string without surrounding
      whitespace is its own strip. */
  lemma StripIdempotent(s: string)
    ensures Strip(Strip(s)) == Strip(s)
    ensures s == [] || (!IsSpace(s[0]) && !IsSpace(s[|s| - 1])) ==> Strip(s) == s
  {
    var t := Strip(s);
    TrimStartSpec(s);
    TrimEndSpec(TrimStart(s));
    if t != [] {
      assert t[0] == TrimStart(s)[0];
    }
    assert TrimStart(t) == t;
    assert TrimEnd(t) == t;
  }

  /** `str.lower` on a single character: ASCII and Latin-1 capitals. */
  function LowerChar(c: char): char {
    if 'A' <= c <= 'Z' || ('\U{C0}' <= c <= '\U{DE}' && c != '\U{D7}') then (c as int + 32) as char else c
  }

  /** `s.lower()`, character by character. */
  function Lower(s: string): (r: string)
    ensures |r| == |s|
    ensures forall k :: 0 <= k < |s| ==> r[k] == LowerChar(s[k])
  {
    seq(|s|, k requires 0 <= k < |s| => LowerChar(s[k]))
  }

  /** `s` has no capital that `lower()` would change. */
  ghost predicate IsLower(s: string) {
    forall k :: 0 <= k < |s| ==> LowerChar(s[k]) == s[k]
  }

  /** `lower()` leaves a string without capitals as it is, and what it returns
      has no capitals left: lowering twice is lowering once. */
  lemma LowerIdempotent(s: string)
    ensures IsLower(s) ==> Lower(s) == s
    ensures IsLower(Lower(s)) && Lower(Lower(s)) == Lower(s)
  {
    if IsLower(s) {
      assert Lower(s) == s;
    }
    var t := Lower(s);
    forall k | 0 <= k < |t| ensures LowerChar(t[k]) == t[k] {
      var c := s[k];
      if 'A' <= c <= 'Z' {
        assert 'a' <= t[k] <= 'z';
      } else if '\U{C0}' <= c <= '\U{DE}' && c != '\U{D7}' {
        assert '\U{E0}' <= t[k] <= '\U{FE}';
      }
    }
    assert Lower(t) == t;
  }

  /** `s.split(sep)` for a one-character separator: every occurrence of `sep`
      cuts, so empty pieces are kept and there is always at least one piece. */
  function Split(s: string, sep: char): (r: seq<string>)
    ensures |r| >= 1
  {
    if s == [] then [""]
    else
      var rest := Split(s[1..], sep);
      if s[0] == sep then [""] + rest else [[s[0]] + rest[0]] + rest[1..]
  }

  /** `sep.join(parts)` */
  function Join(parts: seq<string>, sep: char): string
    requires |parts| >= 1
  {
    if |parts| == 1 then parts[0] else parts[0] + [sep] + Join(parts[1..], sep)
  }

  /** Joining a list with one more piece in front. */
  lemma JoinPrepend(x: string, parts: seq<string>, sep: char)
    requires |parts| >= 1
    ensures Join([x] + parts, sep) == x + [sep] + Join(parts, sep)
  {
    assert ([x] + parts)[1..] == parts;
  }

  /** Joining after a character is put in front of the first piece. */
  lemma JoinExtendFirst(c: char, parts: seq<string>, sep: char)
    requires |parts| >= 1
    ensures Join([[c] + parts[0]] + parts[1..], sep) == [c] + Join(parts, sep)
  {
    if |parts| > 1 {
      JoinPrepend([c] + parts[0], parts[1..], sep);
    }
  }

  /** Splitting loses nothing: joining the pieces back gives the input. */
  lemma {:induction false} SplitJoin(s: string, sep: char)
    ensures Join(Split(s, sep), sep) == s
  {
    if s != [] {
      var rest := Split(s[1..], sep);
      SplitJoin(s[1..], sep);
      if s[0] == sep {
        JoinPrepend("", rest, sep);
      } else {
        JoinExtendFirst(s[0], rest, sep);
      }
      assert s == [s[0]] + s[1..];
    }
  }

  /** No piece of a split contains the separator. */
  lemma {:induction false} SplitPiecesFree(s: string, sep: char)
    ensures forall k :: 0 <= k < |Split(s, sep)| ==> sep !in Split(s, sep)[k]
  {
    if s != [] {
      SplitPiecesFree(s[1..], sep);
      var rest := Split(s[1..], sep);
      if s[0] != sep {
        assert sep !in [s[0]] + rest[0];
      }
    }
  }

  /** A string without the separator is a single piece. */
  lemma {:induction false} SplitWithoutSeparator(s: string, sep: char)
    requires sep !in s
    ensures Split(s, sep) == [s]
  {
    if s != [] {
      SplitWithoutSeparator(s[1..], sep);
      assert [s[0]] + s[1..] == s;
    }
  }

  /** The first occurrence of the separator ends the first piece. */
  lemma {:induction false} SplitAtFirst(a: string, sep: char, b: string)
    requires sep !in a
    ensures Split(a + [sep] + b, sep) == [a] + Split(b, sep)
  {
    if a == [] {
      assert a + [sep] + b == [sep] + b;
      assert ([sep] + b)[1..] == b;
    } else {
      assert (a + [sep] + b)[1..] == a[1..] + [sep] + b;
      SplitAtFirst(a[1..], sep, b);
      assert [a[0]] + a[1..] == a;
    }
  }

  /** The string has more than one piece exactly when it holds the separator. */
  lemma {:induction false} SplitManyIff(s: string, sep: char)
    ensures |Split(s, sep)| > 1 <==> sep in s
  {
    if sep !in s {
      SplitWithoutSeparator(s, sep);
    } else if s[0] == sep {
    } else {
      SplitManyIff(s[1..], sep);
      assert sep in s[1..];
    }
  }

  /** The last piece of a split: Python's `s.split(sep)[-1]`. */
  function LastPiece(s: string, sep: char): string {
    var parts := Split(s, sep);
    parts[|parts| - 1]
  }

  /** The last piece never holds the separator and is a suffix of the input. */
  lemma {:induction false} LastPieceIsFreeSuffix(s: string, sep: char)
    ensures sep !in LastPiece(s, sep)
    ensures |LastPiece(s, sep)| <= |s| && LastPiece(s, sep) == s[|s| - |LastPiece(s, sep)|..]
  {
    SplitPiecesFree(s, sep);
    if s != [] {
      LastPieceIsFreeSuffix(s[1..], sep);
      var rest := Split(s[1..], sep);
      if s[0] != sep && |rest| == 1 {
        assert LastPiece(s, sep) == [s[0]] + rest[0];
        SplitJoin(s[1..], sep);
        assert rest[0] == s[1..];
        assert s == [s[0]] + s[1..];
      } else if s[0] != sep {
        assert LastPiece(s, sep) == rest[|rest| - 1];
      } else {
        assert LastPiece(s, sep) == rest[|rest| - 1];
      }
    }
  }

  /** `s.replace(pat, rep)`: left to right, non-overlapping occurrences. */
  function ReplaceAll(s: string, pat: string, rep: string): string
    requires |pat| > 0
    decreases |s|
  {
    if |s| < |pat| then s
    else if s[..|pat|] == pat then rep + ReplaceAll(s[|pat|..], pat, rep)
    else [s[0]] + ReplaceAll(s[1..], pat, rep)
  }

  /** Replacing a one-character pattern works piece by piece. */
  lemma {:induction false} ReplaceCharConcat(a: string, b: string, c: char, rep: string)
    ensures ReplaceAll(a + b, [c], rep) == ReplaceAll(a, [c], rep) + ReplaceAll(b, [c], rep)
  {
    if a != [] {
      assert (a + b)[1..] == a[1..] + b;
      assert (a + b)[..1] == a[..1];
      ReplaceCharConcat(a[1..], b, c, rep);
    } else {
      assert a + b == b;
    }
  }

  /** A string that does not hold the pattern's first character is left alone. */
  lemma {:induction false} ReplaceAbsent(s: string, pat: string, rep: string)
    requires |pat| > 0 && pat[0] !in s
    ensures ReplaceAll(s, pat, rep) == s
    decreases |s|
  {
    if |s| >= |pat| {
      assert s[..|pat|][0] == s[0];
      ReplaceAbsent(s[1..], pat, rep);
      assert [s[0]] + s[1..] == s;
    }
  }

  /** Python's `str.isdigit` on ASCII digits: non-empty and all digits. */
  predicate IsDigit(c: char) {
    '0' <= c <= '9'
  }

  predicate AllDigits(s: string) {
    |s| > 0 && forall k :: 0 <= k < |s| ==> IsDigit(s[k])
  }
}
