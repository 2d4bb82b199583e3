/**
 * Text operations of Rust's `str` used by the program: ASCII lowercasing,
 * substring search, `replace`, `split`, `join`, `trim`, `lines`, and the
 * grammars accepted by `str::parse::<usize>()` and `str::parse::<f64>()`.
 */
module Text {
  import opened Wrappers

  /** Largest `usize` on the 64-bit targets the program is built for. */
  const USIZE_MAX: nat := 0xFFFF_FFFF_FFFF_FFFF

  /** `char::is_whitespace`: the Unicode White_Space property. */
  predicate IsWhitespace(c: char)
  {
    c == ' ' || ('\t' <= c <= '\r') || c == '\U{0085}' || c == '\U{00A0}' || c == '\U{1680}'
    || ('\U{2000}' <= c <= '\U{200A}') || c == '\U{2028}' || c == '\U{2029}'
    || c == '\U{202F}' || c == '\U{205F}' || c == '\U{3000}'
  }

  predicate IsDigit(c: char)
  {
    '0' <= c <= '9'
  }

  predicate AllDigits(s: string)
  {
    forall i :: 0 <= i < |s| ==> IsDigit(s[i])
  }

  function LowerChar(c: char): char
  {
    if 'A' <= c <= 'Z' then (c as int + 32) as char else c
  }

  /** Lowercasing of ASCII letters; every other character is kept. */
  function Lower(s: string): (r: string)
    ensures |r| == |s|
    ensures forall i :: 0 <= i < |s| ==> r[i] == LowerChar(s[i])
  {
    seq(|s|, i requires 0 <= i < |s| => LowerChar(s[i]))
  }

  lemma LowerIdempotent(s: string)
    ensures Lower(Lower(s)) == Lower(s)
  {
  }

  // ---------------------------------------------------------------- search

  predicate StartsWith(s: string, p: string)
  {
    |p| <= |s| && s[..|p|] == p
  }

  predicate OccursAt(s: string, p: string, i: nat)
  {
    i + |p| <= |s| && s[i..i + |p|] == p
  }

  /** `str::contains` with a string pattern. */
  predicate Contains(s: string, p: string)
    decreases |s|
  {
    StartsWith(s, p) || (|s| > 0 && Contains(s[1..], p))
  }

  lemma {:induction false} ContainsIff(s: string, p: string)
    ensures Contains(s, p) <==> exists i: nat :: i <= |s| && OccursAt(s, p, i)
    decreases |s|
  {
    if StartsWith(s, p) {
      assert OccursAt(s, p, 0);
    } else if |s| > 0 {
      ContainsIff(s[1..], p);
      forall i: nat | 1 <= i <= |s|
        ensures OccursAt(s, p, i) <==> OccursAt(s[1..], p, i - 1)
      {
        if i + |p| <= |s| {
          assert s[1..][i - 1..i - 1 + |p|] == s[i..i + |p|];
        }
      }
      if Contains(s[1..], p) {
        var i: nat :| i <= |s[1..]| && OccursAt(s[1..], p, i);
        assert OccursAt(s, p, i + 1);
      }
      assert !OccursAt(s, p, 0);
    } else {
      assert !OccursAt(s, p, 0);
    }
  }

  lemma {:induction false} NotContainsWithout(s: string, p: string)
    requires p != [] && p[0] !in s
    ensures !Contains(s, p)
    decreases |s|
  {
    if |s| > 0 {
      assert s[0] != p[0];
      if |p| <= |s| {
        assert s[..|p|][0] == s[0];
      }
      NotContainsWithout(s[1..], p);
    }
  }

  // --------------------------------------------------------------- replace

  /**
   * `str::replace(pat, rep)`: every non-overlapping occurrence of `pat`,
   * leftmost first, becomes `rep`. An empty pattern matches before every
   * character and at the end.
   */
  function Replace(s: string, pat: string, rep: string): string
    decreases |s|
  {
    if pat == [] then
      (if s == [] then rep else rep + [s[0]] + Replace(s[1..], pat, rep))
    else if StartsWith(s, pat) then rep + Replace(s[|pat|..], pat, rep)
    else if s == [] then []
    else [s[0]] + Replace(s[1..], pat, rep)
  }

  /** Text without the pattern is left as it is. */
  lemma {:induction false} ReplaceAbsent(s: string, pat: string, rep: string)
    requires pat != [] && !Contains(s, pat)
    ensures Replace(s, pat, rep) == s
    decreases |s|
  {
    if s != [] {
      ReplaceAbsent(s[1..], pat, rep);
    }
  }

  /** A prefix without the pattern's first character is copied unchanged. */
  lemma {:induction false} ReplaceSkipPrefix(a: string, b: string, pat: string, rep: string)
    requires pat != [] && pat[0] !in a
    ensures Replace(a + b, pat, rep) == a + Replace(b, pat, rep)
    decreases |a|
  {
    if a != [] {
      assert (a + b)[0] == a[0] && a[0] != pat[0];
      assert (a + b)[1..] == a[1..] + b;
      ReplaceSkipPrefix(a[1..], b, pat, rep);
    } else {
      assert a + b == b;
    }
  }

  /** Without an occurrence at the front, the first character is copied and the scan moves on. */
  lemma ReplaceNoMatchHere(s: string, p: string, rep: string)
    requires p != [] && s != [] && !StartsWith(s, p)
    ensures Replace(s, p, rep) == [s[0]] + Replace(s[1..], p, rep)
  {
  }

  /** An occurrence at the front is replaced and the scan resumes after it. */
  lemma ReplaceHead(p: string, b: string, rep: string)
    requires p != []
    ensures Replace(p + b, p, rep) == rep + Replace(b, p, rep)
  {
    assert (p + b)[..|p|] == p;
    assert (p + b)[|p|..] == b;
  }

  /** Removing a single character leaves no occurrence of it. */
  lemma {:induction false} ReplaceRemovesChar(s: string, c: char)
    ensures c !in Replace(s, [c], [])
    decreases |s|
  {
    if s != [] {
      ReplaceRemovesChar(s[1..], c);
    }
  }

  // ----------------------------------------------------------- split, join

  /** `str::split(sep)` with a non-empty separator: always at least one piece. */
  function Split(s: string, sep: string): (r: seq<string>)
    requires sep != []
    ensures |r| >= 1
    decreases |s|
  {
    if |s| < |sep| then [s]
    else if s[..|sep|] == sep then [[]] + Split(s[|sep|..], sep)
    else
      var rest := Split(s[1..], sep);
      [[s[0]] + rest[0]] + rest[1..]
  }

  /** `join(sep)` over pieces. */
  function Join(parts: seq<string>, sep: string): string
    decreases |parts|
  {
    if |parts| == 0 then []
    else if |parts| == 1 then parts[0]
    else parts[0] + sep + Join(parts[1..], sep)
  }

  lemma JoinConsHead(c: char, rest: seq<string>, sep: string)
    requires |rest| >= 1
    ensures Join([[c] + rest[0]] + rest[1..], sep) == [c] + Join(rest, sep)
  {
    var parts := [[c] + rest[0]] + rest[1..];
    if |rest| > 1 {
      assert parts[1..] == rest[1..];
    }
  }

  /** Splitting and joining with the same separator gives the text back. */
  lemma {:induction false} SplitJoin(s: string, sep: string)
    requires sep != []
    ensures Join(Split(s, sep), sep) == s
    decreases |s|
  {
    if |s| < |sep| {
    } else if s[..|sep|] == sep {
      SplitJoin(s[|sep|..], sep);
      var rest := Split(s[|sep|..], sep);
      assert ([[]] + rest)[1..] == rest;
      assert s == sep + s[|sep|..];
    } else {
      SplitJoin(s[1..], sep);
      JoinConsHead(s[0], Split(s[1..], sep), sep);
      assert s == [s[0]] + s[1..];
    }
  }

  /** Pieces of a split on one character never contain that character. */
  lemma {:induction false} SplitPiecesFree(s: string, c: char)
    ensures forall k :: 0 <= k < |Split(s, [c])| ==> c !in Split(s, [c])[k]
    decreases |s|
  {
    if |s| >= 1 {
      SplitPiecesFree(s[1..], c);
      if s[..1] != [c] {
        assert s[0] != c;
      }
    }
  }

  /** Text without the separator is one piece. */
  lemma {:induction false} SplitWithoutSeparator(s: string, c: char)
    requires c !in s
    ensures Split(s, [c]) == [s]
    decreases |s|
  {
    if |s| >= 1 {
      assert s[..1][0] == s[0] && s[0] != c;
      SplitWithoutSeparator(s[1..], c);
      assert [s[0]] + s[1..] == s;
    }
  }

  /** The first piece is the text before the first separator character. */
  lemma {:induction false} SplitAtFirst(s: string, c: char, k: nat)
    requires k < |s| && s[k] == c && c !in s[..k]
    ensures |Split(s, [c])| >= 2
    ensures Split(s, [c]) == [s[..k]] + Split(s[k + 1..], [c])
    decreases k
  {
    if k == 0 {
      assert s[..1] == [c];
    } else {
      assert s[0] != c by { assert s[0] == s[..k][0]; }
      assert s[..1] != [c];
      assert s[1..][..k - 1] == s[1..k];
      SplitAtFirst(s[1..], c, k - 1);
      assert s[1..][k..] == s[k + 1..];
      assert [s[0]] + s[1..k] == s[..k];
    }
  }

  /** Joining every piece after the first gives the text after the first separator. */
  lemma SplitTailJoin(s: string, c: char, k: nat)
    requires k < |s| && s[k] == c && c !in s[..k]
    ensures Join(Split(s, [c])[1..], [c]) == s[k + 1..]
  {
    SplitAtFirst(s, c, k);
    assert Split(s, [c])[1..] == Split(s[k + 1..], [c]);
    SplitJoin(s[k + 1..], [c]);
  }

  // ------------------------------------------------------------------ trim

  /** `trim_start`: drops leading whitespace and keeps the rest. */
  function TrimStart(s: string): (r: string)
    ensures exists k :: 0 <= k <= |s| && r == s[k..] && forall i :: 0 <= i < k ==> IsWhitespace(s[i])
    ensures r == [] || !IsWhitespace(r[0])
    decreases |s|
  {
    if |s| > 0 && IsWhitespace(s[0]) then
      var r := TrimStart(s[1..]);
      ghost var k :| 0 <= k <= |s[1..]| && r == s[1..][k..] && forall i :: 0 <= i < k ==> IsWhitespace(s[1..][i]);
      assert r == s[k + 1..];
      r
    else
      assert s == s[0..];
      s
  }

  /** `trim_end`: drops trailing whitespace and keeps the rest. */
  function TrimEnd(s: string): (r: string)
    ensures exists k :: 0 <= k <= |s| && r == s[..k] && forall i :: k <= i < |s| ==> IsWhitespace(s[i])
    ensures r == [] || !IsWhitespace(r[|r| - 1])
    decreases |s|
  {
    if |s| > 0 && IsWhitespace(s[|s| - 1]) then
      var t := s[..|s| - 1];
      var r := TrimEnd(t);
      ghost var k :| 0 <= k <= |t| && r == t[..k] && forall i :: k <= i < |t| ==> IsWhitespace(t[i]);
      assert r == s[..k];
      r
    else
      assert s == s[..|s|];
      s
  }

  /** `trim`: both ends. */
  function Trim(s: string): string
  {
    TrimEnd(TrimStart(s))
  }

  // ----------------------------------------------------------------- lines

  function StripCr(line: string): string
  {
    if |line| > 0 && line[|line| - 1] == '\r' then line[..|line| - 1] else line
  }

  /**
   * `str::lines`: the text split at each '\n', one '\r' dropped before each
   * '\n', and no final empty line when the text ends with '\n' or is empty.
   */
  function Lines(s: string): (r: seq<string>)
    ensures forall k :: 0 <= k < |r| ==> '\n' !in r[k]
  {
    var pieces := Split(s, "\n");
    var last := pieces[|pieces| - 1];
    SplitPiecesFree(s, '\n');
    seq(|pieces| - 1, i requires 0 <= i < |pieces| - 1 => StripCr(pieces[i]))
      + (if last == [] then [] else [last])
  }

  // -------------------------------------------------- number text grammars

  function DigitValue(c: char): nat
    requires IsDigit(c)
  {
    c as int - '0' as int
  }

  function DigitChar(d: nat): char
    requires d < 10
  {
    ('0' as int + d) as char
  }

  /** Value of a run of decimal digits. */
  function DigitsValue(s: string): nat
    requires AllDigits(s)
    decreases |s|
  {
    if s == [] then 0 else DigitsValue(s[..|s| - 1]) * 10 + DigitValue(s[|s| - 1])
  }

  /** `usize::to_string`: decimal digits without leading zeros. */
  function DecimalText(n: nat): (r: string)
    ensures |r| > 0 && AllDigits(r)
    decreases n
  {
    if n < 10 then [DigitChar(n)] else DecimalText(n / 10) + [DigitChar(n % 10)]
  }

  /**
   * `str::parse::<usize>()`: an optional '+', then one or more decimal
   * digits whose value fits in a `usize`; anything else is an error.
   */
  function ParseUsize(s: string): (r: Option<nat>)
    ensures r.Some? ==> r.value <= USIZE_MAX
    ensures r.Some? ==> |s| >= 1 && (s[0] == '+' || IsDigit(s[0]))
  {
    if |s| == 0 || s == "+" || s == "-" then None
    else
      var digits := if s[0] == '+' then s[1..] else s;
      if !AllDigits(digits) then None
      else if DigitsValue(digits) > USIZE_MAX then None
      else Some(DigitsValue(digits))
  }

  lemma {:induction false} DecimalTextValue(n: nat)
    ensures DigitsValue(DecimalText(n)) == n
    decreases n
  {
    if n >= 10 {
      DecimalTextValue(n / 10);
      var t := DecimalText(n);
      assert t[..|t| - 1] == DecimalText(n / 10);
    }
  }

  /** Parsing the decimal text of any `usize` gives the number back, with or without '+'. */
  lemma ParseUsizeDecimal(n: nat)
    requires n <= USIZE_MAX
    ensures ParseUsize(DecimalText(n)) == Some(n)
    ensures ParseUsize("+" + DecimalText(n)) == Some(n)
  {
    DecimalTextValue(n);
    var t := DecimalText(n);
    assert t[0] != '+' && t[0] != '-';
    assert ("+" + t)[1..] == t;
  }

  /** Every accepted text is a `usize`, and text with a non-digit is refused. */
  lemma ParseUsizeBounds(s: string)
    ensures ParseUsize(s).Some? ==> ParseUsize(s).value <= USIZE_MAX
    ensures (exists i :: 1 <= i < |s| && !IsDigit(s[i])) ==> ParseUsize(s) == None
  {
    if exists i :: 1 <= i < |s| && !IsDigit(s[i]) {
      var i :| 1 <= i < |s| && !IsDigit(s[i]);
      if |s| > 1 && s[0] == '+' {
        assert !IsDigit(s[1..][i - 1]);
      } else if |s| > 1 {
        assert !IsDigit(s[i]);
      }
    }
  }

  function FirstIndexOf(s: string, c: char): (r: Option<nat>)
    ensures r.Some? ==> r.value < |s| && s[r.value] == c && c !in s[..r.value]
    ensures r.None? ==> c !in s
    decreases |s|
  {
    if |s| == 0 then None
    else if s[0] == c then Some(0)
    else
      match FirstIndexOf(s[1..], c)
      case None => None
      case Some(k) =>
        assert s[1..][..k] == s[1..k + 1];
        Some(k + 1)
  }

  /** Digits with at most one '.', and at least one digit. */
  predicate IsMantissa(m: string)
  {
    match FirstIndexOf(m, '.')
    case None => |m| > 0 && AllDigits(m)
    case Some(k) => |m| > 1 && AllDigits(m[..k]) && AllDigits(m[k + 1..])
  }

  predicate IsExponent(e: string)
  {
    var d := if |e| > 0 && (e[0] == '+' || e[0] == '-') then e[1..] else e;
    |d| > 0 && AllDigits(d)
  }

  function FirstExponentMark(t: string): (r: Option<nat>)
    ensures r.Some? ==> r.value < |t| && (t[r.value] == 'e' || t[r.value] == 'E')
    decreases |t|
  {
    if |t| == 0 then None
    else if t[0] == 'e' || t[0] == 'E' then Some(0)
    else
      match FirstExponentMark(t[1..])
      case None => None
      case Some(k) => Some(k + 1)
  }

  predicate IsDecimalNumber(t: string)
  {
    match FirstExponentMark(t)
    case None => IsMantissa(t)
    case Some(k) => IsMantissa(t[..k]) && IsExponent(t[k + 1..])
  }

  /**
   * `str::parse::<f64>()` succeeds: an optional sign, then "inf",
   * "infinity" or "nan" in any case, or a decimal number with an optional
   * exponent. No surrounding whitespace is accepted.
   */
  predicate IsF64(s: string)
  {
    var body := if |s| > 0 && (s[0] == '+' || s[0] == '-') then s[1..] else s;
    var l := Lower(body);
    l == "inf" || l == "infinity" || l == "nan" || IsDecimalNumber(body)
  }
}
