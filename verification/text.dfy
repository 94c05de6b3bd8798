/** String primitives the pipeline borrows from Python's `str`: whitespace,
    lower-casing, `in`, `startswith`, `strip`, `split`, `replace` and `str(int)`.
    Strings are sequences of Unicode scalar values. */
module Text {

  /** Python's `str.isspace()`: the characters `str.split()` and
      `str.strip()` treat as whitespace. */
  predicate IsSpace(c: char) {
    || c == ' ' || ('\t' <= c <= '\r') || ('\U{1C}' <= c <= '\U{1F}')
    || c == '\U{85}' || c == '\U{A0}' || c == '\U{1680}'
    || ('\U{2000}' <= c <= '\U{200A}') || c == '\U{2028}' || c == '\U{2029}'
    || c == '\U{202F}' || c == '\U{205F}' || c == '\U{3000}'
  }

  /** Upper-case letters of ASCII and Latin-1, which `LowerChar` folds. */
  predicate IsUpper(c: char) {
    ('A' <= c <= 'Z') || ('\U{C0}' <= c <= '\U{DE}' && c != '\U{D7}')
  }

  /** `str.lower()` on one character, restricted to ASCII and Latin-1. */
  function LowerChar(c: char): char {
    if IsUpper(c) then (c as int + 32) as char else c
  }

  /** `str.upper()` on one ASCII character. */
  function UpperChar(c: char): char {
    if 'a' <= c <= 'z' then (c as int - 32) as char else c
  }

  /** `str.lower()`. */
  function Lower(s: string): (r: string)
    ensures |r| == |s|
    ensures forall i | 0 <= i < |s| :: r[i] == LowerChar(s[i])
  {
    if s == [] then [] else [LowerChar(s[0])] + Lower(s[1..])
  }

  /** `str.capitalize()`: first character upper-cased, the rest lower-cased. */
  function Capitalize(s: string): string {
    if s == [] then [] else [UpperChar(s[0])] + Lower(s[1..])
  }

  /** `s.startswith(p)`. */
  predicate StartsWith(s: string, p: string) {
    |p| <= |s| && s[..|p|] == p
  }

  /** `sub` occurs in `s` starting at index `i`. */
  predicate OccursAt(s: string, sub: string, i: int) {
    0 <= i && i + |sub| <= |s| && s[i..i + |sub|] == sub
  }

  /** Python's substring test `sub in s`. */
  predicate Contains(s: string, sub: string) {
    exists i | 0 <= i <= |s| :: OccursAt(s, sub, i)
  }

  /** A substring of a substring is a substring. */
  lemma ContainsTransitive(s: string, mid: string, sub: string)
    requires Contains(s, mid) && Contains(mid, sub)
    ensures Contains(s, sub)
  {
    var i :| 0 <= i <= |s| && OccursAt(s, mid, i);
    var j :| 0 <= j <= |mid| && OccursAt(mid, sub, j);
    forall k | 0 <= k < |sub|
      ensures s[i + j + k] == sub[k]
    {
      assert sub[k] == mid[j + k];
      assert mid[j + k] == s[i + j + k];
    }
    assert s[i + j..i + j + |sub|] == sub;
    assert OccursAt(s, sub, i + j);
  }

  // ---------------------------------------------------------------------
  // strip

  /** `str.lstrip()`. */
  function LStrip(s: string): string {
    if s != [] && IsSpace(s[0]) then LStrip(s[1..]) else s
  }

  /** `str.rstrip()`. */
  function RStrip(s: string): string {
    if s != [] && IsSpace(s[|s| - 1]) then RStrip(s[..|s| - 1]) else s
  }

  /** `str.strip()`. */
  function Strip(s: string): string {
    RStrip(LStrip(s))
  }

  /** `lstrip` removes exactly the leading whitespace. */
  lemma {:induction false} LStripSpec(s: string)
    ensures var r := LStrip(s);
      && |r| <= |s| && r == s[|s| - |r|..]
      && (forall i | 0 <= i < |s| - |r| :: IsSpace(s[i]))
      && (r == [] || !IsSpace(r[0]))
  {
    if s != [] && IsSpace(s[0]) {
      var t := s[1..];
      LStripSpec(t);
      var r := LStrip(t);
      assert LStrip(s) == r;
      assert t[|t| - |r|..] == s[|s| - |r|..];
      forall i | 0 <= i < |s| - |r|
        ensures IsSpace(s[i])
      {
        if i > 0 {
          assert s[i] == t[i - 1];
        }
      }
    }
  }

  /** `rstrip` removes exactly the trailing whitespace. */
  lemma {:induction false} RStripSpec(s: string)
    ensures var r := RStrip(s);
      && |r| <= |s| && r == s[..|r|]
      && (forall i | |r| <= i < |s| :: IsSpace(s[i]))
      && (r == [] || !IsSpace(r[|r| - 1]))
  {
    if s != [] && IsSpace(s[|s| - 1]) {
      RStripSpec(s[..|s| - 1]);
    }
  }

  /** `s[a..a + |r|] == r` and everything around it in `s` is whitespace. */
  predicate IsStripOf(s: string, r: string, a: int) {
    && 0 <= a && a + |r| <= |s| && s[a..a + |r|] == r
    && (forall i | 0 <= i < a :: IsSpace(s[i]))
    && (forall i | a + |r| <= i < |s| :: IsSpace(s[i]))
  }

  /** `strip` keeps the infix of `s` that starts where `lstrip` stops. */
  lemma StripAt(s: string)
    ensures IsStripOf(s, Strip(s), |s| - |LStrip(s)|)
  {
    var l := LStrip(s);
    LStripSpec(s);
    RStripSpec(l);
    var r := RStrip(l);
    var a := |s| - |l|;
    assert s[a..a + |r|] == r by {
      assert l[..|r|] == s[a..a + |r|];
    }
    forall i | a + |r| <= i < |s|
      ensures IsSpace(s[i])
    {
      assert s[i] == l[i - a];
      assert IsSpace(l[i - a]);
    }
  }

  /** `strip` cuts out of `s` the longest infix with no whitespace at either
      end, and removes only whitespace to get there. */
  lemma StripSpec(s: string)
    ensures exists a :: IsStripOf(s, Strip(s), a)
    ensures var r := Strip(s); r == [] || (!IsSpace(r[0]) && !IsSpace(r[|r| - 1]))
  {
    StripAt(s);
    var l := LStrip(s);
    LStripSpec(s);
    RStripSpec(l);
    var r := RStrip(l);
    if r != [] {
      assert r[0] == l[0];
    }
  }

  /** Stripping twice is stripping once. */
  lemma StripIdempotent(s: string)
    ensures Strip(Strip(s)) == Strip(s)
  {
    var r := Strip(s);
    StripSpec(s);
    assert LStrip(r) == r;
    assert RStrip(r) == r;
  }

  /** Text with no whitespace at either end is its own strip. */
  lemma StripUnspaced(s: string)
    requires s == [] || (!IsSpace(s[0]) && !IsSpace(s[|s| - 1]))
    ensures Strip(s) == s
  {
  }

  /** Leading whitespace does not survive `strip`. */
  lemma {:induction false} StripLeadingSpace(c: char, s: string)
    requires IsSpace(c)
    ensures Strip([c] + s) == Strip(s)
  {
    assert ([c] + s)[1..] == s;
  }

  // ---------------------------------------------------------------------
  // split on a separator character

  /** `sep.join(parts)`. */
  function JoinWith(parts: seq<string>, sep: char): string
    requires |parts| >= 1
  {
    if |parts| == 1 then parts[0] else parts[0] + [sep] + JoinWith(parts[1..], sep)
  }

  /** `s.split(sep)` for a one-character separator: never empty, no piece
      contains the separator, and joining the pieces gives `s` back. */
  function SplitOn(s: string, sep: char): (r: seq<string>)
    ensures |r| >= 1
    ensures forall i | 0 <= i < |r| :: sep !in r[i]
    ensures JoinWith(r, sep) == s
  {
    if s == [] then [""]
    else
      var rest := SplitOn(s[1..], sep);
      if s[0] == sep then
        assert [""] + rest == [[]] + rest;
        assert ([""] + rest)[1..] == rest;
        [""] + rest
      else
        var r := [[s[0]] + rest[0]] + rest[1..];
        assert r[1..] == rest[1..];
        assert s == [s[0]] + s[1..];
        r
  }

  /** The pieces of a separator-free join are recovered by `SplitOn`:
      splitting is the inverse of joining. */
  lemma {:induction false} SplitJoinRoundTrip(parts: seq<string>, sep: char)
    requires |parts| >= 1
    requires forall i | 0 <= i < |parts| :: sep !in parts[i]
    ensures SplitOn(JoinWith(parts, sep), sep) == parts
    decreases |parts|, |parts[0]|
  {
    var s := JoinWith(parts, sep);
    if parts[0] == [] {
      if |parts| == 1 {
      } else {
        assert s == [sep] + JoinWith(parts[1..], sep);
        assert s[1..] == JoinWith(parts[1..], sep);
        SplitJoinRoundTrip(parts[1..], sep);
        assert parts == [""] + parts[1..];
      }
    } else {
      var c := parts[0][0];
      var shorter := [parts[0][1..]] + parts[1..];
      assert shorter[1..] == parts[1..];
      assert forall i | 0 <= i < |shorter| :: sep !in shorter[i] by {
        forall i | 0 <= i < |shorter|
          ensures sep !in shorter[i]
        {
          if i > 0 { assert shorter[i] == parts[i]; }
        }
      }
      assert c != sep by { assert c == parts[0][0]; }
      if |parts| == 1 {
        assert s == parts[0];
        assert JoinWith(shorter, sep) == parts[0][1..];
      } else {
        assert s == parts[0] + [sep] + JoinWith(parts[1..], sep);
        assert JoinWith(shorter, sep) == parts[0][1..] + [sep] + JoinWith(parts[1..], sep);
      }
      assert s[1..] == JoinWith(shorter, sep);
      assert s[0] == c;
      SplitJoinRoundTrip(shorter, sep);
      assert [c] + parts[0][1..] == parts[0];
      assert [[c] + parts[0][1..]] + parts[1..] == parts;
    }
  }

  /** `s.split('\n')`. */
  function SplitLines(s: string): seq<string> {
    SplitOn(s, '\n')
  }

  // ---------------------------------------------------------------------
  // replace(pattern, "")

  /** `s.replace(pat, "")`: every occurrence found in a left-to-right,
      non-overlapping scan is deleted. */
  function RemoveAll(s: string, pat: string): (r: string)
    requires pat != []
    ensures |r| <= |s|
    decreases |s|
  {
    if s == [] then []
    else if StartsWith(s, pat) then RemoveAll(s[|pat|..], pat)
    else [s[0]] + RemoveAll(s[1..], pat)
  }

  /** A pattern that does not occur is not removed. */
  lemma {:induction false} RemoveAllAbsent(s: string, pat: string)
    requires pat != []
    requires !Contains(s, pat)
    ensures RemoveAll(s, pat) == s
    decreases |s|
  {
    if s != [] {
      assert !OccursAt(s, pat, 0);
      assert !Contains(s[1..], pat) by {
        if Contains(s[1..], pat) {
          var i :| 0 <= i <= |s[1..]| && OccursAt(s[1..], pat, i);
          assert s[i + 1..i + 1 + |pat|] == s[1..][i..i + |pat|];
          assert OccursAt(s, pat, i + 1);
        }
      }
      RemoveAllAbsent(s[1..], pat);
    }
  }

  /** A prefix that cannot start an occurrence (it lacks the pattern's first
      character) passes through `RemoveAll` unchanged. */
  lemma {:induction false} RemoveAllSkipsPrefix(x: string, t: string, pat: string)
    requires pat != []
    requires pat[0] !in x
    ensures RemoveAll(x + t, pat) == x + RemoveAll(t, pat)
    decreases |x|
  {
    if x == [] {
      assert x + t == t;
    } else {
      assert (x + t)[0] == x[0] && x[0] in x;
      assert !StartsWith(x + t, pat);
      assert x == [x[0]] + x[1..];
      assert (x + t)[1..] == x[1..] + t;
      RemoveAllSkipsPrefix(x[1..], t, pat);
      calc {
        RemoveAll(x + t, pat);
        [x[0]] + RemoveAll(x[1..] + t, pat);
        [x[0]] + (x[1..] + RemoveAll(t, pat));
      }
    }
  }

  // ---------------------------------------------------------------------
  // str(n)

  function DigitChar(d: nat): char
    requires d < 10
  {
    "0123456789"[d]
  }

  predicate IsDigit(c: char) {
    '0' <= c <= '9'
  }

  /** `str(n)` for a natural number: decimal digits, no leading zero. */
  function NatToString(n: nat): (r: string)
    ensures |r| >= 1
    ensures forall i | 0 <= i < |r| :: IsDigit(r[i])
    ensures n >= 10 <==> |r| >= 2
    decreases n
  {
    if n < 10 then [DigitChar(n)] else NatToString(n / 10) + [DigitChar(n % 10)]
  }

  /** `int(s)` for a string of decimal digits. */
  function DigitsValue(s: string): nat
    requires forall i | 0 <= i < |s| :: IsDigit(s[i])
  {
    if s == [] then 0
    else
      assert IsDigit(s[|s| - 1]);
      DigitsValue(s[..|s| - 1]) * 10 + (s[|s| - 1] as int - '0' as int)
  }

  /** `int(str(n)) == n`. */
  lemma {:induction false} NatToStringRoundTrip(n: nat)
    ensures DigitsValue(NatToString(n)) == n
    decreases n
  {
    if n >= 10 {
      var s := NatToString(n);
      assert s[..|s| - 1] == NatToString(n / 10);
      NatToStringRoundTrip(n / 10);
    }
  }

  /** The longest prefix of `s` made of decimal digits. */
  function DigitPrefix(s: string): string {
    if s != [] && IsDigit(s[0]) then [s[0]] + DigitPrefix(s[1..]) else []
  }

  /** Digits followed by a non-digit are read back by `DigitPrefix`. */
  lemma {:induction false} LeadingDigits(d: string, rest: string)
    requires forall i | 0 <= i < |d| :: IsDigit(d[i])
    requires rest == [] || !IsDigit(rest[0])
    ensures DigitPrefix(d + rest) == d
  {
    if d == [] {
      assert d + rest == rest;
    } else {
      assert (d + rest)[1..] == d[1..] + rest;
      LeadingDigits(d[1..], rest);
    }
  }

  /** Distinct numbers print differently. */
  lemma NatToStringInjective(a: nat, b: nat)
    requires NatToString(a) == NatToString(b)
    ensures a == b
  {
    NatToStringRoundTrip(a);
    NatToStringRoundTrip(b);
  }

  // ---------------------------------------------------------------------
  // len(s.split())

  /** `s[i]` is the last character of a whitespace-delimited word. */
  predicate EndsWord(s: string, i: int)
    requires 0 <= i < |s|
  {
    !IsSpace(s[i]) && (i + 1 == |s| || IsSpace(s[i + 1]))
  }

  /** `len(s.split())`: the number of maximal runs of non-whitespace,
      counted by their last characters. */
  function WordCount(s: string): nat
    decreases |s|
  {
    if s == [] then 0
    else (if EndsWord(s, 0) then 1 else 0) + WordCount(s[1..])
  }

  /** Characters `i < j < k` of `s` read word, gap, word. */
  predicate GapBetweenWords(s: string, i: int, j: int, k: int) {
    0 <= i < j < k < |s| && !IsSpace(s[i]) && IsSpace(s[j]) && !IsSpace(s[k])
  }

  /** A string has a word iff it has a non-whitespace character. */
  lemma {:induction false} HasWordIffNonSpace(s: string)
    ensures WordCount(s) >= 1 <==> exists m | 0 <= m < |s| :: !IsSpace(s[m])
    decreases |s|
  {
    if s != [] {
      HasWordIffNonSpace(s[1..]);
      if exists m | 0 <= m < |s| :: !IsSpace(s[m]) {
        var m :| 0 <= m < |s| && !IsSpace(s[m]);
        if !EndsWord(s, 0) && m == 0 {
          assert !IsSpace(s[1..][0]);
        } else if m > 0 {
          assert !IsSpace(s[1..][m - 1]);
        }
      }
      if exists m | 0 <= m < |s[1..]| :: !IsSpace(s[1..][m]) {
        var m :| 0 <= m < |s[1..]| && !IsSpace(s[1..][m]);
        assert !IsSpace(s[m + 1]);
      }
    }
  }

  /** `len(s.split()) >= 2` iff some whitespace lies between two
      non-whitespace characters. */
  lemma {:induction false} TwoWordsIffGap(s: string)
    ensures WordCount(s) >= 2 <==> exists i, j, k :: GapBetweenWords(s, i, j, k)
    decreases |s|
  {
    if s == [] {
      return;
    }
    var t := s[1..];
    TwoWordsIffGap(t);
    HasWordIffNonSpace(t);
    if WordCount(s) >= 2 {
      if EndsWord(s, 0) {
        assert WordCount(t) >= 1;
        var m :| 0 <= m < |t| && !IsSpace(t[m]);
        assert GapBetweenWords(s, 0, 1, m + 1);
      } else {
        var i, j, k :| GapBetweenWords(t, i, j, k);
        assert GapBetweenWords(s, i + 1, j + 1, k + 1);
      }
    }
    if exists i, j, k :: GapBetweenWords(s, i, j, k) {
      var i, j, k :| GapBetweenWords(s, i, j, k);
      if i > 0 {
        assert GapBetweenWords(t, i - 1, j - 1, k - 1);
      } else if IsSpace(s[1]) {
        assert EndsWord(s, 0);
        assert !IsSpace(t[k - 1]);
      } else {
        assert GapBetweenWords(t, 0, j - 1, k - 1);
      }
    }
  }

  /** Lower-casing never turns whitespace into a letter or back, so it
      leaves the word count alone. */
  lemma {:induction false} WordCountLower(s: string)
    ensures WordCount(Lower(s)) == WordCount(s)
    decreases |s|
  {
    if s != [] {
      var l := Lower(s);
      assert l[1..] == Lower(s[1..]);
      assert EndsWord(l, 0) == EndsWord(s, 0);
      WordCountLower(s[1..]);
    }
  }

  /** A word gap survives when the surrounding whitespace is cut away. */
  lemma GapInsideStrip(s: string, r: string, a: int, i: int, j: int, k: int)
    requires IsStripOf(s, r, a) && GapBetweenWords(s, i, j, k)
    ensures GapBetweenWords(r, i - a, j - a, k - a)
  {
    assert a <= i;
    assert k < a + |r|;
    assert r[i - a] == s[i] && r[j - a] == s[j] && r[k - a] == s[k];
  }

  /** `strip` never changes whether a string has at least two words. */
  lemma WordCountStrip(s: string)
    ensures WordCount(Strip(s)) >= 2 <==> WordCount(s) >= 2
  {
    var r := Strip(s);
    StripSpec(s);
    var a :| IsStripOf(s, r, a);
    TwoWordsIffGap(s);
    TwoWordsIffGap(r);
    if WordCount(s) >= 2 {
      var i, j, k :| GapBetweenWords(s, i, j, k);
      GapInsideStrip(s, r, a, i, j, k);
    }
    if WordCount(r) >= 2 {
      var i, j, k :| GapBetweenWords(r, i, j, k);
      assert r[i] == s[i + a] && r[j] == s[j + a] && r[k] == s[k + a];
      assert GapBetweenWords(s, i + a, j + a, k + a);
    }
  }

}
