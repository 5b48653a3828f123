/** Rust's `str::trim`, which is `trim_matches(char::is_whitespace)`: strip the
    leading and the trailing characters that have the Unicode `White_Space`
    property. */
module Text {

  /** The characters with the Unicode `White_Space` property. */
  const WhiteSpace: set<char> := {
    '\U{9}', '\U{A}', '\U{B}', '\U{C}', '\U{D}', ' ', '\U{85}', '\U{A0}', '\U{1680}',
    '\U{2000}', '\U{2001}', '\U{2002}', '\U{2003}', '\U{2004}', '\U{2005}',
    '\U{2006}', '\U{2007}', '\U{2008}', '\U{2009}', '\U{200A}',
    '\U{2028}', '\U{2029}', '\U{202F}', '\U{205F}', '\U{3000}'
  }

  /** `char::is_whitespace`. */
  predicate IsWhitespace(c: char) {
    c in WhiteSpace
  }

  /** Below U+0080 the whitespace characters are tab, line feed, vertical tab,
      form feed, carriage return and space; from U+0080 to U+00FF they are
      U+0085 (next line) and U+00A0 (no-break space). */
  lemma WhiteSpaceAscii(c: char)
    ensures c < '\U{80}' ==> (IsWhitespace(c) <==> c == ' ' || '\U{9}' <= c <= '\U{D}')
    ensures '\U{80}' <= c < '\U{100}' ==> (IsWhitespace(c) <==> c == '\U{85}' || c == '\U{A0}')
  {
  }

  predicate AllMatch(s: string, p: char -> bool) {
    forall i :: 0 <= i < |s| ==> p(s[i])
  }

  predicate AllWhitespace(s: string) {
    AllMatch(s, IsWhitespace)
  }

  /** Index of the first character of `s` at or after `k` that does not match
      `p`, or `|s|` when there is none. */
  function SkipForward(s: string, k: nat, p: char -> bool): (n: nat)
    requires k <= |s|
    ensures k <= n <= |s|
    ensures forall i :: k <= i < n ==> p(s[i])
    ensures n < |s| ==> !p(s[n])
    decreases |s| - k
  {
    if k < |s| && p(s[k]) then SkipForward(s, k + 1, p) else k
  }

  /** One past the last character of `s[lo..k]` that does not match `p`, or
      `lo` when there is none. */
  function SkipBackward(s: string, lo: nat, k: nat, p: char -> bool): (n: nat)
    requires lo <= k <= |s|
    ensures lo <= n <= k
    ensures forall i :: n <= i < k ==> p(s[i])
    ensures n > lo ==> !p(s[n - 1])
    decreases k
  {
    if k > lo && p(s[k - 1]) then SkipBackward(s, lo, k - 1, p) else k
  }

  /** `str::trim_matches(p)`: the infix of `s` left between its leading and its
      trailing run of characters that match `p`. */
  function TrimMatches(s: string, p: char -> bool): (r: string)
    ensures |r| <= |s|
    ensures r == [] || (!p(r[0]) && !p(r[|r| - 1]))
  {
    var i := SkipForward(s, 0, p);
    var j := SkipBackward(s, i, |s|, p);
    s[i..j]
  }

  /** What `TrimMatches` strips: the result is an infix of `s` with only
      matching characters before and after it. */
  lemma TrimMatchesStrips(s: string, p: char -> bool)
    ensures exists i, j :: (0 <= i <= j <= |s| && TrimMatches(s, p) == s[i..j] &&
      (forall k :: 0 <= k < i ==> p(s[k])) &&
      (forall k :: j <= k < |s| ==> p(s[k])))
  {
    var i, j := TrimMatchesBounds(s, p);
  }

  /** The bounds of the infix `TrimMatches` keeps. */
  lemma TrimMatchesBounds(s: string, p: char -> bool) returns (i: nat, j: nat)
    ensures i <= j <= |s| && TrimMatches(s, p) == s[i..j]
    ensures forall k :: 0 <= k < i ==> p(s[k])
    ensures forall k :: j <= k < |s| ==> p(s[k])
    ensures i == j || (!p(s[i]) && !p(s[j - 1]))
  {
    i := SkipForward(s, 0, p);
    j := SkipBackward(s, i, |s|, p);
  }

  /** `str::trim`. */
  function Trim(s: string): (r: string)
    ensures |r| <= |s|
    ensures r == [] || (!IsWhitespace(r[0]) && !IsWhitespace(r[|r| - 1]))
  {
    TrimMatches(s, IsWhitespace)
  }

  /** `TrimMatches` is determined by its contract: a string made of matching
      characters, then `x[i..j]` with a non-matching character at either end,
      then matching characters, trims to `x[i..j]`. */
  lemma TrimMatchesUnique(x: string, i: nat, j: nat, p: char -> bool)
    requires i <= j <= |x|
    requires forall k :: 0 <= k < i ==> p(x[k])
    requires forall k :: j <= k < |x| ==> p(x[k])
    requires i == j || (!p(x[i]) && !p(x[j - 1]))
    ensures TrimMatches(x, p) == x[i..j]
  {
    var a := SkipForward(x, 0, p);
    if i < j {
      assert a == i;
      assert SkipBackward(x, a, |x|, p) == j;
    } else {
      assert a == |x|;
    }
  }

  /** A string trims like any infix of it once everything outside that infix
      matches `p`. */
  lemma TrimMatchesInfix(x: string, a: nat, b: nat, p: char -> bool)
    requires a <= b <= |x|
    requires forall k :: 0 <= k < a ==> p(x[k])
    requires forall k :: b <= k < |x| ==> p(x[k])
    ensures TrimMatches(x, p) == TrimMatches(x[a..b], p)
  {
    var s := x[a..b];
    var i, j := TrimMatchesBounds(s, p);
    InfixPadding(x, a, b, s, i, j, p);
    TrimMatchesUnique(x, a + i, a + j, p);
    assert TrimMatches(x, p) == s[i..j];
  }

  /** The bounds of `s[i..j]` carried over to `x`, of which `s` is the infix
      starting at `a`. */
  lemma InfixPadding(x: string, a: nat, b: nat, s: string, i: nat, j: nat, p: char -> bool)
    requires a <= b <= |x| && s == x[a..b] && i <= j <= |s|
    requires forall k :: 0 <= k < a ==> p(x[k])
    requires forall k :: b <= k < |x| ==> p(x[k])
    requires forall k :: 0 <= k < i ==> p(s[k])
    requires forall k :: j <= k < |s| ==> p(s[k])
    requires i == j || (!p(s[i]) && !p(s[j - 1]))
    ensures forall k :: 0 <= k < a + i ==> p(x[k])
    ensures forall k :: a + j <= k < |x| ==> p(x[k])
    ensures x[a + i..a + j] == s[i..j]
    ensures i == j || (!p(x[a + i]) && !p(x[a + j - 1]))
  {
    forall k | 0 <= k < a + i ensures p(x[k]) {
      if k >= a { assert x[k] == s[k - a]; }
    }
    forall k | a + j <= k < |x| ensures p(x[k]) {
      if k < b { assert x[k] == s[k - a]; }
    }
    forall k | 0 <= k < j - i ensures x[a + i..a + j][k] == s[i..j][k] {
      assert x[a + i + k] == s[i + k];
    }
    if i < j {
      assert x[a + i] == s[i];
      assert x[a + j - 1] == s[j - 1];
    }
  }

  /** Matching characters around a string change nothing once it is trimmed. */
  lemma TrimMatchesIgnoresPadding(w1: string, s: string, w2: string, p: char -> bool)
    requires AllMatch(w1, p) && AllMatch(w2, p)
    ensures TrimMatches(w1 + s + w2, p) == TrimMatches(s, p)
  {
    var x := w1 + s + w2;
    assert x[|w1|..|w1| + |s|] == s;
    forall k | 0 <= k < |w1| ensures p(x[k]) {
      assert x[k] == w1[k];
    }
    forall k | |w1| + |s| <= k < |x| ensures p(x[k]) {
      assert x[k] == w2[k - |w1| - |s|];
    }
    TrimMatchesInfix(x, |w1|, |w1| + |s|, p);
  }

  /** Whitespace around a string changes nothing once it is trimmed. */
  lemma TrimIgnoresSurroundingWhitespace(w1: string, s: string, w2: string)
    requires AllWhitespace(w1) && AllWhitespace(w2)
    ensures Trim(w1 + s + w2) == Trim(s)
  {
    TrimMatchesIgnoresPadding(w1, s, w2, IsWhitespace);
  }

  /** Trimming twice is trimming once. */
  lemma TrimIdempotent(s: string)
    ensures Trim(Trim(s)) == Trim(s)
  {
    var r := Trim(s);
    TrimMatchesUnique(r, 0, |r|, IsWhitespace);
  }
}
