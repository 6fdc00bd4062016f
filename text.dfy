/**
  The string operations the model of tasks relies on: Python's str.strip(),
  str.lower(), str.capitalize() and the code-point order used when strings
  are compared or sorted.
*/
module Text {

  /** The characters for which Python's str.isspace() holds. */
  predicate IsSpace(c: char) {
    || ('\t' <= c <= '\r')
    || ('\U{1C}' <= c <= ' ')
    || c == '\U{85}' || c == '\U{A0}' || c == '\U{1680}'
    || ('\U{2000}' <= c <= '\U{200A}')
    || c == '\U{2028}' || c == '\U{2029}' || c == '\U{202F}'
    || c == '\U{205F}' || c == '\U{3000}'
  }

  /** Every position from `lo` up to (not including) `hi` holds whitespace. */
  ghost predicate SpacesIn(s: string, lo: int, hi: int) {
    0 <= lo <= hi <= |s| && forall i :: lo <= i < hi ==> IsSpace(s[i])
  }

  ghost predicate AllSpace(s: string) {
    SpacesIn(s, 0, |s|)
  }

  /** Neither end of `s` is whitespace: `s` is what strip() can return. */
  predicate IsStripped(s: string) {
    s == [] || (!IsSpace(s[0]) && !IsSpace(s[|s| - 1]))
  }

  /** `r` occurs in `s` at position `a` with only whitespace before and after it. */
  ghost predicate TrimsAt(s: string, r: string, a: int) {
    0 <= a && a + |r| <= |s| && s[a..a + |r|] == r && SpacesIn(s, 0, a) && SpacesIn(s, a + |r|, |s|)
  }

  /** `r` is `s` with whitespace removed from both ends, described without computing it. */
  ghost predicate Trims(s: string, r: string) {
    IsStripped(r) && exists a :: TrimsAt(s, r, a)
  }

  /** The first position at or after `i` that is not whitespace, or |s|. */
  function SkipSpaces(s: string, i: int): (n: int)
    requires 0 <= i <= |s|
    ensures SpacesIn(s, i, n)
    ensures n < |s| ==> !IsSpace(s[n])
    decreases |s| - i
  {
    if i == |s| || !IsSpace(s[i]) then i else SkipSpaces(s, i + 1)
  }

  /** The position after the last non-space character in `s[lo..j]`, or `lo`. */
  function SkipSpacesBack(s: string, lo: int, j: int): (n: int)
    requires 0 <= lo <= j <= |s|
    ensures lo <= n && SpacesIn(s, n, j)
    ensures lo < n ==> !IsSpace(s[n - 1])
  {
    if j == lo || !IsSpace(s[j - 1]) then j else SkipSpacesBack(s, lo, j - 1)
  }

  /** A slice with whitespace only outside it and non-space characters at its ends trims `s`. */
  lemma TrimsSlice(s: string, a: int, b: int)
    requires SpacesIn(s, 0, a) && SpacesIn(s, b, |s|) && a <= b
    requires a < b ==> !IsSpace(s[a]) && !IsSpace(s[b - 1])
    ensures Trims(s, s[a..b])
  {
    assert TrimsAt(s, s[a..b], a);
  }

  /** str.strip() with no argument. */
  function Strip(s: string): (r: string)
    ensures Trims(s, r)
  {
    var a := SkipSpaces(s, 0);
    var b := SkipSpacesBack(s, a, |s|);
    TrimsSlice(s, a, b);
    s[a..b]
  }

  /** Whitespace up to a non-space character ends where the leading whitespace ends. */
  lemma LeadingPosition(s: string, a: int)
    requires SpacesIn(s, 0, a) && a < |s| && !IsSpace(s[a])
    ensures SkipSpaces(s, 0) == a
  {
  }

  /** Whitespace after a non-space character starts where the trailing whitespace starts. */
  lemma TrailingPosition(s: string, lo: int, b: int)
    requires 0 <= lo < b && SpacesIn(s, b, |s|) && !IsSpace(s[b - 1])
    ensures SkipSpacesBack(s, lo, |s|) == b
  {
  }

  /** A string of whitespace only strips to the empty string. */
  lemma StripAllSpace(s: string)
    requires AllSpace(s)
    ensures Strip(s) == []
  {
    assert SkipSpaces(s, 0) == |s|;
  }

  /** Whatever satisfies the description of trimming is what Strip returns. */
  lemma TrimsIsStrip(s: string, r: string)
    requires Trims(s, r)
    ensures r == Strip(s)
  {
    var a :| TrimsAt(s, r, a);
    if r == [] {
      assert AllSpace(s);
      StripAllSpace(s);
    } else {
      assert s[a] == r[0] && s[a + |r| - 1] == r[|r| - 1];
      LeadingPosition(s, a);
      TrailingPosition(s, a, a + |r|);
    }
  }

  /** Whitespace trimming has only one possible outcome. */
  lemma TrimsUnique(s: string, r1: string, r2: string)
    requires Trims(s, r1) && Trims(s, r2)
    ensures r1 == r2
  {
    TrimsIsStrip(s, r1);
    TrimsIsStrip(s, r2);
  }

  /** A trimmed result is empty exactly when the whole string is whitespace. */
  lemma TrimsEmpty(s: string, r: string)
    requires Trims(s, r)
    ensures r == [] <==> AllSpace(s)
  {
    var a :| TrimsAt(s, r, a);
    if r != [] {
      assert s[a] == r[0];
    }
  }

  /** strip() leaves an already stripped string alone. */
  lemma StripStripped(s: string)
    requires IsStripped(s)
    ensures Strip(s) == s
  {
    TrimsSlice(s, 0, |s|);
    assert s[0..|s|] == s;
    TrimsIsStrip(s, s);
  }

  /** strip() is idempotent. */
  lemma StripIdempotent(s: string)
    ensures Strip(Strip(s)) == Strip(s)
  {
    StripStripped(Strip(s));
  }

  function LowerChar(c: char): char {
    if 'A' <= c <= 'Z' then (c as int - 'A' as int + 'a' as int) as char else c
  }

  function UpperChar(c: char): char {
    if 'a' <= c <= 'z' then (c as int - 'a' as int + 'A' as int) as char else c
  }

  /** str.lower(), on the ASCII letters. */
  function Lower(s: string): string {
    seq(|s|, i requires 0 <= i < |s| => LowerChar(s[i]))
  }

  /** str.capitalize(): first character upper case, the rest lower case. */
  function Capitalize(s: string): string {
    if s == [] then [] else [UpperChar(s[0])] + Lower(s[1..])
  }

  /** capitalize() does not depend on the case of its input. */
  lemma CapitalizeIgnoresCase(s: string)
    ensures Capitalize(Lower(s)) == Capitalize(s)
  {
    if s != [] {
      assert Lower(s)[1..] == Lower(s[1..]);
    }
  }

  /** Lower-casing a capitalized string gives the lower-cased original. */
  lemma LowerCapitalize(s: string)
    ensures Lower(Capitalize(s)) == Lower(s)
  {
  }

  lemma CapitalizeIdempotent(s: string)
    ensures Capitalize(Capitalize(s)) == Capitalize(s)
  {
    if s != [] {
      assert Capitalize(s)[1..] == Lower(s[1..]);
    }
  }

  /** Python's `<=` on str: lexicographic by code point, a prefix first. */
  predicate StrLe(a: string, b: string) {
    if a == [] then true
    else if b == [] then false
    else if a[0] != b[0] then a[0] < b[0]
    else StrLe(a[1..], b[1..])
  }

  lemma {:induction false} StrLeReflexive(a: string)
    ensures StrLe(a, a)
  {
    if a != [] { StrLeReflexive(a[1..]); }
  }

  lemma {:induction false} StrLeAntisymmetric(a: string, b: string)
    requires StrLe(a, b) && StrLe(b, a)
    ensures a == b
  {
    if a != [] && b != [] {
      StrLeAntisymmetric(a[1..], b[1..]);
      assert a == [a[0]] + a[1..] && b == [b[0]] + b[1..];
    }
  }

  lemma {:induction false} StrLeTransitive(a: string, b: string, c: string)
    requires StrLe(a, b) && StrLe(b, c)
    ensures StrLe(a, c)
  {
    if a != [] && b != [] && c != [] && a[0] == b[0] == c[0] {
      StrLeTransitive(a[1..], b[1..], c[1..]);
    }
  }

  lemma {:induction false} StrLeTotal(a: string, b: string)
    ensures StrLe(a, b) || StrLe(b, a)
  {
    if a != [] && b != [] && a[0] == b[0] {
      StrLeTotal(a[1..], b[1..]);
    }
  }
}
