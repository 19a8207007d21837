/**
 * The string operations the loader and the catalog rely on: Python's
 * `str.strip`, `str.title`, case-insensitive substring search and
 * `str.replace`, on strings as sequences of characters.
 */
module Text {

  /**
   * The characters Python's `str.isspace` accepts: tab to carriage return,
   * the four separators U+001C to U+001F and the space, NEL, no-break
   * space, Ogham space mark, the spaces U+2000 to U+200A, line and
   * paragraph separators, narrow no-break space, medium mathematical space
   * and ideographic space.
   */
  predicate IsSpace(c: char)
  {
    ('\t' <= c <= '\r') || ('\U{1C}' <= c <= ' ') ||
    c == '\U{85}' || c == '\U{A0}' || c == '\U{1680}' ||
    ('\U{2000}' <= c <= '\U{200A}') || c == '\U{2028}' || c == '\U{2029}' ||
    c == '\U{202F}' || c == '\U{205F}' || c == '\U{3000}'
  }

  predicate IsUpper(c: char) { 'A' <= c <= 'Z' }
  predicate IsLower(c: char) { 'a' <= c <= 'z' }

  /** A cased letter (ASCII only in this model). */
  predicate IsLetter(c: char) { IsUpper(c) || IsLower(c) }

  function ToLower(c: char): (r: char)
    ensures IsLetter(c) ==> IsLower(r)
    ensures !IsUpper(c) ==> r == c
  {
    if IsUpper(c) then c - 'A' + 'a' else c
  }

  function ToUpper(c: char): (r: char)
    ensures IsLetter(c) ==> IsUpper(r)
    ensures !IsLower(c) ==> r == c
  {
    if IsLower(c) then c - 'a' + 'A' else c
  }

  /** `s.lower()` */
  function Lower(s: string): (r: string)
    ensures |r| == |s|
    ensures forall i :: 0 <= i < |s| ==> r[i] == ToLower(s[i])
  {
    seq(|s|, i requires 0 <= i < |s| => ToLower(s[i]))
  }

  // ---------------------------------------------------------------- strip

  /** The index of the first non-whitespace character at or after `i`, or `|s|` when there is none. */
  function SkipSpaces(s: string, i: nat): (j: nat)
    requires i <= |s|
    ensures i <= j <= |s|
    ensures forall k :: i <= k < j ==> IsSpace(s[k])
    ensures j == |s| || !IsSpace(s[j])
    decreases |s| - i
  {
    if i < |s| && IsSpace(s[i]) then SkipSpaces(s, i + 1) else i
  }

  /** The index just past the last non-whitespace character before `j`, or `lo` when there is none. */
  function SkipSpacesBack(s: string, lo: nat, j: nat): (e: nat)
    requires lo <= j <= |s|
    ensures lo <= e <= j
    ensures forall k :: e <= k < j ==> IsSpace(s[k])
    ensures e == lo || !IsSpace(s[e - 1])
    decreases j
  {
    if j > lo && IsSpace(s[j - 1]) then SkipSpacesBack(s, lo, j - 1) else j
  }

  /**
   * `s.strip()`: the result is a contiguous piece of `s` with no whitespace
   * at either end, and everything cut away on either side is whitespace.
   */
  function Strip(s: string): (r: string)
    ensures r == [] || (!IsSpace(r[0]) && !IsSpace(r[|r| - 1]))
    ensures var i := SkipSpaces(s, 0);
      i + |r| <= |s| && r == s[i..i + |r|] &&
      (forall k :: 0 <= k < i ==> IsSpace(s[k])) &&
      (forall k :: i + |r| <= k < |s| ==> IsSpace(s[k]))
  {
    var i := SkipSpaces(s, 0);
    s[i..SkipSpacesBack(s, i, |s|)]
  }

  /** Every character is whitespace. */
  predicate IsBlank(s: string)
  {
    forall k :: 0 <= k < |s| ==> IsSpace(s[k])
  }

  /** `s.strip()` is empty exactly when `s` is blank. */
  lemma StripEmptyIffBlank(s: string)
    ensures Strip(s) == [] <==> IsBlank(s)
  {
    var r := Strip(s);
    var i := SkipSpaces(s, 0);
    if r != [] {
      assert s[i] == r[0];
    }
  }

  // ---------------------------------------------------------------- title

  /** One character of `str.title`: a letter right after a letter is lowered, any other letter raised. */
  function TitleChar(c: char, afterLetter: bool): (r: char)
    ensures IsLetter(r) == IsLetter(c)
    ensures !IsLetter(c) ==> r == c
  {
    if IsLetter(c) then (if afterLetter then ToLower(c) else ToUpper(c)) else c
  }

  function TitleFrom(s: string, afterLetter: bool): (r: string)
    ensures |r| == |s|
    ensures forall i :: 0 <= i < |s| ==>
      r[i] == TitleChar(s[i], if i == 0 then afterLetter else IsLetter(s[i - 1]))
  {
    if s == [] then [] else [TitleChar(s[0], afterLetter)] + TitleFrom(s[1..], IsLetter(s[0]))
  }

  /** `s.title()`: each word starts upper-case, the rest of the word is lower-case. */
  function Title(s: string): (r: string)
    ensures |r| == |s|
    ensures forall i :: 0 <= i < |s| ==> r[i] == TitleChar(s[i], i > 0 && IsLetter(s[i - 1]))
  {
    TitleFrom(s, false)
  }

  /** A string `str.title` leaves alone. */
  predicate IsTitleCased(s: string)
  {
    forall i :: 0 <= i < |s| ==> s[i] == TitleChar(s[i], i > 0 && IsLetter(s[i - 1]))
  }

  /** `str.title` is idempotent: its result is title-cased. */
  lemma TitleIsTitleCased(s: string)
    ensures IsTitleCased(Title(s))
    ensures Title(Title(s)) == Title(s)
  {
    var t := Title(s);
    forall i | 0 <= i < |t|
      ensures t[i] == TitleChar(t[i], i > 0 && IsLetter(t[i - 1]))
    {
      if i > 0 {
        assert t[i - 1] == TitleChar(s[i - 1], i - 1 > 0 && IsLetter(s[i - 2]));
      }
    }
    assert IsTitleCased(t);
    var tt := Title(t);
    forall i | 0 <= i < |t|
      ensures tt[i] == t[i]
    {
      assert tt[i] == TitleChar(t[i], i > 0 && IsLetter(t[i - 1]));
    }
    assert tt == t;
  }

  /** `str.title` never turns whitespace into something else or back. */
  lemma TitleKeepsSpace(s: string, i: int)
    requires 0 <= i < |s|
    ensures IsSpace(Title(s)[i]) <==> IsSpace(s[i])
  {
    var c := s[i];
    assert Title(s)[i] == TitleChar(c, i > 0 && IsLetter(s[i - 1]));
    if IsLetter(c) {
      assert !IsSpace(TitleChar(c, i > 0 && IsLetter(s[i - 1])));
    }
  }

  // ---------------------------------------------------------------- search

  predicate StartsWith(s: string, p: string)
  {
    |p| <= |s| && s[..|p|] == p
  }

  /** `p in s` for strings. */
  predicate Contains(s: string, p: string)
  {
    exists i :: 0 <= i <= |s| && StartsWith(s[i..], p)
  }

  /** A string without `p` has no `p` in any of its suffixes. */
  lemma NotContainsSuffix(s: string, k: int, p: string)
    requires 0 <= k <= |s| && !Contains(s, p)
    ensures !Contains(s[k..], p)
  {
    forall i | 0 <= i <= |s[k..]|
      ensures !StartsWith(s[k..][i..], p)
    {
      assert s[k..][i..] == s[k + i..];
    }
  }

  /** A string starts with `p` iff its first character is `p`'s and the rest starts with the rest of `p`. */
  lemma ConsStartsWith(c: char, t: string, p: string)
    requires p != []
    ensures StartsWith([c] + t, p) <==> c == p[0] && StartsWith(t, p[1..])
  {
    if |p| <= |[c] + t| {
      assert ([c] + t)[..|p|] == [c] + t[..|p| - 1];
    }
  }

  /** One mismatching position (or a string too short) rules a prefix out. */
  lemma DiffersAt(s: string, p: string, k: int)
    requires 0 <= k < |p| && (k >= |s| || s[k] != p[k])
    ensures !StartsWith(s, p)
  {
    if |p| <= |s| {
      assert s[..|p|][k] == s[k];
    }
  }

  /** Searching case-insensitively for a lower-case needle. */
  predicate ContainsNoCase(s: string, lowerNeedle: string)
  {
    Contains(Lower(s), lowerNeedle)
  }

  /** `lowerNeedle` occurs in `s` at `i` when the case of `s` is ignored. */
  predicate MatchesNoCaseAt(s: string, i: int, lowerNeedle: string)
  {
    0 <= i && i + |lowerNeedle| <= |s| &&
    forall k :: 0 <= k < |lowerNeedle| ==> ToLower(s[i + k]) == lowerNeedle[k]
  }

  /** Searching the lowered string is matching position by position with each character lowered. */
  lemma ContainsNoCaseAt(s: string, lowerNeedle: string)
    ensures ContainsNoCase(s, lowerNeedle) <==> exists i :: MatchesNoCaseAt(s, i, lowerNeedle)
  {
    var t, p := Lower(s), lowerNeedle;
    if ContainsNoCase(s, p) {
      var i :| 0 <= i <= |t| && StartsWith(t[i..], p);
      forall k | 0 <= k < |p|
        ensures ToLower(s[i + k]) == p[k]
      {
        assert t[i..][..|p|][k] == t[i + k];
      }
      assert MatchesNoCaseAt(s, i, p);
    }
    if exists i :: MatchesNoCaseAt(s, i, p) {
      var i :| MatchesNoCaseAt(s, i, p);
      assert t[i..][..|p|] == p by {
        forall k | 0 <= k < |p|
          ensures t[i..][..|p|][k] == p[k]
        {
          assert t[i..][..|p|][k] == t[i + k];
        }
      }
      assert StartsWith(t[i..], p);
    }
  }

  // ---------------------------------------------------------------- replace

  /** `s.replace(pat, rep)`: non-overlapping occurrences, scanning left to right. */
  function ReplaceAll(s: string, pat: string, rep: string): (r: string)
    requires |pat| > 0
    decreases |s|
  {
    if StartsWith(s, pat) then rep + ReplaceAll(s[|pat|..], pat, rep)
    else if s == [] then []
    else [s[0]] + ReplaceAll(s[1..], pat, rep)
  }

  /** Text that cannot start an occurrence anywhere is copied unchanged. */
  lemma {:induction false} ReplaceAllPlain(x: string, y: string, pat: string, rep: string)
    requires |pat| > 0 && pat[0] !in x
    ensures ReplaceAll(x + y, pat, rep) == x + ReplaceAll(y, pat, rep)
  {
    if x == [] {
      assert x + y == y;
    } else {
      assert (x + y)[0] == x[0];
      assert !StartsWith(x + y, pat);
      assert (x + y)[1..] == x[1..] + y;
      assert ReplaceAll(x + y, pat, rep) == [x[0]] + ReplaceAll(x[1..] + y, pat, rep);
      ReplaceAllPlain(x[1..], y, pat, rep);
      assert [x[0]] + (x[1..] + ReplaceAll(y, pat, rep)) == x + ReplaceAll(y, pat, rep);
    }
  }

  /** A head that holds no occurrence, and no start of one past its first character, is copied unchanged. */
  lemma ReplaceAllSkipHead(x: string, y: string, pat: string, rep: string)
    requires |pat| > 0 && x != [] && pat[0] !in x[1..] && !StartsWith(x + y, pat)
    ensures ReplaceAll(x + y, pat, rep) == x + ReplaceAll(y, pat, rep)
  {
    var xy := x + y;
    assert xy[0] == x[0] && xy[1..] == x[1..] + y;
    assert ReplaceAll(xy, pat, rep) == [x[0]] + ReplaceAll(x[1..] + y, pat, rep);
    ReplaceAllPlain(x[1..], y, pat, rep);
    assert [x[0]] + (x[1..] + ReplaceAll(y, pat, rep)) == ([x[0]] + x[1..]) + ReplaceAll(y, pat, rep);
    assert [x[0]] + x[1..] == x;
  }

  /**
   * Replacement keeps a prefix that cannot start the replacement text: if
   * the result starts with `p` and `p` does not contain the first
   * character of `rep`, the input already started with `p`.
   */
  lemma {:induction false} ReplaceAllKeepsPrefix(u: string, pat: string, rep: string, p: string)
    requires |pat| > 0 && |rep| > 0 && rep[0] !in p
    ensures StartsWith(ReplaceAll(u, pat, rep), p) ==> StartsWith(u, p)
    decreases |p|
  {
    var r := ReplaceAll(u, pat, rep);
    if p != [] && StartsWith(r, p) {
      assert r[0] == p[0];
      assert p[0] in p;
      assert u != [];
      assert r == [u[0]] + ReplaceAll(u[1..], pat, rep);
      ConsStartsWith(u[0], ReplaceAll(u[1..], pat, rep), p);
      assert forall c :: c in p[1..] ==> c in p;
      ReplaceAllKeepsPrefix(u[1..], pat, rep, p[1..]);
      ConsStartsWith(u[0], u[1..], p);
      assert u == [u[0]] + u[1..];
    }
  }
}
