/**
 * `sanitize_text_columns` of the dashboard (app.py): every text column is
 * rendered as strings, URL schemes are escaped so that the UI does not
 * turn them into links, and long cells are truncated. Also the reverse
 * step the catalog applies to a thumbnail before using it as an image
 * source.
 */
module Sanitize {
  import opened Wrappers
  import opened Text

  /** Cells longer than this are cut. */
  const MaxCellLength: nat := 300
  const Ellipsis: string := "..."
  /** The escaped form of the scheme separator. */
  const Escaped: string := "[:]//"
  const Separator: string := "://"
  /** What a missing cell becomes under `astype(str)`. */
  const MissingText: string := "nan"
  /** The image shown when a row has no usable thumbnail. */
  const Placeholder: string := "https://via.placeholder.com/600x600?text=No+image"

  /** No `http://` and no `https://` anywhere in `s`. */
  predicate NoUrl(s: string)
  {
    !Contains(s, "http://") && !Contains(s, "https://")
  }

  // ---------------------------------------------------------------- the regex branch

  /**
   * `re.sub(r'https?://', ...)` with a replacement that turns the match's
   * `://` into `[:]//`. Matches are found left to right without overlap;
   * at each position the optional `s` is tried first.
   */
  function EscapeUrls(s: string): string
    decreases |s|
  {
    if StartsWith(s, "https://") then "https[:]//" + EscapeUrls(s[8..])
    else if StartsWith(s, "http://") then "http[:]//" + EscapeUrls(s[7..])
    else if s == [] then []
    else [s[0]] + EscapeUrls(s[1..])
  }

  /** Escaping keeps a prefix without an `h`: such a prefix of the result was already a prefix of the input. */
  lemma {:induction false} EscapeKeepsPrefix(u: string, p: string)
    requires 'h' !in p
    ensures StartsWith(EscapeUrls(u), p) ==> StartsWith(u, p)
    decreases |p|
  {
    var r := EscapeUrls(u);
    if p != [] && StartsWith(r, p) {
      assert r[0] == p[0];
      assert p[0] in p;
      assert u != [];
      assert r == [u[0]] + EscapeUrls(u[1..]);
      ConsStartsWith(u[0], EscapeUrls(u[1..]), p);
      assert forall c :: c in p[1..] ==> c in p;
      EscapeKeepsPrefix(u[1..], p[1..]);
      ConsStartsWith(u[0], u[1..], p);
      assert u == [u[0]] + u[1..];
    }
  }

  /**
   * The regex replace is the same as two plain replaces, `https://` by
   * `https[:]//` and then `http://` by `http[:]//`: every scheme separator
   * after `http` or `https` is escaped, and no other part of the text
   * changes.
   */
  lemma {:induction false} EscapeUrlsTwoReplaces(s: string)
    ensures EscapeUrls(s) == ReplaceAll(ReplaceAll(s, "https://", "https[:]//"), "http://", "http[:]//")
    decreases |s|
  {
    if s == [] {
    } else if StartsWith(s, "https://") {
      EscapeHttps(s);
    } else if StartsWith(s, "http://") {
      EscapeHttp(s);
    } else {
      EscapeOther(s);
    }
  }

  lemma {:induction false} EscapeHttps(s: string)
    requires StartsWith(s, "https://")
    ensures EscapeUrls(s) == ReplaceAll(ReplaceAll(s, "https://", "https[:]//"), "http://", "http[:]//")
    decreases |s|, 0
  {
    var t := s[8..];
    var a := ReplaceAll(t, "https://", "https[:]//");
    assert ReplaceAll(s, "https://", "https[:]//") == "https[:]//" + a;
    DiffersAt("https[:]//" + a, "http://", 4);
    ReplaceAllSkipHead("https[:]//", a, "http://", "http[:]//");
    EscapeUrlsTwoReplaces(t);
  }

  lemma {:induction false} EscapeHttp(s: string)
    requires StartsWith(s, "http://")
    ensures EscapeUrls(s) == ReplaceAll(ReplaceAll(s, "https://", "https[:]//"), "http://", "http[:]//")
    decreases |s|, 0
  {
    var t := s[7..];
    assert s == "http://" + t by { assert s[..7] == "http://"; }
    DiffersAt(s, "https://", 4);
    ReplaceAllSkipHead("http://", t, "https://", "https[:]//");
    var a := ReplaceAll(t, "https://", "https[:]//");
    var u := "http://" + a;
    assert StartsWith(u, "http://") by { assert u[..7] == "http://"; }
    assert u[7..] == a;
    EscapeUrlsTwoReplaces(t);
  }

  lemma {:induction false} EscapeOther(s: string)
    requires s != [] && !StartsWith(s, "https://") && !StartsWith(s, "http://")
    ensures EscapeUrls(s) == ReplaceAll(ReplaceAll(s, "https://", "https[:]//"), "http://", "http[:]//")
    decreases |s|, 0
  {
    var t := s[1..];
    var a := ReplaceAll(t, "https://", "https[:]//");
    assert ReplaceAll(s, "https://", "https[:]//") == [s[0]] + a;
    assert "http://"[1..] == "ttp://";
    ConsStartsWith(s[0], a, "http://");
    ReplaceAllKeepsPrefix(t, "https://", "https[:]//", "ttp://");
    assert s == [s[0]] + t;
    ConsStartsWith(s[0], t, "http://");
    assert ([s[0]] + a)[1..] == a;
    EscapeUrlsTwoReplaces(t);
  }

  /** The regex branch only touches URLs: text without `http://` and `https://` comes back unchanged. */
  lemma {:induction false} EscapeUrlFree(s: string)
    requires NoUrl(s)
    ensures EscapeUrls(s) == s
    decreases |s|
  {
    if s != [] {
      assert s[0..] == s;
      assert !StartsWith(s, "https://") && !StartsWith(s, "http://");
      NotContainsSuffix(s, 1, "http://");
      NotContainsSuffix(s, 1, "https://");
      EscapeUrlFree(s[1..]);
      assert s == [s[0]] + s[1..];
    }
  }

  /**
   * The two branches differ: the regex branch leaves a `://` after any
   * other scheme alone, while the fallback escapes every `://`.
   */
  lemma BranchesDiffer()
    ensures EscapeUrls("ftp://x") == "ftp://x"
    ensures EscapeSeparators("ftp://x") == "ftp[:]//x"
  {
    NoUrlWithoutH("ftp://x");
    EscapeUrlFree("ftp://x");
    FallbackEscapesFtp();
  }

  /** Text without an `h` holds no URL. */
  lemma NoUrlWithoutH(s: string)
    requires 'h' !in s
    ensures NoUrl(s)
  {
    forall i | 0 <= i <= |s|
      ensures !StartsWith(s[i..], "http://") && !StartsWith(s[i..], "https://")
    {
      if i < |s| {
        assert s[i..][0] == s[i];
      }
    }
  }

  lemma FallbackEscapesFtp()
    ensures EscapeSeparators("ftp://x") == "ftp[:]//x"
  {
    var t := "://x";
    assert "ftp://x" == "ftp" + t;
    assert ':' !in "ftp";
    ReplaceAllPlain("ftp", t, Separator, Escaped);
    assert StartsWith(t, Separator) by { assert t[..3] == Separator; }
    assert t[3..] == "x";
    assert ':' !in "x";
    ReplaceAllPlain("x", [], Separator, Escaped);
    assert "x" + [] == "x";
  }

  /** After escaping, no `http://` or `https://` is left. */
  lemma {:induction false} EscapeLeavesNoUrl(s: string)
    ensures NoUrl(EscapeUrls(s))
    decreases |s|
  {
    var r := EscapeUrls(s);
    if StartsWith(s, "https://") {
      EscapeLeavesNoUrl(s[8..]);
      EscapedPrefixNoUrl("https[:]//", EscapeUrls(s[8..]));
    } else if StartsWith(s, "http://") {
      EscapeLeavesNoUrl(s[7..]);
      EscapedPrefixNoUrl("http[:]//", EscapeUrls(s[7..]));
    } else if s != [] {
      var t := EscapeUrls(s[1..]);
      EscapeLeavesNoUrl(s[1..]);
      assert r == [s[0]] + t;
      forall i | 0 <= i <= |r|
        ensures !StartsWith(r[i..], "http://") && !StartsWith(r[i..], "https://")
      {
        if i > 0 {
          assert r[i..] == t[i - 1..];
        } else {
          assert r[i..] == r;
          ConsStartsWith(s[0], t, "http://");
          ConsStartsWith(s[0], t, "https://");
          EscapeKeepsPrefix(s[1..], "ttp://");
          EscapeKeepsPrefix(s[1..], "ttps://");
          ConsStartsWith(s[0], s[1..], "http://");
          ConsStartsWith(s[0], s[1..], "https://");
          assert s == [s[0]] + s[1..];
        }
      }
    }
  }

  /** An escaped scheme followed by URL-free text is URL-free. */
  lemma EscapedPrefixNoUrl(e: string, t: string)
    requires e == "https[:]//" || e == "http[:]//"
    requires NoUrl(t)
    ensures NoUrl(e + t)
  {
    var r := e + t;
    forall i | 0 <= i <= |r|
      ensures !StartsWith(r[i..], "http://") && !StartsWith(r[i..], "https://")
    {
      if i >= |e| {
        assert r[i..] == t[i - |e|..];
      } else if i > 0 {
        assert r[i..][0] == e[i] != 'h';
        DiffersAt(r[i..], "http://", 0);
        DiffersAt(r[i..], "https://", 0);
      } else {
        assert r[i..] == r;
        assert r[4] == e[4] && r[5] == e[5];
        DiffersAt(r, "http://", 4);
        if e == "https[:]//" {
          DiffersAt(r, "https://", 5);
        } else {
          DiffersAt(r, "https://", 4);
        }
      }
    }
  }

  // ---------------------------------------------------------------- the fallback branch

  /** The fallback of the `except` branch: `s.replace('://', '[:]//')`. */
  function EscapeSeparators(s: string): string
  {
    ReplaceAll(s, Separator, Escaped)
  }

  /** After the fallback no `://` is left, and so neither `http://` nor `https://`. */
  lemma {:induction false} FallbackLeavesNoSeparator(s: string)
    ensures !Contains(EscapeSeparators(s), Separator)
    ensures NoUrl(EscapeSeparators(s))
    decreases |s|
  {
    var r := EscapeSeparators(s);
    if StartsWith(s, Separator) {
      var t := EscapeSeparators(s[3..]);
      FallbackLeavesNoSeparator(s[3..]);
      assert r == Escaped + t;
      forall i | 0 <= i <= |r|
        ensures !StartsWith(r[i..], Separator)
      {
        if i >= 5 {
          assert r[i..] == t[i - 5..];
        } else if i == 1 {
          assert r[i..][1] == ']';
          DiffersAt(r[i..], Separator, 1);
        } else {
          assert r[i..][0] == Escaped[i] != ':';
          DiffersAt(r[i..], Separator, 0);
        }
      }
    } else if s != [] {
      var t := EscapeSeparators(s[1..]);
      FallbackLeavesNoSeparator(s[1..]);
      assert r == [s[0]] + t;
      forall i | 0 <= i <= |r|
        ensures !StartsWith(r[i..], Separator)
      {
        if i > 0 {
          assert r[i..] == t[i - 1..];
        } else {
          assert r[i..] == r;
          ConsStartsWith(s[0], t, Separator);
          ReplaceAllKeepsPrefix(s[1..], Separator, Escaped, "//");
          ConsStartsWith(s[0], s[1..], Separator);
          assert s == [s[0]] + s[1..];
        }
      }
    }
    SeparatorFreeNoUrl(r);
  }

  /** Both URL schemes contain `://`, so text without it has neither. */
  lemma SeparatorFreeNoUrl(r: string)
    requires !Contains(r, Separator)
    ensures NoUrl(r)
  {
    forall i | 0 <= i <= |r|
      ensures !StartsWith(r[i..], "http://") && !StartsWith(r[i..], "https://")
    {
      SchemeHasSeparator(r[i..]);
      if i + 4 <= |r| {
        assert r[i..][4..] == r[i + 4..];
      }
      if i + 5 <= |r| {
        assert r[i..][5..] == r[i + 5..];
      }
    }
  }

  /** `http://` has `://` at offset 4, `https://` at offset 5. */
  lemma SchemeHasSeparator(x: string)
    ensures StartsWith(x, "http://") ==> StartsWith(x[4..], Separator)
    ensures StartsWith(x, "https://") ==> StartsWith(x[5..], Separator)
  {
    if StartsWith(x, "http://") {
      assert x[4..][..3] == x[..7][4..];
    }
    if StartsWith(x, "https://") {
      assert x[5..][..3] == x[..8][5..];
    }
  }

  // ---------------------------------------------------------------- un-escaping

  /** The catalog's `thumb.replace('[:]//', '://')`. */
  function Unescape(s: string): string
  {
    ReplaceAll(s, Escaped, Separator)
  }

  /** `Escaped` followed by anything un-escapes to `://` followed by the rest un-escaped. */
  lemma UnescapeEscaped(t: string)
    ensures Unescape(Escaped + t) == Separator + Unescape(t)
  {
    assert StartsWith(Escaped + t, Escaped) by {
      assert (Escaped + t)[..5] == Escaped;
    }
    assert (Escaped + t)[5..] == t;
  }

  /** A character that is not `[` and is not followed by `:]//` un-escapes to itself. */
  lemma UnescapeCons(c: char, t: string)
    requires !StartsWith([c] + t, Escaped)
    ensures Unescape([c] + t) == [c] + Unescape(t)
  {
    assert ([c] + t)[1..] == t;
  }

  /** Un-escaping the regex branch gives the original back, unless the original already held `[:]//`. */
  lemma {:induction false} UnescapeEscapeUrls(s: string)
    requires !Contains(s, Escaped)
    ensures Unescape(EscapeUrls(s)) == s
    decreases |s|
  {
    if StartsWith(s, "https://") {
      NotContainsSuffix(s, 8, Escaped);
      UnescapeEscapeUrls(s[8..]);
      assert EscapeUrls(s) == "https" + Escaped + EscapeUrls(s[8..]);
      UnescapeScheme("https", s, 8);
    } else if StartsWith(s, "http://") {
      NotContainsSuffix(s, 7, Escaped);
      UnescapeEscapeUrls(s[7..]);
      assert EscapeUrls(s) == "http" + Escaped + EscapeUrls(s[7..]);
      UnescapeScheme("http", s, 7);
    } else if s != [] {
      NotContainsSuffix(s, 1, Escaped);
      UnescapeEscapeUrls(s[1..]);
      UnescapePlainChar(s);
    }
  }

  /** A first character that starts no scheme is escaped and un-escaped as itself. */
  lemma UnescapePlainChar(s: string)
    requires s != [] && !StartsWith(s, "https://") && !StartsWith(s, "http://")
    requires !Contains(s, Escaped) && Unescape(EscapeUrls(s[1..])) == s[1..]
    ensures Unescape(EscapeUrls(s)) == s
  {
    var t := EscapeUrls(s[1..]);
    assert EscapeUrls(s) == [s[0]] + t;
    assert !StartsWith(s, Escaped) by {
      assert s[0..] == s;
    }
    ConsStartsWith(s[0], t, Escaped);
    EscapeKeepsPrefix(s[1..], ":]//");
    ConsStartsWith(s[0], s[1..], Escaped);
    assert s == [s[0]] + s[1..];
    UnescapeCons(s[0], t);
  }

  /** One escaped scheme followed by text that un-escapes to the rest of `s`. */
  lemma UnescapeScheme(scheme: string, s: string, n: int)
    requires scheme == "https" || scheme == "http"
    requires n == |scheme| + 3 && StartsWith(s, scheme + Separator)
    requires Unescape(EscapeUrls(s[n..])) == s[n..]
    ensures Unescape(scheme + Escaped + EscapeUrls(s[n..])) == s
  {
    var t := EscapeUrls(s[n..]);
    assert scheme + Escaped + t == scheme + (Escaped + t);
    ReplaceAllPlain(scheme, Escaped + t, Escaped, Separator);
    UnescapeEscaped(t);
    assert s == s[..n] + s[n..];
    assert s[..n] == scheme + Separator;
  }

  /** Un-escaping the fallback gives the original back, unless the original already held `[:]//`. */
  lemma {:induction false} UnescapeSeparators(s: string)
    requires !Contains(s, Escaped)
    ensures Unescape(EscapeSeparators(s)) == s
    decreases |s|
  {
    if StartsWith(s, Separator) {
      NotContainsSuffix(s, 3, Escaped);
      UnescapeSeparators(s[3..]);
      UnescapeEscaped(EscapeSeparators(s[3..]));
      assert s == s[..3] + s[3..];
    } else if s != [] {
      NotContainsSuffix(s, 1, Escaped);
      UnescapeSeparators(s[1..]);
      var t := EscapeSeparators(s[1..]);
      assert EscapeSeparators(s) == [s[0]] + t;
      assert !StartsWith(s, Escaped) by {
        assert s[0..] == s;
      }
      ConsStartsWith(s[0], t, Escaped);
      ReplaceAllKeepsPrefix(s[1..], Separator, Escaped, ":]//");
      ConsStartsWith(s[0], s[1..], Escaped);
      assert s == [s[0]] + s[1..];
      UnescapeCons(s[0], t);
    }
  }

  /** Blank text has no `[` and un-escapes to itself. */
  lemma UnescapeBlank(x: string)
    ensures IsBlank(x) ==> Unescape(x) == x
  {
    if IsBlank(x) {
      assert !IsSpace('[');
      assert '[' !in x;
      ReplaceAllPlain(x, [], Escaped, Separator);
      assert x + [] == x;
    }
  }

  // ---------------------------------------------------------------- truncation

  /** Cells of at most 300 characters are kept; longer ones become their first 300 characters and `...`. */
  function Truncate(s: string): (r: string)
    ensures |r| <= MaxCellLength + |Ellipsis|
    ensures |s| <= MaxCellLength ==> r == s
    ensures |s| > MaxCellLength ==>
              |r| == MaxCellLength + |Ellipsis| && r[..MaxCellLength] == s[..MaxCellLength] && r[MaxCellLength..] == Ellipsis
  {
    if |s| <= MaxCellLength then s else s[..MaxCellLength] + Ellipsis
  }

  /** Truncation cannot create a pattern that has no `.` in it. */
  lemma TruncateKeepsAbsent(s: string, p: string)
    requires |p| > 0 && '.' !in p && !Contains(s, p)
    ensures !Contains(Truncate(s), p)
  {
    var r := Truncate(s);
    if |s| > MaxCellLength {
      forall i | 0 <= i <= |r|
        ensures !StartsWith(r[i..], p)
      {
        if i + |p| <= MaxCellLength {
          assert r[i..][..|p|] == s[i..][..|p|];
        } else {
          var k := if i < MaxCellLength then MaxCellLength - i else 0;
          if i + k < |r| {
            assert r[i..][k] == '.';
            assert p[k] in p;
          }
          DiffersAt(r[i..], p, k);
        }
      }
    }
  }

  // ---------------------------------------------------------------- one cell

  /** `astype(str)`: a missing cell becomes the text `nan`. */
  function AsText(c: Option<string>): string
  {
    match c
    case Some(s) => s
    case None => MissingText
  }

  /** The escaping step of one cell, on the regex branch or on the fallback. */
  function EscapeCell(s: string, fallback: bool): string
  {
    if fallback then EscapeSeparators(s) else EscapeUrls(s)
  }

  /**
   * One sanitised cell: rendered as text, schemes escaped, truncated. It
   * has at most 303 characters and no `http://` or `https://`; on the
   * fallback branch not even a `://`.
   */
  function SanitizeCell(c: Option<string>, fallback: bool): (r: string)
    ensures |r| <= MaxCellLength + |Ellipsis|
    ensures NoUrl(r)
    ensures fallback ==> !Contains(r, Separator)
    ensures |EscapeCell(AsText(c), fallback)| <= MaxCellLength ==> r == EscapeCell(AsText(c), fallback)
  {
    TruncatedCellClean(AsText(c), fallback);
    Truncate(EscapeCell(AsText(c), fallback))
  }

  lemma TruncatedCellClean(s: string, fallback: bool)
    ensures NoUrl(Truncate(EscapeCell(s, fallback)))
    ensures fallback ==> !Contains(Truncate(EscapeCell(s, fallback)), Separator)
  {
    var e := EscapeCell(s, fallback);
    EscapeLeavesNoUrl(s);
    FallbackLeavesNoSeparator(s);
    TruncateKeepsAbsent(e, "http://");
    TruncateKeepsAbsent(e, "https://");
    if fallback {
      TruncateKeepsAbsent(e, Separator);
    }
  }

  // ---------------------------------------------------------------- the frame

  /** The cells of one column, by dtype. Only object/string columns are rewritten. */
  datatype Values =
    | Texts(cells: seq<Option<string>>)
    | Reals(nums: seq<Option<real>>)
    | Ints(ints: seq<int>)
    | Bools(flags: seq<bool>)

  datatype Column = Column(name: string, values: Values)

  /** A text column after sanitising: every cell present, each sanitised. */
  function SanitizeColumn(cells: seq<Option<string>>, fallback: bool): (r: seq<Option<string>>)
    ensures |r| == |cells|
    ensures forall i :: 0 <= i < |r| ==> r[i] == Some(SanitizeCell(cells[i], fallback))
  {
    seq(|cells|, i requires 0 <= i < |cells| => Some(SanitizeCell(cells[i], fallback)))
  }

  /**
   * `sanitize_text_columns`: works on a copy, rewriting the text columns
   * one by one. `failing` names the columns whose regex replacement
   * raised, which take the fallback branch. Column names, order and
   * heights are kept, non-text columns are untouched, and every cell of a
   * text column ends up present, at most 303 characters long and free of
   * `http://` and `https://`.
   */
  method SanitizeTextColumns(df: seq<Column>, failing: set<string>) returns (out: seq<Column>)
    ensures |out| == |df|
    ensures forall k :: 0 <= k < |df| ==> out[k].name == df[k].name
    ensures forall k :: 0 <= k < |df| && !df[k].values.Texts? ==> out[k] == df[k]
    ensures forall k :: 0 <= k < |df| && df[k].values.Texts? ==>
              out[k].values == Texts(SanitizeColumn(df[k].values.cells, df[k].name in failing))
    ensures forall k, i :: 0 <= k < |out| && out[k].values.Texts? && 0 <= i < |out[k].values.cells| ==>
              var c := out[k].values.cells[i];
              c.Some? && |c.value| <= MaxCellLength + |Ellipsis| && NoUrl(c.value)
  {
    out := df;
    for k := 0 to |df|
      invariant |out| == |df|
      invariant forall j :: k <= j < |df| ==> out[j] == df[j]
      invariant forall j :: 0 <= j < k && !df[j].values.Texts? ==> out[j] == df[j]
      invariant forall j :: 0 <= j < k && df[j].values.Texts? ==>
                  out[j] == Column(df[j].name, Texts(SanitizeColumn(df[j].values.cells, df[j].name in failing)))
    {
      var col := df[k];
      if col.values.Texts? {
        var cells := SanitizeColumn(col.values.cells, col.name in failing);
        out := out[k := Column(col.name, Texts(cells))];
      }
    }
  }

  // ---------------------------------------------------------------- thumbnails

  /**
   * The catalog's thumbnail source: a present, non-blank text has `[:]//`
   * turned back into `://`; anything else shows the placeholder.
   */
  function ThumbnailUrl(thumb: Option<string>): (u: string)
    ensures thumb.None? || IsBlank(thumb.value) ==> u == Placeholder
    ensures thumb.Some? && !IsBlank(thumb.value) ==> u == Unescape(thumb.value)
  {
    match thumb
    case Some(s) =>
      StripEmptyIffBlank(s);
      if Strip(s) != [] then Unescape(s) else Placeholder
    case None => Placeholder
  }

  /**
   * A non-blank thumbnail URL that holds no `[:]//` and is short enough
   * not to be truncated comes back unchanged from sanitising and then
   * un-escaping, on either branch.
   */
  lemma ThumbnailRoundTrip(s: string, fallback: bool)
    requires !IsBlank(s) && !Contains(s, Escaped)
    requires |EscapeCell(s, fallback)| <= MaxCellLength
    ensures ThumbnailUrl(Some(SanitizeCell(Some(s), fallback))) == s
  {
    var e := EscapeCell(s, fallback);
    if fallback {
      UnescapeSeparators(s);
    } else {
      UnescapeEscapeUrls(s);
    }
    UnescapeBlank(e);
  }

  /**
   * A thumbnail cell that was missing before sanitising reaches the card
   * view as the text `nan`, which is present and not blank, so the card
   * takes `nan` as its image source rather than the placeholder.
   */
  lemma MissingThumbnailIsNan(fallback: bool)
    ensures SanitizeCell(None, fallback) == MissingText
    ensures ThumbnailUrl(Some(SanitizeCell(None, fallback))) == MissingText
    ensures MissingText != Placeholder
  {
    var t := MissingText;
    assert t[1..] == "an" && t[1..][1..] == "n" && t[1..][1..][1..] == [];
    assert EscapeUrls(t) == t;
    assert ':' !in t && '[' !in t;
    ReplaceAllPlain(t, [], Separator, Escaped);
    ReplaceAllPlain(t, [], Escaped, Separator);
    assert t + [] == t;
    assert !IsSpace(t[0]);
    assert |Placeholder| != |t|;
  }
}
