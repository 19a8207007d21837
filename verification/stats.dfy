/**
 * The column reductions pandas performs with `skipna=True`: the present
 * values of a column, their sum, mean, minimum, maximum and median, all on
 * exact reals.
 */
module Stats {
  import opened Wrappers

  /** The present (non-missing) values of a column, in row order. */
  function Present(col: seq<Option<real>>): (xs: seq<real>)
    ensures |xs| <= |col|
    ensures forall x :: x in xs <==> Some(x) in col
  {
    if col == [] then []
    else
      var rest := Present(col[1..]);
      assert forall x :: Some(x) in col <==> col[0] == Some(x) || Some(x) in col[1..];
      match col[0]
      case Some(x) => [x] + rest
      case None => rest
  }

  /** At least one cell of the column is present. */
  predicate HasPresent(col: seq<Option<real>>)
  {
    exists i :: 0 <= i < |col| && col[i].Some?
  }

  lemma HasPresentIff(col: seq<Option<real>>)
    ensures HasPresent(col) <==> |Present(col)| > 0
  {
    if HasPresent(col) {
      var i :| 0 <= i < |col| && col[i].Some?;
      assert col[i].value in Present(col);
    }
    if |Present(col)| > 0 {
      assert Some(Present(col)[0]) in col;
    }
  }

  function Sum(xs: seq<real>): real
  {
    if xs == [] then 0.0 else xs[0] + Sum(xs[1..])
  }

  /** The smallest value. */
  function MinOf(xs: seq<real>): (m: real)
    requires |xs| > 0
    ensures m in xs
    ensures forall x :: x in xs ==> m <= x
  {
    if |xs| == 1 then xs[0]
    else
      var m := MinOf(xs[1..]);
      assert forall x :: x in xs ==> x == xs[0] || x in xs[1..];
      if xs[0] <= m then xs[0] else m
  }

  /** The largest value. */
  function MaxOf(xs: seq<real>): (m: real)
    requires |xs| > 0
    ensures m in xs
    ensures forall x :: x in xs ==> x <= m
  {
    if |xs| == 1 then xs[0]
    else
      var m := MaxOf(xs[1..]);
      assert forall x :: x in xs ==> x == xs[0] || x in xs[1..];
      if xs[0] >= m then xs[0] else m
  }

  /** A sum of values each at least `lo` and at most `hi` lies between `n * lo` and `n * hi`. */
  lemma SumBetween(xs: seq<real>, lo: real, hi: real)
    requires forall x :: x in xs ==> lo <= x <= hi
    ensures (|xs| as real) * lo <= Sum(xs) <= (|xs| as real) * hi
  {
    SumAtLeast(xs, lo);
    SumAtMost(xs, hi);
  }

  lemma {:induction false} SumAtLeast(xs: seq<real>, lo: real)
    requires forall x :: x in xs ==> lo <= x
    ensures (|xs| as real) * lo <= Sum(xs)
  {
    if xs != [] {
      assert forall x :: x in xs[1..] ==> x in xs;
      SumAtLeast(xs[1..], lo);
      assert xs[0] in xs;
      var n := |xs[1..]| as real;
      assert |xs| as real == n + 1.0;
      assert (|xs| as real) * lo == n * lo + lo by { MulSucc(n, lo); }
    }
  }

  lemma {:induction false} SumAtMost(xs: seq<real>, hi: real)
    requires forall x :: x in xs ==> x <= hi
    ensures Sum(xs) <= (|xs| as real) * hi
  {
    if xs != [] {
      assert forall x :: x in xs[1..] ==> x in xs;
      SumAtMost(xs[1..], hi);
      assert xs[0] in xs;
      var n := |xs[1..]| as real;
      assert |xs| as real == n + 1.0;
      assert (|xs| as real) * hi == n * hi + hi by { MulSucc(n, hi); }
    }
  }

  lemma MulSucc(n: real, a: real)
    ensures (n + 1.0) * a == n * a + a
  {
  }

  /** The arithmetic mean, which pandas' `mean` computes. */
  function Mean(xs: seq<real>): (m: real)
    requires |xs| > 0
    ensures MinOf(xs) <= m <= MaxOf(xs)
  {
    var n := |xs| as real;
    SumBetween(xs, MinOf(xs), MaxOf(xs));
    DivBetween(Sum(xs), n, MinOf(xs), MaxOf(xs));
    Sum(xs) / n
  }

  lemma DivBetween(s: real, n: real, lo: real, hi: real)
    requires n > 0.0 && n * lo <= s <= n * hi
    ensures lo <= s / n <= hi
  {
    assert s == n * (s / n);
  }

  /** The mean of the present values of a column, `None` when none is present. */
  function MeanOf(col: seq<Option<real>>): (m: Option<real>)
    ensures m.Some? <==> HasPresent(col)
    ensures m.Some? ==> MinOf(Present(col)) <= m.value <= MaxOf(Present(col))
  {
    HasPresentIff(col);
    var xs := Present(col);
    if |xs| == 0 then None else Some(Mean(xs))
  }

  // ---------------------------------------------------------------- median

  predicate Ascending(s: seq<real>)
  {
    forall i, j :: 0 <= i < j < |s| ==> s[i] <= s[j]
  }

  function InsertAscending(x: real, s: seq<real>): (r: seq<real>)
    requires Ascending(s)
    ensures Ascending(r)
    ensures multiset(r) == multiset(s) + multiset{x}
  {
    InsertKeepsAscending(x, s);
    InsertMultiset(x, s);
    InsertInto(x, s)
  }

  /** Puts `x` before the first value it does not exceed. */
  function InsertInto(x: real, s: seq<real>): seq<real>
  {
    if s == [] || x <= s[0] then [x] + s else [s[0]] + InsertInto(x, s[1..])
  }

  lemma {:induction false} InsertMultiset(x: real, s: seq<real>)
    ensures multiset(InsertInto(x, s)) == multiset(s) + multiset{x}
  {
    if s != [] && x > s[0] {
      InsertMultiset(x, s[1..]);
      assert s == [s[0]] + s[1..];
    }
  }

  lemma {:induction false} InsertLowerBound(x: real, s: seq<real>, lo: real)
    requires lo <= x && forall k :: 0 <= k < |s| ==> lo <= s[k]
    ensures forall k :: 0 <= k < |InsertInto(x, s)| ==> lo <= InsertInto(x, s)[k]
  {
    if s != [] && x > s[0] {
      InsertLowerBound(x, s[1..], lo);
    }
  }

  lemma {:induction false} InsertKeepsAscending(x: real, s: seq<real>)
    requires Ascending(s)
    ensures Ascending(InsertInto(x, s))
  {
    var r := InsertInto(x, s);
    if s == [] || x <= s[0] {
      forall i, j | 0 <= i < j < |r|
        ensures r[i] <= r[j]
      {
        if i == 0 && j > 1 {
          assert s[0] <= s[j - 1];
        }
      }
    } else {
      var t := InsertInto(x, s[1..]);
      InsertKeepsAscending(x, s[1..]);
      InsertLowerBound(x, s[1..], s[0]);
      forall i, j | 0 <= i < j < |r|
        ensures r[i] <= r[j]
      {
        if i > 0 {
          assert r[i] == t[i - 1];
        }
        assert r[j] == t[j - 1];
      }
    }
  }

  /** The values in ascending order. */
  function SortAscending(xs: seq<real>): (r: seq<real>)
    ensures Ascending(r)
    ensures multiset(r) == multiset(xs)
  {
    if xs == [] then []
    else
      assert xs == [xs[0]] + xs[1..];
      InsertAscending(xs[0], SortAscending(xs[1..]))
  }

  /**
   * The median as pandas computes it: the middle value of the sorted values,
   * or the mean of the two middle values when their number is even.
   */
  function Median(xs: seq<real>): (m: real)
    requires |xs| > 0
    ensures MinOf(xs) <= m <= MaxOf(xs)
    ensures var s := SortAscending(xs); |s| == |xs| && s[(|xs| - 1) / 2] <= m <= s[|xs| / 2]
  {
    var s := SortAscending(xs);
    MiddlesInRange(xs);
    (s[(|xs| - 1) / 2] + s[|xs| / 2]) / 2.0
  }

  /** The two middle values of the sorted values are values of `xs`, the lower one first. */
  lemma MiddlesInRange(xs: seq<real>)
    requires |xs| > 0
    ensures var s, n := SortAscending(xs), |xs|;
      |s| == n && MinOf(xs) <= s[(n - 1) / 2] <= s[n / 2] <= MaxOf(xs)
  {
    var s, n := SortAscending(xs), |xs|;
    SortedLength(xs);
    var i, j := (n - 1) / 2, n / 2;
    assert 0 <= i <= j < n by {
      assert 2 * i <= n - 1 < 2 * i + 2 && 2 * j <= n < 2 * j + 2;
    }
    SortedInRange(xs, i);
    SortedInRange(xs, j);
    AscendingAt(s, i, j);
  }

  lemma AscendingAt(s: seq<real>, i: int, j: int)
    requires Ascending(s) && 0 <= i <= j < |s|
    ensures s[i] <= s[j]
  {
    if i < j {
      assert s[i] <= s[j];
    }
  }

  lemma SortedLength(xs: seq<real>)
    ensures |SortAscending(xs)| == |xs|
  {
    assert |multiset(SortAscending(xs))| == |multiset(xs)|;
  }

  /** Every sorted value is a value of `xs`, so it lies between the smallest and the largest. */
  lemma SortedInRange(xs: seq<real>, k: int)
    requires 0 <= k < |SortAscending(xs)|
    ensures MinOf(xs) <= SortAscending(xs)[k] <= MaxOf(xs)
  {
    var x := SortAscending(xs)[k];
    assert x in multiset(xs);
    assert x in xs;
  }

  /** How many of `xs` satisfy `p`. */
  function Count(xs: seq<real>, p: real -> bool): nat
  {
    if xs == [] then 0 else (if p(xs[0]) then 1 else 0) + Count(xs[1..], p)
  }

  function AtMost(m: real): real -> bool { y => y <= m }
  function AtLeast(m: real): real -> bool { y => y >= m }

  /**
   * The median splits the values in halves: at least half of them are at
   * most the median, and at least half are at least the median.
   */
  lemma MedianSplits(xs: seq<real>)
    requires |xs| > 0
    ensures 2 * Count(xs, AtMost(Median(xs))) >= |xs|
    ensures 2 * Count(xs, AtLeast(Median(xs))) >= |xs|
  {
    var m, s := Median(xs), SortAscending(xs);
    AscendingSplits(s, m);
    SortCount(xs, AtMost(m));
    SortCount(xs, AtLeast(m));
  }

  /** In ascending order, a value between the two middle values splits the values in halves. */
  lemma AscendingSplits(s: seq<real>, m: real)
    requires Ascending(s) && |s| > 0 && s[(|s| - 1) / 2] <= m <= s[|s| / 2]
    ensures 2 * Count(s, AtMost(m)) >= |s|
    ensures 2 * Count(s, AtLeast(m)) >= |s|
  {
    var n := |s|;
    forall k | 0 <= k < (n - 1) / 2 + 1
      ensures AtMost(m)(s[k])
    {
      assert s[k] <= s[(n - 1) / 2];
    }
    CountPrefix(s, (n - 1) / 2 + 1, AtMost(m));
    forall k | n / 2 <= k < n
      ensures AtLeast(m)(s[k])
    {
      assert s[n / 2] <= s[k];
    }
    CountSuffix(s, n / 2, AtLeast(m));
  }

  /** Inserting `x` adds one to the count exactly when `x` is counted. */
  lemma {:induction false} InsertCount(x: real, s: seq<real>, p: real -> bool)
    ensures Count(InsertInto(x, s), p) == Count(s, p) + (if p(x) then 1 else 0)
  {
    if s != [] && x > s[0] {
      InsertCount(x, s[1..], p);
      assert InsertInto(x, s)[1..] == InsertInto(x, s[1..]);
    }
  }

  /** Sorting keeps every count. */
  lemma {:induction false} SortCount(xs: seq<real>, p: real -> bool)
    ensures Count(SortAscending(xs), p) == Count(xs, p)
  {
    if xs != [] {
      SortCount(xs[1..], p);
      InsertCount(xs[0], SortAscending(xs[1..]), p);
    }
  }

  /** When the first `j` values are counted, the count is at least `j`. */
  lemma {:induction false} CountPrefix(s: seq<real>, j: nat, p: real -> bool)
    requires j <= |s|
    requires forall k :: 0 <= k < j ==> p(s[k])
    ensures Count(s, p) >= j
  {
    if j > 0 {
      CountPrefix(s[1..], j - 1, p);
    }
  }

  /** When the values from `j` on are counted, the count is at least `|s| - j`. */
  lemma {:induction false} CountSuffix(s: seq<real>, j: nat, p: real -> bool)
    requires j <= |s|
    requires forall k :: j <= k < |s| ==> p(s[k])
    ensures Count(s, p) >= |s| - j
  {
    if s != [] {
      if j == 0 {
        CountSuffix(s[1..], 0, p);
      } else {
        CountSuffix(s[1..], j - 1, p);
      }
    }
  }

  /**
   * The median of the present values (pandas' `Series.median`), `None`
   * (NaN) when no value is present.
   */
  function MedianOf(col: seq<Option<real>>): (m: Option<real>)
    ensures m.Some? <==> HasPresent(col)
    ensures m.Some? ==> MinOf(Present(col)) <= m.value <= MaxOf(Present(col))
  {
    HasPresentIff(col);
    var xs := Present(col);
    if |xs| == 0 then None else Some(Median(xs))
  }
}
