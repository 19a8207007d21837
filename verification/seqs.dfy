/**
 * Boolean-mask selection on an ordered table (`q[mask]` in pandas), and
 * what it means for the result to be an order-preserving subsequence.
 */
module Seqs {

  /** The rows of `s` for which `keep` holds, in their original order. */
  function Where<T>(s: seq<T>, keep: T -> bool): (r: seq<T>)
    ensures |r| <= |s|
  {
    if s == [] then []
    else if keep(s[0]) then [s[0]] + Where(s[1..], keep)
    else Where(s[1..], keep)
  }

  /** `a` is obtained from `b` by deleting elements, without reordering. */
  ghost predicate IsSubseq<T>(a: seq<T>, b: seq<T>)
    decreases |b|
  {
    if a == [] then true
    else if b == [] then false
    else if a[0] == b[0] then IsSubseq(a[1..], b[1..])
    else IsSubseq(a, b[1..])
  }

  /** Selection keeps row order: its result is a subsequence of its input. */
  lemma {:induction false} WhereIsSubseq<T>(s: seq<T>, keep: T -> bool)
    ensures IsSubseq(Where(s, keep), s)
  {
    if s != [] {
      WhereIsSubseq(s[1..], keep);
      if keep(s[0]) {
        assert Where(s, keep)[0] == s[0];
        assert Where(s, keep)[1..] == Where(s[1..], keep);
      } else {
        SubseqDropHead(Where(s[1..], keep), s);
      }
    }
  }

  /** A subsequence of the tail of `b` is a subsequence of `b`. */
  lemma {:induction false} SubseqDropHead<T>(a: seq<T>, b: seq<T>)
    requires b != [] && IsSubseq(a, b[1..])
    ensures IsSubseq(a, b)
    decreases |b|, |a|
  {
    if a != [] && a[0] == b[0] {
      // b[0] matches a[0]; a[1..] is a subsequence of b[1..] because a is.
      SubseqTail(a, b[1..]);
    }
  }

  /** Dropping the first element of a subsequence keeps it a subsequence. */
  lemma {:induction false} SubseqTail<T>(a: seq<T>, b: seq<T>)
    requires a != [] && IsSubseq(a, b)
    ensures IsSubseq(a[1..], b)
    decreases |b|, |a|
  {
    assert b != [];
    if a[0] == b[0] {
      if a[1..] != [] {
        SubseqDropHead(a[1..], b);
      }
    } else {
      SubseqTail(a, b[1..]);
      if a[1..] != [] {
        SubseqDropHead(a[1..], b);
      }
    }
  }

  /** Appending a row appends it to the selection exactly when it is kept. */
  lemma {:induction false} WhereSnoc<T>(s: seq<T>, x: T, keep: T -> bool)
    ensures Where(s + [x], keep) == Where(s, keep) + (if keep(x) then [x] else [])
  {
    if s == [] {
      assert s + [x] == [x];
    } else {
      assert (s + [x])[1..] == s[1..] + [x];
      WhereSnoc(s[1..], x, keep);
    }
  }

  /** Two selections with the same verdict on every row agree. */
  lemma {:induction false} WhereSame<T>(s: seq<T>, p: T -> bool, q: T -> bool)
    requires forall x :: p(x) == q(x)
    ensures Where(s, p) == Where(s, q)
  {
    if s != [] {
      WhereSame(s[1..], p, q);
    }
  }

  /** Exactly the rows satisfying `keep` are selected, each as often as it occurs. */
  lemma {:induction false} WhereCount<T>(s: seq<T>, keep: T -> bool, x: T)
    ensures multiset(Where(s, keep))[x] == if keep(x) then multiset(s)[x] else 0
  {
    if s != [] {
      WhereCount(s[1..], keep, x);
      assert s == [s[0]] + s[1..];
    }
  }

  /** A row is selected iff it is a row of the input that satisfies `keep`. */
  lemma WhereMembership<T>(s: seq<T>, keep: T -> bool, x: T)
    ensures x in Where(s, keep) <==> x in s && keep(x)
  {
    WhereCount(s, keep, x);
    assert x in Where(s, keep) <==> multiset(Where(s, keep))[x] > 0;
    assert x in s <==> multiset(s)[x] > 0;
  }

  /** Selecting with `p` and then with `q` is selecting with their conjunction. */
  lemma {:induction false} WhereWhere<T>(s: seq<T>, p: T -> bool, q: T -> bool, pq: T -> bool)
    requires forall x :: pq(x) == (p(x) && q(x))
    ensures Where(Where(s, p), q) == Where(s, pq)
  {
    if s != [] {
      WhereWhere(s[1..], p, q, pq);
    }
  }

  /** A selection that keeps every row returns its input. */
  lemma {:induction false} WhereAll<T>(s: seq<T>, keep: T -> bool)
    requires forall x :: keep(x)
    ensures Where(s, keep) == s
  {
    if s != [] {
      WhereAll(s[1..], keep);
    }
  }

  /** Everything selection promises, in one place: order kept, and each row kept iff it is selected. */
  lemma WhereFacts<T>(s: seq<T>, keep: T -> bool)
    ensures IsSubseq(Where(s, keep), s)
    ensures forall x :: x in Where(s, keep) <==> x in s && keep(x)
    ensures forall x :: multiset(Where(s, keep))[x] == if keep(x) then multiset(s)[x] else 0
  {
    WhereIsSubseq(s, keep);
    forall x
      ensures x in Where(s, keep) <==> x in s && keep(x)
      ensures multiset(Where(s, keep))[x] == if keep(x) then multiset(s)[x] else 0
    {
      WhereMembership(s, keep, x);
      WhereCount(s, keep, x);
    }
  }
}
