/** `Array.prototype.filter` and the order-preserving subsequence relation. */
module Seqs {

  /** `a` can be obtained from `b` by deleting elements, keeping the order of the rest. */
  predicate IsSubsequence<T(==,!new)>(a: seq<T>, b: seq<T>)
    decreases |b|
  {
    || |a| == 0
    || (&& |b| > 0
        && (|| (a[|a| - 1] == b[|b| - 1] && IsSubsequence(a[..|a| - 1], b[..|b| - 1]))
            || IsSubsequence(a, b[..|b| - 1])))
  }

  /** `s.filter(p)`: the elements satisfying `p`, in their original order. */
  function Filter<T(==,!new)>(s: seq<T>, p: T -> bool): (r: seq<T>)
    ensures |r| <= |s|
    ensures forall i :: 0 <= i < |r| ==> p(r[i])
    ensures forall x :: x in r <==> x in s && p(x)
    ensures forall x :: multiset(r)[x] == if p(x) then multiset(s)[x] else 0
    ensures IsSubsequence(r, s)
    decreases |s|
  {
    if |s| == 0 then []
    else
      var init := s[..|s| - 1];
      var last := s[|s| - 1];
      assert s == init + [last];
      var rest := Filter(init, p);
      if p(last) then
        assert (rest + [last])[..|rest|] == rest;
        rest + [last]
      else
        assert IsSubsequence(rest, s) by {
          if |rest| > 0 {
            assert rest[|rest| - 1] != last;
          }
        }
        rest
  }

  lemma {:induction false} FilterAppend<T(!new)>(a: seq<T>, b: seq<T>, p: T -> bool)
    ensures Filter(a + b, p) == Filter(a, p) + Filter(b, p)
    decreases |b|
  {
    if |b| == 0 {
      assert a + b == a;
    } else {
      var b' := b[..|b| - 1];
      assert (a + b)[..|a + b| - 1] == a + b';
      FilterAppend(a, b', p);
    }
  }

  /** Filtering twice by the same predicate changes nothing. */
  lemma {:induction false} FilterIdempotent<T(!new)>(s: seq<T>, p: T -> bool)
    ensures Filter(Filter(s, p), p) == Filter(s, p)
    decreases |s|
  {
    if |s| > 0 {
      var init := s[..|s| - 1];
      FilterIdempotent(init, p);
      if p(s[|s| - 1]) {
        FilterAppend(Filter(init, p), [s[|s| - 1]], p);
        assert [s[|s| - 1]][..0] == [];
      }
    }
  }

  /** A filter that keeps everything is the identity. */
  lemma {:induction false} FilterAll<T(!new)>(s: seq<T>, p: T -> bool)
    requires forall i :: 0 <= i < |s| ==> p(s[i])
    ensures Filter(s, p) == s
    decreases |s|
  {
    if |s| > 0 {
      var init, last := s[..|s| - 1], s[|s| - 1];
      assert s == init + [last];
      assert forall i :: 0 <= i < |init| ==> p(init[i]) by {
        forall i | 0 <= i < |init| ensures p(init[i]) {
          assert init[i] == s[i];
        }
      }
      FilterAll(init, p);
      assert Filter(s, p) == Filter(init, p) + [last];
    }
  }

  /** Each element passes exactly one of two complementary filters. */
  lemma {:induction false} FilterComplementCount<T(!new)>(s: seq<T>, p: T -> bool, q: T -> bool)
    requires forall x :: q(x) == !p(x)
    ensures |Filter(s, p)| + |Filter(s, q)| == |s|
    decreases |s|
  {
    if |s| > 0 {
      FilterComplementCount(s[..|s| - 1], p, q);
    }
  }

  /** Two lists whose elements agree position by position on `p` keep equally many. */
  lemma {:induction false} FilterLengthPointwise<T(!new)>(a: seq<T>, b: seq<T>, p: T -> bool)
    requires |a| == |b|
    requires forall i :: 0 <= i < |a| ==> p(a[i]) == p(b[i])
    ensures |Filter(a, p)| == |Filter(b, p)|
    decreases |a|
  {
    if |a| > 0 {
      FilterLengthPointwise(a[..|a| - 1], b[..|b| - 1], p);
    }
  }
  /** Position `j` holds the first element of `s` satisfying `p`. */
  predicate IsFirstMatch<T>(s: seq<T>, p: T -> bool, j: int) {
    0 <= j < |s| && p(s[j]) && forall k :: 0 <= k < j ==> !p(s[k])
  }

  /** The head of a filtered list is the first matching element of the original. */
  lemma {:induction false} FilterHeadIsFirstMatch<T(!new)>(s: seq<T>, p: T -> bool)
    requires Filter(s, p) != []
    ensures exists j :: IsFirstMatch(s, p, j) && s[j] == Filter(s, p)[0]
    decreases |s|
  {
    var init := s[..|s| - 1];
    if Filter(init, p) != [] {
      FilterHeadIsFirstMatch(init, p);
      var j :| IsFirstMatch(init, p, j) && init[j] == Filter(init, p)[0];
      FirstMatchOfPrefix(s, p, j);
      assert Filter(s, p)[0] == Filter(init, p)[0];
    } else {
      NoMatchWhenFilterEmpty(init, p);
      FirstMatchAtEnd(s, init, p);
    }
  }

  lemma NoMatchWhenFilterEmpty<T(!new)>(s: seq<T>, p: T -> bool)
    requires Filter(s, p) == []
    ensures forall k :: 0 <= k < |s| ==> !p(s[k])
  {
    forall k | 0 <= k < |s| ensures !p(s[k]) {
      assert s[k] in s;
    }
  }

  lemma FirstMatchOfPrefix<T>(s: seq<T>, p: T -> bool, j: int)
    requires |s| > 0 && IsFirstMatch(s[..|s| - 1], p, j)
    ensures IsFirstMatch(s, p, j) && s[j] == s[..|s| - 1][j]
  {
    assert forall k :: 0 <= k <= j ==> s[k] == s[..|s| - 1][k];
  }

  lemma FirstMatchAtEnd<T(!new)>(s: seq<T>, init: seq<T>, p: T -> bool)
    requires |s| > 0 && init == s[..|s| - 1]
    requires Filter(s, p) != [] && Filter(init, p) == []
    requires forall k :: 0 <= k < |init| ==> !p(init[k])
    ensures IsFirstMatch(s, p, |s| - 1) && s[|s| - 1] == Filter(s, p)[0]
  {
    assert forall k :: 0 <= k < |init| ==> s[k] == init[k];
  }

  /** Filtering by `p` and then by `q` is filtering by their conjunction. */
  lemma {:induction false} FilterCompose<T(!new)>(s: seq<T>, p: T -> bool, q: T -> bool, pq: T -> bool)
    requires forall x :: pq(x) == (p(x) && q(x))
    ensures Filter(Filter(s, p), q) == Filter(s, pq)
    decreases |s|
  {
    if |s| > 0 {
      var init, last := s[..|s| - 1], s[|s| - 1];
      FilterCompose(init, p, q, pq);
      var rest := Filter(init, p);
      if p(last) {
        assert Filter(s, p) == rest + [last];
        assert (rest + [last])[..|rest|] == rest;
      }
    }
  }
}
