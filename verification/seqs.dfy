/** Order-preserving selection over sequences (`Array.prototype.filter`). */
module Seqs {

  /** `a` is `b` with some elements left out and the rest in their order. */
  predicate IsSubsequence<T(==)>(a: seq<T>, b: seq<T>)
    decreases |b|
  {
    |a| == 0
    || (|b| > 0
        && ((a[0] == b[0] && IsSubsequence(a[1..], b[1..])) || IsSubsequence(a, b[1..])))
  }

  lemma {:induction false} SubsequenceRefl<T>(s: seq<T>)
    ensures IsSubsequence(s, s)
    decreases |s|
  {
    if |s| > 0 {
      SubsequenceRefl(s[1..]);
    }
  }

  /** `s.filter(p)`: the elements satisfying `p`, every copy of them, in order. */
  function Filter<T(==,!new)>(p: T -> bool, s: seq<T>): (r: seq<T>)
    ensures |r| <= |s|
    ensures IsSubsequence(r, s)
    ensures forall i :: 0 <= i < |r| ==> p(r[i])
    ensures forall x :: x in r <==> x in s && p(x)
    decreases |s|
  {
    if |s| == 0 then []
    else
      var rest := Filter(p, s[1..]);
      if p(s[0]) then [s[0]] + rest else rest
  }

  /** A filter keeps every copy of each element it selects. */
  lemma {:induction false} FilterCounts<T(!new)>(p: T -> bool, s: seq<T>)
    ensures forall x :: multiset(Filter(p, s))[x] == if p(x) then multiset(s)[x] else 0
    decreases |s|
  {
    if |s| > 0 {
      FilterCounts(p, s[1..]);
      assert s == [s[0]] + s[1..];
    }
  }

  /** A filter that keeps every element returns the sequence unchanged, and
      one that keeps none returns the empty sequence. */
  lemma {:induction false} FilterAllOrNone<T(!new)>(p: T -> bool, s: seq<T>)
    ensures (forall i :: 0 <= i < |s| ==> p(s[i])) ==> Filter(p, s) == s
    ensures (forall i :: 0 <= i < |s| ==> !p(s[i])) ==> Filter(p, s) == []
    decreases |s|
  {
    if |s| > 0 {
      FilterAllOrNone(p, s[1..]);
    }
  }

  /** Filtering distributes over concatenation. */
  lemma {:induction false} FilterConcat<T(!new)>(p: T -> bool, a: seq<T>, b: seq<T>)
    ensures Filter(p, a + b) == Filter(p, a) + Filter(p, b)
    decreases |a|
  {
    if |a| > 0 {
      assert (a + b)[1..] == a[1..] + b;
      FilterConcat(p, a[1..], b);
    } else {
      assert a + b == b;
    }
  }

  /** Filtering out the one element that fails the test removes it and
      keeps the rest in order. */
  lemma {:induction false} FilterDropsOne<T(!new)>(p: T -> bool, s: seq<T>, j: nat)
    requires j < |s| && !p(s[j])
    requires forall i :: 0 <= i < |s| && i != j ==> p(s[i])
    ensures Filter(p, s) == s[..j] + s[j + 1..]
    decreases j
  {
    var tail := s[1..];
    if j == 0 {
      FilterDropsHead(p, s);
    } else {
      assert forall i :: 0 <= i < |tail| && i != j - 1 ==> p(tail[i]) by {
        forall i | 0 <= i < |tail| && i != j - 1 ensures p(tail[i]) {
          assert tail[i] == s[i + 1];
        }
      }
      FilterDropsOne(p, tail, j - 1);
      assert [s[0]] + tail[..j - 1] == s[..j];
      assert tail[j..] == s[j + 1..];
    }
  }

  lemma FilterDropsHead<T(!new)>(p: T -> bool, s: seq<T>)
    requires |s| > 0 && !p(s[0])
    requires forall i :: 1 <= i < |s| ==> p(s[i])
    ensures Filter(p, s) == s[1..]
  {
    var tail := s[1..];
    assert forall i :: 0 <= i < |tail| ==> p(tail[i]) by {
      forall i | 0 <= i < |tail| ensures p(tail[i]) {
        assert tail[i] == s[i + 1];
      }
    }
    FilterAllOrNone(p, tail);
  }

  /** A stricter filter keeps a subsequence of what a looser one keeps. */
  lemma {:induction false} FilterStricter<T(!new)>(p: T -> bool, q: T -> bool, s: seq<T>)
    requires forall i :: 0 <= i < |s| && p(s[i]) ==> q(s[i])
    ensures IsSubsequence(Filter(p, s), Filter(q, s))
    decreases |s|
  {
    if |s| > 0 {
      FilterStricter(p, q, s[1..]);
      if p(s[0]) {
        assert Filter(p, s) == [s[0]] + Filter(p, s[1..]);
        assert Filter(q, s) == [s[0]] + Filter(q, s[1..]);
      } else if q(s[0]) && |Filter(p, s[1..])| > 0 {
        assert Filter(q, s)[1..] == Filter(q, s[1..]);
      }
    }
  }

  /** Filters that agree on every element select the same elements. */
  lemma {:induction false} FilterAgree<T(!new)>(p: T -> bool, q: T -> bool, s: seq<T>)
    requires forall i :: 0 <= i < |s| ==> p(s[i]) == q(s[i])
    ensures Filter(p, s) == Filter(q, s)
    decreases |s|
  {
    if |s| > 0 {
      FilterAgree(p, q, s[1..]);
    }
  }
}
