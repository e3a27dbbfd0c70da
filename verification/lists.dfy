/** `Array.prototype.filter` and `Array.prototype.map` on immutable
    sequences, and the order-preserving subsequence relation a filter keeps. */
module Lists {

  /** `a` can be obtained from `b` by deleting entries, keeping the order of
      the rest (matched greedily from the front). */
  predicate IsSubsequence<T(==)>(a: seq<T>, b: seq<T>)
    decreases |b|
  {
    |a| == 0 || (|b| > 0 && (if a[0] == b[0] then IsSubsequence(a[1..], b[1..]) else IsSubsequence(a, b[1..])))
  }

  /** `s.filter(keep)`. */
  function Filter<T(==)>(s: seq<T>, keep: T -> bool): (r: seq<T>)
    ensures |r| <= |s|
    ensures forall i :: 0 <= i < |r| ==> r[i] in s && keep(r[i])
    ensures forall i :: 0 <= i < |s| && keep(s[i]) ==> s[i] in r
    decreases |s|
  {
    if |s| == 0 then []
    else
      var rest := Filter(s[1..], keep);
      assert s == [s[0]] + s[1..];
      (if keep(s[0]) then [s[0]] else []) + rest
  }

  /** A filter keeps every copy of a kept value and no copy of any other:
      what it returns is a sub-multiset of its input. */
  lemma FilterCounts<T>(s: seq<T>, keep: T -> bool)
    ensures forall x :: multiset(Filter(s, keep))[x] == if keep(x) then multiset(s)[x] else 0
    ensures multiset(Filter(s, keep)) <= multiset(s)
  {
    forall x ensures multiset(Filter(s, keep))[x] == if keep(x) then multiset(s)[x] else 0 {
      FilterCount(s, keep, x);
    }
  }

  /** Helper: the count of one value. */
  lemma {:induction false} FilterCount<T>(s: seq<T>, keep: T -> bool, x: T)
    ensures multiset(Filter(s, keep))[x] == if keep(x) then multiset(s)[x] else 0
    decreases |s|
  {
    if |s| > 0 {
      FilterCount(s[1..], keep, x);
      assert s == [s[0]] + s[1..];
    }
  }

  /** The negation of a filter predicate. */
  function Not<T>(keep: T -> bool): T -> bool {
    x => !keep(x)
  }

  /** `s.map(f)`. */
  function Map<T, U>(s: seq<T>, f: T -> U): (r: seq<U>)
    ensures |r| == |s|
    ensures forall i :: 0 <= i < |s| ==> r[i] == f(s[i])
  {
    seq(|s|, i requires 0 <= i < |s| => f(s[i]))
  }

  /** What a filter keeps stays in its original relative order. */
  lemma {:induction false} FilterIsSubsequence<T>(s: seq<T>, keep: T -> bool)
    ensures IsSubsequence(Filter(s, keep), s)
    decreases |s|
  {
    if |s| > 0 {
      FilterIsSubsequence(s[1..], keep);
      if keep(s[0]) {
        assert Filter(s, keep)[1..] == Filter(s[1..], keep);
      } else {
        assert Filter(s, keep) == Filter(s[1..], keep);
        SubsequenceOfTail(Filter(s[1..], keep), s);
      }
    }
  }

  /** Helper: a subsequence of the tail is a subsequence of the whole. */
  lemma {:induction false} SubsequenceOfTail<T>(a: seq<T>, b: seq<T>)
    requires |b| > 0 && IsSubsequence(a, b[1..])
    ensures IsSubsequence(a, b)
    decreases |b|, 0
  {
    if |a| > 0 && a[0] == b[0] {
      SubsequenceDropFirst(a, b[1..]);
    }
  }

  /** Helper: dropping the first entry of a subsequence keeps it one. */
  lemma {:induction false} SubsequenceDropFirst<T>(a: seq<T>, b: seq<T>)
    requires |a| > 0 && IsSubsequence(a, b)
    ensures IsSubsequence(a[1..], b)
    decreases |b|, 1
  {
    if a[0] == b[0] {
      if |a| > 1 && |b| > 1 {
        SubsequenceOfTail(a[1..], b);
      } else if |a| > 1 {
        assert IsSubsequence(a[1..], b[1..]);
      }
    } else {
      SubsequenceDropFirst(a, b[1..]);
      if |a| > 1 {
        SubsequenceOfTail(a[1..], b);
      }
    }
  }

  /** Every entry is kept by exactly one of a filter and its negation. */
  lemma {:induction false} FilterComplement<T>(s: seq<T>, keep: T -> bool)
    ensures |Filter(s, keep)| + |Filter(s, Not(keep))| == |s|
    decreases |s|
  {
    if |s| > 0 {
      FilterComplement(s[1..], keep);
    }
  }

  lemma {:induction false} FilterAppend<T>(a: seq<T>, b: seq<T>, keep: T -> bool)
    ensures Filter(a + b, keep) == Filter(a, keep) + Filter(b, keep)
    decreases |a|
  {
    if |a| > 0 {
      assert (a + b)[1..] == a[1..] + b;
      FilterAppend(a[1..], b, keep);
    } else {
      assert a + b == b;
    }
  }

  /** A filter that keeps every entry returns the sequence itself. */
  lemma {:induction false} FilterKeepsAll<T>(s: seq<T>, keep: T -> bool)
    requires forall i :: 0 <= i < |s| ==> keep(s[i])
    ensures Filter(s, keep) == s
    decreases |s|
  {
    if |s| > 0 {
      FilterKeepsAll(s[1..], keep);
    }
  }

  /** Mapping both sides keeps a subsequence a subsequence. */
  lemma {:induction false} MapKeepsSubsequence<T, U>(a: seq<T>, b: seq<T>, f: T -> U)
    requires IsSubsequence(a, b)
    ensures IsSubsequence(Map(a, f), Map(b, f))
    decreases |b|
  {
    if |a| > 0 {
      assert Map(b, f)[1..] == Map(b[1..], f);
      if a[0] == b[0] {
        assert Map(a, f)[1..] == Map(a[1..], f);
        MapKeepsSubsequence(a[1..], b[1..], f);
      } else {
        MapKeepsSubsequence(a, b[1..], f);
        SubsequenceOfTail(Map(a, f), Map(b, f));
      }
    }
  }
}
