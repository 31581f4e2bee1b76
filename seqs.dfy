/** The Swift `Array` operations the core uses, on sequences. */
module Seqs {

  /**
   * `a` is `b` with some elements left out, the rest in their order: either the last element
   * of `b` supplies the last element of `a`, or it is left out.
   */
  predicate IsSubsequence<T(==)>(a: seq<T>, b: seq<T>)
    decreases |b|
  {
    if a == [] then true
    else if b == [] then false
    else (a[|a| - 1] == b[|b| - 1] && IsSubsequence(a[..|a| - 1], b[..|b| - 1]))
         || IsSubsequence(a, b[..|b| - 1])
  }

  /** `Array.filter`: the elements that satisfy `keep`, in their order. */
  function Filter<T>(s: seq<T>, keep: T -> bool): (r: seq<T>) {
    if s == [] then []
    else Filter(s[..|s| - 1], keep) + (if keep(s[|s| - 1]) then [s[|s| - 1]] else [])
  }

  /** `Array.remove(at:)`: the element at `i` taken out, the others closing up. */
  function RemoveAt<T>(s: seq<T>, i: nat): (r: seq<T>)
    requires i < |s|
    ensures |r| == |s| - 1
    ensures forall k :: 0 <= k < i ==> r[k] == s[k]
    ensures forall k :: i <= k < |r| ==> r[k] == s[k + 1]
  {
    s[..i] + s[i + 1..]
  }

  /** Every sequence is a subsequence of itself. */
  lemma {:induction false} SubsequenceRefl<T>(s: seq<T>)
    ensures IsSubsequence(s, s)
  {
    if s != [] {
      SubsequenceRefl(s[..|s| - 1]);
    }
  }

  /** An element is in `Filter(s, keep)` exactly when it is in `s` and satisfies `keep`. */
  lemma {:induction false} FilterMembers<T>(s: seq<T>, keep: T -> bool)
    ensures forall x :: x in Filter(s, keep) <==> x in s && keep(x)
  {
    if s != [] {
      var init := s[..|s| - 1];
      FilterMembers(init, keep);
      assert s == init + [s[|s| - 1]];
    }
  }

  /** `Filter(s, keep)` keeps the order of `s`: it is a subsequence of it. */
  lemma {:induction false} FilterIsSubsequence<T>(s: seq<T>, keep: T -> bool)
    ensures IsSubsequence(Filter(s, keep), s)
  {
    if s != [] {
      var init := s[..|s| - 1];
      var r := Filter(s, keep);
      FilterIsSubsequence(init, keep);
      if keep(s[|s| - 1]) {
        assert r[..|r| - 1] == Filter(init, keep);
      } else if r != [] {
        assert r == Filter(init, keep);
      }
    }
  }

  /** Filtering with `keep1` and then with `keep2` is filtering once with both. */
  lemma {:induction false} FilterFilter<T>(s: seq<T>, keep1: T -> bool, keep2: T -> bool, both: T -> bool)
    requires forall x :: both(x) == (keep1(x) && keep2(x))
    ensures Filter(Filter(s, keep1), keep2) == Filter(s, both)
  {
    if s != [] {
      var init := s[..|s| - 1];
      var last := s[|s| - 1];
      FilterFilter(init, keep1, keep2, both);
      var f1 := Filter(s, keep1);
      if keep1(last) {
        assert f1[..|f1| - 1] == Filter(init, keep1);
      } else {
        assert f1 == Filter(init, keep1);
      }
    }
  }

  /** Filtering changes nothing when every element satisfies the predicate. */
  lemma {:induction false} FilterAll<T>(s: seq<T>, keep: T -> bool)
    requires forall i :: 0 <= i < |s| ==> keep(s[i])
    ensures Filter(s, keep) == s
  {
    if s != [] {
      FilterAll(s[..|s| - 1], keep);
    }
  }

  /** Filtering with two predicates that agree on every element gives the same result. */
  lemma {:induction false} FilterSame<T>(s: seq<T>, keep1: T -> bool, keep2: T -> bool)
    requires forall x :: keep1(x) == keep2(x)
    ensures Filter(s, keep1) == Filter(s, keep2)
  {
    if s != [] {
      FilterSame(s[..|s| - 1], keep1, keep2);
    }
  }

  /** When `s[i]` is the only element `keep` rejects, filtering is removing it. */
  lemma {:induction false} FilterDropsOne<T>(s: seq<T>, keep: T -> bool, i: nat)
    requires i < |s| && !keep(s[i])
    requires forall k :: 0 <= k < |s| && k != i ==> keep(s[k])
    ensures Filter(s, keep) == RemoveAt(s, i)
  {
    var init := s[..|s| - 1];
    if i == |s| - 1 {
      FilterAll(init, keep);
      assert RemoveAt(s, i) == init;
    } else {
      FilterDropsOne(init, keep, i);
      assert RemoveAt(s, i) == RemoveAt(init, i) + [s[|s| - 1]];
    }
  }
}
