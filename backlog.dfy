/**
 * The offline backlog kept under the "savedProducts" key, and the arithmetic of the drain's
 * write-back: the indices of the uploads that succeeded are sorted largest first and removed
 * one at a time from the snapshot that the drain started from.
 */
module Backlog {
  import opened Wrappers
  import opened Seqs

  /**
   * One saved product: a dictionary with the four string fields, a timestamp and an optional
   * image file name. A field that is missing, or is not a string, reads as None (the `as?` casts).
   */
  datatype Entry = Entry(
    productName: Option<string>,
    price: Option<string>,
    tax: Option<string>,
    productType: Option<string>,
    timestamp: real,
    imageName: Option<string>)
  {
    /** All four string fields are present, so the drain can upload the entry. */
    predicate WellFormed() {
      productName.Some? && price.Some? && tax.Some? && productType.Some?
    }
  }

  /** The indices of a list, as a set. */
  function Indices(xs: seq<nat>): (r: set<nat>) {
    set i | i in xs
  }

  /** Each index is larger than every index after it (no index twice). */
  predicate StrictlyDecreasing(order: seq<nat>) {
    forall i, j :: 0 <= i < j < |order| ==> order[i] > order[j]
  }

  /** Strictly decreasing indices, all below `n`. */
  predicate DecreasingBelow(order: seq<nat>, n: nat) {
    StrictlyDecreasing(order) && forall k :: 0 <= k < |order| ==> order[k] < n
  }

  /** A removal order that `remove(at:)` can carry out on `s` without going out of range. */
  predicate ValidRemovalOrder<T>(s: seq<T>, order: seq<nat>) {
    DecreasingBelow(order, |s|)
  }

  /** `for index in order { remaining.remove(at: index) }`: each removal applies to the previous result. */
  function RemoveEach<T>(s: seq<T>, order: seq<nat>): (r: seq<T>)
    requires ValidRemovalOrder(s, order)
  {
    if order == [] then s else RemoveEach(RemoveAt(s, order[0]), order[1..])
  }

  /**
   * The indices of `S` below `n`, largest first. For a list of distinct indices below `n`,
   * this is what `sorted(by: >)` returns (see SortedDescendingIsUnique).
   */
  function Descending(S: set<nat>, n: nat): (r: seq<nat>)
    ensures StrictlyDecreasing(r)
    ensures forall k :: 0 <= k < |r| ==> r[k] < n && r[k] in S
    ensures forall i :: i in S && i < n ==> i in r
  {
    if n == 0 then []
    else if n - 1 in S then [n - 1] + Descending(S, n - 1)
    else Descending(S, n - 1)
  }

  /** The entries of `s` whose index is not in `S`, in their original order. */
  function Kept<T>(s: seq<T>, S: set<nat>): (r: seq<T>) {
    if s == [] then []
    else Kept(s[..|s| - 1], S) + (if |s| - 1 in S then [] else [s[|s| - 1]])
  }

  /** Only the indices below `n` matter to `Descending(S, n)`. */
  lemma {:induction false} DescendingOnlyBelow(S: set<nat>, T: set<nat>, n: nat)
    requires forall i :: i < n ==> (i in S <==> i in T)
    ensures Descending(S, n) == Descending(T, n)
  {
    if n > 0 {
      DescendingOnlyBelow(S, T, n - 1);
    }
  }

  /**
   * Sorting is unique: a strictly decreasing list of indices below `n` is `Descending` of its
   * own elements, so `Descending(set of xs, n)` is `xs.sorted(by: >)` whatever order `xs` is in.
   */
  lemma {:induction false} SortedDescendingIsUnique(xs: seq<nat>, n: nat)
    requires DecreasingBelow(xs, n)
    ensures xs == Descending(Indices(xs), n)
    decreases n, 1
  {
    var S := Indices(xs);
    if xs == [] {
      DescendingNone(S, n);
    } else {
      assert 0 < n by { assert xs[0] < n; }
      if n - 1 in S {
        UniqueWithLargest(xs, n);
      } else {
        assert DecreasingBelow(xs, n - 1) by {
          forall k | 0 <= k < |xs|
            ensures xs[k] < n - 1
          {
            assert xs[k] in S;
          }
        }
        SortedDescendingIsUnique(xs, n - 1);
      }
    }
  }

  /** The step of SortedDescendingIsUnique where `n - 1` is in the list, and so at its head. */
  lemma {:induction false} UniqueWithLargest(xs: seq<nat>, n: nat)
    requires DecreasingBelow(xs, n) && 0 < n && n - 1 in xs
    ensures xs == Descending(Indices(xs), n)
    decreases n, 0
  {
    LargestFirst(xs, n);
    var rest := xs[1..];
    TailBelow(xs, n);
    TailElements(xs, n);
    DescendingOnlyBelow(Indices(rest), Indices(xs), n - 1);
    SortedDescendingIsUnique(rest, n - 1);
    assert xs == [n - 1] + rest;
  }

  /** Without indices below `n` there is nothing to list. */
  lemma {:induction false} DescendingNone(S: set<nat>, n: nat)
    requires forall i :: i in S ==> i >= n
    ensures Descending(S, n) == []
  {
    if n > 0 {
      DescendingNone(S, n - 1);
    }
  }

  /** If `n - 1` occurs in a decreasing list below `n`, it comes first. */
  lemma LargestFirst(xs: seq<nat>, n: nat)
    requires DecreasingBelow(xs, n) && n > 0 && n - 1 in xs
    ensures xs[0] == n - 1
  {
    var k :| 0 <= k < |xs| && xs[k] == n - 1;
  }

  /** The rest of a decreasing list is below its head. */
  lemma TailBelow(xs: seq<nat>, n: nat)
    requires DecreasingBelow(xs, n) && xs != [] && xs[0] == n - 1
    ensures DecreasingBelow(xs[1..], n - 1)
  {
    forall k | 0 <= k < |xs| - 1
      ensures xs[1..][k] < n - 1
    {
      assert xs[0] > xs[k + 1];
    }
  }

  /** Below its head, the rest of a decreasing list has the same elements as the list. */
  lemma TailElements(xs: seq<nat>, n: nat)
    requires DecreasingBelow(xs, n) && xs != [] && xs[0] == n - 1
    ensures forall i :: 0 <= i < n - 1 ==> (i in Indices(xs[1..]) <==> i in Indices(xs))
  {
    forall i | 0 <= i < n - 1 && i in xs
      ensures i in xs[1..]
    {
      var k :| 0 <= k < |xs| && xs[k] == i;
      assert xs[1..][k - 1] == i;
    }
  }

  /** Removals at indices inside `p` leave anything appended after `p` untouched. */
  lemma {:induction false} RemoveEachAppend<T>(p: seq<T>, t: seq<T>, order: seq<nat>)
    requires ValidRemovalOrder(p, order)
    ensures ValidRemovalOrder(p + t, order)
    ensures RemoveEach(p + t, order) == RemoveEach(p, order) + t
  {
    if order != [] {
      var i := order[0];
      assert RemoveAt(p + t, i) == RemoveAt(p, i) + t;
      assert ValidRemovalOrder(RemoveAt(p, i), order[1..]) by {
        forall k | 0 <= k < |order[1..]|
          ensures order[1..][k] < |RemoveAt(p, i)|
        {
          assert order[0] > order[k + 1];
        }
      }
      RemoveEachAppend(RemoveAt(p, i), t, order[1..]);
    }
  }

  /**
   * The drain's write-back: removing the indices of `S`, largest first, one at a time, leaves
   * exactly the entries whose index is not in `S`, in their original order.
   */
  lemma {:induction false} RemoveDescendingIsKept<T>(s: seq<T>, S: set<nat>)
    ensures RemoveEach(s, Descending(S, |s|)) == Kept(s, S)
  {
    if s != [] {
      var n := |s|;
      var p := s[..n - 1];
      var last := s[n - 1];
      assert s == p + [last];
      var rest := Descending(S, n - 1);
      RemoveDescendingIsKept(p, S);
      if n - 1 in S {
        var order := Descending(S, n);
        assert order == [n - 1] + rest;
        assert order[1..] == rest;
        assert RemoveAt(s, n - 1) == p;
        calc {
          RemoveEach(s, order);
          RemoveEach(RemoveAt(s, order[0]), order[1..]);
          RemoveEach(p, rest);
        }
        assert Kept(s, S) == Kept(p, S) + [];
      } else {
        RemoveEachAppend(p, [last], rest);
        assert Kept(s, S) == Kept(p, S) + [last];
      }
    }
  }

  /** Only the indices below `|s|` matter to `Kept(s, S)`. */
  lemma {:induction false} KeptBelow<T>(s: seq<T>, S: set<nat>, T: set<nat>)
    requires forall i :: i < |s| ==> (i in S <==> i in T)
    ensures Kept(s, S) == Kept(s, T)
  {
    if s != [] {
      KeptBelow(s[..|s| - 1], S, T);
    }
  }

  /** With every index of `S` inside `s`, exactly `|S|` entries go. */
  lemma {:induction false} KeptLength<T>(s: seq<T>, S: set<nat>)
    requires forall i :: i in S ==> i < |s|
    ensures |Kept(s, S)| == |s| - |S|
  {
    if s == [] {
      assert S == {};
    } else {
      var n := |s|;
      var p := s[..n - 1];
      var S' := S - {n - 1};
      KeptBelow(p, S, S');
      KeptLength(p, S');
    }
  }

  /** What is kept is a subsequence of `s`: entries keep their order, none is invented. */
  lemma {:induction false} KeptIsSubsequence<T>(s: seq<T>, S: set<nat>)
    ensures IsSubsequence(Kept(s, S), s)
  {
    if s != [] {
      var n := |s|;
      var p := s[..n - 1];
      var k := Kept(s, S);
      KeptIsSubsequence(p, S);
      if n - 1 in S {
        if k != [] {
          assert k == Kept(p, S);
        }
      } else {
        assert k[..|k| - 1] == Kept(p, S);
      }
    }
  }

  /** An entry whose index is not in `S` is kept; whatever is kept came from `s`. */
  lemma {:induction false} KeptMembers<T>(s: seq<T>, S: set<nat>)
    ensures forall i :: 0 <= i < |s| && i !in S ==> s[i] in Kept(s, S)
    ensures forall x :: x in Kept(s, S) ==> x in s
  {
    if s != [] {
      var n := |s|;
      var p := s[..n - 1];
      KeptMembers(p, S);
      assert s == p + [s[n - 1]];
      forall i | 0 <= i < n && i !in S
        ensures s[i] in Kept(s, S)
      {
        if i < n - 1 {
          assert s[i] == p[i];
        }
      }
    }
  }

  /** With no index in `S`, everything is kept. */
  lemma {:induction false} KeptNone<T>(s: seq<T>, S: set<nat>)
    requires forall i :: i in S ==> i >= |s|
    ensures Kept(s, S) == s
  {
    if s != [] {
      KeptNone(s[..|s| - 1], S);
    }
  }
}
