/**
  The two ways the pipeline can order its lines: shuffling them
  (`SliceRandom::shuffle`) or sorting them by a comparator (`slice::sort_by`).
 */
module Sorting {
  import opened Orderings

  /**
    Fisher-Yates: walking down from the last position, swap each position
    with one at or below it. Which one is chosen is left open, standing for
    the random number generator; every run yields a permutation.
   */
  method Shuffle<T>(s: seq<T>) returns (r: seq<T>)
    ensures |r| == |s|
    ensures multiset(r) == multiset(s)
  {
    r := s;
    var i := |r|;
    while i > 1
      invariant 0 <= i <= |r| == |s|
      invariant multiset(r) == multiset(s)
    {
      i := i - 1;
      var j :| 0 <= j <= i;
      r := r[i := r[j]][j := r[i]];
    }
  }

  /**
    Inserts `x` into the sorted sequence `r` after every element that may
    stand before it.
   */
  method Insert<T(!new)>(r: seq<T>, x: T, cmp: (T, T) -> Ordering) returns (t: seq<T>)
    requires TotalPreorder(cmp)
    requires SortedBy(r, cmp)
    ensures SortedBy(t, cmp)
    ensures multiset(t) == multiset(r) + multiset{x}
  {
    var p := 0;
    while p < |r| && Le(cmp, r[p], x)
      invariant 0 <= p <= |r|
      invariant forall k :: 0 <= k < p ==> Le(cmp, r[k], x)
    {
      p := p + 1;
    }
    t := r[..p] + [x] + r[p..];
    assert r == r[..p] + r[p..];
    InsertedSorted(r, p, x, cmp);
  }

  /** Placing `x` after the elements that may stand before it keeps the sequence sorted. */
  lemma InsertedSorted<T(!new)>(r: seq<T>, p: nat, x: T, cmp: (T, T) -> Ordering)
    requires TotalPreorder(cmp)
    requires SortedBy(r, cmp)
    requires p <= |r|
    requires forall k :: 0 <= k < p ==> Le(cmp, r[k], x)
    requires p < |r| ==> !Le(cmp, r[p], x)
    ensures SortedBy(r[..p] + [x] + r[p..], cmp)
  {
    var t := r[..p] + [x] + r[p..];
    forall i, j | 0 <= i < j < |t| ensures Le(cmp, t[i], t[j]) {
      if i < p && j == p {
      } else if i < p {
        assert Le(cmp, r[i], r[j - 1]);
      } else if i == p {
        assert Le(cmp, x, r[p]);
        assert Le(cmp, r[p], r[j - 1]) || p == j - 1;
      } else {
        assert Le(cmp, r[i - 1], r[j - 1]);
      }
    }
  }

  /**
    A comparison sort: the result is a permutation of the input, ordered by
    `cmp`. Which of several elements that compare `Equal` comes first is
    not promised.
   */
  method Sort<T(!new)>(s: seq<T>, cmp: (T, T) -> Ordering) returns (r: seq<T>)
    requires TotalPreorder(cmp)
    ensures SortedBy(r, cmp)
    ensures multiset(r) == multiset(s)
  {
    r := [];
    var i := 0;
    while i < |s|
      invariant 0 <= i <= |s|
      invariant SortedBy(r, cmp)
      invariant multiset(r) == multiset(s[..i])
    {
      r := Insert(r, s[i], cmp);
      assert s[..i + 1] == s[..i] + [s[i]];
      i := i + 1;
    }
    assert s[..|s|] == s;
  }

  /** Two sorted arrangements of the same non-empty multiset start with elements comparing `Equal`. */
  lemma SortedHeads<T(!new)>(a: seq<T>, b: seq<T>, cmp: (T, T) -> Ordering)
    requires Antisymmetric(cmp)
    requires a != [] && multiset(a) == multiset(b)
    requires SortedBy(a, cmp) && SortedBy(b, cmp)
    ensures b != [] && cmp(a[0], b[0]) == Equal
  {
    assert a[0] in multiset(b) && b[0] in multiset(a);
    var k :| 0 <= k < |b| && b[k] == a[0];
    var m :| 0 <= m < |a| && a[m] == b[0];
    assert Le(cmp, a[0], b[0]) by {
      if m > 0 { assert Le(cmp, a[0], a[m]); }
    }
    assert Le(cmp, b[0], a[0]) by {
      if k > 0 { assert Le(cmp, b[0], b[k]); }
    }
  }

  lemma TailMultiset<T>(a: seq<T>, b: seq<T>)
    requires a != [] && b != [] && a[0] == b[0]
    requires multiset(a) == multiset(b)
    ensures multiset(a[1..]) == multiset(b[1..])
  {
    assert a == [a[0]] + a[1..] && b == [b[0]] + b[1..];
    assert multiset(a[1..]) == multiset(a) - multiset{a[0]};
    assert multiset(b[1..]) == multiset(b) - multiset{b[0]};
  }

  /**
    Once no two distinct elements compare `Equal`, a sorted permutation is
    unique: any two sorted arrangements of the same elements coincide.
   */
  lemma {:induction false} SortedUnique<T(!new)>(a: seq<T>, b: seq<T>, cmp: (T, T) -> Ordering)
    requires Antisymmetric(cmp)
    requires forall x, y :: x in a && y in a && cmp(x, y) == Equal ==> x == y
    requires multiset(a) == multiset(b)
    requires SortedBy(a, cmp) && SortedBy(b, cmp)
    ensures a == b
  {
    if a == [] {
      assert |b| == |multiset(b)| == 0;
    } else {
      SortedHeads(a, b, cmp);
      assert a[0] == b[0] by {
        assert b[0] in multiset(a);
      }
      TailMultiset(a, b);
      var a', b' := a[1..], b[1..];
      forall x, y | x in a' && y in a' && cmp(x, y) == Equal ensures x == y {
        assert x in a && y in a;
      }
      assert SortedBy(a', cmp) && SortedBy(b', cmp);
      SortedUnique(a', b', cmp);
      assert a == [a[0]] + a' && b == [b[0]] + b';
    }
  }
}
