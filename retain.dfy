/**
  `Vec::retain`: keep the elements for which the closure answered true,
  in their original order. The closure's answers are given as a sequence
  of flags, one per element.
 */
module Retain {
  import opened Orderings

  /** Number of set flags: how many elements `retain` keeps. */
  function CountTrue(keep: seq<bool>): (n: nat)
    ensures n <= |keep|
  {
    if keep == [] then 0
    else CountTrue(keep[..|keep| - 1]) + (if keep[|keep| - 1] then 1 else 0)
  }

  /**
    The elements of `s` whose flag is set, in order: a subsequence of `s`
    with one element per set flag.
   */
  function Retained<T>(s: seq<T>, keep: seq<bool>): (r: seq<T>)
    requires |keep| == |s|
    ensures |r| == CountTrue(keep)
  {
    if s == [] then []
    else
      var n := |s| - 1;
      Retained(s[..n], keep[..n]) + (if keep[n] then [s[n]] else [])
  }

  /** Every element is kept at most as often as it occurs. */
  lemma {:induction false} RetainedSubmultiset<T>(s: seq<T>, keep: seq<bool>)
    requires |keep| == |s|
    ensures multiset(Retained(s, keep)) <= multiset(s)
  {
    if s != [] {
      var n := |s| - 1;
      RetainedSubmultiset(s[..n], keep[..n]);
      assert s == s[..n] + [s[n]];
    }
  }

  /** One more step of the closure extends the result by at most that element. */
  lemma RetainedStep<T>(s: seq<T>, keep: seq<bool>, i: nat)
    requires |keep| == |s| && i < |s|
    ensures Retained(s[..i + 1], keep[..i + 1])
         == Retained(s[..i], keep[..i]) + (if keep[i] then [s[i]] else [])
  {
    assert s[..i + 1][..i] == s[..i];
    assert keep[..i + 1][..i] == keep[..i];
  }

  /** When the closure keeps everything, nothing changes. */
  lemma {:induction false} RetainedAll<T>(s: seq<T>, keep: seq<bool>)
    requires |keep| == |s|
    requires forall i :: 0 <= i < |keep| ==> keep[i]
    ensures Retained(s, keep) == s
  {
    if s != [] {
      var n := |s| - 1;
      RetainedAll(s[..n], keep[..n]);
      assert s == s[..n] + [s[n]];
    }
  }

  /** Every kept element stands at a position whose flag is set. */
  lemma {:induction false} RetainedMember<T>(s: seq<T>, keep: seq<bool>, x: T)
    requires |keep| == |s|
    requires x in Retained(s, keep)
    ensures exists i :: 0 <= i < |s| && keep[i] && s[i] == x
  {
    var n := |s| - 1;
    if x in Retained(s[..n], keep[..n]) {
      RetainedMember(s[..n], keep[..n], x);
      var i :| 0 <= i < n && keep[..n][i] && s[..n][i] == x;
      assert keep[i] && s[i] == x;
    } else {
      assert keep[n] && s[n] == x;
    }
  }

  /** A subsequence of a sorted sequence is sorted. */
  lemma {:induction false} RetainedSorted<T>(s: seq<T>, keep: seq<bool>, cmp: (T, T) -> Ordering)
    requires |keep| == |s|
    requires SortedBy(s, cmp)
    ensures SortedBy(Retained(s, keep), cmp)
  {
    if s != [] {
      var n := |s| - 1;
      var front := Retained(s[..n], keep[..n]);
      assert SortedBy(s[..n], cmp);
      RetainedSorted(s[..n], keep[..n], cmp);
      if keep[n] {
        forall x | x in front ensures Le(cmp, x, s[n]) {
          RetainedMember(s[..n], keep[..n], x);
        }
        var r := front + [s[n]];
        forall i, j | 0 <= i < j < |r| ensures Le(cmp, r[i], r[j]) {
          if j == |front| { assert r[i] in front; }
        }
      }
    }
  }
}
