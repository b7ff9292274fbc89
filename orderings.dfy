/**
  Three-way comparison results and the order-theoretic vocabulary the line
  sorter needs: total preorders given as comparators, and sortedness.
 */
module Orderings {

  /** The result of a comparison, as Rust's `std::cmp::Ordering`. */
  datatype Ordering = Less | Equal | Greater {

    /** `Ordering::reverse`: swaps `Less` and `Greater`, keeps `Equal`. */
    function Reverse(): (r: Ordering)
      ensures (r == Equal) <==> (this == Equal)
      ensures (r == Less) <==> (this == Greater)
      ensures (r == Greater) <==> (this == Less)
    {
      match this
      case Less => Greater
      case Equal => Equal
      case Greater => Less
    }
  }

  /** `a` may stand before `b` when ordering by `cmp`. */
  predicate Le<T>(cmp: (T, T) -> Ordering, a: T, b: T) {
    cmp(a, b) != Greater
  }

  /** Swapping the arguments reverses the result (so `cmp(a, a) == Equal`). */
  ghost predicate Antisymmetric<T(!new)>(cmp: (T, T) -> Ordering) {
    forall a, b :: cmp(b, a) == cmp(a, b).Reverse()
  }

  ghost predicate Transitive<T(!new)>(cmp: (T, T) -> Ordering) {
    forall a, b, c :: Le(cmp, a, b) && Le(cmp, b, c) ==> Le(cmp, a, c)
  }

  /**
    What a comparator handed to a comparison sort must be: a total preorder.
    Distinct values may compare `Equal`.
   */
  ghost predicate TotalPreorder<T(!new)>(cmp: (T, T) -> Ordering) {
    Antisymmetric(cmp) && Transitive(cmp)
  }

  /** Every element may stand before every later one. */
  ghost predicate SortedBy<T>(s: seq<T>, cmp: (T, T) -> Ordering) {
    forall i, j :: 0 <= i < j < |s| ==> Le(cmp, s[i], s[j])
  }

  /** `cmp` with every result reversed, as `sort_by(|a, b| cmp(a, b).reverse())`. */
  function Flipped<T>(cmp: (T, T) -> Ordering): (T, T) -> Ordering {
    (a: T, b: T) => cmp(a, b).Reverse()
  }

  /** The elements of `s` back to front. */
  function Reversed<T>(s: seq<T>): (r: seq<T>)
    ensures |r| == |s|
    ensures forall i :: 0 <= i < |s| ==> r[i] == s[|s| - 1 - i]
  {
    seq(|s|, i requires 0 <= i < |s| => s[|s| - 1 - i])
  }

  /** Reversing every answer of a total preorder gives a total preorder. */
  lemma FlippedTotalPreorder<T(!new)>(cmp: (T, T) -> Ordering)
    requires TotalPreorder(cmp)
    ensures TotalPreorder(Flipped(cmp))
  {
    var f := Flipped(cmp);
    forall a, b, c | Le(f, a, b) && Le(f, b, c) ensures Le(f, a, c) {
      assert Le(cmp, b, a) && Le(cmp, c, b);
    }
  }

  /** Reading a sorted sequence backwards gives one sorted by the flipped comparator. */
  lemma ReversedSorted<T(!new)>(s: seq<T>, cmp: (T, T) -> Ordering)
    requires Antisymmetric(cmp)
    requires SortedBy(s, cmp)
    ensures SortedBy(Reversed(s), Flipped(cmp))
  {
    var r, n := Reversed(s), |s|;
    forall i, j | 0 <= i < j < n ensures Le(Flipped(cmp), r[i], r[j]) {
      assert Le(cmp, s[n - 1 - j], s[n - 1 - i]);
    }
  }

  lemma {:induction false} ReversedMultiset<T>(s: seq<T>)
    ensures multiset(Reversed(s)) == multiset(s)
  {
    if s != [] {
      var t := s[1..];
      ReversedMultiset(t);
      assert Reversed(s) == Reversed(t) + [s[0]];
      assert s == [s[0]] + t;
    }
  }
}
