/** Sorting by a total preorder, as the searches use `std::sort`, `list::sort` and `list::merge`. */
module Sorting {

  ghost predicate TotalPreorder<T(!new)>(leq: (T, T) -> bool) {
    && (forall a, b :: leq(a, b) || leq(b, a))
    && (forall a, b, c :: leq(a, b) && leq(b, c) ==> leq(a, c))
  }

  ghost predicate SortedBy<T>(leq: (T, T) -> bool, s: seq<T>) {
    forall i, j | 0 <= i < j < |s| :: leq(s[i], s[j])
  }

  /** All a caller may assume of a sort: the order of equivalent elements is open. */
  ghost predicate SortOf<T>(leq: (T, T) -> bool, s: seq<T>, r: seq<T>) {
    multiset(r) == multiset(s) && SortedBy(leq, r)
  }

  lemma SameElements<T>(s: seq<T>, r: seq<T>)
    requires multiset(r) == multiset(s)
    ensures |r| == |s|
    ensures forall x :: x in r <==> x in s
  {
    assert |multiset(r)| == |multiset(s)|;
    forall x
      ensures x in r <==> x in s
    {
      assert x in r <==> x in multiset(r);
      assert x in s <==> x in multiset(s);
    }
  }

  /** r holds the first i of a and the first j of b in order, and nothing left comes before them. */
  ghost predicate MergedTo<T(!new)>(leq: (T, T) -> bool, r: seq<T>, a: seq<T>, i: int, b: seq<T>, j: int) {
    && 0 <= i <= |a| && 0 <= j <= |b|
    && multiset(r) == multiset(a[..i]) + multiset(b[..j]) && SortedBy(leq, r)
    && (forall x | x in r :: (i < |a| ==> leq(x, a[i])) && (j < |b| ==> leq(x, b[j])))
  }

  lemma MergeOne<T(!new)>(leq: (T, T) -> bool, r: seq<T>, a: seq<T>, i: int, b: seq<T>, j: int)
    requires TotalPreorder(leq) && SortedBy(leq, a) && MergedTo(leq, r, a, i, b, j)
    requires i < |a| && (j < |b| ==> leq(a[i], b[j]) || !leq(b[j], a[i]))
    ensures MergedTo(leq, r + [a[i]], a, i + 1, b, j) && MergedTo(leq, r + [a[i]], b, j, a, i + 1)
  {
    assert j < |b| ==> leq(a[i], b[j]);
    assert a[..i + 1] == a[..i] + [a[i]];
  }

  /** `list::merge`: takes from the second list only what is strictly before the first. */
  method Merge<T(!new)>(a: seq<T>, b: seq<T>, leq: (T, T) -> bool) returns (r: seq<T>)
    requires TotalPreorder(leq) && SortedBy(leq, a) && SortedBy(leq, b)
    ensures multiset(r) == multiset(a) + multiset(b) && SortedBy(leq, r)
  {
    var i, j := 0, 0;
    r := [];
    while i < |a| || j < |b|
      invariant MergedTo(leq, r, a, i, b, j) && MergedTo(leq, r, b, j, a, i)
      decreases |a| - i + |b| - j
    {
      if j == |b| || (i < |a| && leq(a[i], b[j])) {
        MergeOne(leq, r, a, i, b, j);
        r := r + [a[i]];
        i := i + 1;
      } else {
        MergeOne(leq, r, b, j, a, i);
        r := r + [b[j]];
        j := j + 1;
      }
    }
    assert a[..i] == a && b[..j] == b;
  }

  /** Sorting by merging. */
  method Sort<T(!new)>(s: seq<T>, leq: (T, T) -> bool) returns (r: seq<T>)
    requires TotalPreorder(leq)
    ensures SortOf(leq, s, r)
    decreases |s|
  {
    if |s| <= 1 {
      return s;
    }
    var half := |s| / 2;
    var left := Sort(s[..half], leq);
    var right := Sort(s[half..], leq);
    r := Merge(left, right, leq);
    assert s == s[..half] + s[half..];
  }
}
