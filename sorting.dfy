/** The in-place ascending sort the interval estimator applies to its
    argument (`sort.Float64s`). Only its contract matters to the source: the
    slice ends sorted and holds the same values. It is modelled by an
    insertion sort over the caller's array. */
module Sorting {

  predicate Sorted(s: seq<real>)
  {
    forall p, q :: 0 <= p < q < |s| ==> s[p] <= s[q]
  }

  /** Exchanges two neighbouring elements. */
  method SwapAdjacent(a: array<real>, j: int)
    requires 0 < j < a.Length
    modifies a
    ensures a[j - 1] == old(a[j]) && a[j] == old(a[j - 1])
    ensures forall k :: 0 <= k < a.Length && k != j - 1 && k != j ==> a[k] == old(a[k])
    ensures multiset(a[..]) == old(multiset(a[..]))
  {
    a[j - 1], a[j] := a[j], a[j - 1];
  }

  /** `sort.Float64s` on the caller's slice: afterwards the array is sorted
      and is a permutation of what it held before. */
  method SortInPlace(a: array<real>)
    modifies a
    ensures Sorted(a[..])
    ensures multiset(a[..]) == old(multiset(a[..]))
  {
    var i := 0;
    while i < a.Length
      invariant 0 <= i <= a.Length
      invariant forall p, q :: 0 <= p < q < i ==> a[p] <= a[q]
      invariant multiset(a[..]) == old(multiset(a[..]))
    {
      var j := i;
      while 0 < j && a[j] < a[j - 1]
        invariant 0 <= j <= i
        invariant forall p, q :: 0 <= p < q <= i && p != j && q != j ==> a[p] <= a[q]
        invariant forall q :: j < q <= i ==> a[j] <= a[q]
        invariant multiset(a[..]) == old(multiset(a[..]))
      {
        SwapAdjacent(a, j);
        j := j - 1;
      }
      i := i + 1;
    }
  }
}
