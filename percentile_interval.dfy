/** The percentile interval estimator (`confidenceInterval`): sort the
    bootstrap distribution in place, then read two order statistics off it.

    The source computes `lowerIndex = int(n * alpha / 2)` and
    `upperIndex = n - lowerIndex` and reads `data[upperIndex]`, which is one
    past the end whenever `lowerIndex` is 0. That arithmetic is modelled as
    written (`PercentileAsWritten`) and its failure is exhibited; the
    corrected estimator (`Percentile`, `ConfidenceInterval`) clamps the upper
    index to `n - 1`, which changes nothing where the source's reads are in
    range, and is what the rest of the model uses. */
module PercentileInterval {
  import opened Sorting

  datatype Interval = Interval(lower: real, upper: real)

  /** Go's conversion of a float64 to an int truncates toward zero. */
  function TruncToInt(x: real): (r: int)
    ensures 0.0 <= x ==> r as real <= x < r as real + 1.0
    ensures x <= 0.0 ==> r as real - 1.0 < x <= r as real
  {
    if x >= 0.0 then x.Floor else -((-x).Floor)
  }

  /** `lowerIndex := int(float64(n) * alpha / 2)`. */
  function LowerIndex(n: nat, alpha: real): int
  {
    TruncToInt((n as real) * alpha / 2.0)
  }

  /** For 0 < alpha < 1 the lower index and its mirror image
      `n - 1 - lowerIndex` are valid positions, in that order. */
  lemma MirroredIndicesInRange(n: nat, alpha: real)
    requires n > 0
    requires 0.0 < alpha < 1.0
    ensures 0 <= LowerIndex(n, alpha) <= n - 1 - LowerIndex(n, alpha) < n
  {
    var x := (n as real) * alpha / 2.0;
    assert 0.0 <= x < (n as real) / 2.0;
    assert 2 * LowerIndex(n, alpha) < n by {
      assert (LowerIndex(n, alpha) as real) <= x;
    }
  }

  // ---------------------------------------------------------------------
  // As written

  /** The outcome of the source's two slice reads: both values, or the
      index of the first read that is out of range (a run-time panic). */
  datatype Lookup = Found(interval: Interval) | IndexOutOfRange(index: int, length: nat)

  /** The index arithmetic of `confidenceInterval` as written, applied to
      the already sorted slice. */
  function PercentileAsWritten(sorted: seq<real>, alpha: real): Lookup
  {
    var n := |sorted|;
    var lowerIndex := LowerIndex(n, alpha);
    var upperIndex := n - lowerIndex;
    if !(0 <= lowerIndex < n) then IndexOutOfRange(lowerIndex, n)
    else if !(0 <= upperIndex < n) then IndexOutOfRange(upperIndex, n)
    else Found(Interval(sorted[lowerIndex], sorted[upperIndex]))
  }

  /** `confidenceInterval` as written: sorts the caller's slice in place,
      then reads `data[lowerIndex]` and `data[n - lowerIndex]`. */
  method ConfidenceIntervalAsWritten(data: array<real>, alpha: real) returns (r: Lookup)
    modifies data
    ensures Sorted(data[..])
    ensures multiset(data[..]) == old(multiset(data[..]))
    ensures r == PercentileAsWritten(data[..], alpha)
    ensures r.Found? ==> r.interval.lower in old(multiset(data[..])) && r.interval.upper in old(multiset(data[..]))
    ensures r.Found? && 0.0 < alpha < 1.0 ==> r.interval.lower <= r.interval.upper
  {
    SortInPlace(data);
    r := PercentileAsWritten(data[..], alpha);
    if r.Found? && 0.0 < alpha < 1.0 {
      AsWrittenOutOfRangeIff(data[..], alpha);
      AsWrittenInRange(data[..], alpha);
    }
  }

  /** For a valid alpha the source reads out of range exactly when
      `n * alpha < 2`, i.e. when the lower index is 0, and the read that
      fails is `data[n]`, one past the end. */
  lemma AsWrittenOutOfRangeIff(sorted: seq<real>, alpha: real)
    requires |sorted| > 0
    requires 0.0 < alpha < 1.0
    ensures PercentileAsWritten(sorted, alpha).IndexOutOfRange?
        <==> (|sorted| as real) * alpha < 2.0
    ensures PercentileAsWritten(sorted, alpha).IndexOutOfRange?
        ==> PercentileAsWritten(sorted, alpha) == IndexOutOfRange(|sorted|, |sorted|)
  {
    var n := |sorted|;
    MirroredIndicesInRange(n, alpha);
    var lowerIndex := LowerIndex(n, alpha);
    var x := (n as real) * alpha / 2.0;
    assert lowerIndex == 0 <==> x < 1.0;
  }

  /** A single observation with the source's alpha: the lower index is 0,
      so the source reads `data[1]` of a one-element slice. */
  lemma AsWrittenFailsOnSingleton()
    ensures PercentileAsWritten([42.0], 0.05) == IndexOutOfRange(1, 1)
  {
    assert LowerIndex(1, 0.05) == 0;
  }

  /** Wherever the source's reads are in range for a valid alpha, that is
      when `n * alpha >= 2`: the lower index is at least 1 and at most the
      upper index, and the two reads are ordered values of the input. */
  lemma AsWrittenInRange(sorted: seq<real>, alpha: real)
    requires Sorted(sorted)
    requires 0.0 < alpha < 1.0
    requires (|sorted| as real) * alpha >= 2.0
    ensures 1 <= LowerIndex(|sorted|, alpha) <= |sorted| - LowerIndex(|sorted|, alpha) < |sorted|
    ensures PercentileAsWritten(sorted, alpha).Found?
    ensures var found := PercentileAsWritten(sorted, alpha).interval;
      found.lower <= found.upper && found.lower in sorted && found.upper in sorted
  {
    assert |sorted| > 0;
    MirroredIndicesInRange(|sorted|, alpha);
    AsWrittenOutOfRangeIff(sorted, alpha);
    var x := (|sorted| as real) * alpha / 2.0;
    assert x >= 1.0;
  }

  /** With the source's own parameters (1000 means, alpha 0.05) the reads
      stay in range: positions 25 and 975 of the sorted means. The
      corrected estimator reads the same two positions. */
  lemma AsWrittenAtSourceParameters(sorted: seq<real>)
    requires |sorted| == 1000
    ensures PercentileAsWritten(sorted, 0.05) == Found(Interval(sorted[25], sorted[975]))
    ensures Percentile(sorted, 0.05) == Found(Interval(sorted[25], sorted[975]))
  {
    assert (1000 as real) * 0.05 / 2.0 == 25.0;
    assert LowerIndex(1000, 0.05) == 25;
  }

  // ---------------------------------------------------------------------
  // Corrected

  /** The source's index arithmetic with `upperIndex` clamped to `n - 1`,
      so that the upper read cannot pass the end. A lower index outside the
      slice (an empty slice, or an alpha that is negative or 2 or more) is
      still reported as the source's panic. */
  function Percentile(sorted: seq<real>, alpha: real): (r: Lookup)
    ensures r.Found? <==> 0 <= LowerIndex(|sorted|, alpha) < |sorted|
    ensures r.IndexOutOfRange? ==> r == IndexOutOfRange(LowerIndex(|sorted|, alpha), |sorted|)
    ensures r.Found? ==> r.interval.lower in sorted && r.interval.upper in sorted
    ensures |sorted| > 0 && 0.0 < alpha < 1.0 ==> r.Found?
    ensures r.Found? && Sorted(sorted) && 0.0 < alpha < 1.0 ==> r.interval.lower <= r.interval.upper
  {
    var n := |sorted|;
    var lowerIndex := LowerIndex(n, alpha);
    var upperIndex := if n - lowerIndex < n - 1 then n - lowerIndex else n - 1;
    if !(0 <= lowerIndex < n) then IndexOutOfRange(lowerIndex, n)
    else
      assert 0.0 < alpha < 1.0 ==> lowerIndex <= upperIndex by {
        if 0.0 < alpha < 1.0 { MirroredIndicesInRange(n, alpha); }
      }
      Found(Interval(sorted[lowerIndex], sorted[upperIndex]))
  }

  /** Clamping changes nothing where the source works: whenever the source's
      reads are in range the corrected estimator returns the same interval,
      and where the source reads `data[n]` for a valid alpha the corrected
      one reads the largest value instead. */
  lemma CorrectedAgreesWithSource(sorted: seq<real>, alpha: real)
    ensures PercentileAsWritten(sorted, alpha).Found?
        ==> Percentile(sorted, alpha) == PercentileAsWritten(sorted, alpha)
    ensures |sorted| > 0 && 0.0 < alpha < 1.0 && PercentileAsWritten(sorted, alpha).IndexOutOfRange?
        ==> Percentile(sorted, alpha) == Found(Interval(sorted[0], sorted[|sorted| - 1]))
  {
    var n := |sorted|;
    if n > 0 && 0.0 < alpha < 1.0 && PercentileAsWritten(sorted, alpha).IndexOutOfRange? {
      MirroredIndicesInRange(n, alpha);
      AsWrittenOutOfRangeIff(sorted, alpha);
      assert LowerIndex(n, alpha) == 0;
    }
  }

  /** `confidenceInterval` with the upper index clamped: sorts the caller's
      slice in place and returns the interval of the sorted values, whose
      bounds occur in the caller's data and, for a valid alpha, are
      ordered. */
  method ConfidenceInterval(data: array<real>, alpha: real) returns (r: Lookup)
    modifies data
    ensures Sorted(data[..])
    ensures multiset(data[..]) == old(multiset(data[..]))
    ensures r == Percentile(data[..], alpha)
    ensures data.Length > 0 && 0.0 < alpha < 1.0 ==> r.Found? && r.interval.lower <= r.interval.upper
    ensures r.Found? ==> r.interval.lower in old(multiset(data[..])) && r.interval.upper in old(multiset(data[..]))
  {
    SortInPlace(data);
    r := Percentile(data[..], alpha);
  }

  /** A single observation yields the degenerate interval at that
      observation, for every valid alpha, where the source would read past
      the end. */
  lemma SingletonInterval(x: real, alpha: real)
    requires 0.0 < alpha < 1.0
    ensures Percentile([x], alpha) == Found(Interval(x, x))
    ensures PercentileAsWritten([x], alpha) == IndexOutOfRange(1, 1)
  {
    AsWrittenOutOfRangeIff([x], alpha);
  }
}
