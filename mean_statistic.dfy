/** The statistic the bootstrap resamples: the arithmetic mean of a slice of
    float64 values (`mean`). A float64 is modelled by a mathematical `real`,
    so IEEE rounding is not part of this model; the one IEEE value the
    source can produce here that is not a real, the NaN of `0.0 / 0.0` for an
    empty slice, is modelled explicitly by `MeanOf.NaN`. */
module MeanStatistic {

  /** The sum of `s`, accumulated from the left as the source's loop does. */
  function Sum(s: seq<real>): real
  {
    if |s| == 0 then 0.0 else Sum(s[..|s| - 1]) + s[|s| - 1]
  }

  /** The arithmetic mean of a non-empty sequence. */
  function Mean(s: seq<real>): real
    requires |s| > 0
  {
    Sum(s) / (|s| as real)
  }

  /** The smallest element of a non-empty sequence. */
  function Min(s: seq<real>): (m: real)
    requires |s| > 0
    ensures m in s
    ensures forall k :: 0 <= k < |s| ==> m <= s[k]
  {
    if |s| == 1 then s[0]
    else
      var rest := Min(s[1..]);
      if s[0] <= rest then s[0] else rest
  }

  /** The largest element of a non-empty sequence. */
  function Max(s: seq<real>): (m: real)
    requires |s| > 0
    ensures m in s
    ensures forall k :: 0 <= k < |s| ==> s[k] <= m
  {
    if |s| == 1 then s[0]
    else
      var rest := Max(s[1..]);
      if rest <= s[0] then s[0] else rest
  }

  /** Bounds on every element bound the sum by the count times the bounds. */
  lemma {:induction false} SumBetween(s: seq<real>, lo: real, hi: real)
    requires forall k :: 0 <= k < |s| ==> lo <= s[k] <= hi
    ensures lo * (|s| as real) <= Sum(s) <= hi * (|s| as real)
  {
    if |s| > 0 {
      var init := s[..|s| - 1];
      SumBetween(init, lo, hi);
      assert (|s| as real) == (|init| as real) + 1.0;
    }
  }

  /** The mean of values that all lie in [lo, hi] lies in [lo, hi]. */
  lemma MeanBetween(s: seq<real>, lo: real, hi: real)
    requires |s| > 0
    requires forall k :: 0 <= k < |s| ==> lo <= s[k] <= hi
    ensures lo <= Mean(s) <= hi
  {
    SumBetween(s, lo, hi);
    var n := |s| as real;
    assert Mean(s) - lo == (Sum(s) - lo * n) / n;
    assert hi - Mean(s) == (hi * n - Sum(s)) / n;
  }

  /** The mean lies between the smallest and the largest element. */
  lemma MeanWithinRange(s: seq<real>)
    requires |s| > 0
    ensures Min(s) <= Mean(s) <= Max(s)
  {
    MeanBetween(s, Min(s), Max(s));
  }

  /** The mean of a sequence whose elements are all `x` is `x`. */
  lemma MeanOfConstant(s: seq<real>, x: real)
    requires |s| > 0
    requires forall k :: 0 <= k < |s| ==> s[k] == x
    ensures Mean(s) == x
  {
    MeanBetween(s, x, x);
  }

  /** What `mean` returns: a real, or NaN for an empty slice, where Go
      divides 0.0 by 0.0. */
  datatype MeanOf = Defined(value: real) | NaN

  /** `mean`: sums the slice in a loop, then divides by its length. */
  method ComputeMean(data: array<real>) returns (m: MeanOf)
    ensures m.NaN? <==> data.Length == 0
    ensures m.Defined? ==> m.value == Mean(data[..])
  {
    var sum := 0.0;
    var i := 0;
    while i < data.Length
      invariant 0 <= i <= data.Length
      invariant sum == Sum(data[..i])
    {
      assert data[..i + 1][..i] == data[..i];
      sum := sum + data[i];
      i := i + 1;
    }
    assert data[..i] == data[..];
    if data.Length == 0 {
      m := NaN;
    } else {
      m := Defined(sum / (data.Length as real));
    }
  }
}
