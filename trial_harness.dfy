/** The trial harness in `main`: 100 trials, each of which bootstraps the
    charges column with 1000 resamples, estimates the 95% interval and
    appends the trial's elapsed time (an int64 count of microseconds) to
    `runtimeSlice`; then the times are summed into an int64 `runtimeSum` and
    averaged with Go's truncating integer division.

    The clock is not modelled: each trial's elapsed time is an input, as are
    the draws of the random generator. */
module TrialHarness {
  import opened MeanStatistic
  import opened BootstrapSampler
  import opened PercentileInterval
  import opened Sorting

  const NumTrials: nat := 100
  const NBootstraps: nat := 1000
  const Alpha: real := 0.05

  const Two63: int := 0x8000_0000_0000_0000
  const Two64: int := 0x1_0000_0000_0000_0000

  predicate IsInt64(x: int)
  {
    -Two63 <= x < Two63
  }

  /** Two's-complement int64 arithmetic: the int64 value congruent to `x`
      modulo 2^64. */
  function Wrap64(x: int): (r: int)
    ensures IsInt64(r)
    ensures (x - r) % Two64 == 0
    ensures IsInt64(x) ==> r == x
  {
    (x + Two63) % Two64 - Two63
  }

  /** Wrapping after every addition gives the wrapped total. */
  lemma WrapAdd(x: int, y: int)
    ensures Wrap64(Wrap64(x) + y) == Wrap64(x + y)
  {
    var q := (x + Two63) / Two64;
    assert Wrap64(x) == x - Two64 * q;
  }

  /** Go's integer division truncates toward zero. */
  function GoQuo(a: int, b: int): (q: int)
    requires b > 0
    ensures a >= 0 ==> 0 <= b * q <= a < b * q + b
    ensures a <= 0 ==> b * q - b < a <= b * q <= 0
  {
    if a >= 0 then a / b else -((-a) / b)
  }

  /** The sum of the durations, in unbounded integers. */
  function SumInt(s: seq<int>): int
  {
    if |s| == 0 then 0 else SumInt(s[..|s| - 1]) + s[|s| - 1]
  }

  /** The largest per-trial time for which 100 of them cannot overflow an
      int64 sum. */
  const MaxTrialMicros: int := (Two63 - 1) / NumTrials

  lemma {:induction false} SumIntBetween(s: seq<int>, hi: int)
    requires forall k :: 0 <= k < |s| ==> 0 <= s[k] <= hi
    ensures 0 <= SumInt(s) <= |s| * hi
  {
    if |s| > 0 {
      SumIntBetween(s[..|s| - 1], hi);
    }
  }

  /** The aggregation loop: `runtimeSum += runtimeSlice[i]` for the first
      100 entries in int64 arithmetic, then `avgRuntime = runtimeSum / 100`.
      The sum is the true total modulo 2^64, and is the true total when
      every time is non-negative and small enough; the average is the total
      divided by 100, rounded toward zero. */
  method AggregateRuntimes(runtimeSlice: seq<int>) returns (runtimeSum: int, avgRuntime: int)
    requires |runtimeSlice| >= NumTrials
    requires forall k :: 0 <= k < |runtimeSlice| ==> IsInt64(runtimeSlice[k])
    ensures runtimeSum == Wrap64(SumInt(runtimeSlice[..NumTrials]))
    ensures IsInt64(avgRuntime)
    ensures runtimeSum >= 0 ==> 0 <= 100 * avgRuntime <= runtimeSum < 100 * avgRuntime + 100
    ensures runtimeSum <= 0 ==> 100 * avgRuntime - 100 < runtimeSum <= 100 * avgRuntime <= 0
    ensures (forall k :: 0 <= k < NumTrials ==> 0 <= runtimeSlice[k] <= MaxTrialMicros)
        ==> runtimeSum == SumInt(runtimeSlice[..NumTrials]) && avgRuntime == SumInt(runtimeSlice[..NumTrials]) / 100
  {
    runtimeSum := 0;
    var i := 0;
    while i < NumTrials
      invariant 0 <= i <= NumTrials
      invariant runtimeSum == Wrap64(SumInt(runtimeSlice[..i]))
    {
      assert runtimeSlice[..i + 1][..i] == runtimeSlice[..i];
      WrapAdd(SumInt(runtimeSlice[..i]), runtimeSlice[i]);
      runtimeSum := Wrap64(runtimeSum + runtimeSlice[i]);
      i := i + 1;
    }
    avgRuntime := GoQuo(runtimeSum, NumTrials);
    if forall k :: 0 <= k < NumTrials ==> 0 <= runtimeSlice[k] <= MaxTrialMicros {
      SumIntBetween(runtimeSlice[..NumTrials], MaxTrialMicros);
    }
  }

  /** What one trial reports: `sorted` is its bootstrap distribution in
      ascending order, and the interval is the pair of order statistics at
      positions 25 and 975 of it, the positions `confidenceInterval` reads
      for 1000 means at alpha 0.05. The interval is ordered and lies within
      the range of the charges. */
  predicate TrialInterval(charges: seq<real>, draws: seq<seq<int>>, sorted: seq<real>, interval: Interval)
    requires |charges| > 0
    requires DrawRows(draws, |charges|)
  {
    Sorted(sorted) &&
    multiset(sorted) == multiset(BootstrapMeans(charges, draws)) &&
    |sorted| == NBootstraps &&
    interval == Interval(sorted[25], sorted[975]) &&
    interval.lower <= interval.upper &&
    Min(charges) <= interval.lower && interval.upper <= Max(charges)
  }

  /** The body of one trial: bootstrap the charges with this trial's draws
      into a fresh slice, sort it in place and read its interval. The
      interval is the one the source's own index arithmetic gives. */
  method RunTrial(charges: array<real>, draws: seq<seq<int>>) returns (interval: Interval, ghost sorted: seq<real>)
    requires charges.Length > 0
    requires ValidDraws(draws, NBootstraps, charges.Length)
    ensures TrialInterval(charges[..], draws, sorted, interval)
    ensures PercentileAsWritten(sorted, Alpha) == Found(interval)
  {
    var bootstrappedMeans := Bootstrap(charges, NBootstraps, draws);
    ghost var means := bootstrappedMeans[..];
    var estimate := ConfidenceInterval(bootstrappedMeans, Alpha);
    sorted := bootstrappedMeans[..];
    AsWrittenAtSourceParameters(sorted);
    interval := estimate.interval;
    BootstrapMeansWithinRange(charges[..], draws);
    assert interval.lower in means && interval.upper in means;
  }

  /** The trial loop: each of the 100 trials reports the interval of its own
      sorted bootstrap distribution and appends its elapsed time. */
  method RunTrials(charges: array<real>, draws: seq<seq<seq<int>>>, elapsed: seq<int>)
    returns (intervals: seq<Interval>, runtimeSlice: seq<int>, ghost sortedMeans: seq<seq<real>>)
    requires charges.Length > 0
    requires |draws| == NumTrials
    requires forall t :: 0 <= t < |draws| ==> |draws[t]| == NBootstraps && DrawRows(draws[t], charges.Length)
    requires |elapsed| == NumTrials
    ensures |intervals| == NumTrials && |sortedMeans| == NumTrials
    ensures forall t :: 0 <= t < NumTrials ==> TrialInterval(charges[..], draws[t], sortedMeans[t], intervals[t])
    ensures runtimeSlice == elapsed
  {
    intervals, runtimeSlice, sortedMeans := [], [], [];
    var i := 0;
    while i < NumTrials
      invariant 0 <= i <= NumTrials
      invariant |intervals| == i && |sortedMeans| == i
      invariant forall t :: 0 <= t < i ==> TrialInterval(charges[..], draws[t], sortedMeans[t], intervals[t])
      invariant runtimeSlice == elapsed[..i]
    {
      var interval, sorted := RunTrial(charges, draws[i]);
      intervals := intervals + [interval];
      sortedMeans := sortedMeans + [sorted];
      runtimeSlice := runtimeSlice + [elapsed[i]];
      i := i + 1;
    }
  }
}
