/** The bootstrap sampler (`bootstrap`): `nBootstraps` resamples of the
    input, each of the input's length and drawn with replacement, and the
    mean of each. The pseudo-random generator is replaced by the indices it
    returns: `draws[i][j]` is the value of the `rand.Intn(n)` call that
    fills position `j` of resample `i`, so every draw lies in [0, n). */
module BootstrapSampler {
  import opened MeanStatistic

  /** Every index in `row` is a valid position of a sample of length `n`. */
  predicate InRange(row: seq<int>, n: nat)
  {
    forall j :: 0 <= j < |row| ==> 0 <= row[j] < n
  }

  /** Every row of `draws` holds `n` draws, as `rand.Intn(n)` returns
      them. */
  predicate DrawRows(draws: seq<seq<int>>, n: nat)
  {
    forall i :: 0 <= i < |draws| ==> |draws[i]| == n && InRange(draws[i], n)
  }

  /** `draws` holds one row of `n` draws for each of `nBootstraps`
      resamples. */
  predicate ValidDraws(draws: seq<seq<int>>, nBootstraps: nat, n: nat)
  {
    |draws| == nBootstraps && DrawRows(draws, n)
  }

  /** The resample that the draws in `row` pick out of `data`; it invents no
      value: each element is an element of `data`. */
  function Resample(data: seq<real>, row: seq<int>): (r: seq<real>)
    requires InRange(row, |data|)
    ensures |r| == |row|
    ensures forall j :: 0 <= j < |r| ==> r[j] in data
  {
    seq(|row|, j requires 0 <= j < |row| => data[row[j]])
  }

  /** The bootstrap distribution: the mean of each resample, in the order
      the resamples are drawn. */
  function BootstrapMeans(data: seq<real>, draws: seq<seq<int>>): seq<real>
    requires DrawRows(draws, |data|)
    requires |data| > 0
  {
    seq(|draws|, i requires 0 <= i < |draws| => Mean(Resample(data, draws[i])))
  }

  /** `bootstrap`: fills a fresh slice of `nBootstraps` means, building each
      resample element by element in the inner loop. */
  method Bootstrap(data: array<real>, nBootstraps: nat, draws: seq<seq<int>>)
    returns (resamples: array<real>)
    requires data.Length > 0
    requires ValidDraws(draws, nBootstraps, data.Length)
    ensures fresh(resamples)
    ensures resamples.Length == nBootstraps
    ensures resamples[..] == BootstrapMeans(data[..], draws)
  {
    var n := data.Length;
    resamples := new real[nBootstraps];
    var i := 0;
    while i < nBootstraps
      invariant 0 <= i <= nBootstraps
      invariant forall k :: 0 <= k < i ==> resamples[k] == BootstrapMeans(data[..], draws)[k]
    {
      var resample := new real[n];
      var j := 0;
      while j < n
        modifies resample
        invariant 0 <= j <= n
        invariant forall k :: 0 <= k < j ==> resample[k] == data[draws[i][k]]
      {
        resample[j] := data[draws[i][j]];
        j := j + 1;
      }
      assert resample[..] == Resample(data[..], draws[i]);
      var m := ComputeMean(resample);
      resamples[i] := m.value;
      i := i + 1;
    }
  }

  /** When every observation lies in [lo, hi], so does every bootstrap
      mean. */
  lemma BootstrapMeansBetween(data: seq<real>, draws: seq<seq<int>>, lo: real, hi: real)
    requires |data| > 0
    requires DrawRows(draws, |data|)
    requires forall k :: 0 <= k < |data| ==> lo <= data[k] <= hi
    ensures forall i :: 0 <= i < |draws| ==> lo <= BootstrapMeans(data, draws)[i] <= hi
  {
    forall i | 0 <= i < |draws|
      ensures lo <= BootstrapMeans(data, draws)[i] <= hi
    {
      var r := Resample(data, draws[i]);
      forall j | 0 <= j < |r|
        ensures lo <= r[j] <= hi
      {
        assert r[j] == data[draws[i][j]];
      }
      MeanBetween(r, lo, hi);
    }
  }

  /** Every bootstrap mean lies between the smallest and the largest
      observation. */
  lemma BootstrapMeansWithinRange(data: seq<real>, draws: seq<seq<int>>)
    requires |data| > 0
    requires DrawRows(draws, |data|)
    ensures forall i :: 0 <= i < |draws| ==> Min(data) <= BootstrapMeans(data, draws)[i] <= Max(data)
  {
    BootstrapMeansBetween(data, draws, Min(data), Max(data));
  }

  /** With a single observation every resample repeats it, so every
      bootstrap mean equals it, whatever the draws. */
  lemma SingleObservation(data: seq<real>, draws: seq<seq<int>>)
    requires |data| == 1
    requires DrawRows(draws, 1)
    ensures forall i :: 0 <= i < |draws| ==> BootstrapMeans(data, draws)[i] == data[0]
  {
    BootstrapMeansBetween(data, draws, data[0], data[0]);
  }

  /** The sample of the source's test, [1.0, 2.0, 3.0, 4.0, 5.0] with 1000
      resamples: 1000 means, each in [1.0, 5.0]. */
  lemma TestSampleMeans(draws: seq<seq<int>>)
    requires ValidDraws(draws, 1000, 5)
    ensures |BootstrapMeans([1.0, 2.0, 3.0, 4.0, 5.0], draws)| == 1000
    ensures forall i :: 0 <= i < 1000 ==> 1.0 <= BootstrapMeans([1.0, 2.0, 3.0, 4.0, 5.0], draws)[i] <= 5.0
  {
    BootstrapMeansBetween([1.0, 2.0, 3.0, 4.0, 5.0], draws, 1.0, 5.0);
  }
}
