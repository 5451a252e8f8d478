# Bootstrap confidence interval benchmark — Dafny model

This project models the statistical core of a Go benchmark that estimates a
95% confidence interval for the mean of an insurance-charges column with the
nonparametric bootstrap, and repeats the estimate 100 times to time it.

The model covers four parts of `Modern_Applied_Statistics_In_Go.go`:

- `mean` becomes `MeanStatistic.ComputeMean`. It is a summing loop over an
  array, proved against the specification function `Mean` (the sum divided
  by the length). Go's `0.0 / 0.0` for an empty slice is modelled as the
  value `NaN`.
- `bootstrap` becomes `BootstrapSampler.Bootstrap`. Its nested loops fill a
  fresh array of `nBootstraps` means, one per resample. The random generator
  is replaced by the indices it returns: `draws[i][j]` is the value of the
  `rand.Intn(n)` call that fills position `j` of resample `i`, so it lies in
  `[0, n)`. The method is proved equal to the specification `BootstrapMeans`.
  Lemmas show that every resample takes its values from the data and that
  every mean lies between the smallest and the largest observation.
- `confidenceInterval` sorts its argument in place, which
  `Sorting.SortInPlace` models as an insertion sort proved sorted and a
  permutation. It then reads two order statistics. The source's index
  arithmetic is modelled as written (`ConfidenceIntervalAsWritten`), and the
  model proves exactly when it reads past the end. The corrected estimator
  (`ConfidenceInterval`) clamps the upper index to `n - 1`. Wherever the
  source's reads are in range it returns the same interval; for a non-empty
  distribution and 0 < alpha < 1 it never fails and returns ordered bounds
  taken from the data.
- The two loops of `main` become `TrialHarness.RunTrials` and
  `TrialHarness.AggregateRuntimes`. The first runs 100 trials of 1000
  resamples at alpha 0.05 and appends one elapsed time per trial. Each trial
  reports positions 25 and 975 of its sorted bootstrap means, the positions
  the source reads at these constants. The second
  sums the first 100 times in wrapping int64 arithmetic and averages them
  with Go's truncating division. Each elapsed time is an input, because the
  clock is not modelled.

float64 is modelled by `real`, so IEEE-754 rounding is not modelled. Go's
float-to-int conversion truncates toward zero (`TruncToInt`). Go's integer
division also truncates toward zero (`GoQuo`). int64 addition wraps modulo
2^64 (`Wrap64`).

The model's behaviour at the edges:

- The mean of an empty slice is NaN, not an error.
- The harness uses the program's fixed constants (100 trials, 1000
  resamples, alpha 0.05) and has no parameter errors.
- The average runtime uses truncating integer division.

## Model

| member | source | states |
|---|---|---|
| MeanStatistic.ComputeMean | Modern_Applied_Statistics_In_Go.go:77-83 | the loop's result is the sum of the slice divided by its length; it is NaN exactly when the slice is empty |
| MeanStatistic.SumBetween | Modern_Applied_Statistics_In_Go.go:78-81 | if every element lies in [lo, hi], the accumulated sum lies between lo·n and hi·n |
| MeanStatistic.MeanBetween | Modern_Applied_Statistics_In_Go.go:77-83 | the mean of values in [lo, hi] lies in [lo, hi] |
| MeanStatistic.MeanWithinRange | Modern_Applied_Statistics_In_Go.go:77-83 | the mean lies between the minimum and the maximum of its input |
| MeanStatistic.MeanOfConstant | Modern_Applied_Statistics_In_Go.go:77-83 | the mean of n copies of x is x |
| Sorting.SortInPlace | Modern_Applied_Statistics_In_Go.go:87 | after `sort.Float64s` the caller's array is sorted ascending and is a permutation of its former contents |
| BootstrapSampler.Resample | Modern_Applied_Statistics_In_Go.go:66-69 | a resample has one element per draw, and each element is a value of the data (nothing is invented) |
| BootstrapSampler.Bootstrap | Modern_Applied_Statistics_In_Go.go:60-74 | returns a fresh array of exactly nBootstraps entries; entry i is the mean of the resample picked by the i-th row of draws |
| BootstrapSampler.BootstrapMeansBetween | Modern_Applied_Statistics_In_Go.go:65-71 | if all observations lie in [lo, hi], every bootstrap mean does |
| BootstrapSampler.BootstrapMeansWithinRange | Modern_Applied_Statistics_In_Go.go:65-71 | every bootstrap mean lies between the smallest and the largest observation |
| BootstrapSampler.SingleObservation | Modern_Applied_Statistics_In_Go.go:66-70 | with one observation every bootstrap mean equals it, whatever the draws |
| BootstrapSampler.TestSampleMeans | Modern_Applied_Statistics_In_Go.go:95-101 | on the test's sample [1..5] with 1000 resamples there are exactly 1000 means, each in [1.0, 5.0] |
| PercentileInterval.TruncToInt | Modern_Applied_Statistics_In_Go.go:89 | `int(x)` rounds toward zero: the result is within one of x and no farther from zero than x |
| PercentileInterval.MirroredIndicesInRange | Modern_Applied_Statistics_In_Go.go:88-90 | for 0 < alpha < 1 and n > 0, 0 <= lowerIndex <= n - 1 - lowerIndex < n |
| PercentileInterval.ConfidenceIntervalAsWritten | Modern_Applied_Statistics_In_Go.go:86-92 | sorts the caller's array in place (sorted, same multiset) and returns the source's two reads at lowerIndex and n - lowerIndex, or the first index that is out of range; when the reads succeed both values come from the caller's data, and for 0 < alpha < 1 lower <= upper |
| PercentileInterval.AsWrittenInRange | Modern_Applied_Statistics_In_Go.go:87-91 | for a sorted input, 0 < alpha < 1 and n·alpha >= 2, the source's reads are in range with 1 <= lowerIndex <= n - lowerIndex, and they return lower <= upper, both taken from the input |
| PercentileInterval.AsWrittenOutOfRangeIff | Modern_Applied_Statistics_In_Go.go:88-91 | for 0 < alpha < 1 the source reads out of range if and only if n·alpha < 2, and the failing read is data[n] |
| PercentileInterval.AsWrittenFailsOnSingleton | Modern_Applied_Statistics_In_Go.go:89-91 | for [42.0] and alpha 0.05 the source reads index 1 of a one-element slice |
| PercentileInterval.AsWrittenAtSourceParameters | Modern_Applied_Statistics_In_Go.go:147-152 | at main's constants (1000 means, alpha 0.05) the source reads positions 25 and 975 without panicking, and the corrected estimator reads the same positions |
| PercentileInterval.Percentile | Modern_Applied_Statistics_In_Go.go:88-91 | the index arithmetic with the upper index clamped to n - 1 succeeds exactly when lowerIndex is a valid position, and otherwise reports the source's failing lower read; it always succeeds for a non-empty distribution and 0 < alpha < 1; both bounds occur in the distribution, and lower <= upper when it is sorted and 0 < alpha < 1 |
| PercentileInterval.CorrectedAgreesWithSource | Modern_Applied_Statistics_In_Go.go:89-91 | wherever the source's reads are in range the corrected estimator returns the same interval; where the source reads data[n] for a valid alpha the corrected one returns (smallest, largest) |
| PercentileInterval.ConfidenceInterval | Modern_Applied_Statistics_In_Go.go:86-92 | sorts the caller's array in place (sorted, same multiset) and returns the clamped interval of the sorted values; for a non-empty array and 0 < alpha < 1 it succeeds with lower <= upper; on success both bounds belong to the caller's original values |
| PercentileInterval.SingletonInterval | Modern_Applied_Statistics_In_Go.go:88-91 | a single value x gives the interval (x, x) for every valid alpha, where the source reads index 1 of a one-element slice |
| TrialHarness.Wrap64 | Modern_Applied_Statistics_In_Go.go:178-181 | int64 arithmetic: the result is an int64 congruent to x modulo 2^64, and equal to x when x fits |
| TrialHarness.WrapAdd | Modern_Applied_Statistics_In_Go.go:180-182 | wrapping after each addition gives the wrapped total |
| TrialHarness.GoQuo | Modern_Applied_Statistics_In_Go.go:184 | integer division rounds toward zero, for negative and non-negative dividends |
| TrialHarness.SumIntBetween | Modern_Applied_Statistics_In_Go.go:180-182 | durations in [0, hi] sum to a value in [0, n·hi] |
| TrialHarness.AggregateRuntimes | Modern_Applied_Statistics_In_Go.go:178-184 | runtimeSum is the total of the first 100 durations modulo 2^64; it is the exact total when each duration is in [0, (2^63-1)/100]; avgRuntime is runtimeSum / 100 rounded toward zero |
| TrialHarness.RunTrial | Modern_Applied_Statistics_In_Go.go:144-157 | one trial's interval is (sorted[25], sorted[975]), where sorted is that trial's bootstrap means in ascending order, the interval the source's own confidenceInterval returns on them; it is ordered and lies within the charges' range |
| TrialHarness.RunTrials | Modern_Applied_Statistics_In_Go.go:142-160 | exactly 100 intervals, interval t being positions 25 and 975 of trial t's sorted bootstrap means (ordered, within the charges' range); the runtime slice holds one elapsed time per trial, in trial order |

## Findings

| source | as written | input that shows it | evidently intended | confidence | as-written member | corrected member |
|---|---|---|---|---|---|---|
| Modern_Applied_Statistics_In_Go.go:90-91 | `upperIndex := n - lowerIndex`, then `data[upperIndex]`. This reads one past the end whenever `lowerIndex` is 0, which for 0 < alpha < 1 is exactly when n·alpha < 2. | `data = [42.0]`, `alpha = 0.05`: `lowerIndex` is 0 and `data[1]` is read from a one-element slice | clamp `upperIndex` to `n - 1`. Where the reads are in range, `upperIndex` is `n - lowerIndex`, which is the convention the source uses, not a defect; for n·alpha/2 an integer these are positions floor(n·alpha/2) and floor(n·(1 - alpha/2)). The corrected member adds no check on alpha: for other alphas it behaves as the source does | not executed | PercentileInterval.AsWrittenFailsOnSingleton | PercentileInterval.ConfidenceInterval |

The harness uses the corrected estimator. At the program's own constants
(1000 means, alpha 0.05) the source's reads are in range, and the corrected
estimator returns the same positions 25 and 975
(`AsWrittenAtSourceParameters`, `CorrectedAgreesWithSource`).

## Left out

- `logMessage`, `loadData`, `parseFloat` and the extraction of the charges column are file and console I/O, CSV parsing and `strconv`. The model takes the charges column as an array.
- All writes to the output, profile and log files are I/O. Each trial's interval is returned instead of printed.
- `runtime.ReadMemStats` and the memory delta are process instrumentation.
- `time.Now` and `Sub` are a wall clock. Each trial's elapsed microseconds are an input.
- `rand.Seed` and the generator are replaced by pre-supplied draws in [0, n). The model does not capture uniformity or independence of the draws.
- IEEE-754 rounding of the sum, the division in `mean` and `n * alpha / 2` is not modelled; these use exact reals. At the program's constants `1000 * 0.05 / 2` gives 25 in both.
- Bootstrap: an empty sample is excluded by a precondition. For it Go returns `nBootstraps` NaN means (the inner loop never calls `rand.Intn`), and NaN is not a real. `ComputeMean` models that NaN itself.
- Bootstrap: `nBootstraps` is a natural number. A negative count makes Go's `make` panic, and that panic is not modelled.
- AggregateRuntimes: requires at least 100 durations. The source only ever passes exactly 100, and indexing past the end would panic.
- `sort.Float64s` orders NaN first. The model has no NaN among the values it sorts.
- The dead `loopCounter` and the logging side effect of `TestBootstrap` are not modelled. The test's length check is `Bootstrap`'s length postcondition, and its sample is `TestSampleMeans`.
