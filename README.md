# Haralick texture features of a temporal co-occurrence matrix

This project models the core of `ml_Extract_Temporal_Texture.c`, a C
program that computes Haralick texture features from a gray-tone
co-occurrence matrix `P` of `tones` × `tones` cells. The model covers:

- the features that need only sums and products: angular second moment
  (f1), contrast (f2), variance (f4), inverse difference moment (f5), sum
  average (f6), sum variance (f7) and difference variance (f10);
- the bucketing of `P` into the shared static scratch array `Pxpy`. This
  covers the reset of `Pxpy`, the sums `i + j`, `i + j + 2` and `|i - j|`
  used by f6/f7, f8 and f10/f11, and what each reset leaves untouched;
- `simplesrt`, the straight insertion sort on a 1-based array;
- `pgm_vector`, which allocates a float vector and zeroes it;
- `ml_Extract_Temporal_Texture`, which runs each selected feature and
  copies the results into the `TEXTURE` record.

The model is written in the source's form:

- Every feature is a `method` with the source's nested loops and their
  invariants.
- `Pxpy` is an `array<real>` that the bucketing methods reset and fill in
  place.
- `simplesrt` works in place on an `array<real>`.

Each method is proved against a closed form over the cells of `P`. These
closed forms are `Asm`, `ContrastOf`, `VarianceOf`, `Idm`, `SumAverageOf`,
`SumVarianceOf` and `DiffVarianceOf` in module `Glcm`. Lemmas about them
give the properties of the features:

- bounds;
- values on diagonal matrices;
- identities between the bucketed form and the cell form;
- conservation of the total mass when cells are bucketed.

Modules:

- `Sums`: finite sums over integer ranges (`Series`, `RowSum`, `GridSum`)
  and their algebra.
- `Glcm`: the matrix, the bucket keys, the distributions `p_{x+y}` and
  `p_{x-y}`, and the closed forms with their lemmas.
- `Features`: f1, f2, f4, f5.
- `Scratch`: `Pxpy`, the bucketing loops, and f6, f7, f10.
- `Sorting`: `simplesrt`.
- `Vector`: `pgm_vector`.
- `Extraction`: `ml_Extract_Temporal_Texture`.

Floats are modelled as `real`, so rounding is not modelled. The global
`Pxpy` and the values of the features left out of the model are passed in
as parameters. This includes the features that need `log10`, `sqrt`,
`exp` or the eigen-solver.

The model keeps these behaviours of the code as they are written:

- A feature that is not selected leaves its field holding the
  uninitialised local. The model takes those values as the parameter
  `Stale`. Only `max_corr_coef` is set to 0 when it is unselected.
- Two pieces of gating look swapped. `f8_sentropy` runs under `sum_var`,
  and `f7_svar` runs under `sum_entropy` with the centre `sentropy[0]`.
  Both the `sum_var` field and the `sum_entropy` field receive `svar[0]`.
- `meas_corr1` and `meas_corr2` share the local `icorr[0]`. So when only
  `meas_corr1` is selected, the `meas_corr2` field also receives the f12
  value.
- `Pxpy` is one shared static array, not per-call scratch. Each bucketing
  feature resets entries `0 .. 2*tones` only, and the model states that
  entries above `2*tones` are left unchanged. Only the five features that
  use `Pxpy` need it to hold `2*tones + 1` entries; without them, any
  `tones` is accepted.

## Model

| member | source | states |
|---|---|---|
| Features.AngularSecondMoment | timefeatcalc/source/ml_Extract_Temporal_Texture.c:269-273 | the loop returns the sum over all cells of P[i][j]^2 (Asm) |
| Glcm.AsmNonneg | timefeatcalc/source/ml_Extract_Temporal_Texture.c:269-271 | the angular second moment of any matrix is at least 0 |
| Glcm.AsmAtMostOne | timefeatcalc/source/ml_Extract_Temporal_Texture.c:269-271 | for a probability matrix (cells in [0,1] summing to 1) the angular second moment is at most 1 |
| Glcm.AsmOfUniformDiagonal | timefeatcalc/source/ml_Extract_Temporal_Texture.c:269-271 | a diagonal matrix with 1/Ng on each diagonal cell has angular second moment 1/Ng |
| Features.Contrast | timefeatcalc/source/ml_Extract_Temporal_Texture.c:293-303 | the three nested loops return the sum over cells of (i-j)^2 P[i][j] (ContrastOf) |
| Features.ContrastPassIsDiffBucket | timefeatcalc/source/ml_Extract_Temporal_Texture.c:295-298 | pass n of the contrast loop adds exactly the cells with abs(i-j) == n, so it equals p_{x-y}(n); the diagonal is counted once although both tests hold there |
| Features.ContrastStep | timefeatcalc/source/ml_Extract_Temporal_Texture.c:299-300 | adding n^2 times the pass sum extends the series of n^2 p_{x-y}(n) by one term |
| Glcm.ContrastByDistribution | timefeatcalc/source/ml_Extract_Temporal_Texture.c:293-303 | the sum over n < Ng of n^2 p_{x-y}(n) equals the sum over cells of (i-j)^2 P[i][j] |
| Glcm.ContrastNonneg | timefeatcalc/source/ml_Extract_Temporal_Texture.c:293-303 | contrast is at least 0 for a non-negative matrix |
| Glcm.ContrastOfDiagonal | timefeatcalc/source/ml_Extract_Temporal_Texture.c:293-303 | contrast is 0 for a matrix whose mass lies on the diagonal |
| Features.Variance | timefeatcalc/source/ml_Extract_Temporal_Texture.c:378-387 | the first loop computes the mean tone mu = sum of i P[i][j]; the second returns the sum of (i-mu)^2 P[i][j] (VarianceOf) |
| Features.VarianceStep | timefeatcalc/source/ml_Extract_Temporal_Texture.c:385 | adding one cell's (i-mu)^2 P[i][j] extends the row sum by that cell |
| Glcm.VarianceNonneg | timefeatcalc/source/ml_Extract_Temporal_Texture.c:382-385 | variance is at least 0 for a non-negative matrix, whatever the mean |
| Features.InverseDifferenceMoment | timefeatcalc/source/ml_Extract_Temporal_Texture.c:399-403 | the loop returns the sum over cells of P[i][j] / (1 + (i-j)^2) (Idm) |
| Features.IdmTermAt | timefeatcalc/source/ml_Extract_Temporal_Texture.c:401 | the divisor 1 + (i-j)^2 is at least 1, and the cell term equals the loop's quotient |
| Glcm.IdmDenominator | timefeatcalc/source/ml_Extract_Temporal_Texture.c:401 | the divisor 1 + d^2 is at least 1, so the division is always defined |
| Glcm.IdmBounds | timefeatcalc/source/ml_Extract_Temporal_Texture.c:399-401 | for a non-negative matrix, 0 <= Idm <= the total mass of the matrix |
| Glcm.IdmOfDiagonal | timefeatcalc/source/ml_Extract_Temporal_Texture.c:399-401 | on a diagonal matrix Idm equals the total mass, so it is 1 for a probability matrix |
| Scratch.ResetScratch | timefeatcalc/source/ml_Extract_Temporal_Texture.c:418-419 | Pxpy[0 .. 2*Ng] become 0 and every entry above 2*Ng keeps its value (the same loop appears at 445-446, 472-473, 515-516 and 548-549) |
| Scratch.Accumulate | timefeatcalc/source/ml_Extract_Temporal_Texture.c:421-425 | after the double loop, each entry k holds its old value plus the mass of the cells whose key is k (Masses) |
| Scratch.AccumulateRow | timefeatcalc/source/ml_Extract_Temporal_Texture.c:422-425 | one row i of the double loop adds to each entry k the mass of the row-i cells whose key is k |
| Scratch.BucketRowStep | timefeatcalc/source/ml_Extract_Temporal_Texture.c:425 | adding P[i][j] to entry key(i,j) extends the bucket sums of row i by cell j, for every bucket |
| Scratch.SumBuckets | timefeatcalc/source/ml_Extract_Temporal_Texture.c:418-425 | after reset and bucketing, Pxpy[k] == p_{x+y}(k) for k <= 2*Ng, entries 2*Ng-1 and 2*Ng are 0, entries 0..2*Ng add up to the total mass, and entries above 2*Ng are unchanged |
| Glcm.SumKeyRange | timefeatcalc/source/ml_Extract_Temporal_Texture.c:425 | every index i + j written lies in 0 .. 2*Ng-2, so the writes stay inside the reset range |
| Glcm.SumDistributionSupport | timefeatcalc/source/ml_Extract_Temporal_Texture.c:421-425 | p_{x+y}(k) is 0 outside 0 .. 2*Ng-2 |
| Glcm.SumDistributionMass | timefeatcalc/source/ml_Extract_Temporal_Texture.c:418-425 | p_{x+y} over 0 .. 2*Ng adds up to the total mass of the matrix |
| Glcm.SumBucketing | timefeatcalc/source/ml_Extract_Temporal_Texture.c:421-429 | a weighted sum over the buckets p_{x+y} equals the same weight applied to i+j summed over the cells |
| Scratch.SumAverage | timefeatcalc/source/ml_Extract_Temporal_Texture.c:418-431 | f6 returns the sum over cells of (i+j) P[i][j] (SumAverageOf) and leaves Pxpy holding p_{x+y}, entries above 2*Ng unchanged |
| Scratch.FirstMoment | timefeatcalc/source/ml_Extract_Temporal_Texture.c:428-429 | the reading loop over i <= 2*Ng-2 returns the sum of i times the distribution held in Pxpy |
| Glcm.SumAverageByDistribution | timefeatcalc/source/ml_Extract_Temporal_Texture.c:428-429 | the sum of k p_{x+y}(k) for k <= 2*Ng-2 equals the sum over cells of (i+j) P[i][j] |
| Scratch.SumVariance | timefeatcalc/source/ml_Extract_Temporal_Texture.c:445-459 | f7 returns the sum over cells of (i+j-S)^2 P[i][j] (SumVarianceOf) for the given centre S, and leaves Pxpy holding p_{x+y} |
| Scratch.CenteredMoment | timefeatcalc/source/ml_Extract_Temporal_Texture.c:456-457 | the reading loop returns the sum of (i-S)^2 times the distribution held in Pxpy |
| Scratch.CenteredStep | timefeatcalc/source/ml_Extract_Temporal_Texture.c:457 | adding (i-S)^2 Pxpy[i] extends the centred series by one term |
| Glcm.SumVarianceByDistribution | timefeatcalc/source/ml_Extract_Temporal_Texture.c:456-457 | the sum of (k-S)^2 p_{x+y}(k) equals the sum over cells of (i+j-S)^2 P[i][j] |
| Glcm.SumVarianceNonneg | timefeatcalc/source/ml_Extract_Temporal_Texture.c:456-457 | the sum variance is at least 0 for a non-negative matrix, whatever the centre S |
| Sums.CenteredExpansion | timefeatcalc/source/ml_Extract_Temporal_Texture.c:523-533 | a centred second moment expands to sum k^2 d(k) - 2 mu sum k d(k) + mu^2 sum d(k) |
| Scratch.SumEntropyBuckets | timefeatcalc/source/ml_Extract_Temporal_Texture.c:472-477 | the f8 bucketing leaves Pxpy[k] == p_{x+y}(k-2) on 0..2*Ng, so entries 0 and 1 are 0; entries above 2*Ng are unchanged |
| Glcm.ShiftedSumKeyRange | timefeatcalc/source/ml_Extract_Temporal_Texture.c:477 | every index i + j + 2 written lies in 2 .. 2*Ng, inside the reset range |
| Glcm.ShiftedSumDistributionIsShift | timefeatcalc/source/ml_Extract_Temporal_Texture.c:475-477 | the f8 buckets are those of f6 moved up by two, and they are empty outside 2 .. 2*Ng |
| Scratch.DiffBuckets | timefeatcalc/source/ml_Extract_Temporal_Texture.c:515-520 | after reset and bucketing by abs(i-j), Pxpy[k] == p_{x-y}(k) on 0..2*Ng, entries Ng..2*Ng are 0, entries below Ng add up to the total mass, and entries above 2*Ng are unchanged (f11 runs the same loops at 548-553) |
| Glcm.DiffKeyRange | timefeatcalc/source/ml_Extract_Temporal_Texture.c:520 | every index abs(i-j) written lies in 0 .. Ng-1 |
| Glcm.DiffDistributionSupport | timefeatcalc/source/ml_Extract_Temporal_Texture.c:518-520 | p_{x-y}(k) is 0 outside 0 .. Ng-1 |
| Glcm.DiffDistributionMass | timefeatcalc/source/ml_Extract_Temporal_Texture.c:518-520 | p_{x-y} over 0 .. Ng-1 adds up to the total mass of the matrix |
| Glcm.DiffBucketing | timefeatcalc/source/ml_Extract_Temporal_Texture.c:518-526 | a weighted sum over the buckets p_{x-y} equals the same weight applied to abs(i-j) summed over the cells |
| Glcm.AbsDiffByDistribution | timefeatcalc/source/ml_Extract_Temporal_Texture.c:525 | the sum of k p_{x-y}(k) equals the sum over cells of abs(i-j) P[i][j] |
| Scratch.DifferenceVariance | timefeatcalc/source/ml_Extract_Temporal_Texture.c:515-535 | f10 returns sum k^2 p_{x-y}(k) - (sum k p_{x-y}(k))^2, which is DiffVarianceOf, and leaves Pxpy holding p_{x-y} |
| Scratch.DiffMoments | timefeatcalc/source/ml_Extract_Temporal_Texture.c:523-529 | the reading loop returns the first and second moments of the distribution held in Pxpy[0..Ng-1] |
| Scratch.MomentStep | timefeatcalc/source/ml_Extract_Temporal_Texture.c:525-526 | one iteration extends both moment series by one term |
| Glcm.DiffVarianceByDistribution | timefeatcalc/source/ml_Extract_Temporal_Texture.c:523-533 | DiffVarianceOf is the second moment of p_{x-y} minus the square of its first moment |
| Glcm.DiffVarianceNonneg | timefeatcalc/source/ml_Extract_Temporal_Texture.c:523-533 | for a probability matrix the difference variance is at least 0 (it is a true variance of p_{x-y}) |
| Glcm.DiffDistributionIsDistribution | timefeatcalc/source/ml_Extract_Temporal_Texture.c:518-520 | for a probability matrix, the difference buckets are non-negative and add up to 1 |
| Sums.SpreadNonneg | timefeatcalc/source/ml_Extract_Temporal_Texture.c:523-533 | for any distribution of unit mass on [0, n), the second moment minus the squared first moment is at least 0 |
| Sums.WeightedBucketing | timefeatcalc/source/ml_Extract_Temporal_Texture.c:421-429 | summing w(k) times the bucket masses over a key range that holds every key equals summing w(key(i,j)) f(i,j) over the grid |
| Sums.MassConservation | timefeatcalc/source/ml_Extract_Temporal_Texture.c:421-425 | the bucket masses over a key range that holds every key add up to the grid total |
| Sums.MassesNonneg | timefeatcalc/source/ml_Extract_Temporal_Texture.c:421-425 | the bucket masses of a non-negative grid are non-negative |
| Sorting.SimpleSort | timefeatcalc/source/ml_Extract_Temporal_Texture.c:801-819 | for 1 < n < Length, arr[1..n] ends sorted ascending and is a permutation of its old contents; arr[0] and entries above n are untouched; for n <= 1 nothing changes |
| Sorting.InsertNext | timefeatcalc/source/ml_Extract_Temporal_Texture.c:808-817 | one outer iteration takes sorted arr[1..j-1] to a sorted arr[1..j] holding the same multiset, touching nothing outside 1..j |
| Sorting.ShiftLarger | timefeatcalc/source/ml_Extract_Temporal_Texture.c:810-815 | the while loop stops at the last i >= 0 with arr[i] <= a (or at 0), having moved every larger element up one place |
| Sorting.InsertedMultiset | timefeatcalc/source/ml_Extract_Temporal_Texture.c:810-816 | shifting arr[i+1..j-1] up and writing a at i+1 permutes arr |
| Sorting.InsertedSorted | timefeatcalc/source/ml_Extract_Temporal_Texture.c:810-816 | inserting a at the position the loop finds keeps arr[1..j] sorted |
| Vector.PgmVector | timefeatcalc/source/ml_Extract_Temporal_Texture.c:732-744 | returns a fresh vector of nh-nl+1 entries, all 0 |
| Extraction.ExtractTemporalTexture | timefeatcalc/source/ml_Extract_Temporal_Texture.c:107-257 | each TEXTURE field is its feature's value when selected and the stale local otherwise; sum_var and sum_entropy both get f7 gated by sum_entropy, centred on f8's value gated by sum_var; meas_corr2 falls back to meas_corr1's value; max_corr_coef is 0 when unselected; Pxpy ends holding the buckets of the last scratch feature run (or is unchanged when none runs), and entries above 2*tones are never touched; Pxpy must hold 2*tones+1 entries only when a scratch feature is selected |
| Extraction.MatrixFeatures | timefeatcalc/source/ml_Extract_Temporal_Texture.c:131-169 | f1, f2, f4 and f5 give Asm, ContrastOf, VarianceOf and Idm when selected, the stale locals otherwise |
| Extraction.SumFeatures | timefeatcalc/source/ml_Extract_Temporal_Texture.c:172-198 | savg is SumAverageOf when sum_avg is set; svar is SumVarianceOf centred on sentropy[0] when sum_entropy is set; Pxpy ends holding p_{x+y} after f6 or f7, or p_{x+y} shifted by two after f8 alone, and is unchanged when none runs; entries above 2*tones are never touched |
| Extraction.DiffFeatures | timefeatcalc/source/ml_Extract_Temporal_Texture.c:209-222 | dvar is DiffVarianceOf when diff_var is set; dentropy is the outside value when diff_entropy is set; Pxpy ends holding p_{x-y} when either runs and is unchanged otherwise; entries above 2*tones are never touched |

## Left out

- `f3_corr`, `f9_entropy`, `f12_icorr`, `f13_icorr`, `f14_maxcorr`, and the
  logarithm sums of `f8_sentropy` and `f11_dentropy` are not modelled.
  They use `log10`, `sqrt`, `exp` or the eigen-solver on floats. Their
  values enter `Extraction.ExtractTemporalTexture` as the parameter
  `Outside`. The bucketing loops of f8 and f11 are modelled.
- The eigen-solver routines, `pgm_matrix` and the `free` calls are not
  modelled. They involve floating-point iteration and pointer arithmetic
  on the heap.
- The `calloc`/`malloc` failure paths, which print and call `exit(1)`, are
  not modelled. Allocation always succeeds in Dafny.
- `results` is not modelled. It copies four values, their mean and their
  range into `Tp`, and nothing calls it: every call is commented out.
  The commented-out printing is not modelled either.
- `float` arithmetic is modelled as exact `real` arithmetic. Rounding,
  overflow and NaN are not modelled.
- `PGM_MAXMAXVAL` cannot be modelled because `ppgm.h` is not part of this
  model. The length of `Pxpy` is a parameter, and each bucketing method
  requires `2*Ng < Length`, which is what the source's writes up to index
  `2*Ng` need.
- The locals of unselected features are uninitialised in the source, which
  is undefined behaviour in C. They are modelled as arbitrary given values
  (`Stale`).
- Extraction.ExtractTemporalTexture: each `TEXTURE` field is an array in
  C. Only entry `[0]`, the one the function writes, is modelled.
- Glcm.AsmAtMostOne: only the upper bound 1 is proved, not the lower bound
  1/Ng². The lower bound needs the Cauchy–Schwarz inequality over the
  grid, which the sum algebra here does not provide.
- Sorting.SimpleSort: for n <= 1 the loop does not run and nothing
  changes. When n >= Length the source reads past the array; the model
  requires n < Length in that case.
- Vector.PgmVector: the returned pointer is offset by `-nl`, so that C
  indices `nl..nh` address the block. The model returns the block itself,
  and C index `k` is `v[k - nl]`.
- Vector.PgmVector: requires `nl <= nh + 1`. For a smaller `nh`, the
  source's unsigned size computation wraps around, and the model does not
  follow it.
