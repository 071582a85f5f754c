/** The features that first regroup P into the shared scratch array Pxpy:
    each clears Pxpy[0 .. 2Ng], adds every cell P[i][j] into the bucket of
    its key, and then reads the buckets.  Pxpy is a global array of the
    source; here it is passed in, and every method says which of its entries
    it leaves behind. */
module Scratch {
  import opened Sums
  import opened Glcm

  /** The entries of a scratch array as a distribution over indices (0 outside it). */
  function Entries(s: seq<real>): int -> real
  {
    k => if 0 <= k < |s| then s[k] else 0.0
  }

  /** Entries that agree with d on [0, n) sum like d. */
  lemma EntriesSeries(s: seq<real>, d: int -> real, n: int)
    requires n <= |s|
    requires forall k :: 0 <= k < n ==> s[k] == d(k)
    ensures Series(Entries(s), n) == Series(d, n)
  {
    forall k | 0 <= k < n
      ensures Entries(s)(k) == d(k)
    {
    }
    SeriesExt(Entries(s), d, n);
  }

  /** The reset loop every scratch feature starts with: Pxpy[0 .. 2Ng] := 0. */
  method ResetScratch(pxpy: array<real>, Ng: nat)
    requires 2 * Ng < pxpy.Length
    modifies pxpy
    ensures forall k :: 0 <= k <= 2 * Ng ==> pxpy[k] == 0.0
    ensures forall k :: 2 * Ng < k < pxpy.Length ==> pxpy[k] == old(pxpy[k])
  {
    var i := 0;
    while i <= 2 * Ng
      invariant 0 <= i <= 2 * Ng + 1
      invariant forall k :: 0 <= k < i ==> pxpy[k] == 0.0
      invariant forall k :: i <= k < pxpy.Length ==> pxpy[k] == old(pxpy[k])
    {
      pxpy[i] := 0.0;
      i := i + 1;
    }
  }

  /** Adding cell (i, j) to its bucket moves bucket k of row i one column on. */
  lemma BucketRowStep(P: Matrix, key: (int, int) -> int, i: int, j: int)
    requires 0 <= i < |P| && 0 <= j < |P[i]|
    ensures forall k :: RowSum(Bucket(Cells(P), key, k), i, j + 1)
                     == RowSum(Bucket(Cells(P), key, k), i, j) + (if key(i, j) == k then P[i][j] else 0.0)
  {
  }

  /** The bucketing loop: Pxpy[key(i, j)] += P[i][j] over the Ng x Ng grid.
      Every bucket grows by the mass of P at its key. */
  method Accumulate(P: Matrix, Ng: nat, pxpy: array<real>, key: (int, int) -> int)
    requires IsMatrix(P, Ng)
    requires forall i, j :: 0 <= i < Ng && 0 <= j < Ng ==> 0 <= key(i, j) < pxpy.Length
    modifies pxpy
    ensures forall k :: 0 <= k < pxpy.Length ==> pxpy[k] == old(pxpy[k]) + Masses(Cells(P), key, Ng, Ng)(k)
  {
    var i := 0;
    while i < Ng
      invariant 0 <= i <= Ng
      invariant forall k :: 0 <= k < pxpy.Length ==> pxpy[k] == old(pxpy[k]) + GridSum(Bucket(Cells(P), key, k), i, Ng)
    {
      AccumulateRow(P, Ng, pxpy, key, i);
      i := i + 1;
    }
  }

  /** Row i of the bucketing loop: every bucket grows by the mass of row i at its key. */
  method AccumulateRow(P: Matrix, Ng: nat, pxpy: array<real>, key: (int, int) -> int, i: nat)
    requires IsMatrix(P, Ng) && i < Ng
    requires forall j :: 0 <= j < Ng ==> 0 <= key(i, j) < pxpy.Length
    modifies pxpy
    ensures forall k :: 0 <= k < pxpy.Length ==> pxpy[k] == old(pxpy[k]) + RowSum(Bucket(Cells(P), key, k), i, Ng)
  {
    var j := 0;
    while j < Ng
      invariant 0 <= j <= Ng
      invariant forall k :: 0 <= k < pxpy.Length ==> pxpy[k] == old(pxpy[k]) + RowSum(Bucket(Cells(P), key, k), i, j)
    {
      BucketRowStep(P, key, i, j);
      pxpy[key(i, j)] := pxpy[key(i, j)] + P[i][j];
      j := j + 1;
    }
  }

  /** Reset and bucketing by i + j (f6_savg, f7_svar): Pxpy[k] becomes the
      mass of P at i + j == k for every k in 0 .. 2Ng, and nothing above 2Ng
      changes. */
  method SumBuckets(P: Matrix, Ng: nat, pxpy: array<real>)
    requires IsMatrix(P, Ng) && 2 * Ng < pxpy.Length
    modifies pxpy
    ensures forall k :: 0 <= k <= 2 * Ng ==> pxpy[k] == SumDistribution(P, Ng)(k)
    ensures forall k :: 0 <= k && 2 * Ng - 1 <= k <= 2 * Ng ==> pxpy[k] == 0.0
    ensures Series(Entries(pxpy[..]), 2 * Ng + 1) == Total(P, Ng)
    ensures forall k :: 2 * Ng < k < pxpy.Length ==> pxpy[k] == old(pxpy[k])
  {
    ResetScratch(pxpy, Ng);
    ghost var cleared := pxpy[..];
    SumKeyRange(Ng);
    Accumulate(P, Ng, pxpy, SumKey());
    assert forall k :: 0 <= k < pxpy.Length ==> pxpy[k] == cleared[k] + SumDistribution(P, Ng)(k);
    forall k | 2 * Ng < k < pxpy.Length
      ensures SumDistribution(P, Ng)(k) == 0.0
    {
      SumDistributionSupport(P, Ng, k);
    }
    forall k | 0 <= k && 2 * Ng - 1 <= k <= 2 * Ng
      ensures SumDistribution(P, Ng)(k) == 0.0
    {
      SumDistributionSupport(P, Ng, k);
    }
    EntriesSeries(pxpy[..], SumDistribution(P, Ng), 2 * Ng + 1);
    SumDistributionMass(P, Ng);
  }

  /** Reset and bucketing by i + j + 2 (f8_sentropy): Pxpy[k] becomes the mass
      of P at i + j == k - 2, so Pxpy[0] and Pxpy[1] stay 0, and nothing above
      2Ng changes. */
  method SumEntropyBuckets(P: Matrix, Ng: nat, pxpy: array<real>)
    requires IsMatrix(P, Ng) && 2 * Ng < pxpy.Length
    modifies pxpy
    ensures forall k :: 0 <= k <= 2 * Ng ==> pxpy[k] == SumDistribution(P, Ng)(k - 2)
    ensures forall k :: 0 <= k < 2 && k <= 2 * Ng ==> pxpy[k] == 0.0
    ensures forall k :: 2 * Ng < k < pxpy.Length ==> pxpy[k] == old(pxpy[k])
  {
    ResetScratch(pxpy, Ng);
    ghost var cleared := pxpy[..];
    ShiftedSumKeyRange(Ng);
    Accumulate(P, Ng, pxpy, ShiftedSumKey());
    assert forall k :: 0 <= k < pxpy.Length ==> pxpy[k] == cleared[k] + ShiftedSumDistribution(P, Ng)(k);
    forall k | 0 <= k < pxpy.Length
      ensures ShiftedSumDistribution(P, Ng)(k) == SumDistribution(P, Ng)(k - 2)
      ensures k < 2 || 2 * Ng < k ==> ShiftedSumDistribution(P, Ng)(k) == 0.0
    {
      ShiftedSumDistributionIsShift(P, Ng, k - 2);
    }
  }

  /** Reset and bucketing by |i - j| (f10_dvar, f11_dentropy): Pxpy[k] becomes
      the mass of P at |i - j| == k for every k in 0 .. 2Ng, which is 0 from
      Ng on, and nothing above 2Ng changes. */
  method DiffBuckets(P: Matrix, Ng: nat, pxpy: array<real>)
    requires IsMatrix(P, Ng) && 2 * Ng < pxpy.Length
    modifies pxpy
    ensures forall k :: 0 <= k <= 2 * Ng ==> pxpy[k] == DiffDistribution(P, Ng)(k)
    ensures forall k :: Ng <= k <= 2 * Ng ==> pxpy[k] == 0.0
    ensures Series(Entries(pxpy[..]), Ng) == Total(P, Ng)
    ensures forall k :: 2 * Ng < k < pxpy.Length ==> pxpy[k] == old(pxpy[k])
  {
    ResetScratch(pxpy, Ng);
    ghost var cleared := pxpy[..];
    DiffKeyRange(Ng);
    Accumulate(P, Ng, pxpy, DiffKey());
    assert forall k :: 0 <= k < pxpy.Length ==> pxpy[k] == cleared[k] + DiffDistribution(P, Ng)(k);
    forall k | Ng <= k < pxpy.Length
      ensures DiffDistribution(P, Ng)(k) == 0.0
    {
      DiffDistributionSupport(P, Ng, k);
    }
    EntriesSeries(pxpy[..], DiffDistribution(P, Ng), Ng);
    DiffDistributionMass(P, Ng);
  }

  /** Sum average (f6_savg): the first moment of the sum distribution, which
      is the sum of (i + j) P[i][j]. */
  method SumAverage(P: Matrix, Ng: nat, pxpy: array<real>) returns (savg: real)
    requires IsMatrix(P, Ng) && 2 * Ng < pxpy.Length
    modifies pxpy
    ensures savg == SumAverageOf(P, Ng)
    ensures forall k :: 0 <= k <= 2 * Ng ==> pxpy[k] == SumDistribution(P, Ng)(k)
    ensures forall k :: 2 * Ng < k < pxpy.Length ==> pxpy[k] == old(pxpy[k])
  {
    SumBuckets(P, Ng, pxpy);
    savg := FirstMoment(pxpy, 2 * Ng - 1, SumDistribution(P, Ng));
    SumAverageByDistribution(P, Ng);
  }

  /** The reading loop of f6_savg: the sum of i Pxpy[i] for 0 <= i < n. */
  method FirstMoment(pxpy: array<real>, n: int, ghost d: int -> real) returns (m: real)
    requires n <= pxpy.Length
    requires forall k :: 0 <= k < n ==> pxpy[k] == d(k)
    ensures m == Series(Weighted(Linear(), d), n)
  {
    m := 0.0;
    var i := 0;
    while i < n
      invariant 0 <= i && (n <= 0 ==> i == 0) && (0 < n ==> i <= n)
      invariant m == Series(Weighted(Linear(), d), i)
    {
      m := m + (i as real) * pxpy[i];
      i := i + 1;
    }
  }

  /** Sum variance (f7_svar): the second moment of the sum distribution
      around the caller's S, which is the sum of (i + j - S)^2 P[i][j]. */
  method SumVariance(P: Matrix, Ng: nat, S: real, pxpy: array<real>) returns (svar: real)
    requires IsMatrix(P, Ng) && 2 * Ng < pxpy.Length
    modifies pxpy
    ensures svar == SumVarianceOf(P, Ng, S)
    ensures forall k :: 0 <= k <= 2 * Ng ==> pxpy[k] == SumDistribution(P, Ng)(k)
    ensures forall k :: 2 * Ng < k < pxpy.Length ==> pxpy[k] == old(pxpy[k])
  {
    SumBuckets(P, Ng, pxpy);
    svar := CenteredMoment(pxpy, 2 * Ng - 1, S, SumDistribution(P, Ng));
    SumVarianceByDistribution(P, Ng, S);
  }

  /** The reading loop of f7_svar: the sum of (i - S)^2 Pxpy[i] for 0 <= i < n. */
  method CenteredMoment(pxpy: array<real>, n: int, S: real, ghost d: int -> real) returns (m: real)
    requires n <= pxpy.Length
    requires forall k :: 0 <= k < n ==> pxpy[k] == d(k)
    ensures m == Series(Weighted(Centered(S), d), n)
  {
    m := 0.0;
    var i := 0;
    while i < n
      invariant 0 <= i && (n <= 0 ==> i == 0) && (0 < n ==> i <= n)
      invariant m == Series(Weighted(Centered(S), d), i)
    {
      CenteredStep(d, S, i, m, pxpy[i]);
      m := m + (i as real - S) * (i as real - S) * pxpy[i];
      i := i + 1;
    }
  }

  lemma CenteredStep(d: int -> real, S: real, i: nat, acc: real, x: real)
    requires acc == Series(Weighted(Centered(S), d), i) && x == d(i)
    ensures acc + (i as real - S) * (i as real - S) * x == Series(Weighted(Centered(S), d), i + 1)
  {
    assert Weighted(Centered(S), d)(i) == (i as real - S) * (i as real - S) * x;
  }

  /** Difference variance (f10_dvar): the second moment of the difference
      distribution minus the square of its first moment, that is the contrast
      minus the squared mean of |i - j|. */
  method DifferenceVariance(P: Matrix, Ng: nat, pxpy: array<real>) returns (dvar: real)
    requires IsMatrix(P, Ng) && 2 * Ng < pxpy.Length
    modifies pxpy
    ensures dvar == DiffVarianceOf(P, Ng)
    ensures forall k :: 0 <= k <= 2 * Ng ==> pxpy[k] == DiffDistribution(P, Ng)(k)
    ensures forall k :: 2 * Ng < k < pxpy.Length ==> pxpy[k] == old(pxpy[k])
  {
    DiffBuckets(P, Ng, pxpy);
    var sum, sumSqr := DiffMoments(pxpy, Ng, DiffDistribution(P, Ng));
    DiffVarianceByDistribution(P, Ng);
    dvar := sumSqr - sum * sum;
  }

  /** The reading loop of f10_dvar: the sums of i Pxpy[i] and of i^2 Pxpy[i]
      for 0 <= i < n. */
  method DiffMoments(pxpy: array<real>, n: nat, ghost d: int -> real) returns (sum: real, sumSqr: real)
    requires n <= pxpy.Length
    requires forall k :: 0 <= k < n ==> pxpy[k] == d(k)
    ensures sum == Series(Weighted(Linear(), d), n)
    ensures sumSqr == Series(Weighted(Square(), d), n)
  {
    sum, sumSqr := 0.0, 0.0;
    var i := 0;
    while i < n
      invariant 0 <= i <= n
      invariant sum == Series(Weighted(Linear(), d), i)
      invariant sumSqr == Series(Weighted(Square(), d), i)
    {
      MomentStep(d, i, sum, sumSqr, pxpy[i]);
      sum := sum + (i as real) * pxpy[i];
      sumSqr := sumSqr + ((i * i) as real) * pxpy[i];
      i := i + 1;
    }
  }

  lemma MomentStep(d: int -> real, i: nat, sum: real, sumSqr: real, x: real)
    requires sum == Series(Weighted(Linear(), d), i)
    requires sumSqr == Series(Weighted(Square(), d), i)
    requires x == d(i)
    ensures sum + (i as real) * x == Series(Weighted(Linear(), d), i + 1)
    ensures sumSqr + ((i * i) as real) * x == Series(Weighted(Square(), d), i + 1)
  {
    assert ((i * i) as real) == (i as real) * (i as real);
    assert Weighted(Square(), d)(i) == ((i * i) as real) * x;
  }
}
