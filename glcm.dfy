/** The gray-level co-occurrence matrix P[Ng][Ng] and the closed forms of the
    Haralick texture features that are exact over the reals (no logarithm,
    no square root): each feature is a sum over the cells of P, and the sum
    and difference distributions are regroupings of P by the keys i + j and
    |i - j|.  Floating-point arithmetic is idealised as `real`. */
module Glcm {
  import opened Sums

  /** The caller's matrix, row by row; only its first Ng rows and columns are read. */
  type Matrix = seq<seq<real>>

  /** P has at least Ng rows, each with at least Ng columns. */
  predicate IsMatrix(P: Matrix, Ng: nat)
  {
    Ng <= |P| && forall i :: 0 <= i < Ng ==> Ng <= |P[i]|
  }

  /** P[i][j], read as 0 outside P so that cell functions are total. */
  function Cell(P: Matrix, i: int, j: int): real
  {
    if 0 <= i < |P| && 0 <= j < |P[i]| then P[i][j] else 0.0
  }

  function Cells(P: Matrix): (int, int) -> real
  {
    (i, j) => Cell(P, i, j)
  }

  predicate NonNegative(P: Matrix, Ng: nat)
  {
    forall i, j :: 0 <= i < Ng && 0 <= j < Ng ==> 0.0 <= Cell(P, i, j)
  }

  predicate IsDiagonal(P: Matrix, Ng: nat)
  {
    forall i, j :: 0 <= i < Ng && 0 <= j < Ng && i != j ==> Cell(P, i, j) == 0.0
  }

  /** Sum of all Ng x Ng cells. */
  function Total(P: Matrix, Ng: nat): real
  {
    GridSum(Cells(P), Ng, Ng)
  }

  /** A joint probability mass function: non-negative cells summing to 1. */
  predicate IsProbability(P: Matrix, Ng: nat)
  {
    NonNegative(P, Ng) && Total(P, Ng) == 1.0
  }

  function Abs(x: int): nat
  {
    if x < 0 then -x else x
  }

  // ---------------------------------------------------------------------
  // Bucket keys of the scratch distributions.

  /** Sum distribution: cell (i, j) goes to bucket i + j. */
  function SumKey(): (int, int) -> int
  {
    (i, j) => i + j
  }

  /** The sum distribution of the sum-entropy feature, two buckets further up. */
  function ShiftedSumKey(): (int, int) -> int
  {
    (i, j) => i + j + 2
  }

  /** Difference distribution: cell (i, j) goes to bucket |i - j|. */
  function DiffKey(): (int, int) -> int
  {
    (i, j) => Abs(i - j)
  }

  /** The mass of P at each value of i + j. */
  function SumDistribution(P: Matrix, Ng: nat): int -> real
  {
    Masses(Cells(P), SumKey(), Ng, Ng)
  }

  /** The mass of P at each value of i + j + 2. */
  function ShiftedSumDistribution(P: Matrix, Ng: nat): int -> real
  {
    Masses(Cells(P), ShiftedSumKey(), Ng, Ng)
  }

  /** The mass of P at each value of |i - j|. */
  function DiffDistribution(P: Matrix, Ng: nat): int -> real
  {
    Masses(Cells(P), DiffKey(), Ng, Ng)
  }

  // ---------------------------------------------------------------------
  // Summands of the closed forms.

  /** P[i][j]^2 (angular second moment). */
  function AsmTerm(P: Matrix): (int, int) -> real
  {
    (i, j) => Cell(P, i, j) * Cell(P, i, j)
  }

  /** (i - j)^2 P[i][j] (contrast). */
  function ContrastTerm(P: Matrix): (int, int) -> real
  {
    (i, j) => ((i - j) as real) * ((i - j) as real) * Cell(P, i, j)
  }

  /** i P[i][j], whose sum is the mean gray tone of the rows. */
  function RowToneTerm(P: Matrix): (int, int) -> real
  {
    (i, j) => (i as real) * Cell(P, i, j)
  }

  /** (i - mean)^2 P[i][j] (variance). */
  function VarianceTerm(P: Matrix, mean: real): (int, int) -> real
  {
    (i, j) => (i as real - mean) * (i as real - mean) * Cell(P, i, j)
  }

  /** P[i][j] / (1 + (i - j)^2) (inverse difference moment). */
  function IdmTerm(P: Matrix): (int, int) -> real
  {
    (i, j) => Cell(P, i, j) / IdmDenominator(i - j)
  }

  /** 1 + d^2, the damping of a cell at tone difference d; never below 1. */
  function IdmDenominator(d: int): (q: real)
    ensures 1.0 <= q
  {
    OnePlusSquare(d);
    (1 + d * d) as real
  }

  lemma OnePlusSquare(d: int)
    ensures 1 <= 1 + d * d
  {
    if d < 0 {
      assert d * d == (-d) * (-d);
    }
  }

  /** (i + j) P[i][j] (sum average). */
  function SumAverageTerm(P: Matrix): (int, int) -> real
  {
    (i, j) => ((i + j) as real) * Cell(P, i, j)
  }

  /** (i + j - s)^2 P[i][j] (sum variance around s). */
  function SumVarianceTerm(P: Matrix, s: real): (int, int) -> real
  {
    (i, j) => ((i + j) as real - s) * ((i + j) as real - s) * Cell(P, i, j)
  }

  /** |i - j| P[i][j], whose sum is the mean of the difference distribution. */
  function AbsDiffTerm(P: Matrix): (int, int) -> real
  {
    (i, j) => (Abs(i - j) as real) * Cell(P, i, j)
  }

  // ---------------------------------------------------------------------
  // Closed forms of the features.

  function Asm(P: Matrix, Ng: nat): real
  {
    GridSum(AsmTerm(P), Ng, Ng)
  }

  function ContrastOf(P: Matrix, Ng: nat): real
  {
    GridSum(ContrastTerm(P), Ng, Ng)
  }

  /** The mean gray tone, sum of i P[i][j]. */
  function MeanTone(P: Matrix, Ng: nat): real
  {
    GridSum(RowToneTerm(P), Ng, Ng)
  }

  function VarianceOf(P: Matrix, Ng: nat): real
  {
    GridSum(VarianceTerm(P, MeanTone(P, Ng)), Ng, Ng)
  }

  function Idm(P: Matrix, Ng: nat): real
  {
    GridSum(IdmTerm(P), Ng, Ng)
  }

  function SumAverageOf(P: Matrix, Ng: nat): real
  {
    GridSum(SumAverageTerm(P), Ng, Ng)
  }

  function SumVarianceOf(P: Matrix, Ng: nat, s: real): real
  {
    GridSum(SumVarianceTerm(P, s), Ng, Ng)
  }

  /** Difference variance: second moment of |i - j| minus the square of its mean. */
  function DiffVarianceOf(P: Matrix, Ng: nat): real
  {
    var mean := GridSum(AbsDiffTerm(P), Ng, Ng);
    ContrastOf(P, Ng) - mean * mean
  }

  // ---------------------------------------------------------------------
  // The distributions.

  /** On the grid, i + j lies in 0 .. 2Ng-2. */
  lemma SumKeyRange(Ng: nat)
    ensures forall i, j :: 0 <= i < Ng && 0 <= j < Ng ==> 0 <= SumKey()(i, j) <= 2 * Ng - 2
  {
    forall i, j | 0 <= i < Ng && 0 <= j < Ng
      ensures 0 <= SumKey()(i, j) <= 2 * Ng - 2
    {
      assert SumKey()(i, j) == i + j;
    }
  }

  /** On the grid, i + j + 2 lies in 2 .. 2Ng. */
  lemma ShiftedSumKeyRange(Ng: nat)
    ensures forall i, j :: 0 <= i < Ng && 0 <= j < Ng ==> 2 <= ShiftedSumKey()(i, j) <= 2 * Ng
  {
    forall i, j | 0 <= i < Ng && 0 <= j < Ng
      ensures 2 <= ShiftedSumKey()(i, j) <= 2 * Ng
    {
      assert ShiftedSumKey()(i, j) == i + j + 2;
    }
  }

  /** On the grid, |i - j| lies in 0 .. Ng-1. */
  lemma DiffKeyRange(Ng: nat)
    ensures forall i, j :: 0 <= i < Ng && 0 <= j < Ng ==> 0 <= DiffKey()(i, j) < Ng
  {
    forall i, j | 0 <= i < Ng && 0 <= j < Ng
      ensures 0 <= DiffKey()(i, j) < Ng
    {
      assert DiffKey()(i, j) == Abs(i - j);
    }
  }

  /** Every bucket outside 0 .. 2Ng-2 of the sum distribution is empty. */
  lemma SumDistributionSupport(P: Matrix, Ng: nat, k: int)
    requires k < 0 || 2 * Ng - 2 < k
    ensures SumDistribution(P, Ng)(k) == 0.0
  {
    SumKeyRange(Ng);
    forall i, j | 0 <= i < Ng && 0 <= j < Ng
      ensures Bucket(Cells(P), SumKey(), k)(i, j) == 0.0
    {
      assert SumKey()(i, j) != k;
    }
    GridSumZero(Bucket(Cells(P), SumKey(), k), Ng, Ng);
  }

  /** Every bucket outside 0 .. Ng-1 of the difference distribution is empty. */
  lemma DiffDistributionSupport(P: Matrix, Ng: nat, k: int)
    requires k < 0 || Ng <= k
    ensures DiffDistribution(P, Ng)(k) == 0.0
  {
    DiffKeyRange(Ng);
    forall i, j | 0 <= i < Ng && 0 <= j < Ng
      ensures Bucket(Cells(P), DiffKey(), k)(i, j) == 0.0
    {
      assert DiffKey()(i, j) != k;
    }
    GridSumZero(Bucket(Cells(P), DiffKey(), k), Ng, Ng);
  }

  /** The shifted distribution holds at k + 2 what the sum distribution holds
      at k, and nothing below 2. */
  lemma ShiftedSumDistributionIsShift(P: Matrix, Ng: nat, k: int)
    ensures ShiftedSumDistribution(P, Ng)(k + 2) == SumDistribution(P, Ng)(k)
    ensures k < 0 || 2 * Ng - 2 < k ==> ShiftedSumDistribution(P, Ng)(k + 2) == 0.0
  {
    forall i, j | 0 <= i < Ng && 0 <= j < Ng
      ensures Bucket(Cells(P), ShiftedSumKey(), k + 2)(i, j) == Bucket(Cells(P), SumKey(), k)(i, j)
    {
      assert ShiftedSumKey()(i, j) == SumKey()(i, j) + 2;
    }
    GridSumExt(Bucket(Cells(P), ShiftedSumKey(), k + 2), Bucket(Cells(P), SumKey(), k), Ng, Ng);
    if k < 0 || 2 * Ng - 2 < k {
      SumDistributionSupport(P, Ng, k);
    }
  }

  /** Weighting the buckets i + j of P by w is weighting each cell by w(i + j). */
  lemma SumBucketing(P: Matrix, Ng: nat, w: int -> real, K: nat)
    requires 2 * Ng - 1 <= K
    ensures Series(Weighted(w, SumDistribution(P, Ng)), K) == GridSum(Reweighted(Cells(P), SumKey(), w), Ng, Ng)
  {
    SumKeyRange(Ng);
    WeightedBucketing(Cells(P), SumKey(), w, Ng, Ng, K);
  }

  /** Weighting the buckets |i - j| of P by w is weighting each cell by w(|i - j|). */
  lemma DiffBucketing(P: Matrix, Ng: nat, w: int -> real)
    ensures Series(Weighted(w, DiffDistribution(P, Ng)), Ng) == GridSum(Reweighted(Cells(P), DiffKey(), w), Ng, Ng)
  {
    DiffKeyRange(Ng);
    WeightedBucketing(Cells(P), DiffKey(), w, Ng, Ng, Ng);
  }

  /** The 2Ng - 1 buckets of the sum distribution, and so the 2Ng + 1 entries
      of the reset range, hold the whole mass of P. */
  lemma SumDistributionMass(P: Matrix, Ng: nat)
    ensures Series(SumDistribution(P, Ng), 2 * Ng + 1) == Total(P, Ng)
  {
    SumKeyRange(Ng);
    MassConservation(Cells(P), SumKey(), Ng, Ng, 2 * Ng + 1);
  }

  /** The Ng buckets of the difference distribution hold the whole mass of P. */
  lemma DiffDistributionMass(P: Matrix, Ng: nat)
    ensures Series(DiffDistribution(P, Ng), Ng) == Total(P, Ng)
  {
    DiffKeyRange(Ng);
    MassConservation(Cells(P), DiffKey(), Ng, Ng, Ng);
  }

  /** The first moment of the sum distribution is the sum average. */
  lemma SumAverageByDistribution(P: Matrix, Ng: nat)
    ensures Series(Weighted(Linear(), SumDistribution(P, Ng)), 2 * Ng - 1) == SumAverageOf(P, Ng)
  {
    if Ng > 0 {
      SumBucketing(P, Ng, Linear(), 2 * Ng - 1);
      forall i, j | 0 <= i < Ng && 0 <= j < Ng
        ensures Reweighted(Cells(P), SumKey(), Linear())(i, j) == SumAverageTerm(P)(i, j)
      {
        SumAverageTermAt(P, i, j);
      }
      GridSumExt(Reweighted(Cells(P), SumKey(), Linear()), SumAverageTerm(P), Ng, Ng);
    }
  }

  lemma SumAverageTermAt(P: Matrix, i: int, j: int)
    ensures Reweighted(Cells(P), SumKey(), Linear())(i, j) == SumAverageTerm(P)(i, j)
  {
    assert Linear()(SumKey()(i, j)) == (i + j) as real;
  }

  /** The second moment of the sum distribution around s is the sum variance. */
  lemma SumVarianceByDistribution(P: Matrix, Ng: nat, s: real)
    ensures Series(Weighted(Centered(s), SumDistribution(P, Ng)), 2 * Ng - 1) == SumVarianceOf(P, Ng, s)
  {
    if Ng > 0 {
      SumBucketing(P, Ng, Centered(s), 2 * Ng - 1);
      forall i, j | 0 <= i < Ng && 0 <= j < Ng
        ensures Reweighted(Cells(P), SumKey(), Centered(s))(i, j) == SumVarianceTerm(P, s)(i, j)
      {
        SumVarianceTermAt(P, s, i, j);
      }
      GridSumExt(Reweighted(Cells(P), SumKey(), Centered(s)), SumVarianceTerm(P, s), Ng, Ng);
    }
  }

  lemma SumVarianceTermAt(P: Matrix, s: real, i: int, j: int)
    ensures Reweighted(Cells(P), SumKey(), Centered(s))(i, j) == SumVarianceTerm(P, s)(i, j)
  {
    var x := (i + j) as real - s;
    assert Centered(s)(SumKey()(i, j)) == x * x;
    assert SumVarianceTerm(P, s)(i, j) == x * x * Cell(P, i, j);
  }

  /** The second moment of the difference distribution is the contrast. */
  lemma ContrastByDistribution(P: Matrix, Ng: nat)
    ensures Series(Weighted(Square(), DiffDistribution(P, Ng)), Ng) == ContrastOf(P, Ng)
  {
    DiffBucketing(P, Ng, Square());
    forall i, j | 0 <= i < Ng && 0 <= j < Ng
      ensures Reweighted(Cells(P), DiffKey(), Square())(i, j) == ContrastTerm(P)(i, j)
    {
      ContrastTermAt(P, i, j);
    }
    GridSumExt(Reweighted(Cells(P), DiffKey(), Square()), ContrastTerm(P), Ng, Ng);
  }

  lemma ContrastTermAt(P: Matrix, i: int, j: int)
    ensures Reweighted(Cells(P), DiffKey(), Square())(i, j) == ContrastTerm(P)(i, j)
  {
    var a, d := Abs(i - j) as real, (i - j) as real;
    assert a * a == d * d;
    assert Square()(DiffKey()(i, j)) == a * a;
    assert ContrastTerm(P)(i, j) == d * d * Cell(P, i, j);
  }

  /** The first moment of the difference distribution is the mean of |i - j|. */
  lemma AbsDiffByDistribution(P: Matrix, Ng: nat)
    ensures Series(Weighted(Linear(), DiffDistribution(P, Ng)), Ng) == GridSum(AbsDiffTerm(P), Ng, Ng)
  {
    DiffBucketing(P, Ng, Linear());
    forall i, j | 0 <= i < Ng && 0 <= j < Ng
      ensures Reweighted(Cells(P), DiffKey(), Linear())(i, j) == AbsDiffTerm(P)(i, j)
    {
      AbsDiffTermAt(P, i, j);
    }
    GridSumExt(Reweighted(Cells(P), DiffKey(), Linear()), AbsDiffTerm(P), Ng, Ng);
  }

  lemma AbsDiffTermAt(P: Matrix, i: int, j: int)
    ensures Reweighted(Cells(P), DiffKey(), Linear())(i, j) == AbsDiffTerm(P)(i, j)
  {
    assert Linear()(DiffKey()(i, j)) == Abs(i - j) as real;
  }

  // ---------------------------------------------------------------------
  // Properties of the features.

  /** The angular second moment is never negative. */
  lemma AsmNonneg(P: Matrix, Ng: nat)
    ensures 0.0 <= Asm(P, Ng)
  {
    GridSumNonneg(AsmTerm(P), Ng, Ng);
  }

  /** The angular second moment of a probability matrix is at most 1. */
  lemma AsmAtMostOne(P: Matrix, Ng: nat)
    requires IsProbability(P, Ng)
    ensures Asm(P, Ng) <= 1.0
  {
    assert forall i, j :: 0 <= i < Ng && 0 <= j < Ng ==> 0.0 <= Cells(P)(i, j);
    forall i, j | 0 <= i < Ng && 0 <= j < Ng
      ensures AsmTerm(P)(i, j) <= Cells(P)(i, j)
    {
      GridSumAtLeastCell(Cells(P), Ng, Ng, i, j);
      AsmTermAtMostCell(P, i, j);
    }
    GridSumMono(AsmTerm(P), Cells(P), Ng, Ng);
  }

  lemma AsmTermAtMostCell(P: Matrix, i: int, j: int)
    requires 0.0 <= Cells(P)(i, j) <= 1.0
    ensures AsmTerm(P)(i, j) <= Cells(P)(i, j)
  {
    var c := Cell(P, i, j);
    assert AsmTerm(P)(i, j) == c * c && Cells(P)(i, j) == c;
    assert 0.0 <= c * (1.0 - c) by {
      NonnegProduct(c, 1.0 - c);
    }
    assert c * c == c - c * (1.0 - c);
  }

  /** With 1/Ng on the diagonal and 0 elsewhere, the angular second moment is 1/Ng. */
  lemma AsmOfUniformDiagonal(P: Matrix, Ng: nat)
    requires 0 < Ng && IsDiagonal(P, Ng)
    requires forall i :: 0 <= i < Ng ==> Cell(P, i, i) == 1.0 / (Ng as real)
    ensures Asm(P, Ng) == 1.0 / (Ng as real)
  {
    var c := 1.0 / (Ng as real);
    var diag: int -> real := k => c * c;
    GridSumDiagonal(AsmTerm(P), diag, Ng, Ng);
    SeriesConstant(diag, c * c, Ng);
    UniformSquares(Ng as real);
  }

  lemma UniformSquares(n: real)
    requires 0.0 < n
    ensures n * ((1.0 / n) * (1.0 / n)) == 1.0 / n
  {
    assert n * (1.0 / n) == 1.0;
    assert n * ((1.0 / n) * (1.0 / n)) == (n * (1.0 / n)) * (1.0 / n);
  }

  /** Contrast is never negative for a non-negative matrix. */
  lemma ContrastNonneg(P: Matrix, Ng: nat)
    requires NonNegative(P, Ng)
    ensures 0.0 <= ContrastOf(P, Ng)
  {
    forall i, j | 0 <= i < Ng && 0 <= j < Ng
      ensures 0.0 <= ContrastTerm(P)(i, j)
    {
      SquareTimesNonneg((i - j) as real, Cell(P, i, j));
    }
    GridSumNonneg(ContrastTerm(P), Ng, Ng);
  }

  /** Contrast vanishes on a diagonal matrix. */
  lemma ContrastOfDiagonal(P: Matrix, Ng: nat)
    requires IsDiagonal(P, Ng)
    ensures ContrastOf(P, Ng) == 0.0
  {
    GridSumZero(ContrastTerm(P), Ng, Ng);
  }

  /** Variance is never negative for a non-negative matrix. */
  lemma VarianceNonneg(P: Matrix, Ng: nat)
    requires NonNegative(P, Ng)
    ensures 0.0 <= VarianceOf(P, Ng)
  {
    var mean := MeanTone(P, Ng);
    forall i, j | 0 <= i < Ng && 0 <= j < Ng
      ensures 0.0 <= VarianceTerm(P, mean)(i, j)
    {
      SquareTimesNonneg(i as real - mean, Cell(P, i, j));
    }
    GridSumNonneg(VarianceTerm(P, mean), Ng, Ng);
  }

  /** The inverse difference moment of a non-negative matrix lies between 0 and its total mass. */
  lemma IdmBounds(P: Matrix, Ng: nat)
    requires NonNegative(P, Ng)
    ensures 0.0 <= Idm(P, Ng) <= Total(P, Ng)
  {
    forall i, j | 0 <= i < Ng && 0 <= j < Ng
      ensures 0.0 <= IdmTerm(P)(i, j) <= Cells(P)(i, j)
    {
      IdmTermBounds(P, i, j);
    }
    GridSumNonneg(IdmTerm(P), Ng, Ng);
    GridSumMono(IdmTerm(P), Cells(P), Ng, Ng);
  }

  lemma IdmTermBounds(P: Matrix, i: int, j: int)
    requires 0.0 <= Cell(P, i, j)
    ensures 0.0 <= IdmTerm(P)(i, j) <= Cells(P)(i, j)
  {
    QuotientAtMost(Cell(P, i, j), IdmDenominator(i - j));
  }

  lemma QuotientAtMost(c: real, q: real)
    requires 0.0 <= c && 1.0 <= q
    ensures 0.0 <= c / q <= c
  {
    assert c == (c / q) * q;
  }

  /** On a diagonal matrix the inverse difference moment is the total mass. */
  lemma IdmOfDiagonal(P: Matrix, Ng: nat)
    requires IsDiagonal(P, Ng)
    ensures Idm(P, Ng) == Total(P, Ng)
  {
    GridSumExt(IdmTerm(P), Cells(P), Ng, Ng);
  }

  /** Sum variance is never negative for a non-negative matrix. */
  lemma SumVarianceNonneg(P: Matrix, Ng: nat, s: real)
    requires NonNegative(P, Ng)
    ensures 0.0 <= SumVarianceOf(P, Ng, s)
  {
    forall i, j | 0 <= i < Ng && 0 <= j < Ng
      ensures 0.0 <= SumVarianceTerm(P, s)(i, j)
    {
      SquareTimesNonneg((i + j) as real - s, Cell(P, i, j));
    }
    GridSumNonneg(SumVarianceTerm(P, s), Ng, Ng);
  }

  /** The difference variance of a probability matrix is a true variance: it
      equals the spread of the difference distribution around its mean, and
      so is never negative. */
  lemma DiffVarianceNonneg(P: Matrix, Ng: nat)
    requires IsProbability(P, Ng)
    ensures 0.0 <= DiffVarianceOf(P, Ng)
  {
    var d := DiffDistribution(P, Ng);
    DiffVarianceByDistribution(P, Ng);
    DiffDistributionIsDistribution(P, Ng);
    SpreadNonneg(d, Ng, Series(Weighted(Square(), d), Ng), Series(Weighted(Linear(), d), Ng));
  }

  /** The difference distribution of a probability matrix is a probability
      distribution on the differences 0 .. Ng-1. */
  lemma DiffDistributionIsDistribution(P: Matrix, Ng: nat)
    requires IsProbability(P, Ng)
    ensures IsDistribution(DiffDistribution(P, Ng), Ng)
  {
    forall k | 0 <= k < Ng
      ensures 0.0 <= DiffDistribution(P, Ng)(k)
    {
      MassesNonneg(Cells(P), DiffKey(), Ng, Ng, k);
    }
    DiffDistributionMass(P, Ng);
  }

  /** The difference variance is the second moment of the difference
      distribution minus the square of its first moment. */
  lemma DiffVarianceByDistribution(P: Matrix, Ng: nat)
    ensures DiffVarianceOf(P, Ng)
         == Series(Weighted(Square(), DiffDistribution(P, Ng)), Ng)
            - Series(Weighted(Linear(), DiffDistribution(P, Ng)), Ng) * Series(Weighted(Linear(), DiffDistribution(P, Ng)), Ng)
  {
    ContrastByDistribution(P, Ng);
    AbsDiffByDistribution(P, Ng);
    DiffVarianceOfParts(P, Ng, Series(Weighted(Square(), DiffDistribution(P, Ng)), Ng),
                        Series(Weighted(Linear(), DiffDistribution(P, Ng)), Ng));
  }

  lemma DiffVarianceOfParts(P: Matrix, Ng: nat, contrast: real, mean: real)
    requires ContrastOf(P, Ng) == contrast && GridSum(AbsDiffTerm(P), Ng, Ng) == mean
    ensures DiffVarianceOf(P, Ng) == contrast - mean * mean
  {
  }

  lemma NonnegProduct(a: real, b: real)
    requires 0.0 <= a && 0.0 <= b
    ensures 0.0 <= a * b
  {
  }
}
