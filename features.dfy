/** The texture features that read only the matrix P: each is the source's
    nested accumulator loop, proved equal to its closed form over the cells. */
module Features {
  import opened Sums
  import opened Glcm

  /** Angular second moment (f1_asm): the sum of the squared cells. */
  method AngularSecondMoment(P: Matrix, Ng: nat) returns (sum: real)
    requires IsMatrix(P, Ng)
    ensures sum == Asm(P, Ng)
  {
    sum := 0.0;
    var i := 0;
    while i < Ng
      invariant 0 <= i <= Ng
      invariant sum == GridSum(AsmTerm(P), i, Ng)
    {
      var j := 0;
      while j < Ng
        invariant 0 <= j <= Ng
        invariant sum == GridSum(AsmTerm(P), i, Ng) + RowSum(AsmTerm(P), i, j)
      {
        sum := sum + P[i][j] * P[i][j];
        j := j + 1;
      }
      i := i + 1;
    }
  }

  /** The cells the contrast loop adds in its pass n: those with i - j == n or j - i == n. */
  function ContrastPass(P: Matrix, n: int): (int, int) -> real
  {
    (i, j) => if i - j == n || j - i == n then Cell(P, i, j) else 0.0
  }

  /** Pass n of the contrast loop picks exactly the cells with |i - j| == n;
      for n == 0 both tests hold on the diagonal and the cell is still taken once. */
  lemma ContrastPassIsDiffBucket(P: Matrix, Ng: nat, n: nat)
    ensures GridSum(ContrastPass(P, n), Ng, Ng) == DiffDistribution(P, Ng)(n)
  {
    forall i, j | 0 <= i < Ng && 0 <= j < Ng
      ensures ContrastPass(P, n)(i, j) == Bucket(Cells(P), DiffKey(), n)(i, j)
    {
      ContrastPassBucketAt(P, n, i, j);
    }
    GridSumExt(ContrastPass(P, n), Bucket(Cells(P), DiffKey(), n), Ng, Ng);
  }

  lemma ContrastPassBucketAt(P: Matrix, n: nat, i: int, j: int)
    ensures ContrastPass(P, n)(i, j) == Bucket(Cells(P), DiffKey(), n)(i, j)
  {
    assert DiffKey()(i, j) == Abs(i - j);
    if i - j == n || j - i == n {
      assert Abs(i - j) == n;
    } else {
      assert Abs(i - j) != n;
    }
  }

  /** One pass of the contrast loop adds the next term of the weighted series. */
  lemma ContrastStep(P: Matrix, Ng: nat, n: nat, bigsum: real, sum: real)
    requires bigsum == Series(Weighted(Square(), DiffDistribution(P, Ng)), n)
    requires sum == GridSum(ContrastPass(P, n), Ng, Ng)
    ensures bigsum + ((n * n) as real) * sum == Series(Weighted(Square(), DiffDistribution(P, Ng)), n + 1)
  {
    ContrastPassIsDiffBucket(P, Ng, n);
    assert ((n * n) as real) == Square()(n);
  }

  /** Contrast (f2_contrast): for every tone difference n, n^2 times the mass at
      difference n, which adds up to the sum of (i - j)^2 P[i][j]. */
  method Contrast(P: Matrix, Ng: nat) returns (bigsum: real)
    requires IsMatrix(P, Ng)
    ensures bigsum == ContrastOf(P, Ng)
  {
    var sum := 0.0;
    bigsum := 0.0;
    var n := 0;
    while n < Ng
      invariant 0 <= n <= Ng
      invariant sum == 0.0
      invariant bigsum == Series(Weighted(Square(), DiffDistribution(P, Ng)), n)
    {
      var i := 0;
      while i < Ng
        invariant 0 <= i <= Ng
        invariant sum == GridSum(ContrastPass(P, n), i, Ng)
      {
        var j := 0;
        while j < Ng
          invariant 0 <= j <= Ng
          invariant sum == GridSum(ContrastPass(P, n), i, Ng) + RowSum(ContrastPass(P, n), i, j)
        {
          if i - j == n || j - i == n {
            sum := sum + P[i][j];
          }
          j := j + 1;
        }
        i := i + 1;
      }
      ContrastStep(P, Ng, n, bigsum, sum);
      bigsum := bigsum + ((n * n) as real) * sum;
      sum := 0.0;
      n := n + 1;
    }
    ContrastByDistribution(P, Ng);
  }

  /** Variance (f4_var): the mean gray tone, then the spread of the tones around it. */
  method Variance(P: Matrix, Ng: nat) returns (variance: real)
    requires IsMatrix(P, Ng)
    ensures variance == VarianceOf(P, Ng)
  {
    var mean := 0.0;
    var i := 0;
    while i < Ng
      invariant 0 <= i <= Ng
      invariant mean == GridSum(RowToneTerm(P), i, Ng)
    {
      var j := 0;
      while j < Ng
        invariant 0 <= j <= Ng
        invariant mean == GridSum(RowToneTerm(P), i, Ng) + RowSum(RowToneTerm(P), i, j)
      {
        mean := mean + (i as real) * P[i][j];
        j := j + 1;
      }
      i := i + 1;
    }
    variance := 0.0;
    i := 0;
    while i < Ng
      invariant 0 <= i <= Ng
      invariant variance == GridSum(VarianceTerm(P, mean), i, Ng)
    {
      var j := 0;
      while j < Ng
        invariant 0 <= j <= Ng
        invariant variance == GridSum(VarianceTerm(P, mean), i, Ng) + RowSum(VarianceTerm(P, mean), i, j)
      {
        VarianceStep(P, mean, i, j, variance - GridSum(VarianceTerm(P, mean), i, Ng));
        variance := variance + (i as real - mean) * (i as real - mean) * P[i][j];
        j := j + 1;
      }
      i := i + 1;
    }
  }

  lemma VarianceStep(P: Matrix, mean: real, i: int, j: int, row: real)
    requires 0 <= i < |P| && 0 <= j < |P[i]|
    requires row == RowSum(VarianceTerm(P, mean), i, j)
    ensures row + (i as real - mean) * (i as real - mean) * P[i][j] == RowSum(VarianceTerm(P, mean), i, j + 1)
  {
    assert VarianceTerm(P, mean)(i, j) == (i as real - mean) * (i as real - mean) * P[i][j];
  }

  lemma IdmTermAt(P: Matrix, i: int, j: int)
    requires 0 <= i < |P| && 0 <= j < |P[i]|
    ensures 1 <= 1 + (i - j) * (i - j)
    ensures IdmTerm(P)(i, j) == P[i][j] / ((1 + (i - j) * (i - j)) as real)
  {
    OnePlusSquare(i - j);
  }

  /** Inverse difference moment (f5_idm). */
  method InverseDifferenceMoment(P: Matrix, Ng: nat) returns (idm: real)
    requires IsMatrix(P, Ng)
    ensures idm == Idm(P, Ng)
  {
    idm := 0.0;
    var i := 0;
    while i < Ng
      invariant 0 <= i <= Ng
      invariant idm == GridSum(IdmTerm(P), i, Ng)
    {
      var j := 0;
      while j < Ng
        invariant 0 <= j <= Ng
        invariant idm == GridSum(IdmTerm(P), i, Ng) + RowSum(IdmTerm(P), i, j)
      {
        IdmTermAt(P, i, j);
        var term := P[i][j] / ((1 + (i - j) * (i - j)) as real);
        idm := idm + term;
        j := j + 1;
      }
      i := i + 1;
    }
  }
}
