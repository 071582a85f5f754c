/** Finite sums over integer ranges and over rectangular grids of cells.

    Every feature of the texture module is a sum over the cells (i, j) of a
    co-occurrence matrix, and every scratch distribution is a regrouping of
    such a sum by a bucket key.  This module fixes the order in which the sums
    are accumulated (row by row, exactly as the nested `for` loops do) and
    proves the algebra the features need: extensionality, linearity,
    monotonicity and the regrouping of a grid sum by a key. */
module Sums {

  /** Sum of g(k) for 0 <= k < n; an empty or negative range sums to 0. */
  function Series(g: int -> real, n: int): real
    decreases n
  {
    if n <= 0 then 0.0 else Series(g, n - 1) + g(n - 1)
  }

  /** Sum of f(i, j) for 0 <= j < n. */
  function RowSum(f: (int, int) -> real, i: int, n: int): real
    decreases n
  {
    if n <= 0 then 0.0 else RowSum(f, i, n - 1) + f(i, n - 1)
  }

  /** Sum of f(i, j) over 0 <= i < m, 0 <= j < n, one row after the other. */
  function GridSum(f: (int, int) -> real, m: int, n: int): real
    decreases m
  {
    if m <= 0 then 0.0 else GridSum(f, m - 1, n) + RowSum(f, m - 1, n)
  }

  // ---------------------------------------------------------------------
  // Combinators.  They are named so that the same term appears in every
  // lemma that mentions it.

  /** Pointwise sum of two cell functions. */
  function Plus(f: (int, int) -> real, h: (int, int) -> real): (int, int) -> real
  {
    (i, j) => f(i, j) + h(i, j)
  }

  /** A cell function scaled by a constant. */
  function Scaled(c: real, f: (int, int) -> real): (int, int) -> real
  {
    (i, j) => c * f(i, j)
  }

  /** The part of f whose key is k: f(i, j) where key(i, j) == k, 0 elsewhere. */
  function Bucket(f: (int, int) -> real, key: (int, int) -> int, k: int): (int, int) -> real
  {
    (i, j) => if key(i, j) == k then f(i, j) else 0.0
  }

  /** Every cell of f weighted by w of its key. */
  function Reweighted(f: (int, int) -> real, key: (int, int) -> int, w: int -> real): (int, int) -> real
  {
    (i, j) => w(key(i, j)) * f(i, j)
  }

  /** The part of Reweighted(f, key, w) whose key is below c. */
  function ReweightedBelow(f: (int, int) -> real, key: (int, int) -> int, w: int -> real, c: int): (int, int) -> real
  {
    (i, j) => if key(i, j) < c then w(key(i, j)) * f(i, j) else 0.0
  }

  /** The distribution of the mass of f over the keys: k maps to the grid sum of Bucket(f, key, k). */
  function Masses(f: (int, int) -> real, key: (int, int) -> int, m: int, n: int): int -> real
  {
    k => GridSum(Bucket(f, key, k), m, n)
  }

  /** A distribution weighted pointwise: k maps to w(k) * d(k). */
  function Weighted(w: int -> real, d: int -> real): int -> real
  {
    k => w(k) * d(k)
  }

  /** The weight k. */
  function Linear(): int -> real
  {
    k => k as real
  }

  /** The weight k * k. */
  function Square(): int -> real
  {
    k => (k as real) * (k as real)
  }

  /** The weight 1. */
  function One(): int -> real
  {
    k => 1.0
  }

  /** The weight (k - mu) * (k - mu). */
  function Centered(mu: real): int -> real
  {
    k => (k as real - mu) * (k as real - mu)
  }

  // ---------------------------------------------------------------------
  // Extensionality: sums only depend on the values inside their range.

  lemma {:induction false} SeriesExt(g: int -> real, h: int -> real, n: int)
    requires forall k :: 0 <= k < n ==> g(k) == h(k)
    ensures Series(g, n) == Series(h, n)
    decreases n
  {
    if n > 0 {
      SeriesExt(g, h, n - 1);
    }
  }

  lemma {:induction false} RowSumExt(f: (int, int) -> real, h: (int, int) -> real, i: int, n: int)
    requires forall j :: 0 <= j < n ==> f(i, j) == h(i, j)
    ensures RowSum(f, i, n) == RowSum(h, i, n)
    decreases n
  {
    if n > 0 {
      RowSumExt(f, h, i, n - 1);
    }
  }

  lemma {:induction false} GridSumExt(f: (int, int) -> real, h: (int, int) -> real, m: int, n: int)
    requires forall i, j :: 0 <= i < m && 0 <= j < n ==> f(i, j) == h(i, j)
    ensures GridSum(f, m, n) == GridSum(h, m, n)
    decreases m
  {
    if m > 0 {
      GridSumExt(f, h, m - 1, n);
      RowSumExt(f, h, m - 1, n);
    }
  }

  // ---------------------------------------------------------------------
  // Linearity.

  lemma {:induction false} RowSumPlus(f: (int, int) -> real, h: (int, int) -> real, i: int, n: int)
    ensures RowSum(f, i, n) + RowSum(h, i, n) == RowSum(Plus(f, h), i, n)
    decreases n
  {
    if n > 0 {
      RowSumPlus(f, h, i, n - 1);
    }
  }

  lemma {:induction false} GridSumPlus(f: (int, int) -> real, h: (int, int) -> real, m: int, n: int)
    ensures GridSum(f, m, n) + GridSum(h, m, n) == GridSum(Plus(f, h), m, n)
    decreases m
  {
    if m > 0 {
      GridSumPlus(f, h, m - 1, n);
      RowSumPlus(f, h, m - 1, n);
    }
  }

  lemma {:induction false} RowSumScaled(c: real, f: (int, int) -> real, i: int, n: int)
    ensures c * RowSum(f, i, n) == RowSum(Scaled(c, f), i, n)
    decreases n
  {
    if n > 0 {
      RowSumScaled(c, f, i, n - 1);
    }
  }

  lemma {:induction false} GridSumScaled(c: real, f: (int, int) -> real, m: int, n: int)
    ensures c * GridSum(f, m, n) == GridSum(Scaled(c, f), m, n)
    decreases m
  {
    if m > 0 {
      GridSumScaled(c, f, m - 1, n);
      RowSumScaled(c, f, m - 1, n);
    }
  }

  // ---------------------------------------------------------------------
  // Order.

  lemma {:induction false} RowSumMono(f: (int, int) -> real, h: (int, int) -> real, i: int, n: int)
    requires forall j :: 0 <= j < n ==> f(i, j) <= h(i, j)
    ensures RowSum(f, i, n) <= RowSum(h, i, n)
    decreases n
  {
    if n > 0 {
      RowSumMono(f, h, i, n - 1);
    }
  }

  /** A grid sum grows with its summand. */
  lemma {:induction false} GridSumMono(f: (int, int) -> real, h: (int, int) -> real, m: int, n: int)
    requires forall i, j :: 0 <= i < m && 0 <= j < n ==> f(i, j) <= h(i, j)
    ensures GridSum(f, m, n) <= GridSum(h, m, n)
    decreases m
  {
    if m > 0 {
      GridSumMono(f, h, m - 1, n);
      RowSumMono(f, h, m - 1, n);
    }
  }

  lemma {:induction false} RowSumNonneg(f: (int, int) -> real, i: int, n: int)
    requires forall j :: 0 <= j < n ==> 0.0 <= f(i, j)
    ensures 0.0 <= RowSum(f, i, n)
    decreases n
  {
    if n > 0 {
      RowSumNonneg(f, i, n - 1);
    }
  }

  /** A grid sum of non-negative cells is non-negative. */
  lemma {:induction false} GridSumNonneg(f: (int, int) -> real, m: int, n: int)
    requires forall i, j :: 0 <= i < m && 0 <= j < n ==> 0.0 <= f(i, j)
    ensures 0.0 <= GridSum(f, m, n)
    decreases m
  {
    if m > 0 {
      GridSumNonneg(f, m - 1, n);
      RowSumNonneg(f, m - 1, n);
    }
  }

  lemma {:induction false} RowSumZero(f: (int, int) -> real, i: int, n: int)
    requires forall j :: 0 <= j < n ==> f(i, j) == 0.0
    ensures RowSum(f, i, n) == 0.0
    decreases n
  {
    if n > 0 {
      RowSumZero(f, i, n - 1);
    }
  }

  /** A grid sum of zero cells is zero. */
  lemma {:induction false} GridSumZero(f: (int, int) -> real, m: int, n: int)
    requires forall i, j :: 0 <= i < m && 0 <= j < n ==> f(i, j) == 0.0
    ensures GridSum(f, m, n) == 0.0
    decreases m
  {
    if m > 0 {
      GridSumZero(f, m - 1, n);
      RowSumZero(f, m - 1, n);
    }
  }

  lemma {:induction false} RowSumAtLeastCell(f: (int, int) -> real, i: int, n: int, b: int)
    requires forall j :: 0 <= j < n ==> 0.0 <= f(i, j)
    requires 0 <= b < n
    ensures f(i, b) <= RowSum(f, i, n)
    decreases n
  {
    if b == n - 1 {
      RowSumNonneg(f, i, n - 1);
    } else {
      RowSumAtLeastCell(f, i, n - 1, b);
    }
  }

  /** One non-negative cell never exceeds the grid sum it belongs to. */
  lemma {:induction false} GridSumAtLeastCell(f: (int, int) -> real, m: int, n: int, a: int, b: int)
    requires forall i, j :: 0 <= i < m && 0 <= j < n ==> 0.0 <= f(i, j)
    requires 0 <= a < m && 0 <= b < n
    ensures f(a, b) <= GridSum(f, m, n)
    decreases m
  {
    if a == m - 1 {
      GridSumNonneg(f, m - 1, n);
      RowSumAtLeastCell(f, a, n, b);
    } else {
      GridSumAtLeastCell(f, m - 1, n, a, b);
      RowSumNonneg(f, m - 1, n);
    }
  }

  lemma {:induction false} SeriesNonneg(g: int -> real, n: int)
    requires forall k :: 0 <= k < n ==> 0.0 <= g(k)
    ensures 0.0 <= Series(g, n)
    decreases n
  {
    if n > 0 {
      SeriesNonneg(g, n - 1);
    }
  }

  // ---------------------------------------------------------------------
  // Diagonal grids.

  lemma {:induction false} RowSumDiagonal(f: (int, int) -> real, i: int, n: int)
    requires forall j :: 0 <= j < n && j != i ==> f(i, j) == 0.0
    ensures RowSum(f, i, n) == if 0 <= i < n then f(i, i) else 0.0
    decreases n
  {
    if n > 0 {
      RowSumDiagonal(f, i, n - 1);
    }
  }

  /** The sum of the square grid of a diagonal f is the sum of its diagonal. */
  lemma {:induction false} GridSumDiagonal(f: (int, int) -> real, d: int -> real, m: int, n: int)
    requires m <= n
    requires forall i, j :: 0 <= i < m && 0 <= j < n && i != j ==> f(i, j) == 0.0
    requires forall i :: 0 <= i < m ==> d(i) == f(i, i)
    ensures GridSum(f, m, n) == Series(d, m)
    decreases m
  {
    if m > 0 {
      GridSumDiagonal(f, d, m - 1, n);
      RowSumDiagonal(f, m - 1, n);
    }
  }

  /** A constant series is a product. */
  lemma {:induction false} SeriesConstant(g: int -> real, c: real, n: nat)
    requires forall k :: 0 <= k < n ==> g(k) == c
    ensures Series(g, n) == (n as real) * c
    decreases n
  {
    if n > 0 {
      SeriesConstant(g, c, n - 1);
      assert ((n - 1) as real) * c + c == (n as real) * c;
    }
  }

  // ---------------------------------------------------------------------
  // Regrouping a grid sum by a key.

  lemma {:induction false} BucketsBelow(f: (int, int) -> real, key: (int, int) -> int, w: int -> real, m: int, n: int, c: nat)
    requires forall i, j :: 0 <= i < m && 0 <= j < n ==> 0 <= key(i, j)
    ensures Series(Weighted(w, Masses(f, key, m, n)), c) == GridSum(ReweightedBelow(f, key, w, c), m, n)
    decreases c
  {
    if c == 0 {
      NoBucketsBelowZero(f, key, w, m, n);
    } else {
      BucketsBelow(f, key, w, m, n, c - 1);
      BucketsBelowSucc(f, key, w, m, n, c);
    }
  }

  /** With non-negative keys, no cell has its key below 0. */
  lemma NoBucketsBelowZero(f: (int, int) -> real, key: (int, int) -> int, w: int -> real, m: int, n: int)
    requires forall i, j :: 0 <= i < m && 0 <= j < n ==> 0 <= key(i, j)
    ensures GridSum(ReweightedBelow(f, key, w, 0), m, n) == 0.0
  {
    forall i, j | 0 <= i < m && 0 <= j < n
      ensures ReweightedBelow(f, key, w, 0)(i, j) == 0.0
    {
      assert 0 <= key(i, j);
    }
    GridSumZero(ReweightedBelow(f, key, w, 0), m, n);
  }

  /** The inductive step of BucketsBelow: one more term of the series admits bucket c - 1. */
  lemma BucketsBelowSucc(f: (int, int) -> real, key: (int, int) -> int, w: int -> real, m: int, n: int, c: nat)
    requires 0 < c
    requires Series(Weighted(w, Masses(f, key, m, n)), c - 1) == GridSum(ReweightedBelow(f, key, w, c - 1), m, n)
    ensures Series(Weighted(w, Masses(f, key, m, n)), c) == GridSum(ReweightedBelow(f, key, w, c), m, n)
  {
    BucketsBelowStep(f, key, w, m, n, c);
    assert Weighted(w, Masses(f, key, m, n))(c - 1) == w(c - 1) * GridSum(Bucket(f, key, c - 1), m, n);
  }

  /** Admitting the bucket c - 1 adds its weighted mass. */
  lemma BucketsBelowStep(f: (int, int) -> real, key: (int, int) -> int, w: int -> real, m: int, n: int, c: int)
    ensures GridSum(ReweightedBelow(f, key, w, c - 1), m, n) + w(c - 1) * GridSum(Bucket(f, key, c - 1), m, n)
         == GridSum(ReweightedBelow(f, key, w, c), m, n)
  {
    var top, lo, hi := Bucket(f, key, c - 1), ReweightedBelow(f, key, w, c - 1), ReweightedBelow(f, key, w, c);
    GridSumScaled(w(c - 1), top, m, n);
    GridSumPlus(lo, Scaled(w(c - 1), top), m, n);
    forall i, j | 0 <= i < m && 0 <= j < n
      ensures Plus(lo, Scaled(w(c - 1), top))(i, j) == hi(i, j)
    {
      BucketsBelowAt(f, key, w, c, i, j);
    }
    GridSumExt(Plus(lo, Scaled(w(c - 1), top)), hi, m, n);
  }

  lemma BucketsBelowAt(f: (int, int) -> real, key: (int, int) -> int, w: int -> real, c: int, i: int, j: int)
    ensures Plus(ReweightedBelow(f, key, w, c - 1), Scaled(w(c - 1), Bucket(f, key, c - 1)))(i, j)
         == ReweightedBelow(f, key, w, c)(i, j)
  {
    if key(i, j) == c - 1 {
      assert Scaled(w(c - 1), Bucket(f, key, c - 1))(i, j) == w(key(i, j)) * f(i, j);
    } else {
      assert Scaled(w(c - 1), Bucket(f, key, c - 1))(i, j) == 0.0;
    }
  }

  /** Weighting every bucket of a key by w and adding the buckets up is the
      same as weighting every cell by w of its key, provided every key on the
      grid lies in [0, K). */
  lemma WeightedBucketing(f: (int, int) -> real, key: (int, int) -> int, w: int -> real, m: int, n: int, K: nat)
    requires forall i, j :: 0 <= i < m && 0 <= j < n ==> 0 <= key(i, j) < K
    ensures Series(Weighted(w, Masses(f, key, m, n)), K) == GridSum(Reweighted(f, key, w), m, n)
  {
    BucketsBelow(f, key, w, m, n, K);
    GridSumExt(ReweightedBelow(f, key, w, K), Reweighted(f, key, w), m, n);
  }

  /** Bucketing conserves mass: the buckets of a key in [0, K) add up to the whole grid. */
  lemma MassConservation(f: (int, int) -> real, key: (int, int) -> int, m: int, n: int, K: nat)
    requires forall i, j :: 0 <= i < m && 0 <= j < n ==> 0 <= key(i, j) < K
    ensures Series(Masses(f, key, m, n), K) == GridSum(f, m, n)
  {
    WeightedBucketing(f, key, One(), m, n, K);
    SeriesExt(Weighted(One(), Masses(f, key, m, n)), Masses(f, key, m, n), K);
    GridSumExt(Reweighted(f, key, One()), f, m, n);
  }

  /** Every bucket of a non-negative grid is non-negative. */
  lemma MassesNonneg(f: (int, int) -> real, key: (int, int) -> int, m: int, n: int, k: int)
    requires forall i, j :: 0 <= i < m && 0 <= j < n ==> 0.0 <= f(i, j)
    ensures 0.0 <= Masses(f, key, m, n)(k)
  {
    GridSumNonneg(Bucket(f, key, k), m, n);
  }

  /** Pointwise sum of two distributions. */
  function SeriesPlus(g: int -> real, h: int -> real): int -> real
  {
    k => g(k) + h(k)
  }

  /** A distribution scaled by a constant. */
  function SeriesScaled(c: real, g: int -> real): int -> real
  {
    k => c * g(k)
  }

  lemma {:induction false} SeriesAdd(g: int -> real, h: int -> real, n: int)
    ensures Series(g, n) + Series(h, n) == Series(SeriesPlus(g, h), n)
    decreases n
  {
    if n > 0 {
      SeriesAdd(g, h, n - 1);
    }
  }

  lemma {:induction false} SeriesScale(c: real, g: int -> real, n: int)
    ensures c * Series(g, n) == Series(SeriesScaled(c, g), n)
    decreases n
  {
    if n > 0 {
      SeriesScale(c, g, n - 1);
    }
  }

  /** The three parts of the centered weight of d: k^2 d(k) - 2 mu k d(k) + mu^2 d(k). */
  function CenteredParts(d: int -> real, mu: real): int -> real
  {
    SeriesPlus(SeriesPlus(Weighted(Square(), d), SeriesScaled(-2.0 * mu, Weighted(Linear(), d))), SeriesScaled(mu * mu, d))
  }

  lemma CenteredPartsAt(d: int -> real, mu: real, k: int)
    ensures Weighted(Centered(mu), d)(k) == CenteredParts(d, mu)(k)
  {
    var x, y := k as real, d(k);
    assert CenteredParts(d, mu)(k) == x * x * y + (-2.0 * mu) * (x * y) + (mu * mu) * y;
    assert Weighted(Centered(mu), d)(k) == (x - mu) * (x - mu) * y;
    CenteredAt(x, y, mu);
  }

  /** The weighted variance of a distribution d around mu, expanded. */
  lemma CenteredExpansion(d: int -> real, mu: real, n: int)
    ensures Series(Weighted(Centered(mu), d), n)
         == Series(Weighted(Square(), d), n) - 2.0 * mu * Series(Weighted(Linear(), d), n) + mu * mu * Series(d, n)
  {
    var sq, lin := Weighted(Square(), d), Weighted(Linear(), d);
    CenteredSeries(d, mu, n);
    CenteredPartsSeries(d, mu, n);
    SeriesScale(-2.0 * mu, lin, n);
    SeriesScale(mu * mu, d, n);
    CombineParts(Series(Weighted(Centered(mu), d), n), Series(sq, n), Series(lin, n), Series(d, n), mu,
                 Series(SeriesScaled(-2.0 * mu, lin), n), Series(SeriesScaled(mu * mu, d), n));
  }

  lemma CenteredSeries(d: int -> real, mu: real, n: int)
    ensures Series(Weighted(Centered(mu), d), n) == Series(CenteredParts(d, mu), n)
  {
    forall k | 0 <= k < n
      ensures Weighted(Centered(mu), d)(k) == CenteredParts(d, mu)(k)
    {
      CenteredPartsAt(d, mu, k);
    }
    SeriesExt(Weighted(Centered(mu), d), CenteredParts(d, mu), n);
  }

  lemma CenteredPartsSeries(d: int -> real, mu: real, n: int)
    ensures Series(CenteredParts(d, mu), n)
         == Series(Weighted(Square(), d), n) + Series(SeriesScaled(-2.0 * mu, Weighted(Linear(), d)), n)
            + Series(SeriesScaled(mu * mu, d), n)
  {
    var sq, lin := Weighted(Square(), d), Weighted(Linear(), d);
    SeriesAdd(SeriesPlus(sq, SeriesScaled(-2.0 * mu, lin)), SeriesScaled(mu * mu, d), n);
    SeriesAdd(sq, SeriesScaled(-2.0 * mu, lin), n);
  }

  lemma CombineParts(a: real, s: real, l: real, t: real, mu: real, sl: real, st: real)
    requires a == s + sl + st
    requires sl == (-2.0 * mu) * l && st == (mu * mu) * t
    ensures a == s - 2.0 * mu * l + mu * mu * t
  {
    NegatedProduct(mu, l);
  }

  lemma NegatedProduct(mu: real, l: real)
    ensures (-2.0 * mu) * l == -(2.0 * mu * l)
  {
  }

  lemma CenteredAt(x: real, y: real, mu: real)
    ensures (x - mu) * (x - mu) * y == x * x * y + (-2.0 * mu) * (x * y) + (mu * mu) * y
  {
  }

  /** d is a probability distribution on [0, n): non-negative with unit mass. */
  predicate IsDistribution(d: int -> real, n: int)
  {
    (forall k :: 0 <= k < n ==> 0.0 <= d(k)) && Series(d, n) == 1.0
  }

  /** A probability distribution is spread around its mean: its second
      moment is at least the square of its first moment. */
  lemma SpreadNonneg(d: int -> real, n: int, sq: real, mu: real)
    requires IsDistribution(d, n)
    requires sq == Series(Weighted(Square(), d), n) && mu == Series(Weighted(Linear(), d), n)
    ensures 0.0 <= sq - mu * mu
  {
    CenteredExpansion(d, mu, n);
    forall k | 0 <= k < n
      ensures 0.0 <= Weighted(Centered(mu), d)(k)
    {
      CenteredWeightNonneg(d, mu, k);
    }
    SeriesNonneg(Weighted(Centered(mu), d), n);
    VarianceFromExpansion(Series(Weighted(Centered(mu), d), n), sq, mu, mu, Series(d, n));
  }

  lemma CenteredWeightNonneg(d: int -> real, mu: real, k: int)
    requires 0.0 <= d(k)
    ensures 0.0 <= Weighted(Centered(mu), d)(k)
  {
    var x := k as real - mu;
    assert Weighted(Centered(mu), d)(k) == x * x * d(k);
    SquareTimesNonneg(x, d(k));
  }

  lemma VarianceFromExpansion(c: real, sq: real, l: real, mu: real, s: real)
    requires c == sq - 2.0 * mu * l + mu * mu * s
    requires l == mu && s == 1.0 && 0.0 <= c
    ensures 0.0 <= sq - mu * mu
  {
    assert 2.0 * mu * l == 2.0 * (mu * mu);
    assert mu * mu * s == mu * mu;
  }

  lemma SquareTimesNonneg(x: real, c: real)
    requires 0.0 <= c
    ensures 0.0 <= x * x * c
  {
    assert 0.0 <= x * x;
  }
}
