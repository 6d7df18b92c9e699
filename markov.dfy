/**
 Validity conditions for continuous-time generators, transition matrices,
 probability vectors and membership matrices: the documented conditions the
 channel model checks after each construction, stated without a tolerance.
 */
module Markov {
  import opened Matrices

  /** Every entry of a row is at most the row sum less its other entries. */
  lemma DiagonalAtMostRowSum(Q: Matrix, n: nat)
    requires IsMatrix(Q, n, n)
    requires forall i, j :: 0 <= i < n && 0 <= j < n && i != j ==> Q[i][j] >= 0.0
    ensures forall i :: 0 <= i < n ==> Q[i][i] <= Sum(Q[i])
  {
    forall i | 0 <= i < n ensures Q[i][i] <= Sum(Q[i]) {
      SumAtLeastEntry(Q[i], i);
    }
  }

  /** In a matrix without negative entries, no entry exceeds its row sum. */
  lemma EntriesAtMostRowSum(T: Matrix, n: nat)
    requires IsMatrix(T, n, n) && NonNegative(T)
    ensures forall i, j :: 0 <= i < n && 0 <= j < n ==> T[i][j] <= Sum(T[i])
  {
    forall i, j | 0 <= i < n && 0 <= j < n ensures T[i][j] <= Sum(T[i]) {
      SumAtLeastEntry(T[i], j);
    }
  }

  /**
   An n-state generator: square, non-negative off the diagonal, every row
   summing to zero. The diagonal is not constrained directly; that it is
   never positive follows from the other two conditions.
   */
  predicate IsRateMatrix(Q: Matrix, n: nat): (b: bool)
    ensures b ==> IsMatrix(Q, n, n) && forall i :: 0 <= i < n ==> Q[i][i] <= 0.0
  {
    if && IsMatrix(Q, n, n)
       && (forall i, j :: 0 <= i < n && 0 <= j < n && i != j ==> Q[i][j] >= 0.0)
       && RowsSumTo(Q, 0.0)
    then
      DiagonalAtMostRowSum(Q, n);
      true
    else
      false
  }

  /** An n-state row-stochastic matrix; each of its entries is a probability. */
  predicate IsTransitionMatrix(T: Matrix, n: nat): (b: bool)
    ensures b ==> IsMatrix(T, n, n) && forall i, j :: 0 <= i < n && 0 <= j < n ==> 0.0 <= T[i][j] <= 1.0
  {
    if IsMatrix(T, n, n) && NonNegative(T) && RowsSumTo(T, 1.0) then
      EntriesAtMostRowSum(T, n);
      true
    else
      false
  }

  predicate IsDistribution(p: Vector) {
    (forall i :: 0 <= i < |p| ==> p[i] >= 0.0) && Sum(p) == 1.0
  }

  /** pi is a probability vector that T leaves invariant: pi T == pi. */
  predicate IsStationaryDistribution(pi: Vector, T: Matrix) {
    IsMatrix(T, |pi|, |pi|) && IsDistribution(pi) && VecMat(pi, T, |pi|) == pi
  }

  /** A (crisp or fuzzy) assignment of n fine states to m coarse states. */
  predicate IsMembership(chi: Matrix, n: nat, m: nat) {
    IsMatrix(chi, n, m) && NonNegative(chi) && RowsSumTo(chi, 1.0)
  }
}
