/**
 Lumping of a fine transition matrix T onto coarse states through a
 membership matrix chi, weighted by a stationary distribution pi of T
 (Eq. 14 of Roeblitz and Weber, "Fuzzy spectral clustering by PCCA+",
 Adv. Data Anal. Classif. 7 (2013)):

   D_c⁻¹ · chiᵀ · D_pi · T · chi,   D_pi = diag(pi),  D_c = diag(chiᵀ pi).

 The stationary distribution is supplied by the caller.
 */
module CoarseGraining {
  import opened Matrices
  import opened Markov
  import opened Outcomes

  /** chiᵀ pi: the stationary weight each coarse state collects. */
  function CoarseWeights(chi: Matrix, pi: Vector): (w: Vector)
    requires IsMatrix(chi, |pi|, Cols(chi))
    ensures |w| == Cols(chi)
    ensures IsDistribution(pi) && IsMembership(chi, |pi|, Cols(chi)) ==> IsDistribution(w)
  {
    WeightsOfDistribution(chi, pi);
    MatVec(Transpose(chi), pi)
  }

  /**
   Spreading a probability vector over coarse states by a membership matrix
   gives a probability vector: each weight is a non-negative combination, and
   the weights add up to the total of pi because every row of chi sums to one.
   */
  lemma WeightsOfDistribution(chi: Matrix, pi: Vector)
    requires IsMatrix(chi, |pi|, Cols(chi))
    ensures IsDistribution(pi) && IsMembership(chi, |pi|, Cols(chi)) ==>
      IsDistribution(MatVec(Transpose(chi), pi))
  {
    var n, m := |pi|, Cols(chi);
    if IsDistribution(pi) && IsMembership(chi, n, m) {
      assert n > 0;
      var w := MatVec(Transpose(chi), pi);
      forall I | 0 <= I < m ensures w[I] >= 0.0 {
        DotNonNegative(Col(chi, I), pi);
      }
      MatVecTranspose(chi, n, m, pi);
      MatVecOnes(chi, n, m);
      assert MatVec(chi, Ones(m)) == Ones(n);
      calc {
        Sum(w);
        == { DotOnes(w); }
        Dot(VecMat(pi, chi, m), Ones(m));
        == { DotVecMat(pi, chi, m, Ones(m)); }
        Dot(pi, Ones(n));
        == { DotOnes(pi); }
        1.0;
      }
    }
  }

  /** Entry-wise reciprocals of a vector with no zero entry. */
  function Reciprocals(w: Vector): (r: Vector)
    requires forall I :: 0 <= I < |w| ==> w[I] != 0.0
    ensures |r| == |w| && forall I :: 0 <= I < |w| ==> r[I] * w[I] == 1.0
  {
    seq(|w|, I requires 0 <= I < |w| => 1.0 / w[I])
  }

  /** The matrix product of Eq. 14, evaluated left to right, for weights w with no zero entry. */
  function Lump(T: Matrix, chi: Matrix, pi: Vector, w: Vector): (C: Matrix)
    requires |pi| > 0 && IsMatrix(T, |pi|, |pi|) && IsMatrix(chi, |pi|, |w|)
    requires forall I :: 0 <= I < |w| ==> w[I] != 0.0
    ensures IsMatrix(C, |w|, |w|)
  {
    var n, m := |pi|, |w|;
    TransposeShape(chi, n, m);
    var Dinv := Diag(Reciprocals(w));
    MatMulShape(Dinv, Transpose(chi), m, m, n);
    var P1 := MatMul(Dinv, Transpose(chi));
    MatMulShape(P1, Diag(pi), m, n, n);
    var P2 := MatMul(P1, Diag(pi));
    MatMulShape(P2, T, m, n, n);
    var P3 := MatMul(P2, T);
    MatMulShape(P3, chi, m, n, m);
    MatMul(P3, chi)
  }

  /**
   The coarse transition matrix for fine matrix T, membership chi (one
   column per coarse state) and a stationary distribution pi of T. A coarse
   state with zero weight makes the division fail.
   */
  function CoarseTransitionMatrix(T: Matrix, chi: Matrix, pi: Vector): (r: Result<Matrix>)
    requires IsStationaryDistribution(pi, T)
    requires IsMatrix(chi, |pi|, Cols(chi))
    ensures r.Ok? <==> forall I :: 0 <= I < Cols(chi) ==> CoarseWeights(chi, pi)[I] != 0.0
    ensures r.Ok? ==> IsMatrix(r.value, Cols(chi), Cols(chi))
    ensures r.Err? ==> r.error == DegenerateCluster
  {
    var w := CoarseWeights(chi, pi);
    if exists I :: 0 <= I < |w| && w[I] == 0.0 then
      Err(DegenerateCluster)
    else
      Ok(Lump(T, chi, pi, w))
  }

  /**
   Coarse rows sum to one whenever the rows of T and of chi do. The proof
   never uses pi T == pi; the requires states it only because
   CoarseTransitionMatrix asks for it.
   */
  lemma CoarseRowsSumToOne(T: Matrix, chi: Matrix, pi: Vector)
    requires IsStationaryDistribution(pi, T) && IsMatrix(chi, |pi|, Cols(chi))
    requires RowsSumTo(T, 1.0) && RowsSumTo(chi, 1.0)
    ensures CoarseTransitionMatrix(T, chi, pi).Ok? ==>
      RowsSumTo(CoarseTransitionMatrix(T, chi, pi).value, 1.0)
  {
    var r := CoarseTransitionMatrix(T, chi, pi);
    var n, m := |pi|, Cols(chi);
    if r.Ok? && m > 0 {
      var w := CoarseWeights(chi, pi);
      TransposeShape(chi, n, m);
      var Dinv := Diag(Reciprocals(w));
      MatMulShape(Dinv, Transpose(chi), m, m, n);
      var P1 := MatMul(Dinv, Transpose(chi));
      MatMulShape(P1, Diag(pi), m, n, n);
      var P2 := MatMul(P1, Diag(pi));
      MatMulShape(P2, T, m, n, n);
      var P3 := MatMul(P2, T);
      MatMulShape(P3, chi, m, n, m);
      var C := MatMul(P3, chi);
      assert r.value == C;

      MatVecOnes(chi, n, m);
      assert MatVec(chi, Ones(m)) == Ones(n);
      MatVecOnes(T, n, n);
      assert MatVec(T, Ones(n)) == Ones(n);
      MatVecDiag(pi, Ones(n));
      assert MatVec(Diag(pi), Ones(n)) == pi;
      MatVecDiag(Reciprocals(w), w);
      forall I | 0 <= I < m ensures MatVec(Dinv, w)[I] == Ones(m)[I] {
        assert Reciprocals(w)[I] * w[I] == 1.0;
      }
      assert MatVec(Dinv, w) == Ones(m);
      calc {
        MatVec(C, Ones(m));
        == { MatVecOfMatMul(P3, chi, n, m, Ones(m)); }
        MatVec(P3, Ones(n));
        == { MatVecOfMatMul(P2, T, n, n, Ones(n)); }
        MatVec(P2, Ones(n));
        == { MatVecOfMatMul(P1, Diag(pi), n, n, Ones(n)); }
        MatVec(P1, pi);
        == { MatVecOfMatMul(Dinv, Transpose(chi), m, n, pi); }
        Ones(m);
      }
      MatVecOnes(C, m, m);
    }
  }

  /**
   If pi T == pi and the rows of chi sum to one, the coarse weights chiᵀ pi
   are left invariant by the coarse matrix.
   */
  lemma CoarsePreservesStationary(T: Matrix, chi: Matrix, pi: Vector)
    requires IsStationaryDistribution(pi, T) && IsMatrix(chi, |pi|, Cols(chi))
    requires RowsSumTo(chi, 1.0)
    ensures CoarseTransitionMatrix(T, chi, pi).Ok? ==>
      VecMat(CoarseWeights(chi, pi), CoarseTransitionMatrix(T, chi, pi).value, Cols(chi))
        == CoarseWeights(chi, pi)
  {
    var r := CoarseTransitionMatrix(T, chi, pi);
    var n, m := |pi|, Cols(chi);
    if r.Ok? && m > 0 {
      var w := CoarseWeights(chi, pi);
      TransposeShape(chi, n, m);
      var Dinv := Diag(Reciprocals(w));
      MatMulShape(Dinv, Transpose(chi), m, m, n);
      var P1 := MatMul(Dinv, Transpose(chi));
      MatMulShape(P1, Diag(pi), m, n, n);
      var P2 := MatMul(P1, Diag(pi));
      MatMulShape(P2, T, m, n, n);
      var P3 := MatMul(P2, T);
      MatMulShape(P3, chi, m, n, m);
      var C := MatMul(P3, chi);
      assert r.value == C;

      VecMatDiag(w, Reciprocals(w));
      forall I | 0 <= I < m ensures VecMat(w, Dinv, m)[I] == Ones(m)[I] {
        assert Reciprocals(w)[I] * w[I] == 1.0;
      }
      assert VecMat(w, Dinv, m) == Ones(m);
      VecMatTranspose(Ones(m), chi, n, m);
      MatVecOnes(chi, n, m);
      assert VecMat(Ones(m), Transpose(chi), n) == Ones(n);
      VecMatDiag(Ones(n), pi);
      assert VecMat(Ones(n), Diag(pi), n) == pi;
      MatVecTranspose(chi, n, m, pi);
      calc {
        VecMat(w, C, m);
        == { VecMatOfMatMul(w, P3, chi, n, m); }
        VecMat(VecMat(w, P3, n), chi, m);
        == { VecMatOfMatMul(w, P2, T, n, n); }
        VecMat(VecMat(VecMat(w, P2, n), T, n), chi, m);
        == { VecMatOfMatMul(w, P1, Diag(pi), n, n); }
        VecMat(VecMat(VecMat(VecMat(w, P1, n), Diag(pi), n), T, n), chi, m);
        == { VecMatOfMatMul(w, Dinv, Transpose(chi), m, n); }
        VecMat(VecMat(pi, T, n), chi, m);
        == // pi is stationary for T
        VecMat(pi, chi, m);
        == // chiᵀ pi read as a row vector
        w;
      }
    }
  }

  /** diag(1/p) diag(p) is the identity. */
  lemma DiagReciprocalsCancel(p: Vector)
    requires |p| > 0 && forall i :: 0 <= i < |p| ==> p[i] != 0.0
    ensures IsMatrix(Diag(Reciprocals(p)), |p|, |p|)
    ensures MatMul(Diag(Reciprocals(p)), Diag(p)) == Identity(|p|)
  {
    var n := |p|;
    MatMulDiagLeft(Reciprocals(p), Diag(p), n);
    MatrixExt(MatMul(Diag(Reciprocals(p)), Diag(p)), Identity(n), n, n);
  }

  /** With chi the identity (no lumping) and pi strictly positive, the coarse matrix is T itself. */
  lemma CoarseOfIdentity(T: Matrix, pi: Vector)
    requires IsStationaryDistribution(pi, T)
    requires forall i :: 0 <= i < |pi| ==> pi[i] > 0.0
    ensures IsMatrix(Identity(|pi|), |pi|, Cols(Identity(|pi|)))
    ensures CoarseTransitionMatrix(T, Identity(|pi|), pi) == Ok(T)
  {
    var n := |pi|;
    var I := Identity(n);
    assert n > 0;
    TransposeIdentity(n);
    MatVecDiag(Ones(n), pi);
    var w := CoarseWeights(I, pi);
    assert w == pi;
    var Dinv := Diag(Reciprocals(pi));
    DiagReciprocalsCancel(pi);
    MatMulIdentityRight(Dinv, n, n);
    MatMulIdentityLeft(T, n, n);
    MatMulIdentityRight(T, n, n);
    assert Lump(T, I, pi, w) == T;
  }

  /**
   For a transition matrix T, a membership matrix chi and a stationary
   distribution pi of T, the lumped matrix is again a transition matrix and
   chiᵀ pi is a stationary distribution of it.
   */
  lemma CoarseIsMarkovChain(T: Matrix, chi: Matrix, pi: Vector)
    requires IsStationaryDistribution(pi, T) && IsTransitionMatrix(T, |pi|)
    requires IsMembership(chi, |pi|, Cols(chi))
    ensures CoarseTransitionMatrix(T, chi, pi).Ok? ==>
      && IsTransitionMatrix(CoarseTransitionMatrix(T, chi, pi).value, Cols(chi))
      && IsStationaryDistribution(CoarseWeights(chi, pi), CoarseTransitionMatrix(T, chi, pi).value)
  {
    var r := CoarseTransitionMatrix(T, chi, pi);
    var n, m := |pi|, Cols(chi);
    if r.Ok? {
      CoarseRowsSumToOne(T, chi, pi);
      CoarsePreservesStationary(T, chi, pi);
      var w := CoarseWeights(chi, pi);
      // the coarse weights are a probability vector by CoarseWeights' contract;
      // the lumped matrix has no negative entry
      forall I | 0 <= I < m ensures w[I] > 0.0 {
      }
      if m > 0 {
        TransposeShape(chi, n, m);
        var Dinv := Diag(Reciprocals(w));
        assert IsMatrix(Dinv, m, m) && NonNegative(Dinv);
        MatMulNonNegative(Dinv, Transpose(chi), m, m, n);
        var P1 := MatMul(Dinv, Transpose(chi));
        assert IsMatrix(Diag(pi), n, n) && NonNegative(Diag(pi));
        MatMulNonNegative(P1, Diag(pi), m, n, n);
        var P2 := MatMul(P1, Diag(pi));
        MatMulNonNegative(P2, T, m, n, n);
        var P3 := MatMul(P2, T);
        MatMulNonNegative(P3, chi, m, n, m);
        assert r.value == MatMul(P3, chi);
      }
    }
  }

  /**
   Entry (I, J) of the lumped matrix is row I of D_c⁻¹ chiᵀ against
   (D_pi T) chi_J, by the associativity of row-vector products.
   */
  lemma LumpEntryExpanded(T: Matrix, chi: Matrix, pi: Vector, w: Vector, I: nat, J: nat)
    requires |pi| > 0 && IsMatrix(T, |pi|, |pi|) && IsMatrix(chi, |pi|, |w|)
    requires forall K :: 0 <= K < |w| ==> w[K] != 0.0
    requires I < |w| && J < |w|
    requires IsMatrix(Transpose(chi), |w|, |pi|)
    ensures IsMatrix(MatMul(Diag(Reciprocals(w)), Transpose(chi)), |w|, |pi|)
    ensures IsMatrix(MatMul(Diag(pi), T), |pi|, |pi|)
    ensures Lump(T, chi, pi, w)[I][J] ==
      Dot(MatMul(Diag(Reciprocals(w)), Transpose(chi))[I], MatVec(MatMul(Diag(pi), T), Col(chi, J)))
  {
    var n, m := |pi|, |w|;
    var P1 := MatMul(Diag(Reciprocals(w)), Transpose(chi));
    MatMulShape(Diag(Reciprocals(w)), Transpose(chi), m, m, n);
    MatMulShape(P1, Diag(pi), m, n, n);
    var P2 := MatMul(P1, Diag(pi));
    MatMulShape(P2, T, m, n, n);
    var P3 := MatMul(P2, T);
    MatMulShape(Diag(pi), T, n, n, n);
    var S := MatMul(Diag(pi), T);
    VecMatOfMatMul(P1[I], Diag(pi), T, n, n);
    assert P3[I] == VecMat(P1[I], S, n);
    DotVecMat(P1[I], S, n, Col(chi, J));
  }

  /** Row I of D_c⁻¹ chiᵀ is column I of chi scaled by 1 / w[I]. */
  lemma WeightedMembershipRow(chi: Matrix, w: Vector, I: nat, v: Vector)
    requires |chi| > 0 && IsMatrix(chi, |chi|, |w|)
    requires forall K :: 0 <= K < |w| ==> w[K] != 0.0
    requires I < |w| && |v| == |chi|
    ensures IsMatrix(Transpose(chi), |w|, |chi|)
    ensures IsMatrix(MatMul(Diag(Reciprocals(w)), Transpose(chi)), |w|, |chi|)
    ensures Dot(MatMul(Diag(Reciprocals(w)), Transpose(chi))[I], v) == Reciprocals(w)[I] * Dot(Col(chi, I), v)
  {
    DiagTransposeRowDot(Reciprocals(w), chi, I, v);
  }

  /** e == (1 / a) x, written with b standing for 1 / a, gives a e == x. */
  lemma CancelReciprocal(a: real, b: real, e: real, x: real)
    requires a * b == 1.0 && e == b * x
    ensures a * e == x
  {
    assert a * (b * x) == (a * b) * x;
  }

  /** Entry (I, J) of the lumped matrix is chi_Iᵀ (D_pi T) chi_J scaled by 1 / w[I]. */
  lemma LumpEntryScaled(T: Matrix, chi: Matrix, pi: Vector, w: Vector, I: nat, J: nat)
    requires |pi| > 0 && IsMatrix(T, |pi|, |pi|) && IsMatrix(chi, |pi|, |w|)
    requires forall K :: 0 <= K < |w| ==> w[K] != 0.0
    requires I < |w| && J < |w|
    ensures IsMatrix(MatMul(Diag(pi), T), |pi|, |pi|)
    ensures Lump(T, chi, pi, w)[I][J] ==
      Reciprocals(w)[I] * Dot(Col(chi, I), MatVec(MatMul(Diag(pi), T), Col(chi, J)))
  {
    TransposeShape(chi, |pi|, |w|);
    LumpEntryExpanded(T, chi, pi, w, I, J);
    WeightedMembershipRow(chi, w, I, MatVec(MatMul(Diag(pi), T), Col(chi, J)));
  }

  /**
   Entry (I, J) of the lumped matrix, weighted by w[I], is the bilinear form
   chi_Iᵀ (D_pi T) chi_J between columns I and J of chi.
   */
  lemma LumpEntry(T: Matrix, chi: Matrix, pi: Vector, w: Vector, I: nat, J: nat)
    requires |pi| > 0 && IsMatrix(T, |pi|, |pi|) && IsMatrix(chi, |pi|, |w|)
    requires forall K :: 0 <= K < |w| ==> w[K] != 0.0
    requires I < |w| && J < |w|
    ensures IsMatrix(MatMul(Diag(pi), T), |pi|, |pi|)
    ensures w[I] * Lump(T, chi, pi, w)[I][J] ==
      Dot(Col(chi, I), MatVec(MatMul(Diag(pi), T), Col(chi, J)))
  {
    LumpEntryScaled(T, chi, pi, w, I, J);
    CancelReciprocal(w[I], Reciprocals(w)[I], Lump(T, chi, pi, w)[I][J],
      Dot(Col(chi, I), MatVec(MatMul(Diag(pi), T), Col(chi, J))));
  }

  /** Under detailed balance, D_pi T is a symmetric matrix. */
  lemma DetailedBalanceSymmetric(T: Matrix, pi: Vector)
    requires |pi| > 0 && IsMatrix(T, |pi|, |pi|)
    requires forall i, j :: 0 <= i < |pi| && 0 <= j < |pi| ==> pi[i] * T[i][j] == pi[j] * T[j][i]
    ensures IsMatrix(MatMul(Diag(pi), T), |pi|, |pi|)
    ensures forall i, j :: 0 <= i < |pi| && 0 <= j < |pi| ==>
      MatMul(Diag(pi), T)[i][j] == MatMul(Diag(pi), T)[j][i]
  {
    MatMulDiagLeft(pi, T, |pi|);
  }

  /** Lumping a reversible chain with any non-zero weights gives w_I C_IJ == w_J C_JI. */
  lemma LumpReversible(T: Matrix, chi: Matrix, pi: Vector, w: Vector)
    requires |pi| > 0 && IsMatrix(T, |pi|, |pi|) && IsMatrix(chi, |pi|, |w|)
    requires forall K :: 0 <= K < |w| ==> w[K] != 0.0
    requires forall i, j :: 0 <= i < |pi| && 0 <= j < |pi| ==> pi[i] * T[i][j] == pi[j] * T[j][i]
    ensures forall I, J :: 0 <= I < |w| && 0 <= J < |w| ==>
      w[I] * Lump(T, chi, pi, w)[I][J] == w[J] * Lump(T, chi, pi, w)[J][I]
  {
    var C := Lump(T, chi, pi, w);
    DetailedBalanceSymmetric(T, pi);
    var S := MatMul(Diag(pi), T);
    forall I, J | 0 <= I < |w| && 0 <= J < |w| ensures w[I] * C[I][J] == w[J] * C[J][I] {
      LumpEntry(T, chi, pi, w, I, J);
      LumpEntry(T, chi, pi, w, J, I);
      BilinearSymmetric(S, |pi|, Col(chi, I), Col(chi, J));
    }
  }

  /**
   Detailed balance carries over to the lumped chain: if pi_i T_ij ==
   pi_j T_ji for all fine states, then w_I C_IJ == w_J C_JI for the coarse
   matrix C and the coarse weights w = chiᵀ pi.
   */
  lemma CoarsePreservesReversibility(T: Matrix, chi: Matrix, pi: Vector)
    requires IsStationaryDistribution(pi, T) && IsMatrix(chi, |pi|, Cols(chi))
    requires forall i, j :: 0 <= i < |pi| && 0 <= j < |pi| ==> pi[i] * T[i][j] == pi[j] * T[j][i]
    ensures CoarseTransitionMatrix(T, chi, pi).Ok? ==>
      forall I, J :: 0 <= I < Cols(chi) && 0 <= J < Cols(chi) ==>
        CoarseWeights(chi, pi)[I] * CoarseTransitionMatrix(T, chi, pi).value[I][J] ==
        CoarseWeights(chi, pi)[J] * CoarseTransitionMatrix(T, chi, pi).value[J][I]
  {
    if CoarseTransitionMatrix(T, chi, pi).Ok? {
      assert |pi| > 0;
      LumpReversible(T, chi, pi, CoarseWeights(chi, pi));
    }
  }
}
