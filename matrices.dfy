/**
 Dense real matrices as sequences of rows, with the handful of operations the
 lumping formula and the rate-matrix checks are built from: sums, dot
 products, matrix-vector and vector-matrix products, matrix products,
 transposes and diagonal matrices. Arithmetic is exact: there is no rounding.
 */
module Matrices {

  type Vector = seq<real>
  type Matrix = seq<seq<real>>

  /** M has r rows of c entries each. */
  predicate IsMatrix(M: Matrix, r: nat, c: nat) {
    |M| == r && forall i :: 0 <= i < r ==> |M[i]| == c
  }

  /** The number of columns of M, read off its first row (0 when M has no rows). */
  function Cols(M: Matrix): nat {
    if |M| == 0 then 0 else |M[0]|
  }

  /** Every entry of M is non-negative. */
  predicate NonNegative(M: Matrix) {
    forall i, j :: 0 <= i < |M| && 0 <= j < |M[i]| ==> M[i][j] >= 0.0
  }

  function Sum(v: Vector): real {
    if |v| == 0 then 0.0 else v[0] + Sum(v[1..])
  }

  /** Every row of M sums to s. */
  predicate RowsSumTo(M: Matrix, s: real) {
    forall i :: 0 <= i < |M| ==> Sum(M[i]) == s
  }

  function Ones(n: nat): Vector {
    seq(n, _ => 1.0)
  }

  function Dot(u: Vector, v: Vector): real
    requires |u| == |v|
  {
    if |u| == 0 then 0.0 else u[0] * v[0] + Dot(u[1..], v[1..])
  }

  /** s * x + y, entry by entry. */
  function Axpy(s: real, x: Vector, y: Vector): Vector
    requires |x| == |y|
  {
    seq(|x|, j requires 0 <= j < |x| => s * x[j] + y[j])
  }

  /** Column j of M. */
  function Col(M: Matrix, j: nat): Vector
    requires forall i :: 0 <= i < |M| ==> j < |M[i]|
  {
    seq(|M|, i requires 0 <= i < |M| => M[i][j])
  }

  /** The column vector M v. */
  function MatVec(M: Matrix, v: Vector): Vector
    requires forall i :: 0 <= i < |M| ==> |M[i]| == |v|
  {
    seq(|M|, i requires 0 <= i < |M| => Dot(M[i], v))
  }

  /** The row vector v M, for M with |v| rows of c entries. */
  function VecMat(v: Vector, M: Matrix, c: nat): Vector
    requires IsMatrix(M, |v|, c)
  {
    seq(c, j requires 0 <= j < c => Dot(v, Col(M, j)))
  }

  /** The product A B: row i of it is (row i of A) B. */
  function MatMul(A: Matrix, B: Matrix): Matrix
    requires IsMatrix(B, |B|, Cols(B))
    requires forall i :: 0 <= i < |A| ==> |A[i]| == |B|
  {
    seq(|A|, i requires 0 <= i < |A| => VecMat(A[i], B, Cols(B)))
  }

  function Transpose(M: Matrix): Matrix
    requires IsMatrix(M, |M|, Cols(M))
  {
    seq(Cols(M), j requires 0 <= j < Cols(M) => Col(M, j))
  }

  /** The square matrix with d on its diagonal and zeros elsewhere. */
  function Diag(d: Vector): Matrix {
    seq(|d|, i requires 0 <= i < |d| => seq(|d|, j => if i == j then d[i] else 0.0))
  }

  function Identity(n: nat): Matrix {
    Diag(Ones(n))
  }

  /** s M, entry by entry. */
  function Scale(s: real, M: Matrix): Matrix {
    seq(|M|, i requires 0 <= i < |M| => seq(|M[i]|, j requires 0 <= j < |M[i]| => s * M[i][j]))
  }

  // ---------------------------------------------------------------------------
  // Sums and dot products

  lemma {:induction false} SumSplit(v: Vector, k: nat)
    requires k <= |v|
    ensures Sum(v) == Sum(v[..k]) + Sum(v[k..])
  {
    if k > 0 {
      SumSplit(v[1..], k - 1);
      assert v[1..][..k - 1] == v[..k][1..];
      assert v[1..][k - 1..] == v[k..];
    } else {
      assert v[k..] == v;
    }
  }

  lemma {:induction false} SumZero(v: Vector)
    requires forall i :: 0 <= i < |v| ==> v[i] == 0.0
    ensures Sum(v) == 0.0
  {
    if |v| > 0 {
      SumZero(v[1..]);
    }
  }

  /** When every entry outside [lo, hi) is zero, the sum is the sum of that window. */
  lemma SumWindow(v: Vector, lo: nat, hi: nat)
    requires lo <= hi <= |v|
    requires forall i :: 0 <= i < |v| && !(lo <= i < hi) ==> v[i] == 0.0
    ensures Sum(v) == Sum(v[lo..hi])
  {
    SumSplit(v, hi);
    SumSplit(v[..hi], lo);
    assert v[..hi][..lo] == v[..lo];
    assert v[..hi][lo..] == v[lo..hi];
    SumZero(v[..lo]);
    SumZero(v[hi..]);
  }

  lemma SumShort(v: Vector)
    ensures |v| == 2 ==> Sum(v) == v[0] + v[1]
    ensures |v| == 3 ==> Sum(v) == v[0] + v[1] + v[2]
  {
  }

  /** A sum whose entries other than v[k] are non-negative is at least v[k]. */
  lemma {:induction false} SumAtLeastEntry(v: Vector, k: nat)
    requires k < |v|
    requires forall i :: 0 <= i < |v| && i != k ==> v[i] >= 0.0
    ensures Sum(v) >= v[k]
  {
    if k == 0 {
      SumNonNegative(v[1..]);
    } else {
      SumAtLeastEntry(v[1..], k - 1);
    }
  }

  lemma {:induction false} SumNonNegative(v: Vector)
    requires forall i :: 0 <= i < |v| ==> v[i] >= 0.0
    ensures Sum(v) >= 0.0
  {
    if |v| > 0 {
      SumNonNegative(v[1..]);
    }
  }

  lemma {:induction false} DotComm(u: Vector, v: Vector)
    requires |u| == |v|
    ensures Dot(u, v) == Dot(v, u)
  {
    if |u| > 0 {
      DotComm(u[1..], v[1..]);
    }
  }

  lemma {:induction false} DotZero(u: Vector, v: Vector)
    requires |u| == |v|
    requires forall k :: 0 <= k < |v| ==> v[k] == 0.0
    ensures Dot(u, v) == 0.0
  {
    if |u| > 0 {
      DotZero(u[1..], v[1..]);
    }
  }

  /** Dotting with a vector that is zero except at k picks out u[k]. */
  lemma {:induction false} DotPoint(u: Vector, v: Vector, k: nat)
    requires |u| == |v| && k < |v|
    requires forall i :: 0 <= i < |v| && i != k ==> v[i] == 0.0
    ensures Dot(u, v) == u[k] * v[k]
  {
    if k == 0 {
      DotZero(u[1..], v[1..]);
    } else {
      DotPoint(u[1..], v[1..], k - 1);
    }
  }

  lemma {:induction false} DotOnes(v: Vector)
    ensures Dot(v, Ones(|v|)) == Sum(v)
  {
    if |v| > 0 {
      assert Ones(|v|)[1..] == Ones(|v| - 1);
      DotOnes(v[1..]);
    }
  }

  lemma {:induction false} DotNonNegative(u: Vector, v: Vector)
    requires |u| == |v|
    requires forall k :: 0 <= k < |u| ==> u[k] >= 0.0 && v[k] >= 0.0
    ensures Dot(u, v) >= 0.0
  {
    if |u| > 0 {
      DotNonNegative(u[1..], v[1..]);
    }
  }

  lemma {:induction false} DotAxpy(s: real, x: Vector, y: Vector, v: Vector)
    requires |x| == |y| == |v|
    ensures Dot(Axpy(s, x, y), v) == s * Dot(x, v) + Dot(y, v)
  {
    if |x| > 0 {
      forall j | 0 <= j < |x| - 1 ensures Axpy(s, x, y)[1..][j] == Axpy(s, x[1..], y[1..])[j] {
        assert Axpy(s, x, y)[j + 1] == s * x[j + 1] + y[j + 1];
      }
      assert Axpy(s, x, y)[1..] == Axpy(s, x[1..], y[1..]);
      DotAxpy(s, x[1..], y[1..], v[1..]);
      assert s * Dot(x, v) == s * x[0] * v[0] + s * Dot(x[1..], v[1..]);
    }
  }

  /** A factor common to every entry of x comes out of the dot product. */
  lemma {:induction false} DotScale(s: real, x: Vector, y: Vector, v: Vector)
    requires |x| == |y| == |v|
    requires forall k :: 0 <= k < |x| ==> x[k] == s * y[k]
    ensures Dot(x, v) == s * Dot(y, v)
  {
    if |x| > 0 {
      DotScale(s, x[1..], y[1..], v[1..]);
      assert s * Dot(y, v) == s * y[0] * v[0] + s * Dot(y[1..], v[1..]);
    }
  }

  // ---------------------------------------------------------------------------
  // Products

  lemma MatMulShape(A: Matrix, B: Matrix, r: nat, k: nat, c: nat)
    requires IsMatrix(A, r, k) && IsMatrix(B, k, c) && (k > 0 || r == 0)
    ensures IsMatrix(MatMul(A, B), r, c)
  {
  }

  lemma TransposeShape(M: Matrix, r: nat, c: nat)
    requires IsMatrix(M, r, c) && r > 0
    ensures IsMatrix(Transpose(M), c, r)
    ensures forall i, j :: 0 <= i < c && 0 <= j < r ==> Transpose(M)[i][j] == M[j][i]
  {
  }

  /** Peeling off the first row: a B == a[0] B[0] + a[1..] B[1..]. */
  lemma VecMatFirstRow(a: Vector, B: Matrix, c: nat)
    requires IsMatrix(B, |a|, c) && |a| > 0
    ensures VecMat(a, B, c) == Axpy(a[0], B[0], VecMat(a[1..], B[1..], c))
  {
    forall j | 0 <= j < c
      ensures VecMat(a, B, c)[j] == Axpy(a[0], B[0], VecMat(a[1..], B[1..], c))[j]
    {
      assert Col(B, j)[1..] == Col(B[1..], j);
    }
  }

  /**
   The bilinear form a B v can be evaluated from either side (a double-sum
   exchange); u is any vector whose entry i is row i of B dotted with v.
   */
  lemma {:induction false} DotVecMatRows(a: Vector, B: Matrix, c: nat, v: Vector, u: Vector)
    requires IsMatrix(B, |a|, c) && |v| == c && |u| == |a|
    requires forall i :: 0 <= i < |a| ==> u[i] == Dot(B[i], v)
    ensures Dot(VecMat(a, B, c), v) == Dot(a, u)
  {
    if |a| == 0 {
      DotZero(v, VecMat(a, B, c));
      DotComm(v, VecMat(a, B, c));
    } else {
      var a', B', u' := a[1..], B[1..], u[1..];
      forall i | 0 <= i < |a'| ensures u'[i] == Dot(B'[i], v) {
        assert u'[i] == u[i + 1] && B'[i] == B[i + 1];
      }
      DotVecMatRows(a', B', c, v, u');
      VecMatFirstRow(a, B, c);
      DotAxpy(a[0], B[0], VecMat(a', B', c), v);
    }
  }

  /** The bilinear form a B v can be evaluated from either side. */
  lemma DotVecMat(a: Vector, B: Matrix, c: nat, v: Vector)
    requires IsMatrix(B, |a|, c) && |v| == c
    ensures Dot(VecMat(a, B, c), v) == Dot(a, MatVec(B, v))
  {
    DotVecMatRows(a, B, c, v, MatVec(B, v));
  }

  /** (A B) v == A (B v) */
  lemma MatVecOfMatMul(A: Matrix, B: Matrix, k: nat, c: nat, v: Vector)
    requires IsMatrix(A, |A|, k) && IsMatrix(B, k, c) && k > 0 && |v| == c
    ensures MatVec(MatMul(A, B), v) == MatVec(A, MatVec(B, v))
  {
    forall i | 0 <= i < |A|
      ensures MatVec(MatMul(A, B), v)[i] == MatVec(A, MatVec(B, v))[i]
    {
      DotVecMat(A[i], B, c, v);
    }
  }

  /** v (A B) == (v A) B */
  lemma VecMatOfMatMul(v: Vector, A: Matrix, B: Matrix, k: nat, c: nat)
    requires IsMatrix(A, |v|, k) && IsMatrix(B, k, c) && k > 0
    ensures IsMatrix(MatMul(A, B), |v|, c)
    ensures VecMat(v, MatMul(A, B), c) == VecMat(VecMat(v, A, k), B, c)
  {
    MatMulShape(A, B, |v|, k, c);
    forall j | 0 <= j < c
      ensures VecMat(v, MatMul(A, B), c)[j] == VecMat(VecMat(v, A, k), B, c)[j]
    {
      assert Col(MatMul(A, B), j) == MatVec(A, Col(B, j));
      DotVecMat(v, A, k, Col(B, j));
    }
  }

  /** M 1 is the vector of row sums of M. */
  lemma MatVecOnes(M: Matrix, r: nat, c: nat)
    requires IsMatrix(M, r, c)
    ensures forall i :: 0 <= i < r ==> MatVec(M, Ones(c))[i] == Sum(M[i])
  {
    forall i | 0 <= i < r ensures MatVec(M, Ones(c))[i] == Sum(M[i]) {
      DotOnes(M[i]);
    }
  }

  /** Mᵀ v == v M */
  lemma MatVecTranspose(M: Matrix, r: nat, c: nat, v: Vector)
    requires IsMatrix(M, r, c) && r > 0 && |v| == r
    ensures MatVec(Transpose(M), v) == VecMat(v, M, c)
  {
    forall j | 0 <= j < c ensures MatVec(Transpose(M), v)[j] == VecMat(v, M, c)[j] {
      DotComm(Col(M, j), v);
    }
  }

  /** v Mᵀ == M v */
  lemma VecMatTranspose(v: Vector, M: Matrix, r: nat, c: nat)
    requires IsMatrix(M, r, c) && r > 0 && |v| == c
    ensures IsMatrix(Transpose(M), c, r)
    ensures VecMat(v, Transpose(M), r) == MatVec(M, v)
  {
    TransposeShape(M, r, c);
    forall i | 0 <= i < r ensures VecMat(v, Transpose(M), r)[i] == MatVec(M, v)[i] {
      assert Col(Transpose(M), i) == M[i];
      DotComm(v, M[i]);
    }
  }

  /** For a symmetric S the bilinear form a S b is symmetric in a and b. */
  lemma BilinearSymmetric(S: Matrix, n: nat, a: Vector, b: Vector)
    requires IsMatrix(S, n, n) && n > 0 && |a| == n && |b| == n
    requires forall i, j :: 0 <= i < n && 0 <= j < n ==> S[i][j] == S[j][i]
    ensures Dot(a, MatVec(S, b)) == Dot(b, MatVec(S, a))
  {
    TransposeShape(S, n, n);
    MatrixExt(Transpose(S), S, n, n);
    VecMatTranspose(b, S, n, n);
    assert MatVec(S, b) == VecMat(b, S, n);
    DotComm(a, VecMat(b, S, n));
    DotVecMat(b, S, n, a);
  }

  lemma MatVecDiag(d: Vector, v: Vector)
    requires |d| == |v|
    ensures forall i :: 0 <= i < |d| ==> MatVec(Diag(d), v)[i] == d[i] * v[i]
  {
    forall i | 0 <= i < |d| ensures MatVec(Diag(d), v)[i] == d[i] * v[i] {
      DotComm(Diag(d)[i], v);
      DotPoint(v, Diag(d)[i], i);
    }
  }

  lemma VecMatDiag(v: Vector, d: Vector)
    requires |d| == |v|
    ensures IsMatrix(Diag(d), |d|, |d|)
    ensures forall j :: 0 <= j < |d| ==> VecMat(v, Diag(d), |d|)[j] == v[j] * d[j]
  {
    forall j | 0 <= j < |d| ensures VecMat(v, Diag(d), |d|)[j] == v[j] * d[j] {
      DotPoint(v, Col(Diag(d), j), j);
    }
  }

  /** Diag(d) B scales row i of B by d[i]. */
  lemma MatMulDiagLeft(d: Vector, B: Matrix, c: nat)
    requires IsMatrix(B, |d|, c) && |d| > 0
    ensures IsMatrix(MatMul(Diag(d), B), |d|, c)
    ensures forall i, j :: 0 <= i < |d| && 0 <= j < c ==> MatMul(Diag(d), B)[i][j] == d[i] * B[i][j]
  {
    MatMulShape(Diag(d), B, |d|, |d|, c);
    forall i, j | 0 <= i < |d| && 0 <= j < c
      ensures MatMul(Diag(d), B)[i][j] == d[i] * B[i][j]
    {
      DotComm(Diag(d)[i], Col(B, j));
      DotPoint(Col(B, j), Diag(d)[i], i);
    }
  }

  /** Row i of diag(d) B, dotted with v, is d[i] times row i of B dotted with v. */
  lemma DiagRowDot(d: Vector, B: Matrix, c: nat, i: nat, v: Vector)
    requires IsMatrix(B, |d|, c) && i < |d| && |v| == c
    ensures IsMatrix(MatMul(Diag(d), B), |d|, c)
    ensures Dot(MatMul(Diag(d), B)[i], v) == d[i] * Dot(B[i], v)
  {
    MatMulDiagLeft(d, B, c);
    DotScale(d[i], MatMul(Diag(d), B)[i], B[i], v);
  }

  /** Row i of diag(d) Mᵀ, dotted with v, is d[i] times column i of M dotted with v. */
  lemma DiagTransposeRowDot(d: Vector, M: Matrix, i: nat, v: Vector)
    requires |M| > 0 && IsMatrix(M, |M|, |d|) && i < |d| && |v| == |M|
    ensures IsMatrix(Transpose(M), |d|, |M|)
    ensures IsMatrix(MatMul(Diag(d), Transpose(M)), |d|, |M|)
    ensures Dot(MatMul(Diag(d), Transpose(M))[i], v) == d[i] * Dot(Col(M, i), v)
  {
    TransposeShape(M, |M|, |d|);
    DiagRowDot(d, Transpose(M), |M|, i, v);
  }

  /** A Diag(d) scales column j of A by d[j]. */
  lemma MatMulDiagRight(A: Matrix, d: Vector, r: nat)
    requires IsMatrix(A, r, |d|) && |d| > 0
    ensures IsMatrix(MatMul(A, Diag(d)), r, |d|)
    ensures forall i, j :: 0 <= i < r && 0 <= j < |d| ==> MatMul(A, Diag(d))[i][j] == A[i][j] * d[j]
  {
    MatMulShape(A, Diag(d), r, |d|, |d|);
    forall i | 0 <= i < r
      ensures forall j :: 0 <= j < |d| ==> MatMul(A, Diag(d))[i][j] == A[i][j] * d[j]
    {
      VecMatDiag(A[i], d);
    }
  }

  lemma TransposeIdentity(n: nat)
    requires n > 0
    ensures IsMatrix(Identity(n), n, n) && Transpose(Identity(n)) == Identity(n)
  {
    TransposeShape(Identity(n), n, n);
    MatrixExt(Transpose(Identity(n)), Identity(n), n, n);
  }

  lemma MatMulIdentityLeft(B: Matrix, n: nat, c: nat)
    requires IsMatrix(B, n, c) && n > 0
    ensures MatMul(Identity(n), B) == B
  {
    MatMulDiagLeft(Ones(n), B, c);
    MatrixExt(MatMul(Identity(n), B), B, n, c);
  }

  lemma MatMulIdentityRight(A: Matrix, r: nat, n: nat)
    requires IsMatrix(A, r, n) && n > 0
    ensures MatMul(A, Identity(n)) == A
  {
    MatMulDiagRight(A, Ones(n), r);
    forall i, j | 0 <= i < r && 0 <= j < n ensures MatMul(A, Identity(n))[i][j] == A[i][j] {
      assert Ones(n)[j] == 1.0;
    }
    MatrixExt(MatMul(A, Identity(n)), A, r, n);
  }

  lemma MatMulNonNegative(A: Matrix, B: Matrix, r: nat, k: nat, c: nat)
    requires IsMatrix(A, r, k) && IsMatrix(B, k, c) && (k > 0 || r == 0)
    requires NonNegative(A) && NonNegative(B)
    ensures IsMatrix(MatMul(A, B), r, c) && NonNegative(MatMul(A, B))
  {
    MatMulShape(A, B, r, k, c);
    forall i, j | 0 <= i < r && 0 <= j < c ensures MatMul(A, B)[i][j] >= 0.0 {
      DotNonNegative(A[i], Col(B, j));
    }
  }

  /** Two r-by-c matrices with the same entries are equal. */
  lemma MatrixExt(A: Matrix, B: Matrix, r: nat, c: nat)
    requires IsMatrix(A, r, c) && IsMatrix(B, r, c)
    requires forall i, j :: 0 <= i < r && 0 <= j < c ==> A[i][j] == B[i][j]
    ensures A == B
  {
    forall i | 0 <= i < r ensures A[i] == B[i] {
      assert forall j :: 0 <= j < c ==> A[i][j] == B[i][j];
    }
  }
}
