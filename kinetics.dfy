/**
 The gating model of a voltage-gated channel with four identical subunits:
 a linear chain of states C1 <-> C2 <-> C3 <-> C4 <-> O, where state k has k
 activated subunits. Each of the 4 - k resting subunits activates at rate
 alpha and each of the k active ones deactivates at rate beta. The singlet
 model is the same chain for one subunit on its own.
 */
module Kinetics {
  import opened Matrices
  import opened Markov
  import opened Outcomes

  /** The channel's forward (a = alpha) and backward (b = beta) rate constants, fixed at construction. */
  datatype Channel = Channel(a: real, b: real)

  /**
   The state table: index of a state in the chain to its label. It covers
   exactly the five states, and the five labels are all different.
   */
  function StateMap(): (m: map<int, string>)
    ensures m.Keys == {0, 1, 2, 3, 4}
    ensures forall i, j :: i in m && j in m && m[i] == m[j] ==> i == j
  {
    map[0 := "C1", 1 := "C2", 2 := "C3", 3 := "C4", 4 := "O"]
  }

  /** Label of state idx; an index outside the table fails as the dictionary lookup does. */
  function Index2State(idx: int): (r: Result<string>)
    ensures r.Ok? <==> 0 <= idx < 5
    ensures r.Ok? ==> r.value == ["C1", "C2", "C3", "C4", "O"][idx]
    ensures r.Err? ==> r.error == UnknownIndex(idx)
  {
    if idx in StateMap() then Ok(StateMap()[idx]) else Err(UnknownIndex(idx))
  }

  /** Distinct states carry distinct labels. */
  lemma Index2StateInjective(i: int, j: int)
    requires Index2State(i).Ok? && Index2State(i) == Index2State(j)
    ensures i == j
  {
  }

  /** The open state is the last one in the chain, the one with every subunit activated. */
  lemma OpenStateIsLast(i: int)
    ensures Index2State(i) == Ok("O") <==> i == 4
  {
  }

  // ---------------------------------------------------------------------------
  // Reference definition: the binomial chain for n independent subunits

  /**
   Rate from state i to state j in the chain of n identical subunits: forward
   (n - i) a, backward i b, the diagonal minus the rates out of i.
   */
  function ChainRate(n: int, a: real, b: real, i: int, j: int): real {
    if j == i + 1 then (n - i) as real * a
    else if i == j + 1 then i as real * b
    else if i == j then -((n - i) as real * a + i as real * b)
    else 0.0
  }

  /** The (n + 1)-state generator of n identical subunits. */
  function BinomialChain(n: nat, a: real, b: real): Matrix {
    seq(n + 1, i => seq(n + 1, j => ChainRate(n, a, b, i, j)))
  }

  lemma {:induction false} BinomialChainRowSum(n: nat, a: real, b: real, i: nat)
    requires 1 <= n && i <= n
    ensures Sum(BinomialChain(n, a, b)[i]) == 0.0
  {
    var row := BinomialChain(n, a, b)[i];
    var lo := if i == 0 then 0 else i - 1;
    var hi := if i == n then n + 1 else i + 2;
    SumWindow(row, lo, hi);
    var w := row[lo..hi];
    SumShort(w);
    if 0 < i < n {
      assert w[0] == i as real * b && w[2] == (n - i) as real * a;
    }
  }

  /**
   The binomial chain is a generator exactly when both rates are
   non-negative; its row sums vanish whatever the rates.
   */
  lemma BinomialChainIsRateMatrix(n: nat, a: real, b: real)
    requires n >= 1
    ensures RowsSumTo(BinomialChain(n, a, b), 0.0)
    ensures IsRateMatrix(BinomialChain(n, a, b), n + 1) <==> a >= 0.0 && b >= 0.0
  {
    var Q := BinomialChain(n, a, b);
    forall i | 0 <= i < n + 1 ensures Sum(Q[i]) == 0.0 {
      BinomialChainRowSum(n, a, b, i);
    }
    if a >= 0.0 && b >= 0.0 {
      forall i, j | 0 <= i < n + 1 && 0 <= j < n + 1 && i != j ensures Q[i][j] >= 0.0 {
        if j == i + 1 {
          assert (n - i) as real >= 0.0;
        }
      }
    } else {
      // the rates out of the two end states are n a and n b
      assert Q[0][1] == n as real * a && Q[n][n - 1] == n as real * b;
      if a < 0.0 {
        assert n as real * a < 0.0;
      } else {
        assert n as real * b < 0.0;
      }
    }
  }

  // ---------------------------------------------------------------------------
  // rate_matrix and rate_matrix_singlet

  /**
   The five rows rate_matrix fills in, before its generator check. They are
   the four-subunit binomial chain.
   */
  function RateEntries(c: Channel): (r: Matrix)
    ensures r == BinomialChain(4, c.a, c.b)
  {
    var a, b := c.a, c.b;
    var M :=
      [ [-4.0 * a, 4.0 * a, 0.0, 0.0, 0.0],
        [b, -b - 3.0 * a, 3.0 * a, 0.0, 0.0],
        [0.0, 2.0 * b, -2.0 * (a + b), 2.0 * a, 0.0],
        [0.0, 0.0, 3.0 * b, -3.0 * b - a, a],
        [0.0, 0.0, 0.0, 4.0 * b, -4.0 * b] ];
    assert forall i, j :: 0 <= i < 5 && 0 <= j < 5 ==> M[i][j] == BinomialChain(4, a, b)[i][j];
    MatrixExt(M, BinomialChain(4, a, b), 5, 5);
    M
  }

  /**
   The 5-state generator of the channel. It is returned when the generator
   check passes, which is exactly when both rates are non-negative.
   */
  function RateMatrix(c: Channel): (r: Result<Matrix>)
    ensures r.Ok? <==> c.a >= 0.0 && c.b >= 0.0
    ensures r.Ok? ==> r.value == BinomialChain(4, c.a, c.b) && IsRateMatrix(r.value, 5)
    // A restatement, for callers, of what the contract of IsRateMatrix gives.
    ensures r.Ok? ==> forall i :: 0 <= i < 5 ==> r.value[i][i] <= 0.0
    ensures r.Err? ==> r.error == NotRateMatrix
  {
    var rmat := RateEntries(c);
    BinomialChainIsRateMatrix(4, c.a, c.b);
    if IsRateMatrix(rmat, 5) then Ok(rmat) else Err(NotRateMatrix)
  }

  /**
   The chain only links neighbours: state k goes forward at (n - k) a and
   back from k + 1 at (k + 1) b, with no jumps over a neighbour. With n = 4
   this is the band rate_matrix writes out.
   */
  lemma BinomialChainTridiagonal(n: nat, a: real, b: real)
    ensures forall k :: 0 <= k < n ==>
      BinomialChain(n, a, b)[k][k + 1] == (n - k) as real * a &&
      BinomialChain(n, a, b)[k + 1][k] == (k + 1) as real * b
    ensures forall i, j :: 0 <= i <= n && 0 <= j <= n && (i - j > 1 || j - i > 1) ==>
      BinomialChain(n, a, b)[i][j] == 0.0
  {
  }

  /** With alpha = 0.05 and beta = 0.07 the first row is [-0.2, 0.2, 0, 0, 0]. */
  lemma RateMatrixExample()
    ensures RateMatrix(Channel(0.05, 0.07)).Ok?
    ensures RateMatrix(Channel(0.05, 0.07)).value[0] == [-0.2, 0.2, 0.0, 0.0, 0.0]
  {
  }

  /**
   The two rows rate_matrix_singlet fills in, before its generator check.
   They are the one-subunit binomial chain.
   */
  function SingletEntries(c: Channel): (r: Matrix)
    ensures r == BinomialChain(1, c.a, c.b)
  {
    var M :=
      [ [-c.a, c.a],
        [c.b, -c.b] ];
    assert forall i, j :: 0 <= i < 2 && 0 <= j < 2 ==> M[i][j] == BinomialChain(1, c.a, c.b)[i][j];
    MatrixExt(M, BinomialChain(1, c.a, c.b), 2, 2);
    M
  }

  /**
   The 2-state generator of one subunit, returned when the generator check
   passes, which is exactly when both rates are non-negative.
   */
  function RateMatrixSinglet(c: Channel): (r: Result<Matrix>)
    ensures r.Ok? <==> c.a >= 0.0 && c.b >= 0.0
    ensures r.Ok? ==> r.value == BinomialChain(1, c.a, c.b) && IsRateMatrix(r.value, 2)
    ensures r.Err? ==> r.error == NotRateMatrix
  {
    var rmat := SingletEntries(c);
    BinomialChainIsRateMatrix(1, c.a, c.b);
    if IsRateMatrix(rmat, 2) then Ok(rmat) else Err(NotRateMatrix)
  }

  // ---------------------------------------------------------------------------
  // transition_matrix and transition_matrix_singlet, with the matrix
  // exponential supplied by the caller

  /**
   exp(lag Q) for the 5-state generator Q, returned when it passes the
   stochasticity check; expm stands for the matrix exponential.
   */
  function TransitionMatrix(c: Channel, lag: real, expm: Matrix -> Matrix): (r: Result<Matrix>)
    ensures r.Ok? <==>
      c.a >= 0.0 && c.b >= 0.0 && IsTransitionMatrix(expm(Scale(lag, BinomialChain(4, c.a, c.b))), 5)
    ensures r.Ok? ==> r.value == expm(Scale(lag, BinomialChain(4, c.a, c.b))) && IsTransitionMatrix(r.value, 5)
    ensures !(c.a >= 0.0 && c.b >= 0.0) ==> r == Err(NotRateMatrix)
    ensures c.a >= 0.0 && c.b >= 0.0 && !IsTransitionMatrix(expm(Scale(lag, BinomialChain(4, c.a, c.b))), 5) ==>
      r == Err(NotTransitionMatrix)
  {
    match RateMatrix(c)
    case Err(e) => Err(e)
    case Ok(q) =>
      var tmat := expm(Scale(lag, q));
      if IsTransitionMatrix(tmat, 5) then Ok(tmat) else Err(NotTransitionMatrix)
  }

  /**
   exp(lag Q) for the 2-state generator Q. As written, the stochasticity
   check is applied to the exponential of the 5-state generator, not to the
   matrix returned.
   */
  function TransitionMatrixSinglet(c: Channel, lag: real, expm: Matrix -> Matrix): (r: Result<Matrix>)
    ensures r.Ok? <==>
      c.a >= 0.0 && c.b >= 0.0 && IsTransitionMatrix(expm(Scale(lag, BinomialChain(4, c.a, c.b))), 5)
    ensures r.Ok? ==> r.value == expm(Scale(lag, BinomialChain(1, c.a, c.b)))
    ensures !(c.a >= 0.0 && c.b >= 0.0) ==> r == Err(NotRateMatrix)
    ensures c.a >= 0.0 && c.b >= 0.0 && !IsTransitionMatrix(expm(Scale(lag, BinomialChain(4, c.a, c.b))), 5) ==>
      r == Err(NotTransitionMatrix)
  {
    match RateMatrixSinglet(c)
    case Err(e) => Err(e)
    case Ok(q2) =>
      var tmat := expm(Scale(lag, q2));
      match RateMatrix(c)
      case Err(e) => Err(e)
      case Ok(q5) =>
        if IsTransitionMatrix(expm(Scale(lag, q5)), 5) then Ok(tmat) else Err(NotTransitionMatrix)
  }
}
