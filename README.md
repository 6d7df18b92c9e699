# Channel gating kinetics and PCCA+ lumping, in Dafny

This project models the exact matrix algebra of `local.py` in the
decomposed_msms repository:

- `Channel`: a potassium-type channel with four identical subunits. Its gating is
  the continuous-time Markov chain C1 <-> C2 <-> C3 <-> C4 <-> O. The channel
  builds the 5-state generator (`rate_matrix`) and the 2-state one for a single
  subunit (`rate_matrix_singlet`) from its rates alpha and beta. It checks each
  generator, exponentiates it over a lag (`transition_matrix`,
  `transition_matrix_singlet`) and labels states (`index2state`).
- `cg_transition_matrix`: the lumping D_c⁻¹ χᵀ D_π T χ of a fine transition
  matrix T onto coarse states. χ is a membership matrix and π a stationary
  distribution of T. This is Eq. 14 of Röblitz and Weber (2013).

Matrices are `seq<seq<real>>` and arithmetic is exact. The project has these modules:

- `Matrices` (matrices.dfy): the numpy operations the source uses (sums, dot and
  matrix products, transpose, `diag`). It also proves the double-sum exchange
  `Dot(v A, u) == Dot(v, A u)` and the associativity facts derived from it.
- `Markov` (markov.dfy): predicates for a generator, a transition matrix, a
  stationary distribution and a membership matrix, as documented conditions
  without a tolerance.
- `Outcomes` (outcomes.dfy): the failures as a `Result`. A failed `assert` becomes
  `NotRateMatrix` or `NotTransitionMatrix`. The dictionary `KeyError` becomes
  `UnknownIndex`. A zero coarse weight becomes `DegenerateCluster`.
- `Kinetics` (kinetics.dfy): the channel. `BinomialChain(n, a, b)` is an independent
  reference definition of the generator of n subunits. State k goes forward at
  (n − k)·a and back at k·b. The five rows written out in `rate_matrix` are proved
  equal to `BinomialChain(4, a, b)`, and the singlet rows to `BinomialChain(1, a, b)`.
- `CoarseGraining` (coarse_graining.dfy): the lumping and its properties.

The channel's fields are set once in `__init__` and never updated. So `Channel` is a
value (`datatype Channel(a, b)`) and its operations are functions of it. The
generators are built in a fresh `np.zeros` array that nothing else sees. They are
modelled as functions that return the filled matrix.

Modelling choices:

- The generator check is modelled as: square, non-negative off the diagonal, rows
  summing to zero. A non-positive diagonal is also part of the usual definition of a
  generator. The model proves it from the other two conditions (the contract of `IsRateMatrix`).
- The lumping's doc comment speaks of a crisp membership matrix. The code
  accepts any χ, and the model does too (fuzzy rows included).
- `index2state` is a method of the channel but reads only the class-level
  table. It is modelled as a function of the index alone.
- `transition_matrix` and `transition_matrix_singlet` default to `lag=1`
  (local.py:36, local.py:50). A call without an argument is
  `TransitionMatrix(c, 1.0, expm)` (or `TransitionMatrixSinglet(c, 1.0, expm)`).

## Model

| member | source | states |
|---|---|---|
| `Kinetics.Index2State` | local.py:55-56 | a label is returned exactly for indices 0..4, namely C1, C2, C3, C4, O in that order; any other index fails with `UnknownIndex(idx)`, as the dictionary lookup raises |
| `Kinetics.StateMap` | local.py:11-17 | the table has exactly the keys 0..4 and no two keys share a label |
| `Kinetics.Index2StateInjective` | local.py:11-17 | two indices with the same label are the same index |
| `Kinetics.OpenStateIsLast` | local.py:11-17 | the label "O" belongs to index 4 and to no other index, the last state of the chain |
| `Kinetics.RateEntries` | local.py:25-30 | the five written-out rows are the generator of four independent subunits: forward (4 − k)·alpha, backward k·beta, diagonal minus the outflow |
| `Kinetics.BinomialChainIsRateMatrix` | local.py:26-32 | the chain's rows sum to zero for every alpha and beta, and it passes the generator check exactly when alpha ≥ 0 and beta ≥ 0 |
| `Kinetics.RateMatrix` | local.py:24-34 | the check passes (a matrix is returned) iff alpha, beta ≥ 0; the result is the 4-subunit chain, a generator with non-positive diagonal; otherwise `NotRateMatrix` |
| `Kinetics.BinomialChainTridiagonal` | local.py:25-30 | the chain only links neighbours: entry (k, k+1) is (n − k)·alpha, entry (k+1, k) is (k+1)·beta, and entries more than one off the diagonal are 0; `RateMatrix` returns the n = 4 chain, so this is the band of the 5-state generator |
| `Kinetics.RateMatrixExample` | local.py:26 | with alpha = 0.05 and beta = 0.07 the first row is [-0.2, 0.2, 0, 0, 0] |
| `Kinetics.SingletEntries` | local.py:42-44 | the rows [[-alpha, alpha], [beta, -beta]] are the one-subunit chain |
| `Kinetics.RateMatrixSinglet` | local.py:41-48 | a matrix is returned iff alpha, beta ≥ 0; it is the one-subunit chain and a generator (rows sum to 0, off-diagonal ≥ 0); otherwise `NotRateMatrix` |
| `Kinetics.TransitionMatrix` | local.py:36-39 | with `expm` given: negative rates fail with `NotRateMatrix`; otherwise exp(lag·Q) is returned iff it is a 5-state transition matrix (row-stochastic, entries in [0, 1]), and fails with `NotTransitionMatrix` when it is not |
| `Kinetics.TransitionMatrixSinglet` | local.py:50-53 | as written: negative rates fail with `NotRateMatrix`; for non-negative rates it fails with `NotTransitionMatrix` exactly when the 5-state exp(lag·Q) is not stochastic, and otherwise returns exp(lag·Q₂) of the one-subunit chain |
| `Markov.IsRateMatrix` | local.py:32 | the generator condition checked after `rate_matrix` and `rate_matrix_singlet` (square, off-diagonal ≥ 0, rows summing to 0, no tolerance); any matrix meeting it has a non-positive diagonal |
| `Markov.IsTransitionMatrix` | local.py:38 | the transition-matrix condition checked after the exponential (square, non-negative, rows summing to 1, no tolerance); every entry of a matrix meeting it lies in [0, 1] |
| `CoarseGraining.CoarseTransitionMatrix` | local.py:74-89 | with π stationary for T: the result is an M×M matrix (M = columns of χ) exactly when every coarse weight (χᵀπ)_I is non-zero, else `DegenerateCluster` |
| `CoarseGraining.CoarseWeights` | local.py:87 | `np.dot(chi.T, pi)`: one weight per coarse state; for a probability vector π and a membership χ the weights are again a probability vector |
| `CoarseGraining.Reciprocals` | local.py:87 | `1/np.dot(chi.T, pi)`: each entry times the weight it came from is 1 |
| `CoarseGraining.Lump` | local.py:89 | the product D_c⁻¹ · χᵀ · D_π · T · χ, evaluated left to right, is an M×M matrix whenever no weight is zero |
| `CoarseGraining.CoarseRowsSumToOne` | local.py:86-89 | if the rows of T and of χ sum to 1, so do the rows of the coarse matrix |
| `CoarseGraining.CoarsePreservesStationary` | local.py:76-89 | if πT = π and the rows of χ sum to 1, then χᵀπ is left-invariant for the coarse matrix |
| `CoarseGraining.CoarseOfIdentity` | local.py:86-89 | with χ the identity and π > 0 the coarse matrix is T itself |
| `CoarseGraining.CoarseIsMarkovChain` | local.py:74-89 | for a transition matrix T, a membership χ and a stationary π: the coarse matrix is a transition matrix and χᵀπ is a stationary distribution of it |
| `CoarseGraining.CoarsePreservesReversibility` | local.py:74-89 | if πᵢTᵢⱼ = πⱼTⱼᵢ for all fine states i, j, then the coarse matrix C and the weights w = χᵀπ satisfy w_I·C_IJ = w_J·C_JI, so the lumped chain is reversible too |

## Left out

- `kchannel_params` and `dndt` (local.py:58-71): voltage-dependent rate formulas built on `np.exp`, with a 0/0 point at Vm = 10. They are transcendental floating-point arithmetic. Alpha and beta enter the model as plain reals.
- The matrix exponential `scipy.linalg.expm` is a foreign routine. `TransitionMatrix` and `TransitionMatrixSinglet` take it as a function parameter `expm`, and nothing about its semantics (exp(0) = I, the semigroup law, stochasticity of exp of a generator) is modelled.
- TransitionMatrixSinglet: its contract does not promise that the returned 2×2 matrix is stochastic. The check at local.py:52 is applied to the exponential of the 5-state `rate_matrix()`, not to the matrix returned, and the model keeps that.
- `msmtools.analysis.stationary_distribution` (local.py:85) is foreign. π is a parameter of `CoarseTransitionMatrix`, required to be a probability vector with πT = π. Uniqueness of π and irreducibility of T are not modelled.
- The `msmtools` validity checks (`is_rate_matrix`, `is_transition_matrix`) are not part of this model; any floating-point tolerance they apply is not modelled. The model's `IsRateMatrix` and `IsTransitionMatrix` are the documented generator and transition-matrix conditions with no tolerance. NaN and infinite inputs are not representable.
- CoarseTransitionMatrix: numpy divides by a zero weight without raising. That gives `inf`/`nan` entries and a warning. The model reports `DegenerateCluster` instead.
- CoarseTransitionMatrix: inputs whose shapes do not match (numpy raises `ValueError`) are excluded by its `requires`, not modelled as an error.
- The field `self.cs` (local.py:20) is never read.
