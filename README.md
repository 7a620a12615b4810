# T-pad extraction, modelled in Dafny

This project models the numeric core of `pads.py`. That file de-embeds the two
connector pads of a fixture from two two-port measurements: a line of length L and a
line of length 2L. It then describes each pad as a series–shunt–series T network
(Z1, Z2, Z3). The model covers four parts:

- **Symmetrizer** (`enforce_reciprocal_symmetric`). It replaces each scattering
  matrix S by (S + Sᵀ)/2, then overwrites the diagonal with its mean. It is a method
  over an `array` of matrices that runs the source's two loops, one after the other. Its result is proved equal to a function
  `Symmetrized`, and that function is proved to give a reciprocal network with one
  shared diagonal value. Off-diagonal entries come out as (S[j][k] + S[k][j])/2, and
  `f`, `z0` and every port count are kept. A reciprocal symmetric network is a fixed
  point, and symmetrizing twice equals symmetrizing once.
- **Pad extractor** (`extract_pad`). It computes the closure constant
  k = −Z21² / (−(2·Z21·Z11 + Z21²)), solves the monic quadratic for Z1 and picks a
  root by the sign of Im(x1). Then it sets Z2 = Z11 + Z21 − Z1 and Z3 = k·Z1.
  Complex numbers are exact pairs of reals. The square root is a parameter, and a
  square root here is any value that squares back to the discriminant.
- **Tee synthesizer** (`tee_network`). It writes the impedance matrices
  [[Z1+Z2, Z2], [Z2, Z2+Z3]] into an n×2×2 `array3`, one slice assignment
  `z[:, r, c] = v` at a time. Every result is a reciprocal 2×2 matrix. The network of
  (Z3, Z2, Z1) is the network of (Z1, Z2, Z3) with its ports swapped.
- **Pipeline** (`get_pads`). De-embedding is composed over scikit-rf's cascade,
  inverse and S→Z conversion, which are left uninterpreted (`Pipeline.Backend`).
  Next come symmetrization and extraction, then the left pad (Z1, Z2, Z3) and the
  right pad (Z3, Z2, Z1), each at 50 Ω.

Where the code and what its comments or documentation suggest part ways, the model
follows the code:

- The docstring of `extract_pad` (pads.py:96-98) asks for Im(Z1) > 0 and Im(Z2) < 0.
  The code only tests `Im(x1) >= 0`. When both roots lie in the lower half plane, it
  returns the "−" root unchecked. `PadCounterexample` gives such a point: Z11 = −1+i
  and Z21 = 3. There both roots have Im < 0 (`BothRootsCapacitive`). With the principal
  square root of the discriminant, the extraction at that point returns Z1 = −1−2i,
  Z2 = 3+3i and Z3 = −3 (`ExampleExtractPoint`, about `PadExtractor.ExtractPoint`). So
  neither documented sign holds.
- Extraction is meant to invert `tee_network` whenever Im(Z1) ≥ 0. It does not. For
  the matrix of a tee, the quadratic that `extract_pad` solves takes the value
  −2·Z1·Z2·k at the true series arm Z1. That value is zero only when Z1 = 0. So
  whenever k is defined and Z1 ≠ 0, the recovered series arm differs from the one the
  tee was built from (`PadRoundTrip`).
- `L_line ** L2_line.inv ** L_line` (pads.py:158) looks like a left-to-right cascade.
  Python's `**` groups to the right, and the model follows the code:
  `cascade(L, cascade(inv(L2), L))`.

Modules, one per file:

- `Wrappers`: Option and Result.
- `ComplexField`: exact complex arithmetic and the field lemmas for it.
- `Networks`: matrices, transpose, reciprocity, diagonal, mean, the port swap, and the
  network values.
- `Symmetrizer`
- `PadExtractor`
- `PadCounterexample`
- `TeeSynthesizer`
- `PadRoundTrip`
- `Pipeline`

## Model

| member | source | states |
|---|---|---|
| ComplexField.Div | pads.py:105 | complex division, defined for a non-zero divisor: the quotient times the divisor gives back the dividend |
| Networks.Transpose | pads.py:18 | `s[i].T` of a square matrix is a square matrix of the same size whose entry (j, k) is entry (k, j) of the input |
| Networks.ReciprocalIffSelfTranspose | pads.py:8 | a square matrix is reciprocal (entry (j,k) equals entry (k,j)) exactly when it equals its transpose, in both directions |
| Networks.MeanOfConstant | pads.py:22 | `np.mean` of a non-empty diagonal whose entries all equal v is v |
| Networks.SumOfConstant | pads.py:22 | the sum of n copies of v is n·v, by induction on the sequence |
| Networks.Diag | pads.py:22 | `np.diag`: one entry per row, entry j is m[j][j] |
| Networks.Mean | pads.py:22 | `np.mean`: n times the mean of a non-empty sequence is its sum; the mean of the empty sequence is 0 (see Left out) |
| Networks.PortSwap | pads.py:162-164 | swapping ports 1 and 2 of a two-port: entry (j, k) of the result is entry (1−j, 1−k) |
| Networks.PortSwapInvolution | pads.py:162-164 | swapping the two ports twice gives back the original 2×2 matrix |
| Symmetrizer.ReciprocalPart | pads.py:16-18 | (S + Sᵀ)/2 is square of the same size, reciprocal, has the same diagonal as S, and has entry (j, k) = (S[j][k] + S[k][j])/2 |
| Symmetrizer.FillDiagonal | pads.py:23 | `np.fill_diagonal(s, v)`: the diagonal becomes v and every off-diagonal entry is unchanged |
| Symmetrizer.SymmetrizeMatrix | pads.py:16-23 | the output matrix is reciprocal with a uniform diagonal equal to the mean of the input diagonal, and its off-diagonal entries are (S[j][k] + S[k][j])/2 |
| Symmetrizer.Symmetrized | pads.py:12-26 | the output network has the same frequencies, z0 and length, and each matrix is the symmetrized input matrix |
| Symmetrizer.EnforceReciprocalSymmetric | pads.py:5-27 | copying the array and running the two loops gives exactly `Symmetrized(network)`: f, z0 and port counts are kept, and the result is reciprocal and symmetric |
| Symmetrizer.ReciprocityLoop | pads.py:17-18 | after the first loop, every entry of the array is (S + Sᵀ)/2 of the matrix it held |
| Symmetrizer.DiagonalLoop | pads.py:21-23 | after the second loop, every entry of the array is the matrix it held with its diagonal overwritten by the diagonal's mean |
| Symmetrizer.SymmetrizedShape | pads.py:14-26 | every output matrix is reciprocal with a uniform diagonal and has the same number of ports as the input |
| Symmetrizer.SymmetrizeMatrixFixedPoint | pads.py:16-23 | a matrix that is already reciprocal with one diagonal value is unchanged |
| Symmetrizer.SymmetrizedFixedPoint | pads.py:5-27 | a network that is already reciprocal and symmetric is returned unchanged |
| Symmetrizer.SymmetrizedIdempotent | pads.py:5-27 | symmetrizing twice equals symmetrizing once |
| Symmetrizer.SymmetrizedIsSelfTranspose | pads.py:8-18 | every output matrix equals its own transpose (S = Sᵀ) |
| PadExtractor.Closure | pads.py:105 | k, defined when 2·Z21·Z11 + Z21² ≠ 0, satisfies k·(2·Z21·Z11 + Z21²) = Z21² |
| PadExtractor.ClosureUnique | pads.py:105 | k is the only value with that property |
| PadExtractor.ClosureNonZero | pads.py:105 | k ≠ 0 whenever Z21 ≠ 0 |
| PadExtractor.CoeffB | pads.py:108 | −b = 2·(Z11 + Z21·k), so the roots add up to 2·(Z11 + Z21·k) |
| PadExtractor.CoeffC | pads.py:109 | c = Z11² − Z21² factors as (Z11 − Z21)(Z11 + Z21) |
| PadExtractor.Discriminant | pads.py:110 | b² − 4c = 4·((Z11 + Z21·k)² − c) |
| PadExtractor.PlusRoot | pads.py:111 | x1 solves 2a·x1 = −b + s with a = 1 |
| PadExtractor.MinusRoot | pads.py:112 | x2 solves 2a·x2 = −b − s with a = 1 |
| PadExtractor.SelectRoot | pads.py:114-115 | picks x1 whenever Im(x1) ≥ 0 and x2 whenever Im(x1) < 0; Im(Z1) ≥ 0 holds exactly when some root has it |
| PadExtractor.ExtractPoint | pads.py:105-122 | at one frequency point Z1 + Z2 = Z11 + Z21, Z3·den = Z21²·Z1 (that is, Z3 = k·Z1), and Z1 is x1 = (−b + s)/2 when Im(x1) ≥ 0 and x2 = (−b − s)/2 otherwise |
| PadExtractor.ExtractWithClosure | pads.py:107-122 | the steps after k: Z1 + Z2 = Z11 + Z21, Z3 = k·Z1, and Z1 is x1 when Im(x1) ≥ 0 and x2 otherwise |
| PadExtractor.ExtractPointWithClosure | pads.py:105-122 | any k' with k'·den = Z21² gives the same extraction as k, so the extraction can be computed from such a k' |
| PadExtractor.PointAt | pads.py:101-122 | at frequency point i: Z1 + Z2 = Z11 + Z21 and Z3·den = Z21²·Z1, read from that point's matrix |
| PadExtractor.ClosureTimesSeries | pads.py:122 | (k·Z1)·den = Z21²·Z1 |
| PadExtractor.FirstDegenerate | pads.py:105 | finds the first frequency point at or after `from` where k's denominator is zero; none is found exactly when there is no such point |
| PadExtractor.ExtractPad | pads.py:94-124 | error TooFewPorts exactly when some matrix has fewer than 2 ports; DegenerateModel(i) names the first point with a zero denominator; success exactly when no point is degenerate, and then f is kept and all three arrays have one entry per frequency point |
| PadExtractor.RootsSolveQuadratic | pads.py:107-112 | if s² = b² − 4c, both x1 and x2 solve x² + bx + c = 0, x1 + x2 = −b and x1·x2 = c |
| PadExtractor.RootProduct | pads.py:111-112 | x1·x2 = c when s² is the discriminant |
| PadExtractor.RootSolves | pads.py:107-112 | a value whose sum with the other root is −b and whose product with it is c solves the quadratic |
| PadExtractor.FactoredRoot | pads.py:107-112 | x solves t² − (x+y)t + xy = 0 |
| PadExtractor.ExtractPadAt | pads.py:101-124 | at every point of a successful extraction: the sum relation, the closure relation, the root choice, the "+" root whenever Im(x1) ≥ 0, the "−" root whenever Im(x1) < 0, Im(Z1) ≥ 0 exactly when some root has it, and Z1 solves the quadratic whenever the supplied root squares to the discriminant |
| PadCounterexample.ExampleDenominator | pads.py:105 | at Z11 = −1+i, Z21 = 3, the denominator of k is 3+6i |
| PadCounterexample.ExampleClosure | pads.py:105 | there, 3/5 − 6/5·i times the denominator is Z21², so it is k |
| PadCounterexample.ExampleCoeffB | pads.py:108 | there, b = −8/5 + 26/5·i |
| PadCounterexample.ExampleCoeffC | pads.py:109 | there, c = −9 − 2i |
| PadCounterexample.ExampleDiscriminant | pads.py:110 | there, 18/5 − 6/5·i is a square root of the discriminant |
| PadCounterexample.BothRootsCapacitive | pads.py:96-115 | there, both roots have a negative imaginary part, so the documented Im(Z1) > 0 cannot be met |
| PadCounterexample.ExamplePoint | pads.py:115-122 | there, the steps after k, given k = 3/5 − 6/5·i, return Z1 = −1−2i, Z2 = 3+3i and Z3 = −3 |
| PadCounterexample.ExampleK | pads.py:105 | there, the denominator of k is not zero and 3/5 − 6/5·i times it is Z21² |
| PadCounterexample.ExampleRest | pads.py:107-122 | the same as ExamplePoint, on the named constants of the example |
| PadCounterexample.ExampleExtractPoint | pads.py:105-122 | there, the extraction itself (k computed by division) returns Z1 = −1−2i, Z2 = 3+3i and Z3 = −3, against the documented Im(Z1) > 0 and Im(Z2) < 0 |
| TeeSynthesizer.TeeMatrix | pads.py:140-149 | the tee impedance matrix is square, 2×2 and reciprocal |
| TeeSynthesizer.TeeMatrices | pads.py:145-149 | one reciprocal 2×2 matrix per frequency point |
| TeeSynthesizer.AddEach | pads.py:146-149 | elementwise sum of two arrays of the same length |
| TeeSynthesizer.AssignEntry | pads.py:146-149 | `z[:, row, col] = v` writes v[i] into position (row, col) of every frequency point and leaves every other entry unchanged |
| TeeSynthesizer.TeeNetwork | pads.py:127-152 | the four slice assignments into the zero-filled n×2×2 array give exactly `TeeMatrices(Z1, Z2, Z3)` on frequency grid f with the given Z0; every matrix is reciprocal and 2×2 |
| TeeSynthesizer.TeeArms | pads.py:131-144 | the arms can be read back from the matrix: Z1 = Z11 − Z12, Z2 = Z21, Z3 = Z22 − Z12 |
| TeeSynthesizer.TeeDecomposition | pads.py:140-144 | every reciprocal 2×2 impedance matrix is the matrix of the tee built from its own arms |
| TeeSynthesizer.TeeMirror | pads.py:162-164 | the tee matrix of (Z3, Z2, Z1) is the tee matrix of (Z1, Z2, Z3) with its ports swapped |
| TeeSynthesizer.TeeMatricesMirror | pads.py:162-164 | the same at every frequency point |
| PadRoundTrip.TeeCoeffC | pads.py:109 | for a tee's matrix, c = Z1² + 2·Z1·Z2 |
| PadRoundTrip.TeeQuadratic | pads.py:105-112 | for a tee's matrix, the quadratic at the true series arm Z1 equals −2·Z1·Z2·k |
| PadRoundTrip.TeeShuntNonZero | pads.py:105 | a tee whose k is defined has a non-zero shunt arm |
| PadRoundTrip.TeeSeriesArmIsRootIffZero | pads.py:105-112 | for a tee whose k is defined, its Z1 solves the quadratic exactly when Z1 = 0 |
| PadRoundTrip.ExtractOfTeeDiffers | pads.py:105-122 | extracting from a tee with Z1 ≠ 0 returns a different Z1, while the extracted Z1 + Z2 is the tee's Z1 + 2·Z2 |
| Pipeline.DeEmbed | pads.py:158 | L ** L2.inv ** L grouped to the right, as Python groups `**`: cascade(L, cascade(inv(L2), L)); when the backend is well behaved, it has a square matrix at every frequency point |
| Pipeline.PadsOf | pads.py:158-160 | the network passed to `extract_pad` is reciprocal and symmetric |
| Pipeline.GetPads | pads.py:154-169 | fails exactly when extraction fails, with the same error; on success the left pad is the tee of (Z1, Z2, Z3) and the right pad the tee of (Z3, Z2, Z1), both on the de-embedded grid at 50 Ω, and each right matrix is the port swap of the left 2×2 matrix |

## Left out

- `frontend.py`, the interactive front end, is not part of this model.
- `investigate_network` (pads.py:32-93) only plots, so it is not modelled.
- The module-level script (pads.py:171-203) is not modelled: fixed file names, two
  calls of `get_pads`, the command line and `print`. `run_pad_extraction`
  (pads.py:188-189) calls `get_pads` with four arguments, but the function takes two.
- File I/O is not modelled: reading the two Touchstone files (pads.py:155-156) and
  writing the two pads (pads.py:166-167). `get_pads` receives the two networks
  directly. The output names use the module globals `year` and `length`.
- scikit-rf's cascade (`**`), `.inv` and the S→Z conversion `.z` are parameters
  (`Pipeline.Backend`). `Pipeline.WellBehaved` assumes only that they return square
  matrices, one per frequency point.
- The conversion from Z back to S inside `rf.Network(frequency=f, z=z, z0=Z0)`
  (pads.py:151) is not modelled. `ZNetwork` keeps the impedance matrices and Z0, and
  the mirror property is proved on Z, not S.
- `rf.Frequency.from_f` (pads.py:137) is not modelled. The frequency grid is carried
  as a sequence of reals.
- `np.sqrt`'s principal branch is not modelled: the square root is a parameter. The
  root lemmas assume only that its value squares to the discriminant.
- Floating point is not modelled: arithmetic is exact on reals, with no rounding,
  overflow, inf or NaN.
- PadExtractor.ExtractPad: where k's denominator is zero, numpy goes on with inf or NaN
  (and a warning). The model returns `Err(DegenerateModel(i))` for the first such
  point.
- PadExtractor.ExtractPad: a network with fewer than two ports makes numpy raise
  IndexError at `Z[:, 1, 0]`. The model returns `Err(TooFewPorts)`.
- PadExtractor.ExtractPad reads only Z11 and Z21. Z12 and Z22 of the measured pads do
  not enter the result, as in the source.
- TeeSynthesizer.TeeNetwork requires Z1, Z2 and Z3 to have one entry per frequency
  point. numpy's broadcasting of scalar arms is not modelled.
- Symmetrizer.EnforceReciprocalSymmetric requires square matrices. With non-square
  matrices, `s[i] + s[i].T` fails to broadcast in numpy.
- Symmetrizer.EnforceReciprocalSymmetric keeps the matrices as values in the array.
  numpy's in-place writes into an `s[i]` view are modelled as replacing entry i.
- Networks.Mean of an empty diagonal (a 0-port network) is 0 in the model. numpy
  returns NaN there.
- PadExtractor.SelectRoot does not guarantee Im(Z1) > 0 or Im(Z2) < 0, because the
  code does not. `PadCounterexample` shows a point where neither holds.
- There is no round-trip lemma for extraction after synthesis, because it does not
  hold. `PadRoundTrip.ExtractOfTeeDiffers` proves that it fails.
