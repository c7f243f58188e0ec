# simd: a dense-matrix formula evaluator, modelled in Dafny

The repository has two layers.

- A dense matrix engine (`pkg/matrix`). A `TwoDimensional` object owns a row-major table of
  numbers. It offers:
  - shape queries `M()` and `N()` and a deep `Copy`;
  - in-place updates `Sum`, `SumInt` and `MultiplicationInt`;
  - value-returning operations `Negative`, `SumInt`, `MultiplicationInt`, `Multiplication`,
    `MustMultiplication` and `MustSum`.
- A formula evaluator (`pkg/simd`). Its `Processor` holds four input matrices A, B, E, G and an
  exponent parameter K, and computes a fixed algebraic expression `Result = S1 + S2`. It is
  built from the engine's shape-checked primitives with fail-fast error propagation. Its one
  real algorithm, `evaluateKTimes`, squares a copy of a matrix K times, that is, it raises the
  matrix to the power 2^K.

The model has six modules.

| file | module | what it holds |
|---|---|---|
| `wrappers.dfy` | `Wrappers` | The error kind `DiffSize` (the source's `errors.New("diff size")`), `Outcome` (an `error` return) and `Result<T>` (a `(value, error)` pair, usable with `:-`). |
| `matrix_spec.dfy` | `MatrixSpec` | The value semantics of the engine: `Mat = seq<seq<real>>`, shapes (with the `N()` quirk), the entrywise operations, the dot product, the matrix product and their algebraic laws. |
| `matrix_algebra.dfy` | `MatrixAlgebra` | Associativity of the product, proved on the dot products that define it. |
| `matrix.dfy` | `Matrix` | The class `TwoDimensional`, with a `matrix: Mat` field that its methods reassign. Each method is proved against the value semantics, including what it leaves unchanged. |
| `simd_spec.dfy` | `SimdSpec` | Every sub-expression of the evaluator as a function of the inputs, with the same error propagation. Also: repeated squaring, the reference power, and when the whole formula succeeds. |
| `simd.dfy` | `Simd` | `ProcessorArgs` and `Processor` as value datatypes; their methods are proved to compute the corresponding `SimdSpec` functions. |

Entries are exact reals. A Go panic in a `Must*` helper becomes a precondition of the model.
The undefined identifiers `convRes`, `multInt` and `bToA` become integer fields of the
processor.

Two places where the code does something other than its callers expect:
- **The evaluator's test.** `pkg/simd/simd_test.go:16-25` builds A 2x3, B 3x2, E 1x3, G 2x2 with
  K = 5 and requires `Result` to succeed. The code fails there. At `pkg/simd/simd.go:124`,
  firstSumOfThreeDem multiplies the 1x3 matrix `((E + 2) - 1) . convRes` by E. E has 1 row, so
  the shapes do not fit. `SimdSpec.TestShapesFail` proves this failure.
- **Result's last step.** When the final `Sum` fails, `pkg/simd/simd.go:31-32` returns
  `firstRes` together with the error. That branch is unreachable: whenever S1 and S2 both
  succeed, they have the same shape.

## Model

| member | source | states |
|---|---|---|
| `Matrix.TwoDimensional.M` | pkg/matrix/matrix.go:55-57 | M() is the number of rows. |
| `Matrix.TwoDimensional.N` | pkg/matrix/matrix.go:59-64 | N() is 0 when there are no rows; on a valid matrix every row has N() entries. |
| `MatrixSpec.NoRowsMeansEmpty` | pkg/matrix/matrix.go:59-64 | A matrix with zero rows reports shape 0x0, is empty, rectangular and square. |
| `Matrix.NewTwoDimensional` | pkg/matrix/matrix.go:16-21 | A fresh matrix with no rows, of shape 0x0. |
| `Matrix.NewTwoDimensionalWithValue` | pkg/matrix/matrix.go:41-53 | A fresh valid matrix equal to `Filled(m, n, v)`. |
| `MatrixSpec.Filled` | pkg/matrix/matrix.go:41-53 | Exactly m rows of n entries each, every entry v; the shape is m x n, and 0x0 when m = 0. |
| `MatrixSpec.FilledLike` | pkg/matrix/matrix.go:165 | A matrix of s's shape with every entry v, as `NewTwoDimensionalWithValue(s.M(), s.N(), v)` builds it. |
| `Matrix.TwoDimensional.Copy` | pkg/matrix/matrix.go:66-75 | A fresh valid object with the same entries. |
| `Matrix.CopyIsIndependent` | pkg/matrix/matrix.go:66-75 | After a copy, scaling the copy does not change the original, and shifting the original does not change the copy. |
| `Matrix.Negative` | pkg/matrix/matrix.go:77-85 | A fresh matrix equal to `Negated(m)`; the argument is unchanged. |
| `MatrixSpec.Negated` | pkg/matrix/matrix.go:77-85 | Same shape and row lengths; every entry is the negation of the input's. |
| `MatrixSpec.NegatedIsScaledByMinusOne` | pkg/matrix/matrix.go:81 | Negation equals multiplication of every entry by -1, the way `Negative` computes it. |
| `Matrix.TwoDimensional.MultiplicationInt` | pkg/matrix/matrix.go:87-93 | In place, the matrix becomes its old value scaled by n; it stays valid, so the shape is kept. |
| `MatrixSpec.Scaled` | pkg/matrix/matrix.go:87-93 | Same shape and row lengths; every entry is the input's entry times c. |
| `Matrix.MultiplicationInt` | pkg/matrix/matrix.go:95-99 | A fresh scaled copy; the argument is unchanged. |
| `Matrix.SumInt` | pkg/matrix/matrix.go:101-108 | Never an error; returns a fresh copy shifted by n; the argument is unchanged. |
| `Matrix.Multiplication` | pkg/matrix/matrix.go:110-123 | Errs (with DiffSize) exactly when first.N() != second.M(). Otherwise returns a fresh valid matrix equal to `Product(first, second)`. Neither operand changes. |
| `MatrixSpec.Product` | pkg/matrix/matrix.go:110-123 | Shape first.M() x second.N(); entry (i, j) is the sum over k < second.M() of first[i][k] * second[k][j], accumulated in k order. |
| `MatrixSpec.ProductExample2x2By2x1` | pkg/matrix/matrix.go:110-123 | [[-2,1],[5,4]] . [[3],[-1]] = [[-7],[11]]. |
| `MatrixSpec.ProductExample3x3` | pkg/matrix/matrix.go:110-123 | The 3x3 product example evaluates to [[11,-22,29],[9,-27,32],[13,-17,26]]. |
| `MatrixAlgebra.ProductAssociative` | pkg/matrix/matrix.go:110-123 | (a . b) . c = a . (b . c) whenever the shapes fit, for all rectangular matrices. |
| `Matrix.MustMultiplication` | pkg/matrix/matrix.go:125-138 | When first.N() == second.M() (the source panics otherwise): the same fresh product as `Multiplication`, operands unchanged. |
| `Matrix.MustSum` | pkg/matrix/matrix.go:140-150 | When M and N agree (the source panics otherwise): a fresh matrix equal to `Added(first, second)`, i.e. copy-then-Sum; operands unchanged. |
| `Matrix.TwoDimensional.Sum` | pkg/matrix/matrix.go:152-162 | Fails exactly when M() or N() differ. On failure the error is DiffSize and the receiver is unchanged. Otherwise the receiver becomes old + other entrywise. `other` is unchanged unless it is the receiver itself. The receiver stays valid. |
| `MatrixSpec.Added` | pkg/matrix/matrix.go:152-162 | Same shape; every entry is the sum of the two inputs' entries. |
| `MatrixSpec.AddZeroIdentity` | pkg/matrix/matrix.go:152-162 | Adding a zero-filled matrix of the same shape changes nothing. |
| `MatrixSpec.AddNegatedIsZero` | pkg/matrix/matrix.go:152-162 | A matrix plus its `Negative` is the zero matrix of its shape. |
| `MatrixSpec.ScaledDistributesOverAdded` | pkg/matrix/matrix.go:87-99 | Scaling a sum equals summing the scaled operands. |
| `MatrixSpec.AddedExample` | pkg/matrix/matrix_test.go:76-92 | The engine test's sum example holds exactly over the reals. |
| `MatrixSpec.ScaledExample` | pkg/matrix/matrix_test.go:43-57 | The engine test's scale-by-3 example holds over the reals; the expected values 0.30000000000000004 etc. are float artefacts of 0.3 etc. |
| `Matrix.TwoDimensional.SumInt` | pkg/matrix/matrix.go:164-167 | On a valid receiver: never an error, and in place every entry is increased by n. |
| `MatrixSpec.Shifted` | pkg/matrix/matrix.go:164-167 | Same shape and row lengths; every entry is the input's entry plus c. |
| `MatrixSpec.ShiftedIsAddedFilled` | pkg/matrix/matrix.go:164-167 | Summing with a matrix filled with n is the same as adding n to every entry. |
| `SimdSpec.Mul` | pkg/matrix/matrix.go:110-123 | `Multiplication` on values: DiffSize exactly when s.N() != t.M(), otherwise the product, of shape s.M() x t.N(). |
| `SimdSpec.Power` | pkg/simd/simd.go:55-65 | The value evaluateKTimes computes: x itself when K <= 0, a DiffSize error when K > 0 and x is not square, otherwise Y_K = `Sq(x, K)`. Any success has x's shape. |
| `SimdSpec.Sq` | pkg/simd/simd.go:55-65 | Y_0 = X, Y_(i+1) = Y_i . Y_i; every Y_i is rectangular with X's shape. |
| `SimdSpec.PowerStep` | pkg/simd/simd.go:58-62 | For a square X and K >= 1, both Y_K and Y_(K-1) exist, and Y_K is the product of Y_(K-1) with itself. |
| `SimdSpec.PowerShape` | pkg/simd/simd.go:55-65 | evaluateKTimes succeeds exactly when K <= 0 or X is square; on success the result has X's shape. |
| `SimdSpec.SqAdd` | pkg/simd/simd.go:58-63 | Squaring i times and then j more times is squaring i + j times. |
| `SimdSpec.Pow` | pkg/simd/simd.go:55-65 | The reference power x^n = x . ... . x (n factors) of a square matrix keeps x's shape. |
| `SimdSpec.PowAdd` | pkg/simd/simd.go:59 | x^m . x^n = x^(m+n) for all m, n >= 1. |
| `SimdSpec.PowSquare` | pkg/simd/simd.go:59 | The square of x^n is x^(2n). |
| `SimdSpec.SqIsPow` | pkg/simd/simd.go:55-65 | Y_i = x^(2^i) for every i: when the squaring loop has run i times, it holds x raised to the power 2^i. |
| `SimdSpec.PowerIsPow` | pkg/simd/simd.go:55-65 | For a square argument and K >= 1, evaluateKTimes yields x^(2^K). |
| `SimdSpec.D` | pkg/simd/simd.go:51-53 | Errs exactly when A.N() != B.M(); otherwise A . B, of shape A.M() x B.N(). |
| `SimdSpec.T1` | pkg/simd/simd.go:114-129 | Succeeds exactly when E is square, with E's shape. |
| `SimdSpec.T2` | pkg/simd/simd.go:131-149 | Succeeds exactly when E is square, with E's shape. |
| `SimdSpec.F3` | pkg/simd/simd.go:35-49 | Succeeds exactly when E is square, with E's shape. The second term and the sum cannot fail once the first term has succeeded. |
| `SimdSpec.Fk` | pkg/simd/simd.go:171-178 | Succeeds exactly when E is square, with E's shape. |
| `SimdSpec.V` | pkg/simd/simd.go:151-169 | Succeeds exactly when A.N() == B.M() and (K <= 0 or A.M() == B.N()), with D's shape. |
| `SimdSpec.S1` | pkg/simd/simd.go:67-87 | Succeeds exactly when E is square, E.N() == G.M() and G is square; the result is E.M() x G.N(). |
| `SimdSpec.SecondSumSafe` | pkg/simd/simd.go:99-111 | The four `Must*` panic conditions of secondSumOfResult, each stated once the steps before it have succeeded. Together they are the precondition of `S2`. |
| `SimdSpec.SecondSumSteps` | pkg/simd/simd.go:89-112 | Once vDijk and fijk have succeeded and the `Must*` shapes hold, each step of secondSumOfResult fits. The in-place sum at line 103 cannot fail. The value is the nested product of the steps. |
| `SimdSpec.S2` | pkg/simd/simd.go:89-112 | Succeeds exactly when vDijk and fijk do; the result is A.M() x G.N(). |
| `SimdSpec.Formula` | pkg/simd/simd.go:22-33 | Succeeds exactly when S1 and S2 both do (S1's error first); the result is E.M() x G.N(). |
| `SimdSpec.FormulaSucceedsIff` | pkg/simd/simd.go:22-149 | Result completes without error and without a panic if and only if A.N() == B.M() and A.M() == B.N() == E.M() == E.N() == G.M() == G.N(). The result is then r x r for that common r. |
| `SimdSpec.TestShapesFail` | pkg/simd/simd_test.go:16-25 | With the evaluator test's shapes (E 1x3), Result errs with DiffSize without a panic. The failing step is the product of ((E + 2) - 1) . convRes with E in firstSumOfThreeDem. |
| `Simd.OneMinus` | pkg/simd/simd.go:143-147 | The pattern `NewTwoDimensionalWithValue(.., 1).Sum(Negative(m))` builds a fresh 1 - m, and m is unchanged. |
| `Simd.ScaledDifference` | pkg/simd/simd.go:99-103 | 4 . (f . v) - 3v in a fresh object, with f and v unchanged. |
| `Simd.Processor.Result` | pkg/simd/simd.go:22-33 | When the run cannot panic: the first error of S1 and S2, or a fresh matrix equal to `Formula`. |
| `Simd.Processor.FThreeDimensional` | pkg/simd/simd.go:35-49 | Agrees with `F3`; a success is fresh. |
| `Simd.Processor.DThreeDimensional` | pkg/simd/simd.go:51-53 | Agrees with `D`; a success is fresh. |
| `Simd.Processor.EvaluateKTimes` | pkg/simd/simd.go:55-65 | Agrees with `Power(X, K)`: the loop keeps `dupl == Sq(X, i)`. It returns a fresh copy of X when K <= 0 and errs exactly when K > 0 and X is not square. |
| `Simd.Processor.FirstSumOfResult` | pkg/simd/simd.go:67-87 | Agrees with `S1`; G is copied before it is scaled. |
| `Simd.Processor.SecondSumOfResult` | pkg/simd/simd.go:89-112 | Under the `Must*` shape requirements, agrees with `S2`. |
| `Simd.Processor.FirstSumOfThreeDem` | pkg/simd/simd.go:114-129 | Agrees with `T1`. |
| `Simd.Processor.SecondSumOfThreeDem` | pkg/simd/simd.go:131-149 | Agrees with `T2`. |
| `Simd.Processor.VDijk` | pkg/simd/simd.go:151-169 | Agrees with `V`: 1 - P of D's shape, where P is (1 - D) squared K times. |
| `Simd.Processor.Fijk` | pkg/simd/simd.go:171-178 | Agrees with `Fk`. |

None of the `Simd.Processor` methods has a `modifies` clause, so none of them can change A, B, E
or G. Every in-place `Sum` and `MultiplicationInt` in them targets an object created during the
call: a copy, a new matrix, or the fresh result of a callee.

## Left out
- Floating point: entries are exact reals, so rounding artefacts and the test's two-decimal
  comparison are not modelled. `float64(n)` of an integer coefficient is taken as exact.
- `NewTwoDimensionalGenerated` is not modelled: it draws entries from a time-seeded random
  source.
- `String` is not modelled: it depends on float-to-decimal formatting.
- `convRes`, `multInt` and `bToA` are undefined in the source. They are integer parameters of
  the processor, and their values are not fixed.
- The undeclared `err` at `pkg/simd/simd.go:136` is read as a fresh variable.
- `NewProcessor` only wraps its argument, so it is the `Processor` datatype constructor.
- Panics in `MustMultiplication`, `MustSum` and the `Must*` calls of secondSumOfResult are
  preconditions (`SecondSumSafe`, `FormulaSafe`), not control flow. `make` with a negative size
  is excluded by `nat` dimensions.
- Error branches that the modelled code cannot reach are not modelled. These are the `Sum`
  calls on operands built with the same shape, the `SumInt` errors, the sum at
  `pkg/simd/simd.go:44-47`, and the final `Sum` of Result (lines 31-32). The code keeps each
  result in a variable, and a comment states why the branch cannot be taken.
- Matrix.MustMultiplication: proved by calling `Multiplication` rather than repeating its
  loop. It has the same contract, so it states the same value.
- Matrix.Multiplication: accumulates the rows of its freshly allocated result in a local
  sequence and stores them back at the end. Nothing else can see that object before it is
  returned, so the result is the same.
- Row sharing between Go slices is not modelled. `matrix` is a value-typed sequence, so the
  aliasing a shallow copy could create does not arise. `Copy` is still proved independent
  (`CopyIsIndependent`).
- The engine's tests are not modelled. `pkg/matrix/matrix_test.go:51` calls a method that
  does not exist, and `pkg/matrix/matrix_test.go:100` passes a value where a pointer is
  expected. Their data survive as `AddedExample` and `ScaledExample`.
