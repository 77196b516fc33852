# A verified model of a const-generic Rust matrix library

The library wraps a nested array `[[T; COLS]; ROWS]` as `Matrix<T, ROWS, COLS>`.
It has shape queries (`dim`, `is_row_vector`, `is_column_vector`) and the constructors
`zeroes`, `ones`, `identity` (defined twice) and `default`. It also provides indexing,
equality against a matrix or a raw array, conversion from an array, and an element
iterator. The operations are transpose, matrix product, Doolittle LU decomposition and
the determinant.

This project models that core in Dafny:

- `Matrix<T>` carries its two extents beside the row-major cells (`Valid` ties them
  together), so a 0 x C matrix keeps its column count. Where the library restricts
  shapes by type (square matrices, matching inner dimensions), the model uses a
  precondition.
- Structural operations are generic in the element type: shape queries, indexing,
  equality, conversion, iteration and transpose.
- The arithmetic operations work over `real`: the constructors with zero and one,
  product, LU and determinant. Division is therefore exact, and the closed-form and
  LU paths of `det` share one type. The integer examples of the library's tests
  embed exactly.
- Faults are error values: an index past an extent gives `None`, and a zero pivot
  that `lu` would divide by gives `ZeroPivot`.

Modules: `Matrices` (src/lib.rs), `Indexing` (src/ops/eq.rs), `Converters`
(src/converters.rs), `Iteration` (src/iter.rs), `IdentityOps` (src/ops/id.rs),
`Transposition` (src/ops/transpose.rs), `Multiplication` (src/ops/mul.rs),
`LuDecomposition` (src/ops/lu.rs) and `Determinant` (src/ops/det.rs).

How the main operations are specified:

- **LU.** The result is specified by the Doolittle recurrences (`UpperEq`, `LowerEq`,
  `IsDoolittle`). They are tied to an independent reference, `TriangularFactors`:
  a unit lower triangular L and an upper triangular U with L × U == A.
  - A pair satisfies the recurrences exactly when it is such a factorisation and
    every pivot `lu` divides by (all but the last) is nonzero.
  - On success the factors are that factorisation, and they are unique.
  - The zero-pivot outcome occurs exactly when no such factorisation with nonzero
    divided-by pivots exists. A triangular factorisation with a zero pivot can still
    exist: [[0, 1], [0, 1]] is one example.
- **Determinant.** The general path (product of U's diagonal) is cross-validated
  against the closed forms `det1`, `det2` and `det3` wherever a factorisation exists.
- **Iterator.** It is modelled as written. It yields `(0, 0, m[0][0])` on every call,
  which is a defect; see Findings. A corrected row-major iterator is proved to visit
  every cell once, in order.

## Model

| member | source | states |
|---|---|---|
| Matrices.Dim | src/lib.rs:12-14 | the pair is (ROWS, COLS) for every shape, a 0 x C matrix included; ROWS is the number of rows and COLS the length of every row |
| Matrices.IsRowVector | src/lib.rs:17-19 | true exactly when the matrix has one row |
| Matrices.IsColumnVector | src/lib.rs:22-24 | true exactly when the column extent is one, which is the length of the first row when there is one |
| Matrices.Zeroes | src/lib.rs:31-33 | a ROWS x COLS matrix whose every element is zero |
| Matrices.Ones | src/lib.rs:40-42 | a DIM x DIM matrix whose every element is one |
| Matrices.Default | src/lib.rs:68-70 | a ROWS x COLS matrix whose every element is the element type's default |
| Matrices.WriteDiagonal | src/lib.rs:52-58 | after the double loop has passed row k, exactly the diagonal cells before k are one and every other cell is unchanged |
| Matrices.Identity | src/lib.rs:49-61 | the DIM x DIM matrix with ones on the diagonal and zeros elsewhere |
| Matrices.Write | src/ops/eq.rs:14-16 | a write through the mutable row reference changes only the addressed cell and keeps the shape |
| Matrices.ShapeQueryExamples | src/lib.rs:84-103 | the shape answers of the vector and dimension tests: 1x1 is both vector kinds, 3x1 only a column, 1x3 only a row, 3x3 neither; dims (1,1), (1,2), (2,1) |
| Matrices.DefaultExamples | src/ops/eq.rs:54-57 | default integer matrices of shapes 1x1, 1x2, 2x1, 2x2 are the zero arrays of those shapes |
| Indexing.Row | src/ops/eq.rs:8-10 | `m[r]` succeeds exactly when r < ROWS and then is row r, of length COLS |
| Indexing.Get | src/ops/eq.rs:5-11 | `m[r][c]` succeeds exactly when both indices are in range and then is element c of row r |
| Indexing.SetCell | src/ops/eq.rs:13-17 | `m[r][c] = v` faults exactly when out of range; otherwise the cell reads v, other rows and other cells of row r are unchanged, and the shape is kept |
| Indexing.EqualsArray | src/ops/eq.rs:22-32 | the row-major scan answers true exactly when every element equals the array's, which is exactly when the storage equals the array |
| Indexing.Equals | src/ops/eq.rs:38-40 | matrix equality is true exactly when the two matrices are the same value |
| Indexing.IndexExamples | src/ops/eq.rs:59-74 | the 3x2 matrix [[1,2],[3,4],[5,6]] reads back 1..6 in row-major order; indexing row 2 of a 1x1 matrix faults |
| Indexing.DefaultEqualsZeroArrays | src/ops/eq.rs:53-57 | default integer matrices compare equal to the all-zero arrays |
| Converters.FromArray | src/converters.rs:3-6 | converting an array yields a valid matrix with the array's extents whose storage is the array |
| Converters.FromArrayEqualsArray | src/converters.rs:3-6 | a converted matrix compares equal to its source array and reads back each of its elements |
| Converters.FromArrayRoundTrip | src/converters.rs:4-6 | converting a matrix's storage back gives the same matrix |
| Iteration.IntoIter | src/iter.rs:8-13 | a fresh iterator is over the given matrix with its counter at zero |
| Iteration.Next | src/iter.rs:24-32 | `next` yields None exactly when the counter equals ROWS*COLS, and then leaves the iterator unchanged; otherwise it advances the counter by one and yields (0, 0, m[0][0]) |
| Iteration.RunYields | src/iter.rs:24-32 | call k of a run yields an item exactly while the counter plus k is below ROWS*COLS, and that item is always the first cell |
| Iteration.FreshRun | src/iter.rs:8-32 | a fresh iterator yields exactly ROWS*COLS items and then None; a matrix without cells yields None at once |
| Iteration.StaysExhausted | src/iter.rs:25-27 | once `next` has yielded None it yields None on every later call |
| Iteration.NextRowMajor | src/iter.rs:24-32 | the corrected `next`: the same None condition, and item number `index` is the in-range cell whose row-major position is `index`, with that cell's element |
| Iteration.RunRowMajorYields | src/iter.rs:24-32 | call k of a corrected run yields the cell at row-major position index + k while there is one |
| Iteration.RowMajorVisitsEveryCell | src/iter.rs:21-33 | a fresh corrected iterator yields ROWS*COLS items; item k is the cell (r, c) with r*COLS + c == k, with its element |
| Iteration.IdentityTestBlind | src/lib.rs:123-133 | the identity test's loop accepts the non-identity [[1,5],[7,1]] when run with the iterator as written |
| Iteration.RowMajorIdentityTestRejects | src/lib.rs:123-133 | with the corrected iterator the same loop rejects [[1,5],[7,1]] |
| IdentityOps.IdentityFromZeroes | src/ops/id.rs:9-21 | the second `identity` (double loop over `zeroes()`) returns the same matrix as the first: ones on the diagonal, zeros elsewhere |
| IdentityOps.EmptyIdentity | src/ops/id.rs:9-21 | for dimension 0 the identity is the empty matrix |
| Transposition.Transpose | src/ops/transpose.rs:6-16 | the transpose is COLS x ROWS and its element (j, i) is element (i, j) of the input |
| Transposition.TransposeLoop | src/ops/transpose.rs:6-16 | the loop over a zero buffer overwrites every cell and yields the transpose |
| Transposition.TransposeInvolution | src/ops/transpose.rs:32-33 | transposing twice returns the original matrix, square or not |
| Transposition.TransposeExample | src/ops/transpose.rs:24-34 | [[1,2]] transposes to [[1],[2]]; the row vector and the 4x4 identity survive a double transpose |
| Multiplication.EmptyInnerDimension | src/ops/mul.rs:26-32 | with inner dimension 0 every cell of the product is the zero the sum starts from |
| Multiplication.Accumulate | src/ops/mul.rs:24-36 | the triple loop overwrites every cell of its buffer, whatever the buffer held, and yields the product |
| Multiplication.Multiply | src/ops/mul.rs:13-37 | `a * b` yields the product whichever buffer (a copy of `rhs` or `default()`) it starts from |
| Multiplication.IdentityLeft | src/ops/mul.rs:66-70 | the identity times any matrix is that matrix |
| Multiplication.IdentityRight | src/ops/mul.rs:13-37 | any matrix times the identity is that matrix |
| Multiplication.IdentityTimesOnes | src/ops/mul.rs:66-70 | the 4x4 identity times the 4x4 all-ones matrix is the all-ones matrix |
| Multiplication.ProductExample | src/ops/mul.rs:45-63 | [[1,2],[3,4]] times [[1,2,3],[4,5,6]] is [[9,12,15],[19,26,33]] |
| LuDecomposition.Lu | src/ops/lu.rs:13-43 | on success L is unit lower triangular, U is upper triangular with nonzero divided-by pivots, the Doolittle recurrences hold, L x U == A, and no other pair is a Doolittle factorisation; a zero pivot stops it only at a stage that still divides, after the earlier stages completed with U[pivot][pivot] == 0, and exactly when no unit-lower x upper factorisation of A has nonzero divided-by pivots |
| LuDecomposition.DoolittleIsTriangularFactors | src/ops/lu.rs:11-43 | a pair satisfies the Doolittle recurrences exactly when it is a unit lower x upper triangular factorisation of A whose pivots, except the last, are nonzero |
| LuDecomposition.TriangularFactorsAreDoolittle | src/ops/lu.rs:17-40 | a unit lower x upper triangular factorisation with nonzero divided-by pivots satisfies every recurrence the loops compute |
| LuDecomposition.UpperFromProduct | src/ops/lu.rs:18-25 | in a triangular factorisation, U[p][k] (k >= p) is A[p][k] minus the sum over the earlier stages |
| LuDecomposition.LowerFromProduct | src/ops/lu.rs:32-37 | in a triangular factorisation with a nonzero pivot, L[k][p] (k > p) is A[k][p] minus the sum over the earlier stages, divided by U[p][p] |
| LuDecomposition.ZeroLeadingPivotExample | src/ops/lu.rs:37 | [[0, 1], [0, 1]] is the identity times itself, yet its first pivot is zero and no pair satisfies the recurrences |
| LuDecomposition.UpperRow | src/ops/lu.rs:18-26 | the first inner loop of stage i makes every entry of row i of U from column i on satisfy its defining equation, and keeps the earlier stages |
| LuDecomposition.LowerColumn | src/ops/lu.rs:28-39 | the second inner loop of stage i stalls exactly when the pivot U[i][i] is zero and a row below still needs it as a divisor; otherwise it completes stage i (unit diagonal entry and column i of L) |
| LuDecomposition.UpperWrite | src/ops/lu.rs:17-26 | writing U[i][k] in stage i keeps the earlier stages, the other equations of row i, and the sum that defines U[i][k] |
| LuDecomposition.LowerWrite | src/ops/lu.rs:28-39 | writing L[k][i] in stage i keeps the earlier stages, row i of U, the other equations of column i, and the sum that defines L[k][i] |
| LuDecomposition.Reconstruction | src/ops/lu.rs:11-13 | a Doolittle factorisation multiplies back to the original matrix |
| LuDecomposition.StagesAgree | src/ops/lu.rs:17-40 | two states that completed the same stages agree on every entry those stages computed |
| LuDecomposition.FactorsUnique | src/ops/lu.rs:13-43 | a matrix has at most one Doolittle factorisation |
| LuDecomposition.StalledHasNoFactors | src/ops/lu.rs:37 | a zero pivot reached while it is still needed as a divisor rules out every Doolittle factorisation |
| LuDecomposition.PivotsNonzero | src/ops/lu.rs:37 | every pivot a Doolittle factorisation divides by is nonzero |
| LuDecomposition.LuExample | src/ops/lu.rs:53-73 | the test's expected factors are the Doolittle factorisation of its matrix, and the only one |
| Determinant.LuDeterminant | src/ops/det.rs:69-79 | the general path yields the sign of the swap count times the product of both diagonals; with no swaps and a unit lower diagonal, the product of U's diagonal |
| Determinant.Det | src/ops/det.rs:41-82 | dimensions 0 to 3 yield their closed form; a larger dimension yields a value exactly when the matrix has a Doolittle factorisation, and that value is the product of U's diagonal; when it yields none, every unit-lower x upper factorisation of the matrix has a zero divided-by pivot |
| Determinant.Det1AgreesWithLu | src/ops/det.rs:15-17 | for a 1x1 matrix the general path equals `det1` |
| Determinant.Det2AgreesWithLu | src/ops/det.rs:20-22 | for a 2x2 matrix with a factorisation the general path equals `det2` |
| Determinant.Det3AgreesWithLu | src/ops/det.rs:25-34 | for a 3x3 matrix with a factorisation the general path equals `det3` |
| Determinant.ClosedFormsAgreeWithLu | src/ops/det.rs:42-58 | for every dimension up to 3, wherever a factorisation exists, the general path agrees with the closed form the dispatcher picks |
| Determinant.IdentityDeterminant | src/ops/det.rs:63-79 | the identity of any dimension is its own Doolittle factors, its general-path determinant is one, and so is its closed form up to dimension 3 |
| Determinant.ClosedFormExamples | src/ops/det.rs:90-121 | the closed forms give 1, 100, -2 and 324 on the library's test matrices |
| Determinant.GeneralPathExampleA | src/ops/det.rs:124-133 | the first 4x4 test matrix has a Doolittle factorisation and every one has diagonal product -6 |
| Determinant.GeneralPathExampleB | src/ops/det.rs:135-143 | the second 4x4 test matrix has a Doolittle factorisation and every one has diagonal product 318 |

## Left out

- Floating point: the arithmetic is over exact `real`s. Rounding, infinities, NaN and the `f32` element type of the second 4x4 determinant test are not modelled, so that test's exact equality with 318.0 is proved for exact arithmetic only.
- Generic numeric element types: `Zero`, `One`, `Default`, `Add`, `Sub`, `Mul`, `Div` and `Neg` are instantiated at `real`. Integer matrices in the tests are written as their exact real values.
- Integer overflow of the element type: `real` is unbounded.
- Truncating integer division in `lu` for integer element types is not modelled. The library's integer LU test divides exactly.
- LuDecomposition.Lu: a zero pivot used as a divisor is the `ZeroPivot` outcome. In the library an integer element type panics there and a float element type continues with infinities or NaN.
- Determinant.Det: the general path runs with zero swaps. `det` destructures a `LUDecomposition { lower, upper, swaps }` value that `lu`, which returns the pair `(lower, upper)` and never exchanges rows, does not produce.
- Determinant.Det: for dimension 4 and above the result is proved equal to U's diagonal product, not to the Leibniz determinant. Agreement with the closed forms is proved only for dimensions 1 to 3.
- Determinant.Det: `None` stands for the zero-pivot fault of the general path. A matrix with a nonzero determinant but a zero leading pivot has no value here, because the library does not pivot either.
- The `< 0.001` tolerance of the first 4x4 determinant test: the model proves the exact value -6.
- The unsafe casts between matrix types in `det` and `mul` become plain dispatch on the dimension and a buffer choice.
- The `size_of` layout test and the `#[inline]` hints: memory layout is not modelled.
- Module wiring (`pub mod`, `use`) and the `num_traits` bounds.
- Index faults are the `None` results of `Indexing.Row`, `Indexing.Get` and `Indexing.SetCell`, not panics.

## Findings

| source | as written | input that shows it | evidently intended | confidence | as-written member | corrected member |
|---|---|---|---|---|---|---|
| src/iter.rs:29-31 | `next` advances its counter but always yields `(0, 0, &m[0][0])` | the identity tests' loop over the 2x2 matrix [[1,5],[7,1]] sees (0, 0, 1) four times and accepts a matrix that is not the identity | item number `index` is `(index / COLS, index % COLS, &m[index / COLS][index % COLS])` | not executed | Iteration.IdentityTestBlind | Iteration.RowMajorVisitsEveryCell |
