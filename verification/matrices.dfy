/**
 * The matrix value of the library and its constructors (src/lib.rs).
 *
 * In the library a matrix is a thin wrapper around a nested array
 * `[[T; COLS]; ROWS]`, with ROWS and COLS fixed by the type. Here the two
 * extents are carried beside the row-major cells and `Valid` ties them
 * together; operations that the library restricts by type (square matrices,
 * matching inner dimensions) take that restriction as a precondition.
 */
module Matrices {

  datatype Option<T> = None | Some(value: T)

  /** `cells` has exactly `rows` rows, each of exactly `cols` elements. */
  ghost predicate IsGrid<T>(cells: seq<seq<T>>, rows: nat, cols: nat) {
    |cells| == rows && forall i :: 0 <= i < rows ==> |cells[i]| == cols
  }

  /** A ROWS x COLS matrix; `cells[i][j]` is the element in row `i`, column `j`. */
  datatype Matrix<T> = Matrix(rows: nat, cols: nat, cells: seq<seq<T>>) {
    ghost predicate Valid() {
      IsGrid(cells, rows, cols)
    }
  }

  /** Two matrices of one shape that agree on every cell are the same value. */
  lemma Extensionality<T>(m: Matrix<T>, m': Matrix<T>)
    requires m.Valid() && m'.Valid() && m.rows == m'.rows && m.cols == m'.cols
    requires forall i, j :: 0 <= i < m.rows && 0 <= j < m.cols ==> m.cells[i][j] == m'.cells[i][j]
    ensures m == m'
  {
    forall i | 0 <= i < m.rows
      ensures m.cells[i] == m'.cells[i]
    {
      assert forall j :: 0 <= j < m.cols ==> m.cells[i][j] == m'.cells[i][j];
    }
  }

  /** `dim()`: the pair (ROWS, COLS), which is the shape of the grid. */
  function Dim<T>(m: Matrix<T>): (d: (nat, nat))
    requires m.Valid()
    ensures d == (m.rows, m.cols)
    ensures d.0 == |m.cells|
    ensures forall i :: 0 <= i < d.0 ==> |m.cells[i]| == d.1
    ensures d.0 > 0 ==> d.1 == |m.cells[0]|
  {
    (m.rows, m.cols)
  }

  /** `is_row_vector()`: the matrix has exactly one row. */
  function IsRowVector<T>(m: Matrix<T>): (b: bool)
    requires m.Valid()
    ensures b <==> |m.cells| == 1
  {
    m.rows == 1
  }

  /** `is_column_vector()`: the matrix has exactly one column. */
  function IsColumnVector<T>(m: Matrix<T>): (b: bool)
    requires m.Valid()
    ensures b <==> Dim(m).1 == 1
    ensures |m.cells| > 0 ==> (b <==> |m.cells[0]| == 1)
  {
    m.cols == 1
  }

  /** The matrix `[[v; cols]; rows]`. */
  function Fill<T>(rows: nat, cols: nat, v: T): (m: Matrix<T>)
    ensures m.Valid() && m.rows == rows && m.cols == cols
    ensures forall i, j :: 0 <= i < rows && 0 <= j < cols ==> m.cells[i][j] == v
  {
    Matrix(rows, cols, seq(rows, _ => seq(cols, _ => v)))
  }

  /** `zeroes()`: every element is the additive identity. */
  function Zeroes(rows: nat, cols: nat): (m: Matrix<real>)
    ensures m.Valid() && m.rows == rows && m.cols == cols
    ensures forall i, j :: 0 <= i < rows && 0 <= j < cols ==> m.cells[i][j] == 0.0
  {
    Fill(rows, cols, 0.0)
  }

  /** `ones()`: a square matrix whose every element is the multiplicative identity. */
  function Ones(n: nat): (m: Matrix<real>)
    ensures m.Valid() && m.rows == n && m.cols == n
    ensures forall i, j :: 0 <= i < n && 0 <= j < n ==> m.cells[i][j] == 1.0
  {
    Fill(n, n, 1.0)
  }

  /**
   * `default()`: every element is the element type's default value `d`,
   * which the caller supplies (it is a capability of T, not necessarily zero).
   */
  function Default<T>(rows: nat, cols: nat, d: T): (m: Matrix<T>)
    ensures m.Valid() && m.rows == rows && m.cols == cols
    ensures forall i, j :: 0 <= i < rows && 0 <= j < cols ==> m.cells[i][j] == d
  {
    Fill(rows, cols, d)
  }

  /**
   * `matrix[r][c] = v`: a write through the mutable row reference of
   * `index_mut`. Only cell (r, c) changes.
   */
  function Write<T>(m: Matrix<T>, r: nat, c: nat, v: T): (w: Matrix<T>)
    requires m.Valid() && r < m.rows && c < m.cols
    ensures w.Valid() && w.rows == m.rows && w.cols == m.cols
    ensures w.cells[r][c] == v
    ensures forall i, j :: 0 <= i < m.rows && 0 <= j < m.cols && (i != r || j != c) ==> w.cells[i][j] == m.cells[i][j]
  {
    m.(cells := m.cells[r := m.cells[r][c := v]])
  }

  /**
   * The loop of `identity()`: starting from `m`, the diagonal cells [r][r]
   * with r < k have been set to one. The inner `if row == col` of the
   * library's double loop only ever writes such cells.
   */
  function WriteDiagonal(m: Matrix<real>, k: nat): (w: Matrix<real>)
    requires m.Valid() && m.rows == m.cols && k <= m.rows
    ensures w.Valid() && w.rows == m.rows && w.cols == m.cols
    ensures forall i, j :: 0 <= i < m.rows && 0 <= j < m.cols ==>
      w.cells[i][j] == (if i == j && i < k then 1.0 else m.cells[i][j])
    decreases k
  {
    if k == 0 then m else Write(WriteDiagonal(m, k - 1), k - 1, k - 1, 1.0)
  }

  /** `identity()` as src/lib.rs builds it: a zero matrix with its diagonal set to one. */
  function Identity(n: nat): (m: Matrix<real>)
    ensures m.Valid() && m.rows == n && m.cols == n
    ensures forall i, j :: 0 <= i < n && 0 <= j < n ==> m.cells[i][j] == (if i == j then 1.0 else 0.0)
  {
    WriteDiagonal(Fill(n, n, 0.0), n)
  }

  /** The shape queries on the matrices the library's tests build. */
  lemma ShapeQueryExamples()
    ensures IsRowVector(Default(1, 1, 0)) && IsColumnVector(Default(1, 1, 0))
    ensures !IsRowVector(Default(3, 1, 0)) && IsColumnVector(Default(3, 1, 0))
    ensures IsRowVector(Default(1, 3, 0)) && !IsColumnVector(Default(1, 3, 0))
    ensures !IsRowVector(Default(3, 3, 0)) && !IsColumnVector(Default(3, 3, 0))
    ensures Dim(Default(1, 1, 0)) == (1, 1) && Dim(Default(1, 2, 0)) == (1, 2) && Dim(Default(2, 1, 0)) == (2, 1)
  {
  }

  /** `default()` on integer shapes is all zero. */
  lemma DefaultExamples()
    ensures Default(1, 1, 0) == Matrix(1, 1, [[0]])
    ensures Default(1, 2, 0) == Matrix(1, 2, [[0, 0]])
    ensures Default(2, 1, 0) == Matrix(2, 1, [[0], [0]])
    ensures Default(2, 2, 0) == Matrix(2, 2, [[0, 0], [0, 0]])
  {
    Extensionality(Default(1, 1, 0), Matrix(1, 1, [[0]]));
    Extensionality(Default(1, 2, 0), Matrix(1, 2, [[0, 0]]));
    Extensionality(Default(2, 1, 0), Matrix(2, 1, [[0], [0]]));
    Extensionality(Default(2, 2, 0), Matrix(2, 2, [[0, 0], [0, 0]]));
  }
}
