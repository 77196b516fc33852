/**
 * Indexing and equality (src/ops/eq.rs).
 *
 * `m[r]` yields row `r` and `m[r][c]` its element; an index past the extent
 * is a fatal out-of-bounds fault in the library, modelled here as `None`.
 */
module Indexing {
  import opened Matrices

  /** `m[r]` (`Index`): row `r`, or the out-of-bounds fault. */
  function Row<T>(m: Matrix<T>, r: nat): (row: Option<seq<T>>)
    requires m.Valid()
    ensures row.Some? <==> r < m.rows
    ensures row.Some? ==> |row.value| == m.cols && forall j :: 0 <= j < m.cols ==> row.value[j] == m.cells[r][j]
  {
    if r < m.rows then Some(m.cells[r]) else None
  }

  /** `m[r][c]`: the element at row `r`, column `c`, or the out-of-bounds fault. */
  function Get<T>(m: Matrix<T>, r: nat, c: nat): (e: Option<T>)
    requires m.Valid()
    ensures e.Some? <==> r < m.rows && c < m.cols
    ensures e.Some? ==> Row(m, r).Some? && e.value == Row(m, r).value[c]
  {
    match Row(m, r)
    case None => None
    case Some(row) => if c < |row| then Some(row[c]) else None
  }

  /**
   * `m[r][c] = v` (`IndexMut`, then a write into the borrowed row): the
   * out-of-bounds fault, or the matrix in which only that cell changed.
   */
  function SetCell<T>(m: Matrix<T>, r: nat, c: nat, v: T): (res: Option<Matrix<T>>)
    requires m.Valid()
    ensures res.Some? <==> r < m.rows && c < m.cols
    ensures res.Some? ==> res.value.Valid() && Dim(res.value) == Dim(m)
    ensures res.Some? ==> Get(res.value, r, c) == Some(v)
    ensures res.Some? ==> forall i :: 0 <= i < m.rows && i != r ==> Row(res.value, i) == Row(m, i)
    ensures res.Some? ==> forall j :: 0 <= j < m.cols && j != c ==> Get(res.value, r, j) == Get(m, r, j)
  {
    if r < m.rows && c < m.cols then Some(Write(m, r, c, v)) else None
  }

  /** Matrix-versus-array equality, element by element. */
  ghost predicate CellsEqual<T>(m: Matrix<T>, raw: seq<seq<T>>)
    requires m.Valid() && IsGrid(raw, m.rows, m.cols)
  {
    forall i, j :: 0 <= i < m.rows && 0 <= j < m.cols ==> m.cells[i][j] == raw[i][j]
  }

  /**
   * `PartialEq<[[T; COLS]; ROWS]>`: scans in row-major order and answers
   * false at the first differing pair.
   */
  method EqualsArray<T(==)>(m: Matrix<T>, raw: seq<seq<T>>) returns (eq: bool)
    requires m.Valid() && IsGrid(raw, m.rows, m.cols)
    ensures eq <==> CellsEqual(m, raw)
    ensures eq <==> m.cells == raw
  {
    var row := 0;
    while row < m.rows
      invariant 0 <= row <= m.rows
      invariant forall i, j :: 0 <= i < row && 0 <= j < m.cols ==> m.cells[i][j] == raw[i][j]
    {
      var col := 0;
      while col < m.cols
        invariant 0 <= col <= m.cols
        invariant forall i, j :: 0 <= i < row && 0 <= j < m.cols ==> m.cells[i][j] == raw[i][j]
        invariant forall j :: 0 <= j < col ==> m.cells[row][j] == raw[row][j]
      {
        if m.cells[row][col] != raw[row][col] {
          return false;
        }
        col := col + 1;
      }
      row := row + 1;
    }
    Extensionality(m, Matrix(m.rows, m.cols, raw));
    return true;
  }

  /** `PartialEq<Matrix>`: compares the other matrix's underlying array. */
  method Equals<T(==)>(a: Matrix<T>, b: Matrix<T>) returns (eq: bool)
    requires a.Valid() && b.Valid() && Dim(a) == Dim(b)
    ensures eq <==> a == b
  {
    eq := EqualsArray(a, b.cells);
  }

  /** The indexing test: row-major access to a 3 x 2 matrix, and an index past a 1 x 1 matrix. */
  lemma IndexExamples()
    ensures var m := Matrix(3, 2, [[1, 2], [3, 4], [5, 6]]);
      Get(m, 0, 0) == Some(1) && Get(m, 0, 1) == Some(2) && Get(m, 1, 0) == Some(3) &&
      Get(m, 1, 1) == Some(4) && Get(m, 2, 0) == Some(5) && Get(m, 2, 1) == Some(6)
    ensures Row(Ones(1), 2) == None && Get(Ones(1), 2, 2) == None
  {
  }

  /** The `default()` test: default integer matrices equal all-zero arrays. */
  lemma DefaultEqualsZeroArrays()
    ensures CellsEqual(Default(1, 1, 0), [[0]])
    ensures CellsEqual(Default(1, 2, 0), [[0, 0]])
    ensures CellsEqual(Default(2, 1, 0), [[0], [0]])
    ensures CellsEqual(Default(2, 2, 0), [[0, 0], [0, 0]])
  {
  }
}
