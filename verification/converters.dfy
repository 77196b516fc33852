/** `From<[[T; COLS]; ROWS]>` (src/converters.rs): wrapping a raw nested array. */
module Converters {
  import opened Matrices
  import opened Indexing

  /**
   * The conversion is total: the array becomes the matrix's storage as it is,
   * with the array's own extents. The array type fixes those extents in the
   * library; here the caller states them.
   */
  function FromArray<T>(rows: nat, cols: nat, raw: seq<seq<T>>): (m: Matrix<T>)
    requires IsGrid(raw, rows, cols)
    ensures m.Valid() && Dim(m) == (rows, cols)
    ensures m.cells == raw
  {
    Matrix(rows, cols, raw)
  }

  /** The converted matrix equals its source array under matrix-versus-array equality. */
  lemma FromArrayEqualsArray<T>(rows: nat, cols: nat, raw: seq<seq<T>>)
    requires IsGrid(raw, rows, cols)
    ensures CellsEqual(FromArray(rows, cols, raw), raw)
    ensures forall r, c :: 0 <= r < rows && 0 <= c < cols ==> Get(FromArray(rows, cols, raw), r, c) == Some(raw[r][c])
  {
  }

  /** Converting then reading the storage back is the identity on arrays. */
  lemma FromArrayRoundTrip<T>(m: Matrix<T>)
    requires m.Valid()
    ensures FromArray(m.rows, m.cols, m.cells) == m
  {
  }
}
