/** `transpose` (src/ops/transpose.rs): an R x C matrix becomes C x R. */
module Transposition {
  import opened Matrices

  /** The transpose: element (j, i) of the result is element (i, j) of `m`. */
  function Transpose<T>(m: Matrix<T>): (t: Matrix<T>)
    requires m.Valid()
    ensures t.Valid() && Dim(t) == (m.cols, m.rows)
    ensures forall i, j :: 0 <= i < m.rows && 0 <= j < m.cols ==> t.cells[j][i] == m.cells[i][j]
  {
    Matrix(m.cols, m.rows,
      seq(m.cols, j requires 0 <= j < m.cols => seq(m.rows, i requires 0 <= i < m.rows => m.cells[i][j])))
  }

  /**
   * The library's loop: a C x R buffer of the element type's zero, every
   * cell of which is then overwritten, so no initial zero survives.
   */
  method TransposeLoop<T>(m: Matrix<T>, zero: T) returns (t: Matrix<T>)
    requires m.Valid()
    ensures t == Transpose(m)
  {
    t := Fill(m.cols, m.rows, zero);
    var i := 0;
    while i < m.rows
      invariant 0 <= i <= m.rows
      invariant t.Valid() && t.rows == m.cols && t.cols == m.rows
      invariant forall p, q :: 0 <= p < i && 0 <= q < m.cols ==> t.cells[q][p] == m.cells[p][q]
    {
      var j := 0;
      while j < m.cols
        invariant 0 <= j <= m.cols
        invariant t.Valid() && t.rows == m.cols && t.cols == m.rows
        invariant forall p, q :: 0 <= p < i && 0 <= q < m.cols ==> t.cells[q][p] == m.cells[p][q]
        invariant forall q :: 0 <= q < j ==> t.cells[q][i] == m.cells[i][q]
      {
        t := Write(t, j, i, m.cells[i][j]);
        j := j + 1;
      }
      i := i + 1;
    }
    Extensionality(t, Transpose(m));
  }

  /** Transposing twice gives back the original, square or not. */
  lemma TransposeInvolution<T>(m: Matrix<T>)
    requires m.Valid()
    ensures Transpose(Transpose(m)) == m
  {
    Extensionality(Transpose(Transpose(m)), m);
  }

  /** The row vector [[1, 2]] transposes to the column vector [[1], [2]], and back. */
  lemma TransposeExample()
    ensures Transpose(Matrix(1, 2, [[1, 2]])) == Matrix(2, 1, [[1], [2]])
    ensures Transpose(Transpose(Matrix(1, 2, [[1, 2]]))) == Matrix(1, 2, [[1, 2]])
    ensures Transpose(Transpose(Identity(4))) == Identity(4)
  {
    Extensionality(Transpose(Matrix(1, 2, [[1, 2]])), Matrix(2, 1, [[1], [2]]));
    TransposeInvolution(Matrix(1, 2, [[1, 2]]));
    TransposeInvolution(Identity(4));
  }
}
