/**
 * The second definition of `identity()` (src/ops/id.rs). It starts from
 * `zeroes()` instead of a zero array literal and otherwise runs the same
 * double loop as the one in src/lib.rs.
 */
module IdentityOps {
  import opened Matrices

  /**
   * The double loop over (row, col), writing one where `row == col`. Its
   * result is the identity of src/lib.rs for every dimension, the empty
   * matrix included.
   */
  method IdentityFromZeroes(n: nat) returns (m: Matrix<real>)
    ensures m == Identity(n)
    ensures m.Valid() && Dim(m) == (n, n)
    ensures forall r, c :: 0 <= r < n && 0 <= c < n ==> m.cells[r][c] == (if r == c then 1.0 else 0.0)
  {
    m := Zeroes(n, n);
    var row := 0;
    while row < n
      invariant 0 <= row <= n
      invariant m.Valid() && m.rows == n && m.cols == n
      invariant forall r, c :: 0 <= r < n && 0 <= c < n ==> m.cells[r][c] == (if r == c && r < row then 1.0 else 0.0)
    {
      var col := 0;
      while col < n
        invariant 0 <= col <= n
        invariant m.Valid() && m.rows == n && m.cols == n
        invariant forall r, c :: 0 <= r < n && 0 <= c < n ==>
          m.cells[r][c] == (if r == c && (r < row || (r == row && c < col)) then 1.0 else 0.0)
      {
        if row == col {
          m := Write(m, row, col, 1.0);
        }
        col := col + 1;
      }
      row := row + 1;
    }
    Extensionality(m, Identity(n));
  }

  /** For dimension 0 the identity is the empty matrix. */
  lemma EmptyIdentity()
    ensures Identity(0) == Matrix(0, 0, [])
  {
  }
}
