/**
 * The `Mul` operator (src/ops/mul.rs): an R x C matrix times a C x K matrix
 * is the R x K matrix of sums of products.
 */
module Multiplication {
  import opened Matrices

  /**
   * Σ_{t<m} a[i][t]·b[t][j], accumulated from zero in increasing t, as the
   * library's inner loop does.
   */
  function Dot(a: Matrix<real>, b: Matrix<real>, i: nat, j: nat, m: nat): real
    requires a.Valid() && b.Valid() && a.cols == b.rows
    requires i < a.rows && j < b.cols && m <= a.cols
    decreases m
  {
    if m == 0 then 0.0 else Dot(a, b, i, j, m - 1) + a.cells[i][m - 1] * b.cells[m - 1][j]
  }

  /** One more term of a sum. */
  lemma DotStep(a: Matrix<real>, b: Matrix<real>, i: nat, j: nat, m: nat)
    requires a.Valid() && b.Valid() && a.cols == b.rows
    requires i < a.rows && j < b.cols && m < a.cols
    ensures Dot(a, b, i, j, m + 1) == Dot(a, b, i, j, m) + a.cells[i][m] * b.cells[m][j]
  {
  }

  /** The matrix product: cell (i, j) is the full sum over the inner dimension. */
  function Product(a: Matrix<real>, b: Matrix<real>): (p: Matrix<real>)
    requires a.Valid() && b.Valid() && a.cols == b.rows
    ensures p.Valid() && Dim(p) == (a.rows, b.cols)
    ensures forall i, j :: 0 <= i < a.rows && 0 <= j < b.cols ==> p.cells[i][j] == Dot(a, b, i, j, a.cols)
  {
    Matrix(a.rows, b.cols,
      seq(a.rows, i requires 0 <= i < a.rows =>
        seq(b.cols, j requires 0 <= j < b.cols => Dot(a, b, i, j, a.cols))))
  }

  /**
   * A sum only reads row `i` of `a` and column `j` of `b` below `m`: matrices
   * that agree there have equal sums.
   */
  lemma {:induction false} DotFrame(a: Matrix<real>, b: Matrix<real>, a': Matrix<real>, b': Matrix<real>, i: nat, j: nat, m: nat)
    requires a.Valid() && b.Valid() && a.cols == b.rows && i < a.rows && j < b.cols && m <= a.cols
    requires a'.Valid() && b'.Valid() && a'.cols == b'.rows && i < a'.rows && j < b'.cols && m <= a'.cols
    requires forall t :: 0 <= t < m ==> a.cells[i][t] == a'.cells[i][t] && b.cells[t][j] == b'.cells[t][j]
    ensures Dot(a, b, i, j, m) == Dot(a', b', i, j, m)
    decreases m
  {
    if m > 0 {
      DotFrame(a, b, a', b', i, j, m - 1);
    }
  }

  /** Terms from `m` up to `n` that are all zero do not change the sum. */
  lemma {:induction false} DotVanishingTail(a: Matrix<real>, b: Matrix<real>, i: nat, j: nat, m: nat, n: nat)
    requires a.Valid() && b.Valid() && a.cols == b.rows && i < a.rows && j < b.cols
    requires m <= n <= a.cols
    requires forall t :: m <= t < n ==> a.cells[i][t] * b.cells[t][j] == 0.0
    ensures Dot(a, b, i, j, n) == Dot(a, b, i, j, m)
    decreases n
  {
    if n > m {
      DotVanishingTail(a, b, i, j, m, n - 1);
    }
  }

  /** With inner dimension 0 every cell of the product is zero. */
  lemma EmptyInnerDimension(a: Matrix<real>, b: Matrix<real>)
    requires a.Valid() && b.Valid() && a.cols == 0 && b.rows == 0
    ensures Product(a, b) == Zeroes(a.rows, b.cols)
  {
    Extensionality(Product(a, b), Zeroes(a.rows, b.cols));
  }

  /**
   * The three loops of `mul`, writing into `buffer`: every cell of the
   * buffer is overwritten with its sum, so its initial contents do not
   * matter, and the operands are only read.
   */
  method Accumulate(a: Matrix<real>, b: Matrix<real>, buffer: Matrix<real>) returns (r: Matrix<real>)
    requires a.Valid() && b.Valid() && a.cols == b.rows
    requires buffer.Valid() && Dim(buffer) == (a.rows, b.cols)
    ensures r == Product(a, b)
  {
    r := buffer;
    var i := 0;
    while i < a.rows
      invariant 0 <= i <= a.rows
      invariant r.Valid() && r.rows == a.rows && r.cols == b.cols
      invariant forall p, q :: 0 <= p < i && 0 <= q < b.cols ==> r.cells[p][q] == Dot(a, b, p, q, a.cols)
    {
      var j := 0;
      while j < b.cols
        invariant 0 <= j <= b.cols
        invariant r.Valid() && r.rows == a.rows && r.cols == b.cols
        invariant forall p, q :: 0 <= p < i && 0 <= q < b.cols ==> r.cells[p][q] == Dot(a, b, p, q, a.cols)
        invariant forall q :: 0 <= q < j ==> r.cells[i][q] == Dot(a, b, i, q, a.cols)
      {
        var sum := 0.0;
        var k := 0;
        while k < a.cols
          invariant 0 <= k <= a.cols
          invariant sum == Dot(a, b, i, j, k)
        {
          sum := sum + a.cells[i][k] * b.cells[k][j];
          k := k + 1;
        }
        r := Write(r, i, j, sum);
        j := j + 1;
      }
      i := i + 1;
    }
    Extensionality(r, Product(a, b));
  }

  /**
   * `a * b`. When both operands have the same dimensions (so both are
   * square of one size) the buffer starts as a copy of `b`, otherwise as
   * `default()`; either way the result is the product.
   */
  method Multiply(a: Matrix<real>, b: Matrix<real>) returns (r: Matrix<real>)
    requires a.Valid() && b.Valid() && a.cols == b.rows
    ensures r == Product(a, b)
    ensures Dim(r) == (a.rows, b.cols)
  {
    var buffer := if Dim(a) == Dim(b) then b else Default(a.rows, b.cols, 0.0);
    r := Accumulate(a, b, buffer);
  }

  /** A partial sum against the identity on the left picks out row `i` of `m`. */
  lemma {:induction false} DotIdentityLeft(m: Matrix<real>, i: nat, j: nat, k: nat)
    requires m.Valid() && i < m.rows && j < m.cols && k <= m.rows
    ensures Dot(Identity(m.rows), m, i, j, k) == if i < k then m.cells[i][j] else 0.0
    decreases k
  {
    if k > 0 {
      DotIdentityLeft(m, i, j, k - 1);
    }
  }

  /** A partial sum against the identity on the right picks out column `j` of `m`. */
  lemma {:induction false} DotIdentityRight(m: Matrix<real>, i: nat, j: nat, k: nat)
    requires m.Valid() && i < m.rows && j < m.cols && k <= m.cols
    ensures Dot(m, Identity(m.cols), i, j, k) == if j < k then m.cells[i][j] else 0.0
    decreases k
  {
    if k > 0 {
      DotIdentityRight(m, i, j, k - 1);
    }
  }

  /** Multiplying by the identity on the left returns the other operand. */
  lemma IdentityLeft(m: Matrix<real>)
    requires m.Valid()
    ensures Product(Identity(m.rows), m) == m
  {
    forall i, j | 0 <= i < m.rows && 0 <= j < m.cols
      ensures Product(Identity(m.rows), m).cells[i][j] == m.cells[i][j]
    {
      DotIdentityLeft(m, i, j, m.rows);
    }
    Extensionality(Product(Identity(m.rows), m), m);
  }

  /** Multiplying by the identity on the right returns the other operand. */
  lemma IdentityRight(m: Matrix<real>)
    requires m.Valid()
    ensures Product(m, Identity(m.cols)) == m
  {
    forall i, j | 0 <= i < m.rows && 0 <= j < m.cols
      ensures Product(m, Identity(m.cols)).cells[i][j] == m.cells[i][j]
    {
      DotIdentityRight(m, i, j, m.cols);
    }
    Extensionality(Product(m, Identity(m.cols)), m);
  }

  /** The test with matching dimensions: identity times ones is ones (4 x 4). */
  lemma IdentityTimesOnes()
    ensures Product(Identity(4), Ones(4)) == Ones(4)
  {
    IdentityLeft(Ones(4));
  }

  /** The test with different dimensions: a 2 x 2 times a 2 x 3 matrix. */
  lemma ProductExample()
    ensures Product(Matrix(2, 2, [[1.0, 2.0], [3.0, 4.0]]), Matrix(2, 3, [[1.0, 2.0, 3.0], [4.0, 5.0, 6.0]]))
      == Matrix(2, 3, [[9.0, 12.0, 15.0], [19.0, 26.0, 33.0]])
  {
    var a := Matrix(2, 2, [[1.0, 2.0], [3.0, 4.0]]);
    var b := Matrix(2, 3, [[1.0, 2.0, 3.0], [4.0, 5.0, 6.0]]);
    var expected := Matrix(2, 3, [[9.0, 12.0, 15.0], [19.0, 26.0, 33.0]]);
    forall i, j | 0 <= i < 2 && 0 <= j < 3
      ensures Product(a, b).cells[i][j] == expected.cells[i][j]
    {
      assert Dot(a, b, i, j, 2) == a.cells[i][0] * b.cells[0][j] + a.cells[i][1] * b.cells[1][j];
    }
    Extensionality(Product(a, b), expected);
  }
}
