/**
 * Element iteration (src/iter.rs): `(&matrix).into_iter()` and
 * `MatrixIterator::next`.
 *
 * The iterator is a counter. As written it yields ROWS * COLS items, but
 * every item is `(0, 0, &m[0][0])`: neither the position nor the element
 * ever advances. `Next` models that behaviour; `NextRowMajor` is the
 * row-major enumeration the library's identity tests evidently expect.
 */
module Iteration {
  import opened Matrices

  /** An item: (row, column, element). */
  type Item<T> = (nat, nat, T)

  datatype MatrixIterator<T> = MatrixIterator(matrix: Matrix<T>, index: nat)

  /** The counter never passes the number of cells. */
  ghost predicate Live<T>(it: MatrixIterator<T>) {
    it.matrix.Valid() && it.index <= it.matrix.rows * it.matrix.cols
  }

  /** A product of extents is positive only when both extents are. */
  lemma PositiveProduct(a: nat, b: nat)
    requires a * b > 0
    ensures a > 0 && b > 0
  {
  }

  /** `into_iter`: a fresh iterator over `m` starts at index 0. */
  function IntoIter<T>(m: Matrix<T>): (it: MatrixIterator<T>)
    requires m.Valid()
    ensures Live(it) && it.matrix == m && it.index == 0
  {
    MatrixIterator(m, 0)
  }

  /**
   * `next`, as written: `None` once the counter equals ROWS * COLS (without
   * advancing it), otherwise advance the counter and yield `(0, 0, m[0][0])`.
   */
  function Next<T>(it: MatrixIterator<T>): (res: (MatrixIterator<T>, Option<Item<T>>))
    requires Live(it)
    ensures Live(res.0) && res.0.matrix == it.matrix
    ensures res.1.None? <==> it.index == it.matrix.rows * it.matrix.cols
    ensures res.1.None? ==> res.0 == it
    ensures res.1.Some? ==> res.0.index == it.index + 1
    ensures res.1.Some? ==> it.matrix.rows > 0 && it.matrix.cols > 0 && res.1.value == (0, 0, it.matrix.cells[0][0])
  {
    if it.index == it.matrix.rows * it.matrix.cols then
      (it, None)
    else
      PositiveProduct(it.matrix.rows, it.matrix.cols);
      (it.(index := it.index + 1), Some((0, 0, it.matrix.cells[0][0])))
  }

  /** The results of `n` successive calls of `next`. */
  function Run<T>(it: MatrixIterator<T>, n: nat): (items: seq<Option<Item<T>>>)
    requires Live(it)
    ensures |items| == n
    decreases n
  {
    if n == 0 then [] else
      var (it', x) := Next(it);
      [x] + Run(it', n - 1)
  }

  /**
   * Call `k` of a run yields an item exactly while the counter has not
   * reached ROWS * COLS, and that item is always the first cell.
   */
  lemma {:induction false} RunYields<T>(it: MatrixIterator<T>, n: nat, k: nat)
    requires Live(it) && k < n
    ensures Run(it, n)[k].Some? <==> it.index + k < it.matrix.rows * it.matrix.cols
    ensures Run(it, n)[k].Some? ==> Run(it, n)[k].value == (0, 0, it.matrix.cells[0][0])
    decreases n
  {
    var (it', x) := Next(it);
    if k > 0 {
      RunYields(it', n - 1, k - 1);
      if x.None? {
        assert it' == it;
      }
    }
  }

  /**
   * A fresh iterator yields `Some` exactly ROWS * COLS times and `None`
   * forever after; every item is `(0, 0, m[0][0])`. For a matrix without
   * cells the first call already yields `None`.
   */
  lemma FreshRun<T>(m: Matrix<T>, n: nat)
    requires m.Valid()
    ensures forall k :: 0 <= k < n ==> (Run(IntoIter(m), n)[k].Some? <==> k < m.rows * m.cols)
    ensures forall k :: 0 <= k < n && Run(IntoIter(m), n)[k].Some? ==> Run(IntoIter(m), n)[k].value == (0, 0, m.cells[0][0])
    ensures m.rows * m.cols == 0 && n > 0 ==> Run(IntoIter(m), n)[0] == None
  {
    forall k | 0 <= k < n
      ensures Run(IntoIter(m), n)[k].Some? <==> k < m.rows * m.cols
      ensures Run(IntoIter(m), n)[k].Some? ==> Run(IntoIter(m), n)[k].value == (0, 0, m.cells[0][0])
    {
      RunYields(IntoIter(m), n, k);
    }
  }

  /** Once `next` has yielded `None` it keeps yielding `None`. */
  lemma {:induction false} StaysExhausted<T>(it: MatrixIterator<T>, n: nat)
    requires Live(it) && Next(it).1.None?
    ensures forall k :: 0 <= k < n ==> Run(it, n)[k] == None
  {
    forall k | 0 <= k < n
      ensures Run(it, n)[k] == None
    {
      RunYields(it, n, k);
    }
  }

  /** The row-major enumeration: item `index` is cell (index / COLS, index % COLS). */
  function NextRowMajor<T>(it: MatrixIterator<T>): (res: (MatrixIterator<T>, Option<Item<T>>))
    requires Live(it)
    ensures Live(res.0) && res.0.matrix == it.matrix
    ensures res.1.None? <==> it.index == it.matrix.rows * it.matrix.cols
    ensures res.1.None? ==> res.0 == it
    ensures res.1.Some? ==> res.0.index == it.index + 1
    ensures res.1.Some? ==> var (r, c, e) := res.1.value;
      r < it.matrix.rows && c < it.matrix.cols && r * it.matrix.cols + c == it.index && e == it.matrix.cells[r][c]
  {
    var m := it.matrix;
    if it.index == m.rows * m.cols then
      (it, None)
    else
      PositiveProduct(m.rows, m.cols);
      RowMajorPosition(it.index, m.rows, m.cols);
      var r := it.index / m.cols;
      var c := it.index % m.cols;
      (it.(index := it.index + 1), Some((r, c, m.cells[r][c])))
  }

  /** Position `k` of a `rows` x `cols` grid in row-major order lies inside the grid. */
  lemma RowMajorPosition(k: nat, rows: nat, cols: nat)
    requires k < rows * cols
    ensures cols > 0 && k / cols < rows && k % cols < cols
    ensures (k / cols) * cols + k % cols == k
  {
    PositiveProduct(rows, cols);
  }

  /** The results of `n` calls of the row-major `next`. */
  function RunRowMajor<T>(it: MatrixIterator<T>, n: nat): (items: seq<Option<Item<T>>>)
    requires Live(it)
    ensures |items| == n
    decreases n
  {
    if n == 0 then [] else
      var (it', x) := NextRowMajor(it);
      [x] + RunRowMajor(it', n - 1)
  }

  /** Call `k` of a row-major run yields cell number `index + k`, while there is one. */
  lemma {:induction false} RunRowMajorYields<T>(it: MatrixIterator<T>, n: nat, k: nat)
    requires Live(it) && k < n
    ensures RunRowMajor(it, n)[k].Some? <==> it.index + k < it.matrix.rows * it.matrix.cols
    ensures RunRowMajor(it, n)[k].Some? ==> var (r, c, e) := RunRowMajor(it, n)[k].value;
      r < it.matrix.rows && c < it.matrix.cols && r * it.matrix.cols + c == it.index + k && e == it.matrix.cells[r][c]
    decreases n
  {
    var (it', x) := NextRowMajor(it);
    if k > 0 {
      RunRowMajorYields(it', n - 1, k - 1);
      if x.None? {
        assert it' == it;
      }
    }
  }

  /**
   * A fresh row-major iterator yields ROWS * COLS items, item `k` being the
   * cell at row-major position `k`: row 0 left to right, then row 1, and so on.
   */
  lemma RowMajorVisitsEveryCell<T>(m: Matrix<T>)
    requires m.Valid()
    ensures forall k :: 0 <= k < m.rows * m.cols ==> RunRowMajor(IntoIter(m), m.rows * m.cols)[k].Some?
    ensures forall k :: 0 <= k < m.rows * m.cols ==>
      var (r, c, e) := RunRowMajor(IntoIter(m), m.rows * m.cols)[k].value;
      r < m.rows && c < m.cols && r * m.cols + c == k && e == m.cells[r][c]
  {
    forall k | 0 <= k < m.rows * m.cols
      ensures RunRowMajor(IntoIter(m), m.rows * m.cols)[k].Some?
    {
      RunRowMajorYields(IntoIter(m), m.rows * m.cols, k);
    }
    forall k | 0 <= k < m.rows * m.cols
      ensures var (r, c, e) := RunRowMajor(IntoIter(m), m.rows * m.cols)[k].value;
        r < m.rows && c < m.cols && r * m.cols + c == k && e == m.cells[r][c]
    {
      RunRowMajorYields(IntoIter(m), m.rows * m.cols, k);
    }
  }

  /** Multiplying by a natural number is monotone. */
  lemma MulMonotone(a: nat, b: nat, c: nat)
    requires a <= b
    ensures a * c <= b * c
  {
    assert b * c == a * c + (b - a) * c;
  }

  /** A row-major position determines its row and column. */
  lemma UniquePosition(r: nat, c: nat, r': nat, c': nat, cols: nat)
    requires c < cols && c' < cols && r * cols + c == r' * cols + c'
    ensures r == r' && c == c'
  {
    if r < r' {
      MulMonotone(r + 1, r', cols);
    } else if r' < r {
      MulMonotone(r' + 1, r, cols);
    }
  }

  /**
   * The check of the library's identity tests: every yielded item on the
   * diagonal is one and every other yielded item is zero.
   */
  ghost predicate IdentityCheck(items: seq<Option<Item<real>>>) {
    forall k :: 0 <= k < |items| && items[k].Some? ==>
      items[k].value.2 == (if items[k].value.0 == items[k].value.1 then 1.0 else 0.0)
  }

  /**
   * As written, the iterator lets the identity test accept a matrix that is
   * not the identity: it only ever shows the test cell (0, 0).
   */
  lemma IdentityTestBlind()
    ensures var m := Matrix(2, 2, [[1.0, 5.0], [7.0, 1.0]]);
      m != Identity(2) && IdentityCheck(Run(IntoIter(m), 4))
  {
    var m := Matrix(2, 2, [[1.0, 5.0], [7.0, 1.0]]);
    assert Identity(2).cells[0][1] == 0.0;
    FreshRun(m, 4);
  }

  /** With the row-major iterator the same test rejects that matrix. */
  lemma RowMajorIdentityTestRejects()
    ensures var m := Matrix(2, 2, [[1.0, 5.0], [7.0, 1.0]]);
      !IdentityCheck(RunRowMajor(IntoIter(m), 4))
  {
    var m := Matrix(2, 2, [[1.0, 5.0], [7.0, 1.0]]);
    RowMajorVisitsEveryCell(m);
    var item := RunRowMajor(IntoIter(m), 4)[1].value;
    UniquePosition(item.0, item.1, 0, 1, 2);
  }
}
