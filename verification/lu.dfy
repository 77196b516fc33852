/**
 * `lu` (src/ops/lu.rs): Doolittle's LU decomposition, without pivoting.
 *
 * Stage i first computes row i of the upper factor U from column i on,
 * then column i of the unit lower factor L below the diagonal:
 *
 *   U[i][k] = A[i][k] - Σ_{j<i} L[i][j]·U[j][k]              (k >= i)
 *   L[k][i] = (A[k][i] - Σ_{j<i} L[k][j]·U[j][i]) / U[i][i]  (k > i)
 *
 * Both factors start as `default()` (all zero) and are never written
 * elsewhere. A zero pivot U[i][i] that is used as a divisor (i < DIM - 1)
 * is a division fault in the library; here it is the `ZeroPivot` outcome.
 */
module LuDecomposition {
  import opened Matrices
  import opened Multiplication

  datatype LuResult = Factors(lower: Matrix<real>, upper: Matrix<real>) | ZeroPivot(pivot: nat)

  ghost predicate Square(a: Matrix<real>) {
    a.Valid() && a.rows == a.cols
  }

  /** `a`, `l` and `u` are square matrices of one dimension. */
  ghost predicate SameSquare(a: Matrix<real>, l: Matrix<real>, u: Matrix<real>) {
    Square(a) && Square(l) && Square(u) && l.rows == a.rows && u.rows == a.rows
  }

  /** The defining equation of U[i][k], k >= i. */
  ghost predicate UpperEq(a: Matrix<real>, l: Matrix<real>, u: Matrix<real>, i: nat, k: nat)
    requires SameSquare(a, l, u) && i <= k < a.rows
  {
    u.cells[i][k] == a.cells[i][k] - Dot(l, u, i, k, i)
  }

  /** The defining equation of L[k][i], k > i, including the nonzero divisor it needs. */
  ghost predicate LowerEq(a: Matrix<real>, l: Matrix<real>, u: Matrix<real>, i: nat, k: nat)
    requires SameSquare(a, l, u) && i < k < a.rows
  {
    u.cells[i][i] != 0.0 && l.cells[k][i] == (a.cells[k][i] - Dot(l, u, k, i, i)) / u.cells[i][i]
  }

  /** L is zero strictly above its diagonal. */
  ghost predicate ZeroAboveDiagonal(l: Matrix<real>)
    requires Square(l)
  {
    forall p, q :: 0 <= p < q < l.rows ==> l.cells[p][q] == 0.0
  }

  /** U is zero strictly below its diagonal. */
  ghost predicate ZeroBelowDiagonal(u: Matrix<real>)
    requires Square(u)
  {
    forall p, q :: 0 <= q < p < u.rows ==> u.cells[p][q] == 0.0
  }

  /**
   * Stages 0 .. m-1 of the algorithm are complete: L has a unit diagonal and
   * U and L satisfy their defining equations in rows (of U) and columns (of
   * L) below `m`; the two triangles the algorithm never writes are zero.
   */
  ghost predicate StagesDone(a: Matrix<real>, l: Matrix<real>, u: Matrix<real>, m: nat) {
    SameSquare(a, l, u) && m <= a.rows &&
    ZeroAboveDiagonal(l) && ZeroBelowDiagonal(u) &&
    (forall p :: 0 <= p < m ==> l.cells[p][p] == 1.0) &&
    (forall p, k :: 0 <= p < m && p <= k < a.rows ==> UpperEq(a, l, u, p, k)) &&
    (forall p, k :: 0 <= p < m && p < k < a.rows ==> LowerEq(a, l, u, p, k))
  }

  /** (l, u) is the Doolittle factorisation of `a`. */
  ghost predicate IsDoolittle(a: Matrix<real>, l: Matrix<real>, u: Matrix<real>) {
    StagesDone(a, l, u, a.rows)
  }

  /** Stage `p` has computed row `p` of U, whose pivot is zero although it is still needed as a divisor. */
  ghost predicate StalledAt(a: Matrix<real>, l: Matrix<real>, u: Matrix<real>, p: nat) {
    StagesDone(a, l, u, p) && p + 1 < a.rows &&
    (forall k :: p <= k < a.rows ==> UpperEq(a, l, u, p, k)) &&
    u.cells[p][p] == 0.0
  }

  /**
   * (l, u) factors `a` as a unit lower triangular times an upper triangular
   * matrix, independently of how the factors are computed.
   */
  ghost predicate TriangularFactors(a: Matrix<real>, l: Matrix<real>, u: Matrix<real>) {
    SameSquare(a, l, u) && a.cols == l.rows &&
    ZeroAboveDiagonal(l) && ZeroBelowDiagonal(u) &&
    (forall p :: 0 <= p < a.rows ==> l.cells[p][p] == 1.0) &&
    Product(l, u) == a
  }

  /** Every pivot of `u` except the last, the ones `lu` divides by, is nonzero. */
  ghost predicate UsablePivots(u: Matrix<real>)
    requires Square(u)
  {
    forall p :: 0 <= p && p + 1 < u.rows ==> u.cells[p][p] != 0.0
  }

  /** Fewer completed stages are implied by more. */
  lemma StagesMonotone(a: Matrix<real>, l: Matrix<real>, u: Matrix<real>, m: nat, m': nat)
    requires StagesDone(a, l, u, m) && m' <= m
    ensures StagesDone(a, l, u, m')
  {
  }

  /**
   * The stages below `i` only read and write columns of L and rows of U
   * below `i` (besides the two zero triangles): matrices that agree there
   * have completed the same stages.
   */
  lemma StagesFrame(a: Matrix<real>, l: Matrix<real>, u: Matrix<real>, l': Matrix<real>, u': Matrix<real>, i: nat)
    requires StagesDone(a, l, u, i) && SameSquare(a, l', u')
    requires ZeroAboveDiagonal(l') && ZeroBelowDiagonal(u')
    requires forall x, t :: 0 <= x < a.rows && 0 <= t < i ==> l'.cells[x][t] == l.cells[x][t]
    requires forall t, y :: 0 <= t < i && 0 <= y < a.rows ==> u'.cells[t][y] == u.cells[t][y]
    ensures StagesDone(a, l', u', i)
  {
    assert forall p :: 0 <= p < i ==> l'.cells[p][p] == 1.0;
    UpperEquationsCarry(a, l, u, l', u', i);
    LowerEquationsCarry(a, l, u, l', u', i);
  }

  /** The rows of U that `StagesFrame` carries over. */
  lemma UpperEquationsCarry(a: Matrix<real>, l: Matrix<real>, u: Matrix<real>, l': Matrix<real>, u': Matrix<real>, i: nat)
    requires StagesDone(a, l, u, i) && SameSquare(a, l', u')
    requires forall x, t :: 0 <= x < a.rows && 0 <= t < i ==> l'.cells[x][t] == l.cells[x][t]
    requires forall t, y :: 0 <= t < i && 0 <= y < a.rows ==> u'.cells[t][y] == u.cells[t][y]
    ensures forall p, k :: 0 <= p < i && p <= k < a.rows ==> UpperEq(a, l', u', p, k)
  {
    forall p, k | 0 <= p < i && p <= k < a.rows
      ensures UpperEq(a, l', u', p, k)
    {
      EquationsCarry(a, l, u, l', u', i, p, k);
    }
  }

  /** The columns of L that `StagesFrame` carries over. */
  lemma LowerEquationsCarry(a: Matrix<real>, l: Matrix<real>, u: Matrix<real>, l': Matrix<real>, u': Matrix<real>, i: nat)
    requires StagesDone(a, l, u, i) && SameSquare(a, l', u')
    requires forall x, t :: 0 <= x < a.rows && 0 <= t < i ==> l'.cells[x][t] == l.cells[x][t]
    requires forall t, y :: 0 <= t < i && 0 <= y < a.rows ==> u'.cells[t][y] == u.cells[t][y]
    ensures forall p, k :: 0 <= p < i && p < k < a.rows ==> LowerEq(a, l', u', p, k)
  {
    forall p, k | 0 <= p < i && p < k < a.rows
      ensures LowerEq(a, l', u', p, k)
    {
      EquationsCarry(a, l, u, l', u', i, p, k);
    }
  }

  /** One pair (p, k) of `StagesFrame`. */
  lemma EquationsCarry(a: Matrix<real>, l: Matrix<real>, u: Matrix<real>, l': Matrix<real>, u': Matrix<real>, i: nat, p: nat, k: nat)
    requires StagesDone(a, l, u, i) && SameSquare(a, l', u')
    requires p < i && p <= k < a.rows
    requires forall t :: 0 <= t < p ==> l'.cells[p][t] == l.cells[p][t] && l'.cells[k][t] == l.cells[k][t]
    requires l'.cells[k][p] == l.cells[k][p]
    requires forall t :: 0 <= t <= p ==> u'.cells[t][k] == u.cells[t][k] && u'.cells[t][p] == u.cells[t][p]
    ensures UpperEq(a, l', u', p, k)
    ensures p < k ==> LowerEq(a, l', u', p, k)
  {
    assert UpperEq(a, l, u, p, k);
    DotFrame(l', u', l, u, p, k, p);
    if p < k {
      assert LowerEq(a, l, u, p, k);
      DotFrame(l', u', l, u, k, p, p);
    }
  }

  /** Writing U[i][k] (k >= i) during stage `i` keeps what is already established. */
  lemma UpperWrite(a: Matrix<real>, l: Matrix<real>, u: Matrix<real>, i: nat, k: nat, v: real)
    requires StagesDone(a, l, u, i) && i <= k < a.rows
    ensures StagesDone(a, l, Write(u, i, k, v), i)
    ensures forall k' :: i <= k' < a.rows && k' != k && UpperEq(a, l, u, i, k') ==> UpperEq(a, l, Write(u, i, k, v), i, k')
    ensures Dot(l, Write(u, i, k, v), i, k, i) == Dot(l, u, i, k, i)
  {
    var u' := Write(u, i, k, v);
    StagesFrame(a, l, u, l, u', i);
    forall k' | i <= k' < a.rows
      ensures Dot(l, u', i, k', i) == Dot(l, u, i, k', i)
    {
      DotFrame(l, u', l, u, i, k', i);
    }
  }

  /** Writing L[k][i] (k >= i) during stage `i` keeps what is already established. */
  lemma LowerWrite(a: Matrix<real>, l: Matrix<real>, u: Matrix<real>, i: nat, k: nat, v: real)
    requires StagesDone(a, l, u, i) && i <= k < a.rows
    ensures StagesDone(a, Write(l, k, i, v), u, i)
    ensures forall k' :: i <= k' < a.rows && UpperEq(a, l, u, i, k') ==> UpperEq(a, Write(l, k, i, v), u, i, k')
    ensures forall k' :: i < k' < a.rows && k' != k && LowerEq(a, l, u, i, k') ==> LowerEq(a, Write(l, k, i, v), u, i, k')
    ensures Dot(Write(l, k, i, v), u, k, i, i) == Dot(l, u, k, i, i)
  {
    var l' := Write(l, k, i, v);
    StagesFrame(a, l, u, l', u, i);
    forall k' | i <= k' < a.rows
      ensures Dot(l', u, i, k', i) == Dot(l, u, i, k', i) && Dot(l', u, k', i, i) == Dot(l, u, k', i, i)
    {
      DotFrame(l', u, l, u, i, k', i);
      DotFrame(l', u, l, u, k', i, i);
    }
  }

  /**
   * The first inner loop of stage `i`: row `i` of U from column `i` on, each
   * entry the matrix entry minus the sum over the earlier stages. Nothing
   * that the earlier stages established changes.
   */
  method UpperRow(a: Matrix<real>, lower: Matrix<real>, upper: Matrix<real>, i: nat) returns (upper': Matrix<real>)
    requires StagesDone(a, lower, upper, i) && i < a.rows
    ensures StagesDone(a, lower, upper', i)
    ensures forall k :: i <= k < a.rows ==> UpperEq(a, lower, upper', i, k)
  {
    var n := a.rows;
    upper' := upper;
    var k := i;
    while k < n
      invariant i <= k <= n
      invariant StagesDone(a, lower, upper', i)
      invariant forall k' :: i <= k' < k ==> UpperEq(a, lower, upper', i, k')
    {
      var sum := 0.0;
      var j := 0;
      while j < i
        invariant 0 <= j <= i
        invariant sum == Dot(lower, upper', i, k, j)
      {
        sum := sum + lower.cells[i][j] * upper'.cells[j][k];
        j := j + 1;
      }
      UpperWrite(a, lower, upper', i, k, a.cells[i][k] - sum);
      upper' := Write(upper', i, k, a.cells[i][k] - sum);
      k := k + 1;
    }
  }

  /**
   * The second inner loop of stage `i`: a one on the diagonal, then column
   * `i` of L below it, each entry divided by the pivot U[i][i]. The loop
   * stalls at the first division by a zero pivot; otherwise stage `i` is
   * complete.
   */
  method LowerColumn(a: Matrix<real>, lower: Matrix<real>, upper: Matrix<real>, i: nat) returns (lower': Matrix<real>, stalled: bool)
    requires StagesDone(a, lower, upper, i) && i < a.rows
    requires forall k :: i <= k < a.rows ==> UpperEq(a, lower, upper, i, k)
    ensures stalled <==> i + 1 < a.rows && upper.cells[i][i] == 0.0
    ensures stalled ==> StalledAt(a, lower', upper, i)
    ensures !stalled ==> StagesDone(a, lower', upper, i + 1)
  {
    var n := a.rows;
    lower' := lower;
    stalled := false;
    var k := i;
    while k < n
      invariant i <= k <= n
      invariant StagesDone(a, lower', upper, i)
      invariant forall k' :: i <= k' < n ==> UpperEq(a, lower', upper, i, k')
      invariant k > i ==> lower'.cells[i][i] == 1.0
      invariant k > i + 1 ==> upper.cells[i][i] != 0.0
      invariant forall k' :: i < k' < k ==> LowerEq(a, lower', upper, i, k')
    {
      if i == k {
        LowerWrite(a, lower', upper, i, i, 1.0);
        lower' := Write(lower', i, i, 1.0);
      } else {
        var sum := 0.0;
        var j := 0;
        while j < i
          invariant 0 <= j <= i
          invariant sum == Dot(lower', upper, k, i, j)
        {
          sum := sum + lower'.cells[k][j] * upper.cells[j][i];
          j := j + 1;
        }
        if upper.cells[i][i] == 0.0 {
          return lower', true;
        }
        LowerWrite(a, lower', upper, i, k, (a.cells[k][i] - sum) / upper.cells[i][i]);
        lower' := Write(lower', k, i, (a.cells[k][i] - sum) / upper.cells[i][i]);
      }
      k := k + 1;
    }
  }

  /**
   * The library's `lu`. On success the factors are the Doolittle
   * factorisation of `a`: L is unit lower triangular, U is upper
   * triangular, the defining equations hold and L × U rebuilds `a`; no
   * other pair is a Doolittle factorisation. `ZeroPivot` is answered exactly
   * when `a` has no Doolittle factorisation.
   */
  method Lu(a: Matrix<real>) returns (r: LuResult)
    requires Square(a)
    ensures r.Factors? ==> IsDoolittle(a, r.lower, r.upper)
    ensures r.Factors? ==> Product(r.lower, r.upper) == a
    ensures r.Factors? ==> forall l, u :: IsDoolittle(a, l, u) ==> l == r.lower && u == r.upper
    ensures r.Factors? ==> TriangularFactors(a, r.lower, r.upper) && UsablePivots(r.upper)
    ensures r.ZeroPivot? ==> r.pivot + 1 < a.rows
    ensures r.ZeroPivot? ==> exists l, u :: StalledAt(a, l, u, r.pivot)
    ensures r.ZeroPivot? ==> forall l, u :: !IsDoolittle(a, l, u)
    ensures r.ZeroPivot? ==> forall l, u :: TriangularFactors(a, l, u) ==> !UsablePivots(u)
  {
    var n := a.rows;
    var lower := Default(n, n, 0.0);
    var upper := Default(n, n, 0.0);
    var i := 0;
    while i < n
      invariant 0 <= i <= n
      invariant StagesDone(a, lower, upper, i)
    {
      upper := UpperRow(a, lower, upper, i);
      var stalled;
      lower, stalled := LowerColumn(a, lower, upper, i);
      if stalled {
        forall l, u | IsDoolittle(a, l, u)
          ensures false
        {
          StalledHasNoFactors(a, lower, upper, i, l, u);
        }
        forall l, u | TriangularFactors(a, l, u) && UsablePivots(u)
          ensures false
        {
          TriangularFactorsAreDoolittle(a, l, u);
          StalledHasNoFactors(a, lower, upper, i, l, u);
        }
        return ZeroPivot(i);
      }
      i := i + 1;
    }
    DoolittleIsTriangularFactors(a, lower, upper);
    forall l, u | IsDoolittle(a, l, u)
      ensures l == lower && u == upper
    {
      FactorsUnique(a, lower, upper, l, u);
    }
    r := Factors(lower, upper);
  }

  /** L × U == A for the Doolittle factorisation. */
  lemma Reconstruction(a: Matrix<real>, l: Matrix<real>, u: Matrix<real>)
    requires IsDoolittle(a, l, u)
    ensures Product(l, u) == a
  {
    var n := a.rows;
    forall r, c | 0 <= r < n && 0 <= c < n
      ensures Dot(l, u, r, c, n) == a.cells[r][c]
    {
      if r <= c {
        DotVanishingTail(l, u, r, c, r + 1, n);
        assert UpperEq(a, l, u, r, c);
      } else {
        DotVanishingTail(l, u, r, c, c + 1, n);
        assert LowerEq(a, l, u, c, r);
        DivisionCancels(a.cells[r][c] - Dot(l, u, r, c, c), u.cells[c][c], l.cells[r][c]);
      }
    }
    Extensionality(Product(l, u), a);
  }

  /**
   * The recurrences are exactly a triangular factorisation whose divided-by
   * pivots are nonzero: one direction is `Reconstruction`, the other is
   * `TriangularFactorsAreDoolittle`.
   */
  lemma DoolittleIsTriangularFactors(a: Matrix<real>, l: Matrix<real>, u: Matrix<real>)
    requires SameSquare(a, l, u)
    ensures IsDoolittle(a, l, u) <==> TriangularFactors(a, l, u) && UsablePivots(u)
  {
    if IsDoolittle(a, l, u) {
      Reconstruction(a, l, u);
      forall p | 0 <= p && p + 1 < a.rows
        ensures u.cells[p][p] != 0.0
      {
        PivotsNonzero(a, l, u, p);
      }
    }
    if TriangularFactors(a, l, u) && UsablePivots(u) {
      TriangularFactorsAreDoolittle(a, l, u);
    }
  }

  /**
   * A unit lower times upper triangular factorisation whose divided-by
   * pivots are nonzero satisfies the Doolittle recurrences.
   */
  lemma TriangularFactorsAreDoolittle(a: Matrix<real>, l: Matrix<real>, u: Matrix<real>)
    requires TriangularFactors(a, l, u) && UsablePivots(u)
    ensures IsDoolittle(a, l, u)
  {
    var n := a.rows;
    forall p, k | 0 <= p <= k < n
      ensures UpperEq(a, l, u, p, k)
    {
      UpperFromProduct(a, l, u, p, k);
    }
    forall p, k | 0 <= p < k < n
      ensures LowerEq(a, l, u, p, k)
    {
      LowerFromProduct(a, l, u, p, k);
    }
  }

  /** Entry (p, k), k >= p, of L × U is the sum over t < p plus U[p][k]. */
  lemma UpperFromProduct(a: Matrix<real>, l: Matrix<real>, u: Matrix<real>, p: nat, k: nat)
    requires TriangularFactors(a, l, u) && p <= k < a.rows
    ensures UpperEq(a, l, u, p, k)
  {
    DotVanishingTail(l, u, p, k, p + 1, a.rows);
    assert a.cells[p][k] == Product(l, u).cells[p][k];
  }

  /** Entry (k, p), k > p, of L × U is the sum over t < p plus L[k][p]·U[p][p]. */
  lemma LowerFromProduct(a: Matrix<real>, l: Matrix<real>, u: Matrix<real>, p: nat, k: nat)
    requires TriangularFactors(a, l, u) && UsablePivots(u) && p < k < a.rows
    ensures LowerEq(a, l, u, p, k)
  {
    DotVanishingTail(l, u, k, p, p + 1, a.rows);
    assert a.cells[k][p] == Product(l, u).cells[k][p];
    QuotientOfProduct(a.cells[k][p] - Dot(l, u, k, p, p), u.cells[p][p], l.cells[k][p]);
  }

  /** x == q·d with d nonzero means q == x / d. */
  lemma QuotientOfProduct(x: real, d: real, q: real)
    requires d != 0.0 && x == q * d
    ensures q == x / d
  {
  }

  /** q == x / d with d nonzero means q·d == x. */
  lemma DivisionCancels(x: real, d: real, q: real)
    requires d != 0.0 && q == x / d
    ensures q * d == x
  {
  }

  /**
   * Two states that completed the same stages agree on every entry those
   * stages computed.
   */
  lemma {:induction false} StagesAgree(a: Matrix<real>, l: Matrix<real>, u: Matrix<real>, l': Matrix<real>, u': Matrix<real>, m: nat)
    requires StagesDone(a, l, u, m) && StagesDone(a, l', u', m)
    ensures forall p, k :: 0 <= p < m && p <= k < a.rows ==> u.cells[p][k] == u'.cells[p][k]
    ensures forall p, k :: 0 <= p < m && p < k < a.rows ==> l.cells[k][p] == l'.cells[k][p]
    decreases m
  {
    if m > 0 {
      var q := m - 1;
      StagesMonotone(a, l, u, m, q);
      StagesMonotone(a, l', u', m, q);
      StagesAgree(a, l, u, l', u', q);
      UpperRowAgrees(a, l, u, l', u', q);
      forall k | q < k < a.rows
        ensures l.cells[k][q] == l'.cells[k][q]
      {
        assert LowerEq(a, l, u, q, k) && LowerEq(a, l', u', q, k);
        DotFrame(l, u, l', u', k, q, q);
      }
    }
  }

  /**
   * Row `q` of U is determined by the stages before it: both states computed
   * it from the same entries.
   */
  lemma UpperRowAgrees(a: Matrix<real>, l: Matrix<real>, u: Matrix<real>, l': Matrix<real>, u': Matrix<real>, q: nat)
    requires StagesDone(a, l, u, q) && StagesDone(a, l', u', q) && q < a.rows
    requires forall p, k :: 0 <= p < q && p <= k < a.rows ==> u.cells[p][k] == u'.cells[p][k]
    requires forall p, k :: 0 <= p < q && p < k < a.rows ==> l.cells[k][p] == l'.cells[k][p]
    requires forall k :: q <= k < a.rows ==> UpperEq(a, l, u, q, k) && UpperEq(a, l', u', q, k)
    ensures forall k :: q <= k < a.rows ==> u.cells[q][k] == u'.cells[q][k]
  {
    forall k | q <= k < a.rows
      ensures u.cells[q][k] == u'.cells[q][k]
    {
      assert UpperEq(a, l, u, q, k) && UpperEq(a, l', u', q, k);
      DotFrame(l, u, l', u', q, k, q);
    }
  }

  /** The Doolittle factorisation of a matrix, when there is one, is unique. */
  lemma FactorsUnique(a: Matrix<real>, l: Matrix<real>, u: Matrix<real>, l': Matrix<real>, u': Matrix<real>)
    requires IsDoolittle(a, l, u) && IsDoolittle(a, l', u')
    ensures l == l' && u == u'
  {
    StagesAgree(a, l, u, l', u', a.rows);
    Extensionality(l, l');
    Extensionality(u, u');
  }

  /**
   * A zero pivot that is still needed as a divisor rules out every
   * Doolittle factorisation: such a factorisation would have computed the
   * same pivot.
   */
  lemma StalledHasNoFactors(a: Matrix<real>, l: Matrix<real>, u: Matrix<real>, p: nat, l': Matrix<real>, u': Matrix<real>)
    requires StalledAt(a, l, u, p)
    ensures !IsDoolittle(a, l', u')
  {
    if IsDoolittle(a, l', u') {
      StagesMonotone(a, l', u', a.rows, p);
      StagesAgree(a, l, u, l', u', p);
      UpperRowAgrees(a, l, u, l', u', p);
      PivotsNonzero(a, l', u', p);
    }
  }

  /** Every pivot that the factorisation divides by is nonzero. */
  lemma PivotsNonzero(a: Matrix<real>, l: Matrix<real>, u: Matrix<real>, p: nat)
    requires IsDoolittle(a, l, u) && p + 1 < a.rows
    ensures u.cells[p][p] != 0.0
  {
    assert LowerEq(a, l, u, p, p + 1);
  }

  /**
   * A matrix with a triangular factorisation but a zero leading pivot:
   * [[0, 1], [0, 1]] is the identity times itself, yet `lu` would divide by
   * zero, and no pair satisfies the recurrences.
   */
  lemma ZeroLeadingPivotExample()
    ensures var a := Matrix(2, 2, [[0.0, 1.0], [0.0, 1.0]]);
      TriangularFactors(a, Identity(2), a) && !UsablePivots(a) && forall l, u :: !IsDoolittle(a, l, u)
  {
    var a := Matrix(2, 2, [[0.0, 1.0], [0.0, 1.0]]);
    IdentityLeft(a);
    forall l, u | IsDoolittle(a, l, u)
      ensures false
    {
      assert UpperEq(a, l, u, 0, 0);
      PivotsNonzero(a, l, u, 0);
    }
  }

  /** The library's test matrix and its factors. */
  function ExampleMatrix(): Matrix<real> {
    Matrix(3, 3, [[2.0, -1.0, -2.0], [-4.0, 6.0, 3.0], [-4.0, -2.0, 8.0]])
  }

  function ExampleLower(): Matrix<real> {
    Matrix(3, 3, [[1.0, 0.0, 0.0], [-2.0, 1.0, 0.0], [-2.0, -1.0, 1.0]])
  }

  function ExampleUpper(): Matrix<real> {
    Matrix(3, 3, [[2.0, -1.0, -2.0], [0.0, 4.0, -1.0], [0.0, 0.0, 3.0]])
  }

  /**
   * The test's expected factors are the Doolittle factorisation of its
   * matrix, so they are exactly what `Lu` returns.
   */
  lemma LuExample()
    ensures IsDoolittle(ExampleMatrix(), ExampleLower(), ExampleUpper())
    ensures forall l, u :: IsDoolittle(ExampleMatrix(), l, u) ==> l == ExampleLower() && u == ExampleUpper()
  {
    var a, l, u := ExampleMatrix(), ExampleLower(), ExampleUpper();
    forall p, k | 0 <= p <= k < 3
      ensures UpperEq(a, l, u, p, k)
    {
      assert Dot(l, u, p, k, 0) == 0.0;
      assert Dot(l, u, p, k, 1) == l.cells[p][0] * u.cells[0][k];
      assert Dot(l, u, p, k, 2) == l.cells[p][0] * u.cells[0][k] + l.cells[p][1] * u.cells[1][k];
    }
    forall p, k | 0 <= p < k < 3
      ensures LowerEq(a, l, u, p, k)
    {
      assert Dot(l, u, k, p, 0) == 0.0;
      assert Dot(l, u, k, p, 1) == l.cells[k][0] * u.cells[0][p];
    }
    forall l', u' | IsDoolittle(a, l', u')
      ensures l' == l && u' == u
    {
      FactorsUnique(a, l, u, l', u');
    }
  }
}
