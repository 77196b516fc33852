/**
 * `det` (src/ops/det.rs): closed forms for dimensions 0 to 3 and, for every
 * larger dimension, the product of the LU factors' diagonals.
 *
 * The library's general path destructures a `LUDecomposition { lower,
 * upper, swaps }` that `lu` does not produce: `lu` returns the pair
 * (lower, upper) and never exchanges a row. The model runs that path with
 * `swaps = 0`.
 */
module Determinant {
  import opened Matrices
  import opened Multiplication
  import opened LuDecomposition

  /** `det0`: the determinant of the empty matrix is one. */
  function Det0(a: Matrix<real>): real
    requires Square(a) && a.rows == 0
  {
    1.0
  }

  /** `det1`: the single element. */
  function Det1(a: Matrix<real>): real
    requires Square(a) && a.rows == 1
  {
    a.cells[0][0]
  }

  /** `det2`: a00·a11 − a01·a10. */
  function Det2(a: Matrix<real>): real
    requires Square(a) && a.rows == 2
  {
    a.cells[0][0] * a.cells[1][1] - a.cells[0][1] * a.cells[1][0]
  }

  /** `det3`: the six-term Leibniz formula over the rows [a, b, c], [d, e, f], [g, h, i]. */
  function Det3(m: Matrix<real>): real
    requires Square(m) && m.rows == 3
  {
    var a, b, c := m.cells[0][0], m.cells[0][1], m.cells[0][2];
    var d, e, f := m.cells[1][0], m.cells[1][1], m.cells[1][2];
    var g, h, i := m.cells[2][0], m.cells[2][1], m.cells[2][2];
    (a * e * i) + (b * f * g) + (c * d * h) - (c * e * g) - (b * d * i) - (a * f * h)
  }

  /** The closed form the dispatcher chooses for a dimension below 4. */
  function ClosedForm(a: Matrix<real>): real
    requires Square(a) && a.rows <= 3
  {
    if a.rows == 0 then Det0(a)
    else if a.rows == 1 then Det1(a)
    else if a.rows == 2 then Det2(a)
    else Det3(a)
  }

  /** ∏_{i<k} m[i][i], accumulated from one in increasing i. */
  function DiagProduct(m: Matrix<real>, k: nat): real
    requires Square(m) && k <= m.rows
    decreases k
  {
    if k == 0 then 1.0 else DiagProduct(m, k - 1) * m.cells[k - 1][k - 1]
  }

  /** The sign a swap count contributes: +1 for an even count, −1 for an odd one. */
  function Sign(swaps: nat): real {
    if swaps % 2 == 0 then 1.0 else -1.0
  }

  /** A diagonal of ones has product one. */
  lemma {:induction false} UnitDiagonalProduct(m: Matrix<real>, k: nat)
    requires Square(m) && k <= m.rows
    requires forall i :: 0 <= i < k ==> m.cells[i][i] == 1.0
    ensures DiagProduct(m, k) == 1.0
    decreases k
  {
    if k > 0 {
      UnitDiagonalProduct(m, k - 1);
    }
  }

  /**
   * The general path after `lu`: multiply up both diagonals and apply the
   * sign of the swap count. With no swaps and a unit lower diagonal the
   * result is the product of the upper diagonal.
   */
  method LuDeterminant(lower: Matrix<real>, upper: Matrix<real>, swaps: nat) returns (d: real)
    requires Square(lower) && Square(upper) && lower.rows == upper.rows
    ensures d == Sign(swaps) * DiagProduct(lower, lower.rows) * DiagProduct(upper, upper.rows)
    ensures swaps == 0 && (forall i :: 0 <= i < lower.rows ==> lower.cells[i][i] == 1.0) ==>
      d == DiagProduct(upper, upper.rows)
  {
    var n := lower.rows;
    var lowerDet := 1.0;
    var upperDet := 1.0;
    var i := 0;
    while i < n
      invariant 0 <= i <= n
      invariant lowerDet == DiagProduct(lower, i)
      invariant upperDet == DiagProduct(upper, i)
    {
      lowerDet := lowerDet * lower.cells[i][i];
      upperDet := upperDet * upper.cells[i][i];
      i := i + 1;
    }
    var signal := if swaps % 2 == 0 then 1.0 else -1.0;
    d := signal * lowerDet * upperDet;
    if swaps == 0 && forall i :: 0 <= i < n ==> lower.cells[i][i] == 1.0 {
      UnitDiagonalProduct(lower, n);
    }
  }

  /**
   * `det`. Dimensions 0 to 3 use their closed forms; every larger dimension
   * goes through `lu` and yields the product of U's diagonal, which is
   * defined exactly when the matrix has a Doolittle factorisation. `None`
   * stands for the division by a zero pivot.
   */
  method Det(a: Matrix<real>) returns (r: Option<real>)
    requires Square(a)
    ensures a.rows <= 3 ==> r == Some(ClosedForm(a))
    ensures a.rows >= 4 ==> (r.Some? <==> exists l, u :: IsDoolittle(a, l, u))
    ensures a.rows >= 4 && r.Some? ==> forall l, u :: IsDoolittle(a, l, u) ==> r.value == DiagProduct(u, a.rows)
    ensures a.rows >= 4 && r.None? ==> forall l, u :: TriangularFactors(a, l, u) ==> !UsablePivots(u)
  {
    var n := a.rows;
    if n == 0 {
      r := Some(Det0(a));
    } else if n == 1 {
      r := Some(Det1(a));
    } else if n == 2 {
      r := Some(Det2(a));
    } else if n == 3 {
      r := Some(Det3(a));
    } else {
      var factors := Lu(a);
      match factors
      case ZeroPivot(_) =>
        r := None;
      case Factors(lower, upper) =>
        var d := LuDeterminant(lower, upper, 0);
        r := Some(d);
    }
  }

  /** A 1 x 1 matrix: the LU path gives the single element too. */
  lemma Det1AgreesWithLu(a: Matrix<real>, l: Matrix<real>, u: Matrix<real>)
    requires IsDoolittle(a, l, u) && a.rows == 1
    ensures DiagProduct(u, 1) == Det1(a)
  {
    assert UpperEq(a, l, u, 0, 0);
  }

  /** A 2 x 2 matrix: the LU path agrees with `det2`. */
  lemma Det2AgreesWithLu(a: Matrix<real>, l: Matrix<real>, u: Matrix<real>)
    requires IsDoolittle(a, l, u) && a.rows == 2
    ensures DiagProduct(u, 2) == Det2(a)
  {
    assert UpperEq(a, l, u, 0, 0) && UpperEq(a, l, u, 0, 1);
    assert LowerEq(a, l, u, 0, 1) && UpperEq(a, l, u, 1, 1);
    assert Dot(l, u, 1, 1, 1) == l.cells[1][0] * u.cells[0][1];
    DivisionCancels(a.cells[1][0], u.cells[0][0], l.cells[1][0]);
    var a00, a01, a10, a11 := a.cells[0][0], a.cells[0][1], a.cells[1][0], a.cells[1][1];
    calc {
      DiagProduct(u, 2);
      1.0 * a00 * (a11 - l.cells[1][0] * a01);
      a00 * a11 - (l.cells[1][0] * a00) * a01;
      a00 * a11 - a10 * a01;
    }
  }

  /** The polynomial identity behind `Det3AgreesWithLu`. */
  lemma Det3Algebra(a: real, b: real, c: real, d: real, e: real, f: real, g: real, h: real, i: real,
                    l10: real, l20: real, l21: real, u11: real, u12: real, u22: real)
    requires a != 0.0 && u11 != 0.0
    requires l10 * a == d && l20 * a == g
    requires u11 == e - l10 * b && u12 == f - l10 * c
    requires l21 * u11 == h - l20 * b
    requires u22 == i - (0.0 + l20 * c + l21 * u12)
    ensures 1.0 * a * u11 * u22 == (a * e * i) + (b * f * g) + (c * d * h) - (c * e * g) - (b * d * i) - (a * f * h)
  {
    var m := a * e - b * d;
    assert a * u11 == m;
    assert a * u12 == a * f - c * d;
    assert a * (l21 * u11) == a * h - g * b;
    assert a * u11 * u22 == m * i - m * l20 * c - (a * l21 * u11) * u12;
    assert a * (a * u11 * u22) == a * m * i - m * g * c - (a * h - g * b) * (a * u12);
    assert a * (a * u11 * u22) == a * ((a * e * i) + (b * f * g) + (c * d * h) - (c * e * g) - (b * d * i) - (a * f * h));
  }

  /** A 3 x 3 matrix: the LU path agrees with `det3`. */
  lemma Det3AgreesWithLu(a: Matrix<real>, l: Matrix<real>, u: Matrix<real>)
    requires IsDoolittle(a, l, u) && a.rows == 3
    ensures DiagProduct(u, 3) == Det3(a)
  {
    assert UpperEq(a, l, u, 0, 0) && UpperEq(a, l, u, 0, 1) && UpperEq(a, l, u, 0, 2);
    assert LowerEq(a, l, u, 0, 1) && LowerEq(a, l, u, 0, 2);
    assert UpperEq(a, l, u, 1, 1) && UpperEq(a, l, u, 1, 2);
    assert LowerEq(a, l, u, 1, 2) && UpperEq(a, l, u, 2, 2);
    assert Dot(l, u, 1, 1, 1) == l.cells[1][0] * u.cells[0][1];
    assert Dot(l, u, 1, 2, 1) == l.cells[1][0] * u.cells[0][2];
    assert Dot(l, u, 2, 1, 1) == l.cells[2][0] * u.cells[0][1];
    assert Dot(l, u, 2, 2, 2) == 0.0 + l.cells[2][0] * u.cells[0][2] + l.cells[2][1] * u.cells[1][2];
    DivisionCancels(a.cells[1][0], u.cells[0][0], l.cells[1][0]);
    DivisionCancels(a.cells[2][0], u.cells[0][0], l.cells[2][0]);
    DivisionCancels(a.cells[2][1] - Dot(l, u, 2, 1, 1), u.cells[1][1], l.cells[2][1]);
    Det3Algebra(a.cells[0][0], a.cells[0][1], a.cells[0][2],
                a.cells[1][0], a.cells[1][1], a.cells[1][2],
                a.cells[2][0], a.cells[2][1], a.cells[2][2],
                l.cells[1][0], l.cells[2][0], l.cells[2][1],
                u.cells[1][1], u.cells[1][2], u.cells[2][2]);
  }

  /**
   * Cross-validation: wherever a matrix of dimension 0 to 3 has a Doolittle
   * factorisation, the general path would give the closed form's value.
   */
  lemma ClosedFormsAgreeWithLu(a: Matrix<real>, l: Matrix<real>, u: Matrix<real>)
    requires IsDoolittle(a, l, u) && a.rows <= 3
    ensures DiagProduct(u, a.rows) == ClosedForm(a)
  {
    if a.rows == 1 {
      Det1AgreesWithLu(a, l, u);
    } else if a.rows == 2 {
      Det2AgreesWithLu(a, l, u);
    } else if a.rows == 3 {
      Det3AgreesWithLu(a, l, u);
    }
  }

  /** Sums over the identity's own entries below the diagonal vanish. */
  lemma {:induction false} IdentityDotVanishes(n: nat, x: nat, y: nat, m: nat)
    requires x < n && y < n && m <= n && m <= x
    ensures Dot(Identity(n), Identity(n), x, y, m) == 0.0
    decreases m
  {
    if m > 0 {
      IdentityDotVanishes(n, x, y, m - 1);
    }
  }

  /**
   * The identity factors as itself times itself, so on the general path
   * its determinant is one, for every dimension.
   */
  lemma IdentityDeterminant(n: nat)
    ensures IsDoolittle(Identity(n), Identity(n), Identity(n))
    ensures DiagProduct(Identity(n), n) == 1.0
    ensures n <= 3 ==> ClosedForm(Identity(n)) == 1.0
  {
    var id := Identity(n);
    forall p, k | 0 <= p <= k < n
      ensures UpperEq(id, id, id, p, k)
    {
      IdentityDotVanishes(n, p, k, p);
    }
    forall p, k | 0 <= p < k < n
      ensures LowerEq(id, id, id, p, k)
    {
      IdentityDotVanishes(n, k, p, p);
    }
    UnitDiagonalProduct(id, n);
    if n <= 3 {
      ClosedFormsAgreeWithLu(id, id, id);
    }
  }

  /** The closed-form tests: dimensions 0, 1, 2 and 3. */
  lemma ClosedFormExamples()
    ensures ClosedForm(Matrix(0, 0, [])) == 1.0
    ensures ClosedForm(Matrix(1, 1, [[100.0]])) == 100.0
    ensures ClosedForm(Matrix(2, 2, [[1.0, 2.0], [3.0, 4.0]])) == -2.0
    ensures ClosedForm(Matrix(3, 3, [[-7.0, -10.0, 4.0], [3.0, -9.0, 2.0], [7.0, 1.0, 2.0]])) == 324.0
  {
  }

  /** The first 4 x 4 test matrix of `det`. */
  function FourA(): Matrix<real> {
    Matrix(4, 4, [[1.0, 2.0, 1.0, 2.0], [-1.0, 0.0, 2.0, -2.0], [-2.0, 2.0, 0.0, 0.0], [-1.0, 1.0, -1.0, 1.0]])
  }

  /** The unit lower factor of `FourA`. */
  function FourALower(): Matrix<real> {
    Matrix(4, 4, [[1.0, 0.0, 0.0, 0.0], [-1.0, 1.0, 0.0, 0.0], [-2.0, 3.0, 1.0, 0.0], [-1.0, 1.5, 9.0 / 14.0, 1.0]])
  }

  /** The upper factor of `FourA`. */
  function FourAUpper(): Matrix<real> {
    Matrix(4, 4, [[1.0, 2.0, 1.0, 2.0], [0.0, 2.0, 3.0, 0.0], [0.0, 0.0, -7.0, 4.0], [0.0, 0.0, 0.0, 3.0 / 7.0]])
  }

  /** The defining equations of the rows of `FourAUpper`, pair by pair. */
  lemma FourAUpperEqs()
    ensures forall p, k :: 0 <= p <= k < 4 ==> UpperEq(FourA(), FourALower(), FourAUpper(), p, k)
  {
    var a, l, u := FourA(), FourALower(), FourAUpper();
    assert UpperEq(a, l, u, 0, 0);
    assert UpperEq(a, l, u, 0, 1);
    assert UpperEq(a, l, u, 0, 2);
    assert UpperEq(a, l, u, 0, 3);
    assert UpperEq(a, l, u, 1, 1);
    assert UpperEq(a, l, u, 1, 2);
    assert UpperEq(a, l, u, 1, 3);
    assert UpperEq(a, l, u, 2, 2);
    assert UpperEq(a, l, u, 2, 3);
    assert UpperEq(a, l, u, 3, 3);
  }

  /** The defining equations of the columns of `FourALower`, pair by pair. */
  lemma FourALowerEqs()
    ensures forall p, k :: 0 <= p < k < 4 ==> LowerEq(FourA(), FourALower(), FourAUpper(), p, k)
  {
    var a, l, u := FourA(), FourALower(), FourAUpper();
    assert LowerEq(a, l, u, 0, 1);
    assert LowerEq(a, l, u, 0, 2);
    assert LowerEq(a, l, u, 0, 3);
    assert LowerEq(a, l, u, 1, 2);
    assert LowerEq(a, l, u, 1, 3);
    assert LowerEq(a, l, u, 2, 3);
  }

  /**
   * The first 4 x 4 test: it has a Doolittle factorisation, and every one has an
   * upper diagonal multiplying to exactly -6.0, so `Det` yields -6.0.
   */
  lemma GeneralPathExampleA()
    ensures exists l, u :: IsDoolittle(FourA(), l, u)
    ensures forall l, u :: IsDoolittle(FourA(), l, u) ==> DiagProduct(u, 4) == -6.0
  {
    var a, l, u := FourA(), FourALower(), FourAUpper();
    FourAUpperEqs();
    FourALowerEqs();
    FourByFourFactors(a, l, u);
    forall l', u' | IsDoolittle(a, l', u')
      ensures DiagProduct(u', 4) == -6.0
    {
      FactorsUnique(a, l, u, l', u');
    }
  }

  /** The second 4 x 4 test matrix of `det`. */
  function FourB(): Matrix<real> {
    Matrix(4, 4, [[1.0, 0.0, 4.0, -6.0], [2.0, 5.0, 0.0, 3.0], [-1.0, 2.0, 3.0, 5.0], [2.0, 1.0, -2.0, 3.0]])
  }

  /** The unit lower factor of `FourB`. */
  function FourBLower(): Matrix<real> {
    Matrix(4, 4, [[1.0, 0.0, 0.0, 0.0], [2.0, 1.0, 0.0, 0.0], [-1.0, 0.4, 1.0, 0.0], [2.0, 0.2, -14.0 / 17.0, 1.0]])
  }

  /** The upper factor of `FourB`. */
  function FourBUpper(): Matrix<real> {
    Matrix(4, 4, [[1.0, 0.0, 4.0, -6.0], [0.0, 5.0, -8.0, 15.0], [0.0, 0.0, 51.0 / 5.0, -7.0], [0.0, 0.0, 0.0, 106.0 / 17.0]])
  }

  /** The defining equations of the rows of `FourBUpper`, pair by pair. */
  lemma FourBUpperEqs()
    ensures forall p, k :: 0 <= p <= k < 4 ==> UpperEq(FourB(), FourBLower(), FourBUpper(), p, k)
  {
    var a, l, u := FourB(), FourBLower(), FourBUpper();
    assert UpperEq(a, l, u, 0, 0);
    assert UpperEq(a, l, u, 0, 1);
    assert UpperEq(a, l, u, 0, 2);
    assert UpperEq(a, l, u, 0, 3);
    assert UpperEq(a, l, u, 1, 1);
    assert UpperEq(a, l, u, 1, 2);
    assert UpperEq(a, l, u, 1, 3);
    assert UpperEq(a, l, u, 2, 2);
    assert UpperEq(a, l, u, 2, 3);
    assert UpperEq(a, l, u, 3, 3);
  }

  /** The defining equations of the columns of `FourBLower`, pair by pair. */
  lemma FourBLowerEqs()
    ensures forall p, k :: 0 <= p < k < 4 ==> LowerEq(FourB(), FourBLower(), FourBUpper(), p, k)
  {
    var a, l, u := FourB(), FourBLower(), FourBUpper();
    assert LowerEq(a, l, u, 0, 1);
    assert LowerEq(a, l, u, 0, 2);
    assert LowerEq(a, l, u, 0, 3);
    assert LowerEq(a, l, u, 1, 2);
    assert LowerEq(a, l, u, 1, 3);
    assert LowerEq(a, l, u, 2, 3);
  }

  /**
   * The second 4 x 4 test: it has a Doolittle factorisation, and every one has an
   * upper diagonal multiplying to exactly 318.0, so `Det` yields 318.0.
   */
  lemma GeneralPathExampleB()
    ensures exists l, u :: IsDoolittle(FourB(), l, u)
    ensures forall l, u :: IsDoolittle(FourB(), l, u) ==> DiagProduct(u, 4) == 318.0
  {
    var a, l, u := FourB(), FourBLower(), FourBUpper();
    FourBUpperEqs();
    FourBLowerEqs();
    FourByFourFactors(a, l, u);
    forall l', u' | IsDoolittle(a, l', u')
      ensures DiagProduct(u', 4) == 318.0
    {
      FactorsUnique(a, l, u, l', u');
    }
  }

  /**
   * Candidate 4 x 4 factors that are unit lower and upper triangular and
   * satisfy the defining equations pair by pair are the Doolittle factorisation.
   */
  lemma FourByFourFactors(a: Matrix<real>, l: Matrix<real>, u: Matrix<real>)
    requires SameSquare(a, l, u) && a.rows == 4
    requires ZeroAboveDiagonal(l) && ZeroBelowDiagonal(u)
    requires forall p :: 0 <= p < 4 ==> l.cells[p][p] == 1.0
    requires forall p, k :: 0 <= p <= k < 4 ==> UpperEq(a, l, u, p, k)
    requires forall p, k :: 0 <= p < k < 4 ==> LowerEq(a, l, u, p, k)
    ensures IsDoolittle(a, l, u)
  {
  }
}
