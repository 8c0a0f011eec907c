/** Independence, triangular inverses and two-sided inverses: what the computed matrices mean. */
module LinearAlgebra {
  import opened ComplexNumbers
  import opened Matrices
  import opened QrSteps

  ghost function AsColumn(x: Vector): Matrix {
    (k, j) => x(k)
  }

  ghost predicate InKernel(n: nat, a: Matrix, x: Vector) {
    forall row :: 0 <= row < n ==> Product(n, a, AsColumn(x))(row, 0) == ZERO
  }

  ghost predicate IsZero(n: nat, x: Vector) {
    forall k :: 0 <= k < n ==> x(k) == ZERO
  }

  /** No non-zero combination of the columns of a vanishes. */
  ghost predicate Independent(n: nat, a: Matrix) {
    forall x: Vector :: InKernel(n, a, x) ==> IsZero(n, x)
  }

  /** The residual columns are combinations of columns of a in which their own column has weight one. */
  ghost predicate Spanned(n: nat, i: nat, a: Matrix, t: Matrix, w: Matrix) {
    && (forall row, j :: 0 <= row < n && i <= j < n ==> t(row, j) == Product(n, a, w)(row, j))
    && (forall j :: i <= j < n ==> w(j, j) == ONE)
    && (forall c, j :: i <= j < n && j < c < n ==> w(c, j) == ZERO)
  }

  ghost function NextWeights(i: nat, mag: real, r: Matrix, w: Matrix): Matrix
    requires mag > 0.0
  {
    (c, j) => Minus(w(c, j), Times(r(i, j), Scaled(w(c, i), 1.0 / mag)))
  }

  lemma SpannedAtStart(n: nat, a: Matrix, t: Matrix)
    requires Same(n, a, t)
    ensures Spanned(n, 0, a, t, IDENTITY)
  {
    ProductIdentity(n, a);
  }

  lemma PassKeepsSpan(n: nat, i: nat, mag: real, a: Matrix, t: Matrix, q: Matrix, r: Matrix,
                      t': Matrix, q': Matrix, r': Matrix, w: Matrix)
    requires Pass(n, i, mag, t, q, r, t', q', r')
    requires Spanned(n, i, a, t, w)
    ensures Spanned(n, i + 1, a, t', NextWeights(i, mag, r', w))
  {
    var d := 1.0 / mag;
    var w' := NextWeights(i, mag, r', w);
    var v: Matrix := (c, j) => Scaled(w(c, i), d);
    forall row, j | 0 <= row < n && i + 1 <= j < n
      ensures t'(row, j) == Product(n, a, w')(row, j)
    {
      ProjectedInner(n, i, a, w, v, w', r'(i, j), row, j);
      TermsScaled(n, a, (c, l) => w(c, i), v, row, i, d);
      SumCongruent(n, Terms(a, (c, l) => w(c, i), row, i), Terms(a, w, row, i));
      assert q'(row, i) == Scaled(t(row, i), d) == Product(n, a, v)(row, i);
      TimesCommutes(r'(i, j), q'(row, i));
    }
    forall j, c | i + 1 <= j <= c < n ensures w'(c, j) == w(c, j) {
      assert w(c, i) == ZERO;
      TimesUnits(r'(i, j));
    }
  }

  lemma ColumnNormZero(n: nat, t: Matrix, i: nat)
    requires i < n
    requires Product(n, Adjoint(t), t)(i, i).re == 0.0
    ensures forall row :: 0 <= row < n ==> t(row, i) == ZERO
  {
    var f := Terms(Adjoint(t), t, i, i);
    forall row | 0 <= row < n ensures f(row).re == NormSq(t(row, i)) >= 0.0 {
      NormSqPositive(t(row, i));
    }
    SumOfSquaresZero(n, f);
    forall row | 0 <= row < n ensures t(row, i) == ZERO {
      NormSqPositive(t(row, i));
    }
  }

  /** A residual column of length zero exhibits a dependence between columns of a. */
  lemma VanishedResidual(n: nat, i: nat, a: Matrix, t: Matrix, w: Matrix)
    requires i < n
    requires Spanned(n, i, a, t, w)
    requires Product(n, Adjoint(t), t)(i, i).re == 0.0
    ensures !Independent(n, a)
  {
    hide *;
    var x: Vector := c => w(c, i);
    ColumnNormZero(n, t, i);
    KernelVector(n, i, a, t, w, x);
    NonZeroKernel(n, a, x, i);
  }

  /** The same, from the magnitude of the column. */
  lemma VanishedColumn(n: nat, i: nat, mag: real, a: Matrix, t: Matrix, w: Matrix)
    requires i < n && mag == 0.0
    requires Spanned(n, i, a, t, w)
    requires Product(n, Adjoint(t), t)(i, i) == Complex(RealProduct(mag, mag), 0.0)
    ensures !Independent(n, a)
  {
    assert RealProduct(mag, mag) == 0.0;
    hide *;
    VanishedResidual(n, i, a, t, w);
  }

  lemma NonZeroKernel(n: nat, a: Matrix, x: Vector, i: nat)
    requires i < n
    requires InKernel(n, a, x)
    requires x(i) == ONE
    ensures !Independent(n, a)
  {
    hide InKernel;
    assert !IsZero(n, x);
  }

  lemma KernelVector(n: nat, i: nat, a: Matrix, t: Matrix, w: Matrix, x: Vector)
    requires i < n
    requires Spanned(n, i, a, t, w)
    requires forall row :: 0 <= row < n ==> t(row, i) == ZERO
    requires forall c :: 0 <= c < n ==> x(c) == w(c, i)
    ensures InKernel(n, a, x)
    ensures x(i) == ONE
  {
    hide Times, Sum;
    forall row | 0 <= row < n ensures Product(n, a, AsColumn(x))(row, 0) == ZERO {
      assert t(row, i) == Product(n, a, w)(row, i);
      ColumnProduct(n, a, w, x, row, i);
    }
  }

  lemma ColumnProduct(n: nat, a: Matrix, w: Matrix, x: Vector, row: int, i: int)
    requires forall c :: 0 <= c < n ==> x(c) == w(c, i)
    ensures Product(n, a, AsColumn(x))(row, 0) == Product(n, a, w)(row, i)
  {
    hide Times;
    SumCongruent(n, Terms(a, AsColumn(x), row, 0), Terms(a, w, row, i));
  }

  /** A matrix with a left inverse has independent columns. */
  lemma LeftInverseIndependent(n: nat, b: Matrix, a: Matrix)
    requires Same(n, Product(n, b, a), IDENTITY)
    ensures Independent(n, a)
  {
    forall x: Vector | InKernel(n, a, x) ensures IsZero(n, x) {
      var col := AsColumn(x);
      forall k | 0 <= k < n ensures x(k) == ZERO {
        ProductAssociatesAt(n, b, a, col, k, 0);
        forall m ensures Times(b(k, m), ZERO) == ZERO { TimesUnits(b(k, m)); }
        SumOfZeros(n, Terms(b, Product(n, a, col), k, 0));
        SumCongruent(n, Terms(Product(n, b, a), col, k, 0), Terms(IDENTITY, col, k, 0));
        ProductIdentity(n, col);
      }
    }
  }

  /** Row m of the inverse of an upper triangular r, filled in from column m to the right. */
  ghost function TriangularInverseAt(r: Matrix, m: int, n: int): Complex
    decreases n, 1
  {
    if n < m || n < 0 || r(n, n) == ZERO then ZERO
    else Times(Minus(IDENTITY(m, n), PartialRow(r, m, n, n)), Over(ONE, r(n, n)))
  }

  /** The first `upto` terms of row m of the inverse times column n of r. */
  ghost function PartialRow(r: Matrix, m: int, n: int, upto: int): Complex
    requires upto <= n
    decreases upto, 0
  {
    if upto <= m || upto <= 0 then ZERO
    else Plus(PartialRow(r, m, n, upto - 1), Times(TriangularInverseAt(r, m, upto - 1), r(upto - 1, n)))
  }

  ghost function TriangularInverse(r: Matrix): Matrix {
    (m, n) => TriangularInverseAt(r, m, n)
  }

  ghost predicate UpperTriangular(n: nat, r: Matrix) {
    && (forall k :: 0 <= k < n ==> r(k, k) != ZERO)
    && (forall k, l :: 0 <= l < k < n ==> r(k, l) == ZERO)
  }

  lemma {:induction false} PartialRowIsSum(r: Matrix, m: nat, n: nat, upto: nat)
    requires upto <= n
    ensures PartialRow(r, m, n, upto) == Sum(upto, Terms(TriangularInverse(r), r, m, n))
  {
    hide Times;
    if upto > 0 {
      PartialRowIsSum(r, m, n, upto - 1);
      if upto <= m {
        TimesUnits(r(upto - 1, n));
      }
    }
  }

  lemma TriangularInverseEntry(n: nat, r: Matrix, i: nat, j: nat)
    requires UpperTriangular(n, r)
    requires i < n && j < n
    ensures Product(n, TriangularInverse(r), r)(i, j) == IDENTITY(i, j)
  {
    hide Times, Plus, Minus;
    var x := TriangularInverse(r);
    var f := Terms(x, r, i, j);
    forall k | j + 1 <= k < n ensures f(k) == ZERO {
      assert r(k, j) == ZERO;
      TimesUnits(x(i, k));
    }
    SumTruncated(n, j + 1, f);
    if j < i {
      forall k | 0 <= k < j + 1 ensures f(k) == ZERO {
        assert x(i, k) == ZERO;
        TimesUnits(r(k, j));
      }
      SumOfZeros(j + 1, f);
    } else {
      var s := PartialRow(r, i, j, j);
      PartialRowIsSum(r, i, j, j);
      assert x(i, j) == Times(Minus(IDENTITY(i, j), s), Over(ONE, r(j, j)));
      ReciprocalCancels(Minus(IDENTITY(i, j), s), r(j, j));
      assert Sum(j + 1, f) == Plus(s, Minus(IDENTITY(i, j), s));
      PlusMinus(s, IDENTITY(i, j));
    }
  }

  lemma PlusMinus(a: Complex, b: Complex)
    ensures Plus(a, Minus(b, a)) == b
  {}

  /** The row-by-row recurrence inverts every upper triangular matrix with non-zero diagonal,
      and its result is again of that kind. */
  lemma TriangularInverseInverts(n: nat, r: Matrix)
    requires UpperTriangular(n, r)
    ensures Same(n, Product(n, TriangularInverse(r), r), IDENTITY)
    ensures UpperTriangular(n, TriangularInverse(r))
  {
    forall i, j | 0 <= i < n && 0 <= j < n
      ensures Product(n, TriangularInverse(r), r)(i, j) == IDENTITY(i, j)
    {
      TriangularInverseEntry(n, r, i, j);
    }
    forall k | 0 <= k < n ensures TriangularInverse(r)(k, k) != ZERO {
      TriangularInverseDiagonal(n, r, k);
    }
  }

  lemma TriangularInverseDiagonal(n: nat, r: Matrix, k: nat)
    requires UpperTriangular(n, r)
    requires k < n
    ensures TriangularInverse(r)(k, k) != ZERO
  {
    hide Over, Times;
    assert PartialRow(r, k, k, k) == ZERO;
    assert Minus(ONE, ZERO) == ONE;
    assert TriangularInverse(r)(k, k) == Times(ONE, Over(ONE, r(k, k)));
    ReciprocalCancels(ONE, r(k, k));
    TimesUnits(r(k, k));
  }

  lemma SameProductTransfer(n: nat, a: Matrix, b: Matrix, c: Matrix)
    requires Same(n, b, c)
    ensures Same(n, Product(n, a, b), Product(n, a, c))
    ensures Same(n, Product(n, b, a), Product(n, c, a))
  {
    ProductCongruent(n, a, a, b, c);
    ProductCongruent(n, b, c, a, a);
  }

  /** If y is a left inverse of x and x of r, then y agrees with r. */
  lemma LeftInverseOfLeftInverse(n: nat, y: Matrix, x: Matrix, r: Matrix)
    requires Same(n, Product(n, y, x), IDENTITY)
    requires Same(n, Product(n, x, r), IDENTITY)
    ensures Same(n, y, r)
  {
    ProductAssociates(n, y, x, r);
    SameProductTransfer(n, y, Product(n, x, r), IDENTITY);
    SameProductTransfer(n, r, Product(n, y, x), IDENTITY);
    ProductIdentity(n, y);
    ProductIdentity(n, r);
  }

  /** For triangular matrices a left inverse is a right inverse. */
  lemma TriangularRightInverse(n: nat, r: Matrix)
    requires UpperTriangular(n, r)
    ensures Same(n, Product(n, r, TriangularInverse(r)), IDENTITY)
  {
    var x := TriangularInverse(r);
    TriangularInverseInverts(n, r);
    TriangularInverseInverts(n, x);
    var y := TriangularInverse(x);
    LeftInverseOfLeftInverse(n, y, x, r);
    SameProductTransfer(n, x, y, r);
  }

  ghost function Trace(n: nat, a: Matrix): Complex {
    Sum(n, k => a(k, k))
  }

  lemma TraceCongruent(n: nat, a: Matrix, b: Matrix)
    requires Same(n, a, b)
    ensures Trace(n, a) == Trace(n, b)
  {
    SumCongruent(n, k => a(k, k), k => b(k, k));
  }

  lemma TraceCommutes(n: nat, a: Matrix, b: Matrix)
    ensures Trace(n, Product(n, a, b)) == Trace(n, Product(n, b, a))
  {
    var f: Matrix := (i, k) => Times(a(i, k), b(k, i));
    forall i ensures Product(n, a, b)(i, i) == RowSums(n, f)(i) {
      SumCongruent(n, Terms(a, b, i, i), k => f(i, k));
    }
    forall k ensures Product(n, b, a)(k, k) == ColumnSums(n, f)(k) {
      forall i ensures Times(b(k, i), a(i, k)) == f(i, k) { TimesCommutes(b(k, i), a(i, k)); }
      SumCongruent(n, Terms(b, a, k, k), i => f(i, k));
    }
    SumCongruent(n, k => Product(n, a, b)(k, k), RowSums(n, f));
    SumCongruent(n, k => Product(n, b, a)(k, k), ColumnSums(n, f));
    SumSwap(n, n, f);
  }

  ghost function Defect(p: Matrix): Matrix {
    (i, j) => Minus(IDENTITY(i, j), p(i, j))
  }

  /** For an idempotent p, I - p is idempotent. */
  lemma DefectIdempotent(n: nat, p: Matrix)
    requires Same(n, Product(n, p, p), p)
    ensures Same(n, Product(n, Defect(p), Defect(p)), Defect(p))
  {
    hide Times, Minus;
    var m := Defect(p);
    forall i, j | 0 <= i < n && 0 <= j < n ensures Product(n, m, m)(i, j) == m(i, j) {
      ProductOfDefect(n, p, m, i, j);
      ProductOfDefectRight(n, p, p, i, j);
      ProductIdentity(n, p);
      assert m(i, j) == Minus(IDENTITY(i, j), p(i, j));
      MinusSelf(p(i, j), m(i, j));
    }
  }

  lemma MinusSelf(a: Complex, b: Complex)
    ensures Minus(b, Minus(a, a)) == b
  {}

  lemma ProductOfDefect(n: nat, p: Matrix, b: Matrix, i: int, j: int)
    requires 0 <= i < n && 0 <= j < n
    ensures Product(n, Defect(p), b)(i, j) == Minus(b(i, j), Product(n, p, b)(i, j))
  {
    hide Times, Minus;
    var f, g := Terms(IDENTITY, b, i, j), Terms(p, b, i, j);
    forall k ensures Terms(Defect(p), b, i, j)(k) == Minus(f(k), g(k)) {
      TimesDistributes(b(k, j), IDENTITY(i, k), p(i, k));
    }
    SumOfMinus(n, f, g);
    SumCongruent(n, Terms(Defect(p), b, i, j), k => Minus(f(k), g(k)));
    ProductIdentity(n, b);
  }

  lemma ProductOfDefectRight(n: nat, a: Matrix, p: Matrix, i: int, j: int)
    requires 0 <= i < n && 0 <= j < n
    ensures Product(n, a, Defect(p))(i, j) == Minus(a(i, j), Product(n, a, p)(i, j))
  {
    hide Times, Minus;
    var f, g := Terms(a, IDENTITY, i, j), Terms(a, p, i, j);
    forall k ensures Terms(a, Defect(p), i, j)(k) == Minus(f(k), g(k)) {
      TimesDistributes(a(i, k), IDENTITY(k, j), p(k, j));
    }
    SumOfMinus(n, f, g);
    SumCongruent(n, Terms(a, Defect(p), i, j), k => Minus(f(k), g(k)));
    ProductIdentity(n, a);
  }

  /** A Hermitian idempotent with trace zero vanishes: its trace is the sum of its squared entries. */
  lemma HermitianIdempotentZero(n: nat, m: Matrix)
    requires Same(n, Product(n, m, m), m)
    requires Same(n, Adjoint(m), m)
    requires Trace(n, m) == ZERO
    ensures forall i, k :: 0 <= i < n && 0 <= k < n ==> m(i, k) == ZERO
  {
    hide *;
    DiagonalZero(n, m);
    forall i, k | 0 <= i < n && 0 <= k < n ensures m(i, k) == ZERO {
      HermitianIdempotentRow(n, m, i);
    }
  }

  lemma DiagonalZero(n: nat, m: Matrix)
    requires Same(n, Product(n, m, m), m)
    requires Same(n, Adjoint(m), m)
    requires Trace(n, m) == ZERO
    ensures forall i :: 0 <= i < n ==> m(i, i).re == 0.0
  {
    hide Product, Sum;
    var diagonal: Vector := k => m(k, k);
    forall k | 0 <= k < n ensures diagonal(k).re >= 0.0 {
      HermitianIdempotentRow(n, m, k);
    }
    SumOfSquaresZero(n, diagonal);
    assert Sum(n, diagonal) == Trace(n, m);
    forall i | 0 <= i < n ensures m(i, i).re == 0.0 {
      assert diagonal(i).re == 0.0;
    }
  }

  lemma HermitianIdempotentRow(n: nat, m: Matrix, i: int)
    requires 0 <= i < n
    requires Same(n, Product(n, m, m), m)
    requires Same(n, Adjoint(m), m)
    ensures m(i, i).re >= 0.0
    ensures m(i, i).re == 0.0 ==> forall k :: 0 <= k < n ==> m(i, k) == ZERO
  {
    hide Terms, NormSq, Sum, Product, Same, Adjoint;
    var f := Terms(m, m, i, i);
    DiagonalSum(n, m, i);
    forall k | 0 <= k < n ensures f(k).re == NormSq(m(i, k)) >= 0.0 {
      RowTerm(n, m, i, k);
      NormSqPositive(m(i, k));
    }
    SumOfSquaresZero(n, f);
    forall k | 0 <= k < n && m(i, i).re == 0.0 ensures m(i, k) == ZERO {
      assert f(k).re == 0.0;
      NormSqPositive(m(i, k));
    }
  }

  /** An entry on the diagonal is the sum over its row. */
  lemma DiagonalSum(n: nat, m: Matrix, i: int)
    requires 0 <= i < n && Same(n, Product(n, m, m), m)
    ensures Sum(n, Terms(m, m, i, i)) == m(i, i)
  {
    hide Terms, Sum;
    assert Product(n, m, m)(i, i) == m(i, i);
  }

  lemma RowTerm(n: nat, m: Matrix, i: int, k: int)
    requires 0 <= i < n && 0 <= k < n && Same(n, Adjoint(m), m)
    ensures Terms(m, m, i, i)(k).re == NormSq(m(i, k))
  {
    hide Times, NormSq;
    assert Adjoint(m)(k, i) == m(k, i);
    TimesCommutes(m(i, k), Conj(m(i, k)));
    ConjTimesSelf(m(i, k));
  }

  /** A square matrix with orthonormal columns has orthonormal rows. */
  lemma OrthonormalRows(n: nat, q: Matrix)
    requires Same(n, Product(n, Adjoint(q), q), IDENTITY)
    ensures Same(n, Product(n, q, Adjoint(q)), IDENTITY)
  {
    hide Times, Minus, Sum;
    var h := Adjoint(q);
    var p := Product(n, q, h);
    ProjectionIdempotent(n, q);
    DefectIdempotent(n, p);
    forall i, j | 0 <= i < n && 0 <= j < n ensures Adjoint(Defect(p))(i, j) == Defect(p)(i, j) {
      ProjectionHermitian(n, q, i, j);
      ConjMinus(IDENTITY(j, i), p(j, i));
    }
    DefectTraceZero(n, q);
    HermitianIdempotentZero(n, Defect(p));
    forall i, j | 0 <= i < n && 0 <= j < n ensures p(i, j) == IDENTITY(i, j) {
      assert Defect(p)(i, j) == ZERO == Minus(IDENTITY(i, j), p(i, j));
      MinusZero(IDENTITY(i, j), p(i, j));
    }
  }

  lemma ConjMinus(a: Complex, b: Complex)
    ensures Conj(Minus(a, b)) == Minus(Conj(a), Conj(b))
  {}

  lemma MinusZero(a: Complex, b: Complex)
    requires Minus(a, b) == ZERO
    ensures a == b
  {}

  lemma ProjectionIdempotent(n: nat, q: Matrix)
    requires Same(n, Product(n, Adjoint(q), q), IDENTITY)
    ensures Same(n, Product(n, Product(n, q, Adjoint(q)), Product(n, q, Adjoint(q))), Product(n, q, Adjoint(q)))
  {
    hide Times, Sum;
    var h := Adjoint(q);
    var p := Product(n, q, h);
    ProductAssociates(n, q, h, p);
    ProductAssociates(n, h, q, h);
    SameProductTransfer(n, h, Product(n, h, q), IDENTITY);
    ProductIdentity(n, h);
    SameProductTransfer(n, q, Product(n, h, p), h);
  }

  lemma ProjectionHermitian(n: nat, q: Matrix, i: int, j: int)
    ensures Conj(Product(n, q, Adjoint(q))(j, i)) == Product(n, q, Adjoint(q))(i, j)
  {
    var f := Terms(q, Adjoint(q), j, i);
    forall k ensures Terms(q, Adjoint(q), i, j)(k) == Conj(f(k)) {
      ConjTimes(q(j, k), Conj(q(i, k)));
      TimesCommutes(q(i, k), Conj(q(j, k)));
    }
    SumOfConj(n, f);
    SumCongruent(n, Terms(q, Adjoint(q), i, j), k => Conj(f(k)));
  }

  lemma DefectTraceZero(n: nat, q: Matrix)
    requires Same(n, Product(n, Adjoint(q), q), IDENTITY)
    ensures Trace(n, Defect(Product(n, q, Adjoint(q)))) == ZERO
  {
    hide Times;
    var p := Product(n, q, Adjoint(q));
    TraceCommutes(n, q, Adjoint(q));
    TraceCongruent(n, Product(n, Adjoint(q), q), IDENTITY);
    var f, g: Vector := k => IDENTITY(k, k), k => p(k, k);
    SumOfMinus(n, f, g);
    forall k ensures Defect(p)(k, k) == Minus(f(k), g(k)) {
      assert f(k) == IDENTITY(k, k) && g(k) == p(k, k);
    }
    SumCongruent(n, k => Defect(p)(k, k), k => Minus(f(k), g(k)));
    SumCongruent(n, k => IDENTITY(k, k), f);
    SumCongruent(n, k => p(k, k), g);
  }

  /** The product of the triangular inverse and the adjoint inverts QR on both sides. */
  lemma InverseFromFactors(n: nat, a: Matrix, q: Matrix, r: Matrix, b: Matrix)
    requires Same(n, Product(n, q, r), a)
    requires Same(n, Product(n, Adjoint(q), q), IDENTITY)
    requires UpperTriangular(n, r)
    requires Same(n, b, Product(n, TriangularInverse(r), Adjoint(q)))
    ensures Same(n, Product(n, b, a), IDENTITY)
    ensures Same(n, Product(n, a, b), IDENTITY)
  {
    hide Times, Sum, UpperTriangular, TriangularInverseAt;
    var x, h := TriangularInverse(r), Adjoint(q);
    TriangularInverseInverts(n, r);
    TriangularRightInverse(n, r);
    OrthonormalRows(n, q);
    ProductCongruent(n, b, Product(n, x, h), a, Product(n, q, r));
    ProductCongruent(n, a, Product(n, q, r), b, Product(n, x, h));
    CancelMiddle(n, x, h, q, r);
    CancelMiddle(n, q, r, x, h);
  }

  /** If h q = I then (x h)(q r) = x r. */
  lemma CancelMiddle(n: nat, x: Matrix, h: Matrix, q: Matrix, r: Matrix)
    requires Same(n, Product(n, h, q), IDENTITY)
    ensures Same(n, Product(n, Product(n, x, h), Product(n, q, r)), Product(n, x, r))
  {
    hide Times, Sum;
    ProductAssociates(n, x, h, Product(n, q, r));
    ProductAssociates(n, h, q, r);
    SameProductTransfer(n, r, Product(n, h, q), IDENTITY);
    ProductIdentity(n, r);
    SameProductTransfer(n, x, Product(n, h, Product(n, q, r)), r);
  }
}
