/** What one pass of the Gram-Schmidt loop keeps, stated on matrix values. */
module QrSteps {
  import opened ComplexNumbers
  import opened Matrices

  /** Every column of a is its part built from the first i columns of q, plus its residual. */
  ghost predicate Decomposed(n: nat, i: nat, a: Matrix, t: Matrix, q: Matrix, r: Matrix) {
    forall row, j :: 0 <= row < n && 0 <= j < n ==>
      a(row, j) == Plus(Sum(i, Terms(q, r, row, j)), if j >= i then t(row, j) else ZERO)
  }

  /** The first i columns of q are orthonormal. */
  ghost predicate Orthonormal(n: nat, i: nat, q: Matrix) {
    forall k, l :: 0 <= k < i && 0 <= l < i ==> Product(n, Adjoint(q), q)(k, l) == IDENTITY(k, l)
  }

  /** Every residual column from i on is orthogonal to the first i columns of q. */
  ghost predicate ResidualOrthogonal(n: nat, i: nat, t: Matrix, q: Matrix) {
    forall k, j :: 0 <= k < i && i <= j < n ==> Product(n, Adjoint(q), t)(k, j) == ZERO
  }

  /** The first i columns of r are upper triangular with a positive real diagonal. */
  ghost predicate PositiveTriangular(n: nat, i: nat, r: Matrix) {
    && (forall k :: 0 <= k < i ==> r(k, k).re > 0.0 && r(k, k).im == 0.0)
    && (forall k, l :: 0 <= l < i && l < k < n ==> r(k, l) == ZERO)
  }

  ghost predicate Invariant(n: nat, i: nat, a: Matrix, t: Matrix, q: Matrix, r: Matrix) {
    && Decomposed(n, i, a, t, q, r)
    && Orthonormal(n, i, q)
    && ResidualOrthogonal(n, i, t, q)
    && PositiveTriangular(n, i, r)
  }

  /** Column i of Q is the scaled residual column, the others are as before. */
  ghost predicate Normalised(n: nat, i: nat, s: real, t: Matrix, q: Matrix, q': Matrix) {
    && (forall row :: 0 <= row < n ==> q'(row, i) == Scaled(t(row, i), s))
    && (forall row, c :: 0 <= row < n && 0 <= c < n && c != i ==> q'(row, c) == q(row, c))
  }

  /** Row i of R holds the inner products with the later residual columns, and these have lost their
      projections. */
  ghost predicate Projected(n: nat, i: nat, t: Matrix, q: Matrix, r: Matrix, t': Matrix, r': Matrix) {
    && (forall j :: i < j < n ==> r'(i, j) == Product(n, Adjoint(q), t)(i, j) && r'(j, i) == ZERO)
    && (forall k, l :: 0 <= k < n && 0 <= l < n && (k != i || l <= i) && (l != i || k <= i) ==> r'(k, l) == r(k, l))
    && (forall row, j :: 0 <= row < n && i < j < n ==>
          t'(row, j) == Minus(t(row, j), Times(r'(i, j), q(row, i))))
    && (forall row, j :: 0 <= row < n && 0 <= j <= i ==> t'(row, j) == t(row, j))
  }

  /** The effect of pass i of the main loop: normalise column i, then project it out of the rest. */
  ghost predicate Pass(n: nat, i: nat, mag: real, t: Matrix, q: Matrix, r: Matrix,
                       t': Matrix, q': Matrix, r': Matrix) {
    && i < n
    && mag > 0.0
    && Product(n, Adjoint(t), t)(i, i) == Complex(RealProduct(mag, mag), 0.0)
    && (forall row :: 0 <= row < n ==> q'(row, i) == Scaled(t(row, i), 1.0 / mag))
    && (forall row, c :: 0 <= row < n && 0 <= c < n && c != i ==> q'(row, c) == q(row, c))
    && r'(i, i) == Complex(mag, 0.0)
    && (forall j :: i < j < n ==> r'(i, j) == Product(n, Adjoint(q'), t)(i, j) && r'(j, i) == ZERO)
    && (forall k, l :: 0 <= k < n && 0 <= l < n && (k != i || l < i) && (l != i || k < i) ==> r'(k, l) == r(k, l))
    && (forall row, j :: 0 <= row < n && i < j < n ==>
          t'(row, j) == Minus(t(row, j), Times(r'(i, j), q'(row, i))))
    && (forall row, j :: 0 <= row < n && 0 <= j <= i ==> t'(row, j) == t(row, j))
  }

  /** The parts make a pass. */
  lemma PassFromParts(n: nat, i: nat, mag: real, t: Matrix, q: Matrix, r: Matrix, r1: Matrix,
                      t': Matrix, q': Matrix, r': Matrix)
    requires i < n && mag > 0.0
    requires Product(n, Adjoint(t), t)(i, i) == Complex(RealProduct(mag, mag), 0.0)
    requires r1(i, i) == Complex(mag, 0.0)
    requires forall k, l :: 0 <= k < n && 0 <= l < n && (k, l) != (i, i) ==> r1(k, l) == r(k, l)
    requires Normalised(n, i, 1.0 / mag, t, q, q') && Projected(n, i, t, q', r1, t', r')
    ensures Pass(n, i, mag, t, q, r, t', q', r')
  {
    hide Product, Sum, Terms, Adjoint, Times, Minus, Scaled, RealProduct;
  }

  lemma PassDecomposed(n: nat, i: nat, mag: real, a: Matrix, t: Matrix, q: Matrix, r: Matrix,
                       t': Matrix, q': Matrix, r': Matrix)
    requires Pass(n, i, mag, t, q, r, t', q', r')
    requires Invariant(n, i, a, t, q, r)
    ensures Decomposed(n, i + 1, a, t', q', r')
  {
    forall row, j | 0 <= row < n && 0 <= j < n
      ensures a(row, j) == Plus(Sum(i + 1, Terms(q', r', row, j)), if j >= i + 1 then t'(row, j) else ZERO)
    {
      SumCongruent(i, Terms(q, r, row, j), Terms(q', r', row, j));
      var s := Sum(i, Terms(q, r, row, j));
      var last := Times(q'(row, i), r'(i, j));
      assert Sum(i + 1, Terms(q', r', row, j)) == Plus(s, last);
      if j < i {
        assert r'(i, j) == ZERO;
        TimesUnits(q'(row, i));
      } else if j == i {
        calc {
          last;
          Times(Scaled(t(row, i), 1.0 / mag), Complex(mag, 0.0));
          { ScaleBack(t(row, i), mag); }
          t(row, i);
        }
      } else {
        TimesCommutes(q'(row, i), r'(i, j));
      }
    }
  }

  lemma ScaleBack(z: Complex, mag: real)
    requires mag != 0.0
    ensures Times(Scaled(z, 1.0 / mag), Complex(mag, 0.0)) == z
  {
    var d := 1.0 / mag;
    assert d * mag == 1.0;
    assert (z.re * d) * mag == z.re * (d * mag);
    assert (z.im * d) * mag == z.im * (d * mag);
  }

  lemma ScaledIsTimes(z: Complex, s: real)
    ensures Scaled(z, s) == Times(z, Complex(s, 0.0))
  {}

  lemma TermsScaled(n: nat, a: Matrix, b: Matrix, b': Matrix, i: int, j: int, s: real)
    requires forall k :: 0 <= k < n ==> b'(k, j) == Scaled(b(k, j), s)
    ensures Product(n, a, b')(i, j) == Scaled(Product(n, a, b)(i, j), s)
  {
    hide Times, Scaled;
    var c := Complex(s, 0.0);
    forall k | 0 <= k < n ensures Terms(a, b', i, j)(k) == Times(Terms(a, b, i, j)(k), c) {
      TimesAssociates(a(i, k), b(k, j), c);
      ScaledIsTimes(b(k, j), s);
    }
    SumTimesRight(n, Terms(a, b, i, j), c);
    SumCongruent(n, Terms(a, b', i, j), k => Times(Terms(a, b, i, j)(k), c));
    ScaledIsTimes(Product(n, a, b)(i, j), s);
  }

  /** Inner products are conjugate-symmetric. */
  lemma GramConjugate(n: nat, q: Matrix, t: Matrix, k: int, l: int)
    ensures Product(n, Adjoint(q), t)(k, l) == Conj(Product(n, Adjoint(t), q)(l, k))
  {
    var f := Terms(Adjoint(t), q, l, k);
    forall m | 0 <= m < n ensures Terms(Adjoint(q), t, k, l)(m) == Conj(f(m)) {
      ConjTimes(Conj(t(m, l)), q(m, k));
      TimesCommutes(t(m, l), Conj(q(m, k)));
    }
    SumOfConj(n, f);
    SumCongruent(n, Terms(Adjoint(q), t, k, l), m => Conj(f(m)));
  }

  lemma {:induction false} SumOfSquaresZero(n: nat, f: Vector)
    requires forall k :: 0 <= k < n ==> f(k).re >= 0.0
    ensures Sum(n, f).re >= 0.0
    ensures Sum(n, f).re == 0.0 ==> forall k :: 0 <= k < n ==> f(k).re == 0.0
  {
    if n > 0 {
      SumOfSquaresZero(n - 1, f);
    }
  }

  lemma PassOrthonormal(n: nat, i: nat, mag: real, a: Matrix, t: Matrix, q: Matrix, r: Matrix,
                        t': Matrix, q': Matrix, r': Matrix)
    requires Pass(n, i, mag, t, q, r, t', q', r')
    requires Invariant(n, i, a, t, q, r)
    ensures Orthonormal(n, i + 1, q')
  {
    var d := 1.0 / mag;
    forall k, l | 0 <= k <= i && 0 <= l <= i
      ensures Product(n, Adjoint(q'), q')(k, l) == IDENTITY(k, l)
    {
      if k < i && l < i {
        SumCongruent(n, Terms(Adjoint(q'), q', k, l), Terms(Adjoint(q), q, k, l));
      } else if k < i {
        NewColumnOrthogonal(n, i, mag, t, q, r, t', q', r', k);
      } else if l < i {
        NewColumnOrthogonal(n, i, mag, t, q, r, t', q', r', l);
        GramConjugate(n, q', q', k, l);
      } else {
        TermsScaled(n, Adjoint(q'), t, q', i, i, d);
        GramConjugate(n, q', t, i, i);
        TermsScaled(n, Adjoint(t), t, q', i, i, d);
        var g := Complex(RealProduct(mag, mag), 0.0);
        assert Product(n, Adjoint(q'), q')(i, i) == Scaled(Conj(Scaled(g, d)), d);
        assert d * mag == 1.0;
        assert mag * mag * d * d == (d * mag) * (d * mag);
      }
    }
  }

  lemma NewColumnOrthogonal(n: nat, i: nat, mag: real, t: Matrix, q: Matrix, r: Matrix,
                            t': Matrix, q': Matrix, r': Matrix, k: nat)
    requires Pass(n, i, mag, t, q, r, t', q', r')
    requires ResidualOrthogonal(n, i, t, q)
    requires k < i
    ensures Product(n, Adjoint(q'), q')(k, i) == ZERO
  {
    TermsScaled(n, Adjoint(q'), t, q', k, i, 1.0 / mag);
    SumCongruent(n, Terms(Adjoint(q'), t, k, i), Terms(Adjoint(q), t, k, i));
    assert Product(n, Adjoint(q), t)(k, i) == ZERO;
  }

  lemma ProjectedInner(n: nat, i: nat, a: Matrix, t: Matrix, q': Matrix, t': Matrix, d: Complex, k: int, j: int)
    requires forall row :: 0 <= row < n ==> t'(row, j) == Minus(t(row, j), Times(d, q'(row, i)))
    ensures Product(n, a, t')(k, j) == Minus(Product(n, a, t)(k, j), Times(Product(n, a, q')(k, i), d))
  {
    hide Times, Minus;
    var f, g := Terms(a, t, k, j), Terms(a, q', k, i);
    forall row | 0 <= row < n ensures Terms(a, t', k, j)(row) == Minus(f(row), Times(g(row), d)) {
      TimesDistributes(a(k, row), t(row, j), Times(d, q'(row, i)));
      TimesCommutes(d, q'(row, i));
      TimesAssociates(a(k, row), q'(row, i), d);
    }
    var gd: Vector := row => Times(g(row), d);
    SumOfMinus(n, f, gd);
    SumTimesRight(n, g, d);
    SumCongruent(n, gd, row => Times(g(row), d));
    SumCongruent(n, Terms(a, t', k, j), row => Minus(f(row), gd(row)));
  }

  lemma PassResidual(n: nat, i: nat, mag: real, a: Matrix, t: Matrix, q: Matrix, r: Matrix,
                     t': Matrix, q': Matrix, r': Matrix)
    requires Pass(n, i, mag, t, q, r, t', q', r')
    requires Invariant(n, i, a, t, q, r)
    ensures ResidualOrthogonal(n, i + 1, t', q')
  {
    PassOrthonormal(n, i, mag, a, t, q, r, t', q', r');
    forall k, j | 0 <= k <= i && i + 1 <= j < n
      ensures Product(n, Adjoint(q'), t')(k, j) == ZERO
    {
      ProjectedInner(n, i, Adjoint(q'), t, q', t', r'(i, j), k, j);
      if k < i {
        SumCongruent(n, Terms(Adjoint(q'), t, k, j), Terms(Adjoint(q), t, k, j));
        assert Product(n, Adjoint(q), t)(k, j) == ZERO;
      }
      TimesUnits(r'(i, j));
    }
  }

  /** ONE pass of the main loop moves the invariant on by one column. */
  lemma PassKeepsInvariant(n: nat, i: nat, mag: real, a: Matrix, t: Matrix, q: Matrix, r: Matrix,
                           t': Matrix, q': Matrix, r': Matrix)
    requires Pass(n, i, mag, t, q, r, t', q', r')
    requires Invariant(n, i, a, t, q, r)
    ensures Invariant(n, i + 1, a, t', q', r')
  {
    PassDecomposed(n, i, mag, a, t, q, r, t', q', r');
    PassOrthonormal(n, i, mag, a, t, q, r, t', q', r');
    PassResidual(n, i, mag, a, t, q, r, t', q', r');
  }

  lemma InvariantAtStart(n: nat, a: Matrix, t: Matrix, q: Matrix, r: Matrix)
    requires Same(n, a, t)
    ensures Invariant(n, 0, a, t, q, r)
  {}

  /** At exit: A = QR, Q is unitary from the left and R is upper triangular with positive diagonal. */
  lemma InvariantAtEnd(n: nat, a: Matrix, t: Matrix, q: Matrix, r: Matrix)
    requires Invariant(n, n, a, t, q, r)
    ensures Same(n, Product(n, q, r), a)
    ensures Same(n, Product(n, Adjoint(q), q), IDENTITY)
    ensures PositiveTriangular(n, n, r)
  {
    forall row, j | 0 <= row < n && 0 <= j < n
      ensures Product(n, q, r)(row, j) == a(row, j)
    {
      assert Product(n, q, r)(row, j) == Sum(n, Terms(q, r, row, j));
    }
  }
}
