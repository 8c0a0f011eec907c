/** Matrix inversion by modified Gram-Schmidt QR decomposition, on arrays, over exact reals. */
module MatrixInverse {
  import opened ComplexNumbers
  import opened Matrices
  import opened QrSteps
  import opened LinearAlgebra

  /** The contents of a two-dimensional array as a matrix value. */
  ghost function View(m: array2<Complex>): Matrix
    reads m
  {
    var rows := seq(m.Length0, i requires 0 <= i < m.Length0 reads m =>
                    seq(m.Length1, j requires 0 <= j < m.Length1 reads m => m[i, j]));
    (i, j) => if 0 <= i < |rows| && 0 <= j < |rows[i]| then rows[i][j] else ZERO
  }

  predicate IsSquare(n: nat, m: array2<Complex>) {
    m.Length0 == n && m.Length1 == n
  }

  /** All that is assumed of the library's square root. */
  ghost predicate IsSqrt(sqrt: real -> real) {
    forall x: real :: x >= 0.0 ==> sqrt(x) >= 0.0 && sqrt(x) * sqrt(x) == x
  }

  lemma RootSquared(sqrt: real -> real, x: real)
    requires IsSqrt(sqrt) && x >= 0.0
    ensures sqrt(x) >= 0.0 && RealProduct(sqrt(x), sqrt(x)) == x
  {
  }

  method MagnitudeColumn(n: nat, m: array2<Complex>, target: nat, sqrt: real -> real) returns (mag: real)
    requires IsSquare(n, m) && target < n
    requires IsSqrt(sqrt)
    ensures mag >= 0.0
    ensures Product(n, Adjoint(View(m)), View(m))(target, target) == Complex(RealProduct(mag, mag), 0.0)
  {
    hide RealProduct, NormSq, Times, Conj, IsSqrt;
    ghost var t := View(m);
    ghost var f := Terms(Adjoint(t), t, target, target);
    var sum := 0.0;
    for row := 0 to n
      invariant sum >= 0.0
      invariant Sum(row, f) == Complex(sum, 0.0)
    {
      var val := m[row, target];
      NormSqPositive(val);
      ConjTimesSelf(val);
      assert f(row) == Times(Conj(val), val);
      sum := sum + NormSq(val);
    }
    mag := sqrt(sum);
    RootSquared(sqrt, sum);
  }

  /** Modified Gram-Schmidt. Each pass divides by a column length; `ok` is false exactly when
      that length is zero, where the reciprocal does not exist. */
  method Decompose(n: nat, a: array2<Complex>, q: array2<Complex>, r: array2<Complex>, sqrt: real -> real)
    returns (ok: bool)
    requires IsSquare(n, a) && IsSquare(n, q) && IsSquare(n, r)
    requires a != q && a != r && q != r
    requires IsSqrt(sqrt)
    modifies q, r
    ensures ok ==> Same(n, Product(n, View(q), View(r)), View(a))
    ensures ok ==> Same(n, Product(n, Adjoint(View(q)), View(q)), IDENTITY)
    ensures ok ==> PositiveTriangular(n, n, View(r))
    ensures !ok ==> !Independent(n, View(a))
  {
    var t := new Complex[n, n];
    var qTemp := new Complex[n, n];
    CopyMatrix(n, a, t);
    ok := EliminateColumns(n, View(a), t, qTemp, q, r, sqrt);
    if ok {
      FinalFactors(n, View(a), View(t), q, qTemp, View(r));
    }
  }

  /** The main loop over columns. */
  method EliminateColumns(n: nat, ghost am: Matrix, t: array2<Complex>, qTemp: array2<Complex>,
                          q: array2<Complex>, r: array2<Complex>, sqrt: real -> real) returns (ok: bool)
    requires IsSquare(n, t) && IsSquare(n, qTemp) && IsSquare(n, q) && IsSquare(n, r)
    requires t != qTemp && t != q && t != r && qTemp != q && qTemp != r && q != r
    requires Same(n, am, View(t))
    requires IsSqrt(sqrt)
    modifies t, qTemp, q, r
    ensures ok ==> Invariant(n, n, am, View(t), View(qTemp), View(r))
    ensures ok ==> forall k, c :: 0 <= k < n && 0 <= c < n ==> q[k, c] == qTemp[k, c]
    ensures !ok ==> !Independent(n, am)
  {
    hide View, Invariant, Spanned, Independent, IsSqrt, Same;
    ghost var w := IDENTITY;
    InvariantAtStart(n, am, View(t), View(qTemp), View(r));
    SpannedAtStart(n, am, View(t));
    for i := 0 to n
      invariant forall k, c :: 0 <= k < n && 0 <= c < i ==> q[k, c] == qTemp[k, c]
      invariant Invariant(n, i, am, View(t), View(qTemp), View(r))
      invariant Spanned(n, i, am, View(t), w)
    {
      ok, w := EliminateNext(n, i, am, t, qTemp, q, r, sqrt, w);
      if !ok {
        return;
      }
    }
    return true;
  }

  /** One round of the loop; false when the column has vanished. */
  method EliminateNext(n: nat, i: nat, ghost am: Matrix, t: array2<Complex>, qTemp: array2<Complex>,
                       q: array2<Complex>, r: array2<Complex>, sqrt: real -> real, ghost w: Matrix)
    returns (ok: bool, ghost w': Matrix)
    requires IsSquare(n, t) && IsSquare(n, qTemp) && IsSquare(n, q) && IsSquare(n, r)
    requires t != qTemp && t != q && t != r && qTemp != q && qTemp != r && q != r
    requires i < n && IsSqrt(sqrt)
    requires forall k, c :: 0 <= k < n && 0 <= c < i ==> q[k, c] == qTemp[k, c]
    requires Invariant(n, i, am, View(t), View(qTemp), View(r))
    requires Spanned(n, i, am, View(t), w)
    modifies t, qTemp, q, r
    ensures ok ==> forall k, c :: 0 <= k < n && 0 <= c <= i ==> q[k, c] == qTemp[k, c]
    ensures ok ==> Invariant(n, i + 1, am, View(t), View(qTemp), View(r))
    ensures ok ==> Spanned(n, i + 1, am, View(t), w')
    ensures !ok ==> !Independent(n, am)
  {
    hide View, Invariant, Spanned, Independent, IsSqrt, Product, Adjoint, RealProduct;
    var mag := MagnitudeColumn(n, t, i, sqrt);
    w' := w;
    if mag == 0.0 {
      VanishedColumn(n, i, mag, am, View(t), w);
      return false, w;
    }
    w' := EliminateColumn(n, i, mag, am, t, qTemp, q, r, w);
    ok := true;
  }

  /** ONE pass, with what it keeps. */
  method EliminateColumn(n: nat, i: nat, mag: real, ghost am: Matrix, t: array2<Complex>, qTemp: array2<Complex>,
                         q: array2<Complex>, r: array2<Complex>, ghost w: Matrix)
    returns (ghost w': Matrix)
    requires IsSquare(n, t) && IsSquare(n, qTemp) && IsSquare(n, q) && IsSquare(n, r)
    requires t != qTemp && t != q && t != r && qTemp != q && qTemp != r && q != r
    requires i < n && mag > 0.0
    requires Product(n, Adjoint(View(t)), View(t))(i, i) == Complex(RealProduct(mag, mag), 0.0)
    requires forall k, c :: 0 <= k < n && 0 <= c < i ==> q[k, c] == qTemp[k, c]
    requires Invariant(n, i, am, View(t), View(qTemp), View(r))
    requires Spanned(n, i, am, View(t), w)
    modifies t, qTemp, q, r
    ensures forall k, c :: 0 <= k < n && 0 <= c <= i ==> q[k, c] == qTemp[k, c]
    ensures Invariant(n, i + 1, am, View(t), View(qTemp), View(r))
    ensures Spanned(n, i + 1, am, View(t), w')
  {
    hide *;
    ghost var t0, q0, r0 := View(t), View(qTemp), View(r);
    NormaliseAndProject(n, i, mag, t, qTemp, q, r);
    PassKeepsInvariant(n, i, mag, am, t0, q0, r0, View(t), View(qTemp), View(r));
    PassKeepsSpan(n, i, mag, am, t0, q0, r0, View(t), View(qTemp), View(r), w);
    w' := NextWeights(i, mag, View(r), w);
  }

  method CopyMatrix(n: nat, a: array2<Complex>, t: array2<Complex>)
    requires IsSquare(n, a) && IsSquare(n, t) && a != t
    modifies t
    ensures Same(n, View(a), View(t))
  {
    for row := 0 to n
      invariant forall k, c :: 0 <= k < row && 0 <= c < n ==> t[k, c] == a[k, c]
    {
      for col := 0 to n
        invariant forall k, c :: 0 <= k < row && 0 <= c < n ==> t[k, c] == a[k, c]
        invariant forall c :: 0 <= c < col ==> t[row, c] == a[row, c]
      {
        t[row, col] := a[row, col];
      }
    }
  }

  /** At exit the output array q and the working copy hold the same columns. */
  lemma FinalFactors(n: nat, a: Matrix, t: Matrix, q: array2<Complex>, qTemp: array2<Complex>, r: Matrix)
    requires IsSquare(n, q) && IsSquare(n, qTemp)
    requires forall k, c :: 0 <= k < n && 0 <= c < n ==> q[k, c] == qTemp[k, c]
    requires Invariant(n, n, a, t, View(qTemp), r)
    ensures Same(n, Product(n, View(q), r), a)
    ensures Same(n, Product(n, Adjoint(View(q)), View(q)), IDENTITY)
    ensures PositiveTriangular(n, n, r)
  {
    InvariantAtEnd(n, a, t, View(qTemp), r);
    TransferQ(n, View(q), View(qTemp), r);
  }

  lemma TransferQ(n: nat, q: Matrix, q': Matrix, r: Matrix)
    requires Same(n, q, q')
    ensures Same(n, Product(n, q, r), Product(n, q', r))
    ensures Same(n, Product(n, Adjoint(q), q), Product(n, Adjoint(q'), q'))
  {
    ProductCongruent(n, q, q', r, r);
    ProductCongruent(n, Adjoint(q), Adjoint(q'), q, q');
  }

  /** ONE pass of the main loop, after the length of column i is known. */
  method NormaliseAndProject(n: nat, i: nat, mag: real, t: array2<Complex>, qTemp: array2<Complex>,
                             q: array2<Complex>, r: array2<Complex>)
    requires IsSquare(n, t) && IsSquare(n, qTemp) && IsSquare(n, q) && IsSquare(n, r)
    requires t != qTemp && t != q && t != r && qTemp != q && qTemp != r && q != r
    requires i < n && mag > 0.0
    requires Product(n, Adjoint(View(t)), View(t))(i, i) == Complex(RealProduct(mag, mag), 0.0)
    requires forall k, c :: 0 <= k < n && 0 <= c < i ==> q[k, c] == qTemp[k, c]
    modifies t, qTemp, q, r
    ensures Pass(n, i, mag, old(View(t)), old(View(qTemp)), old(View(r)), View(t), View(qTemp), View(r))
    ensures forall k, c :: 0 <= k < n && 0 <= c <= i ==> q[k, c] == qTemp[k, c]
  {
    hide Product, Adjoint, RealProduct, Pass, Normalised, Projected;
    ghost var t0, q0, r0 := View(t), View(qTemp), View(r);
    r[i, i] := Complex(mag, 0.0);
    NormaliseColumn(n, i, 1.0 / mag, t, qTemp, q);
    assert View(t) == t0;
    ghost var r1 := View(r);
    ProjectColumns(n, i, t, qTemp, r);
    PassFromParts(n, i, mag, t0, q0, r0, r1, View(t), View(qTemp), View(r));
  }

  /** Every later column of t loses its component along column i of q. */
  method ProjectColumns(n: nat, i: nat, t: array2<Complex>, qTemp: array2<Complex>, r: array2<Complex>)
    requires IsSquare(n, t) && IsSquare(n, qTemp) && IsSquare(n, r)
    requires t != qTemp && t != r && qTemp != r
    requires i < n
    modifies t, r
    ensures Projected(n, i, old(View(t)), View(qTemp), old(View(r)), View(t), View(r))
  {
    hide Product, Sum, Terms, Adjoint, Times, Minus;
    ghost var q1, t0 := View(qTemp), View(t);
    for j := 0 to n
      modifies t, r
      invariant forall c :: i < c < j ==> r[i, c] == Product(n, Adjoint(q1), t0)(i, c) && r[c, i] == ZERO
      invariant forall k, l :: 0 <= k < n && 0 <= l < n && (k != i || l <= i) && (l != i || k <= i) ==> r[k, l] == old(r[k, l])
      invariant forall k, c :: 0 <= k < n && i < c < j ==> t[k, c] == Minus(old(t[k, c]), Times(r[i, c], qTemp[k, i]))
      invariant forall k, c :: 0 <= k < n && 0 <= c < n && (c <= i || c >= j) ==> t[k, c] == old(t[k, c])
    {
      if j > i {
        SameColumnsInner(n, q1, q1, View(t), t0, i, j);
        ProjectColumn(n, i, j, t, qTemp, r);
      }
    }
  }

  /** Column i of q becomes column i of t divided by its length. */
  method NormaliseColumn(n: nat, i: nat, reciprocal: real, t: array2<Complex>, qTemp: array2<Complex>, q: array2<Complex>)
    requires IsSquare(n, t) && IsSquare(n, qTemp) && IsSquare(n, q)
    requires t != qTemp && t != q && qTemp != q
    requires i < n
    modifies qTemp, q
    ensures Normalised(n, i, reciprocal, View(t), old(View(qTemp)), View(qTemp))
    ensures forall k :: 0 <= k < n ==> q[k, i] == qTemp[k, i]
    ensures forall k, c :: 0 <= k < n && 0 <= c < n && c != i ==>
              qTemp[k, c] == old(qTemp[k, c]) && q[k, c] == old(q[k, c])
  {
    for row := 0 to n
      invariant forall k :: 0 <= k < row ==> qTemp[k, i] == q[k, i] == Scaled(t[k, i], reciprocal)
      invariant forall k, c :: 0 <= k < n && 0 <= c < n && (c != i || k >= row) ==>
                  qTemp[k, c] == old(qTemp[k, c]) && q[k, c] == old(q[k, c])
    {
      var temp := Scaled(t[row, i], reciprocal);
      qTemp[row, i] := temp;
      q[row, i] := temp;
    }
  }

  /** Column j of t loses its component along column i of q; r records that component. */
  method ProjectColumn(n: nat, i: nat, j: nat, t: array2<Complex>, qTemp: array2<Complex>, r: array2<Complex>)
    requires IsSquare(n, t) && IsSquare(n, qTemp) && IsSquare(n, r)
    requires t != qTemp && t != r && qTemp != r
    requires i < j < n
    modifies t, r
    ensures r[i, j] == old(Product(n, Adjoint(View(qTemp)), View(t))(i, j)) && r[j, i] == ZERO
    ensures forall k, l :: 0 <= k < n && 0 <= l < n && (k, l) != (i, j) && (k, l) != (j, i) ==> r[k, l] == old(r[k, l])
    ensures forall k :: 0 <= k < n ==> t[k, j] == Minus(old(t[k, j]), Times(r[i, j], qTemp[k, i]))
    ensures forall k, c :: 0 <= k < n && 0 <= c < n && c != j ==> t[k, c] == old(t[k, c])
  {
    hide Times, Minus;
    var dot := DotProduct(n, qTemp, i, t, j);
    r[i, j] := dot;
    r[j, i] := ZERO;
    for row := 0 to n
      modifies t
      invariant forall k, c :: 0 <= k < n && 0 <= c < n && (c != j || k >= row) ==> t[k, c] == old(t[k, c])
      invariant forall k :: 0 <= k < row ==> t[k, j] == Minus(old(t[k, j]), Times(dot, qTemp[k, i]))
    {
      var tj := t[row, j];
      var qi := qTemp[row, i];
      t[row, j] := Minus(tj, Times(dot, qi));
    }
  }

  lemma SameColumnsInner(n: nat, q: Matrix, q': Matrix, t: Matrix, t': Matrix, i: int, j: int)
    requires forall k :: 0 <= k < n ==> q(k, i) == q'(k, i) && t(k, j) == t'(k, j)
    ensures Product(n, Adjoint(q), t)(i, j) == Product(n, Adjoint(q'), t')(i, j)
  {
    SumCongruent(n, Terms(Adjoint(q), t, i, j), Terms(Adjoint(q'), t', i, j));
  }

  method DotProduct(n: nat, q: array2<Complex>, i: nat, t: array2<Complex>, j: nat) returns (dot: Complex)
    requires IsSquare(n, q) && IsSquare(n, t) && i < n && j < n
    ensures dot == Product(n, Adjoint(View(q)), View(t))(i, j)
  {
    ghost var f := Terms(Adjoint(View(q)), View(t), i, j);
    dot := ZERO;
    for row := 0 to n
      invariant dot == Sum(row, f)
    {
      dot := Plus(dot, Times(Conj(q[row, i]), t[row, j]));
    }
  }

  /** Back substitution, row by row. Only the upper triangle of `inverse` is written; below the
      diagonal it keeps whatever it held. */
  method InvertR(n: nat, r: array2<Complex>, inverse: array2<Complex>)
    requires IsSquare(n, r) && IsSquare(n, inverse) && r != inverse
    requires forall k :: 0 <= k < n ==> r[k, k] != ZERO
    modifies inverse
    ensures forall m, c :: 0 <= m <= c < n ==> inverse[m, c] == TriangularInverse(View(r))(m, c)
    ensures forall m, c :: 0 <= c < m < n ==> inverse[m, c] == old(inverse[m, c])
  {
    hide Times, Over, Minus;
    ghost var rm := View(r);
    var reciprocal := ReciprocalDiagonal(n, r);
    for m := 0 to n
      modifies inverse
      invariant forall k, c :: 0 <= k < m && k <= c < n ==> inverse[k, c] == TriangularInverseAt(rm, k, c)
      invariant forall k, c :: 0 <= k < n && 0 <= c < n && (k >= m || c < k) ==> inverse[k, c] == old(inverse[k, c])
    {
      InvertRow(n, m, r, reciprocal, inverse);
    }
  }

  /** ONE row of the result, from the diagonal to the right. */
  method InvertRow(n: nat, m: nat, r: array2<Complex>, reciprocal: array<Complex>, inverse: array2<Complex>)
    requires IsSquare(n, r) && IsSquare(n, inverse) && r != inverse && reciprocal.Length == n
    requires forall k :: 0 <= k < n ==> r[k, k] != ZERO && reciprocal[k] == Over(ONE, r[k, k])
    requires m < n
    modifies inverse
    ensures forall c :: m <= c < n ==> inverse[m, c] == TriangularInverseAt(View(r), m, c)
    ensures forall k, c :: 0 <= k < n && 0 <= c < n && (k != m || c < m) ==> inverse[k, c] == old(inverse[k, c])
  {
    hide Times, Over, Minus, TriangularInverseAt, View;
    for c := 0 to n
      modifies inverse
      invariant forall l :: m <= l < c ==> inverse[m, l] == TriangularInverseAt(View(r), m, l)
      invariant forall k, l :: 0 <= k < n && 0 <= l < n && (k != m || l < m || l >= c) ==> inverse[k, l] == old(inverse[k, l])
    {
      if c >= m {
        InvertEntry(n, m, c, r, reciprocal, inverse);
      }
    }
  }

  /** One entry of that row. */
  method InvertEntry(n: nat, m: nat, c: nat, r: array2<Complex>, reciprocal: array<Complex>, inverse: array2<Complex>)
    requires IsSquare(n, r) && IsSquare(n, inverse) && r != inverse && reciprocal.Length == n
    requires m <= c < n && r[c, c] != ZERO && reciprocal[c] == Over(ONE, r[c, c])
    requires forall l :: m <= l < c ==> inverse[m, l] == TriangularInverseAt(View(r), m, l)
    modifies inverse
    ensures inverse[m, c] == TriangularInverseAt(View(r), m, c)
    ensures forall k, l :: 0 <= k < n && 0 <= l < n && (k, l) != (m, c) ==> inverse[k, l] == old(inverse[k, l])
  {
    hide Times, Over, Minus;
    var s := SubstituteEntry(n, m, c, r, inverse);
    inverse[m, c] := Times(s, reciprocal[c]);
  }

  method ReciprocalDiagonal(n: nat, r: array2<Complex>) returns (reciprocal: array<Complex>)
    requires IsSquare(n, r)
    requires forall k :: 0 <= k < n ==> r[k, k] != ZERO
    ensures fresh(reciprocal) && reciprocal.Length == n
    ensures forall k :: 0 <= k < n ==> reciprocal[k] == Over(ONE, r[k, k])
  {
    hide Over;
    reciprocal := new Complex[n];
    for m := 0 to n
      invariant forall k :: 0 <= k < m ==> reciprocal[k] == Over(ONE, r[k, k])
    {
      reciprocal[m] := Over(ONE, r[m, m]);
    }
  }

  /** The inner loop of back substitution for entry (m, c). */
  method SubstituteEntry(n: nat, m: nat, c: nat, r: array2<Complex>, inverse: array2<Complex>) returns (s: Complex)
    requires IsSquare(n, r) && IsSquare(n, inverse)
    requires m <= c < n
    requires forall l :: m <= l < c ==> inverse[m, l] == TriangularInverseAt(View(r), m, l)
    ensures s == Minus(IDENTITY(m, c), PartialRow(View(r), m, c, c))
  {
    hide Times, Plus, Minus;
    ghost var rm := View(r);
    MinusTwice(IDENTITY(m, c), ZERO, ZERO);
    s := if m == c then ONE else ZERO;
    for p := 0 to n
      invariant s == Minus(IDENTITY(m, c), PartialRow(rm, m, c, if p <= c then p else c))
    {
      if p >= m && p < c {
        MinusTwice(IDENTITY(m, c), PartialRow(rm, m, c, p), Times(inverse[m, p], r[p, c]));
        s := Minus(s, Times(inverse[m, p], r[p, c]));
      }
    }
  }

  /** R^-1 Q^H, reading only the upper triangle of `inverseR`. */
  method MultiplyRinvQt(n: nat, inverseR: array2<Complex>, q: array2<Complex>, inverseA: array2<Complex>, ghost x: Matrix)
    requires IsSquare(n, inverseR) && IsSquare(n, q) && IsSquare(n, inverseA)
    requires inverseR != inverseA && q != inverseA
    requires forall d, k :: 0 <= d <= k < n ==> inverseR[d, k] == x(d, k)
    requires forall d, k :: 0 <= k < d < n ==> x(d, k) == ZERO
    modifies inverseA
    ensures Same(n, View(inverseA), Product(n, x, Adjoint(View(q))))
  {
    hide Product, Times;
    ghost var h := Adjoint(View(q));
    for c := 0 to n
      modifies inverseA
      invariant forall d, l :: 0 <= d < n && 0 <= l < c ==> inverseA[d, l] == Product(n, x, h)(d, l)
    {
      for d := 0 to n
        modifies inverseA
        invariant forall k, l :: 0 <= k < n && 0 <= l < c ==> inverseA[k, l] == Product(n, x, h)(k, l)
        invariant forall k :: 0 <= k < d ==> inverseA[k, c] == Product(n, x, h)(k, c)
      {
        var sum := UpperRowTimesColumn(n, inverseR, q, d, c, x);
        inverseA[d, c] := sum;
      }
    }
  }

  /** The innermost loop: row d of R^-1 times the conjugate of row c of Q. */
  method UpperRowTimesColumn(n: nat, inverseR: array2<Complex>, q: array2<Complex>, d: nat, c: nat, ghost x: Matrix)
    returns (sum: Complex)
    requires IsSquare(n, inverseR) && IsSquare(n, q) && d < n && c < n
    requires forall k :: d <= k < n ==> inverseR[d, k] == x(d, k)
    requires forall k :: 0 <= k < d ==> x(d, k) == ZERO
    ensures sum == Product(n, x, Adjoint(View(q)))(d, c)
  {
    hide Times;
    ghost var f := Terms(x, Adjoint(View(q)), d, c);
    sum := ZERO;
    for k := 0 to n
      invariant sum == Sum(k, f)
    {
      if k >= d {
        sum := Plus(sum, Times(inverseR[d, k], Conj(q[c, k])));
      } else {
        TimesUnits(Adjoint(View(q))(k, c));
      }
    }
  }

  /** The whole pipeline: QR decomposition, triangular inverse, product. It succeeds exactly on the
      matrices with independent columns, and then computes the two-sided inverse. */
  method Invert(n: nat, a: array2<Complex>, inverseA: array2<Complex>, sqrt: real -> real) returns (ok: bool)
    requires IsSquare(n, a) && IsSquare(n, inverseA) && a != inverseA
    requires IsSqrt(sqrt)
    modifies inverseA
    ensures ok <==> Independent(n, View(a))
    ensures ok ==> Same(n, Product(n, View(inverseA), View(a)), IDENTITY)
    ensures ok ==> Same(n, Product(n, View(a), View(inverseA)), IDENTITY)
  {
    hide Product, Sum, Terms, Independent, Adjoint;
    var q := new Complex[n, n];
    var r := new Complex[n, n];
    ok := Decompose(n, a, q, r, sqrt);
    if ok {
      ghost var rm := View(r);
      assert forall k :: 0 <= k < n ==> rm(k, k) == r[k, k];
      assert UpperTriangular(n, rm);
      var inverseR := new Complex[n, n];
      InvertR(n, r, inverseR);
      MultiplyRinvQt(n, inverseR, q, inverseA, TriangularInverse(rm));
      InverseFromFactors(n, View(a), View(q), rm, View(inverseA));
      LeftInverseIndependent(n, View(inverseA), View(a));
    }
  }
}
