/** Square complex matrices as index functions, finite sums over them, and the algebra the
    matrix inversion rests on. */
module Matrices {
  import opened ComplexNumbers

  type Vector = int -> Complex
  type Matrix = (int, int) -> Complex

  /** f(0) + ... + f(n-1) */
  ghost function Sum(n: nat, f: Vector): Complex {
    if n == 0 then ZERO else Plus(Sum(n - 1, f), f(n - 1))
  }

  lemma {:induction false} SumCongruent(n: nat, f: Vector, g: Vector)
    requires forall k :: 0 <= k < n ==> f(k) == g(k)
    ensures Sum(n, f) == Sum(n, g)
  {
    if n > 0 {
      SumCongruent(n - 1, f, g);
    }
  }

  lemma {:induction false} SumOfZeros(n: nat, f: Vector)
    requires forall k :: 0 <= k < n ==> f(k) == ZERO
    ensures Sum(n, f) == ZERO
  {
    if n > 0 {
      SumOfZeros(n - 1, f);
    }
  }

  /** A sum with one non-zero term. */
  lemma {:induction false} SumOfOne(n: nat, f: Vector, k: nat)
    requires k < n
    requires forall j :: 0 <= j < n && j != k ==> f(j) == ZERO
    ensures Sum(n, f) == f(k)
  {
    if k == n - 1 {
      SumOfZeros(n - 1, f);
    } else {
      SumOfOne(n - 1, f, k);
    }
  }

  /** Terms beyond m are zero. */
  lemma {:induction false} SumTruncated(n: nat, m: nat, f: Vector)
    requires m <= n
    requires forall k :: m <= k < n ==> f(k) == ZERO
    ensures Sum(n, f) == Sum(m, f)
  {
    if m < n {
      SumTruncated(n - 1, m, f);
    }
  }

  lemma {:induction false} SumOfPlus(n: nat, f: Vector, g: Vector)
    ensures Sum(n, k => Plus(f(k), g(k))) == Plus(Sum(n, f), Sum(n, g))
  {
    if n > 0 {
      SumOfPlus(n - 1, f, g);
    }
  }

  lemma {:induction false} SumOfMinus(n: nat, f: Vector, g: Vector)
    ensures Sum(n, k => Minus(f(k), g(k))) == Minus(Sum(n, f), Sum(n, g))
  {
    if n > 0 {
      SumOfMinus(n - 1, f, g);
    }
  }

  lemma {:induction false} SumTimesLeft(n: nat, c: Complex, f: Vector)
    ensures Sum(n, k => Times(c, f(k))) == Times(c, Sum(n, f))
  {
    if n == 0 {
      TimesUnits(c);
    } else {
      SumTimesLeft(n - 1, c, f);
      TimesDistributes(c, Sum(n - 1, f), f(n - 1));
    }
  }

  lemma {:induction false} SumTimesRight(n: nat, f: Vector, c: Complex)
    ensures Sum(n, k => Times(f(k), c)) == Times(Sum(n, f), c)
  {
    if n == 0 {
      TimesUnits(c);
    } else {
      SumTimesRight(n - 1, f, c);
      TimesDistributes(c, Sum(n - 1, f), f(n - 1));
    }
  }

  lemma {:induction false} SumOfConj(n: nat, f: Vector)
    ensures Sum(n, k => Conj(f(k))) == Conj(Sum(n, f))
  {
    if n > 0 {
      SumOfConj(n - 1, f);
    }
  }

  ghost function RowSums(m: nat, f: Matrix): Vector {
    i => Sum(m, j => f(i, j))
  }

  ghost function ColumnSums(n: nat, f: Matrix): Vector {
    j => Sum(n, i => f(i, j))
  }

  lemma {:induction false} SumSwap(n: nat, m: nat, f: Matrix)
    ensures Sum(n, RowSums(m, f)) == Sum(m, ColumnSums(n, f))
  {
    if n == 0 {
      SumOfZeros(m, ColumnSums(0, f));
    } else {
      SumSwap(n - 1, m, f);
      var last := j => f(n - 1, j);
      SumOfPlus(m, ColumnSums(n - 1, f), last);
      SumCongruent(m, ColumnSums(n, f), k => Plus(ColumnSums(n - 1, f)(k), last(k)));
      SumCongruent(m, j => f(n - 1, j), last);
    }
  }

  ghost function Terms(a: Matrix, b: Matrix, i: int, j: int): Vector {
    k => Times(a(i, k), b(k, j))
  }

  ghost function Product(n: nat, a: Matrix, b: Matrix): Matrix {
    (i, j) => Sum(n, Terms(a, b, i, j))
  }

  ghost const IDENTITY: Matrix := (i, j) => if i == j then ONE else ZERO

  ghost function Adjoint(a: Matrix): Matrix {
    (i, j) => Conj(a(j, i))
  }

  ghost predicate Same(n: nat, a: Matrix, b: Matrix) {
    forall i, j :: 0 <= i < n && 0 <= j < n ==> a(i, j) == b(i, j)
  }

  lemma ProductCongruent(n: nat, a: Matrix, a': Matrix, b: Matrix, b': Matrix)
    requires Same(n, a, a') && Same(n, b, b')
    ensures Same(n, Product(n, a, b), Product(n, a', b'))
  {
    forall i, j | 0 <= i < n && 0 <= j < n
      ensures Product(n, a, b)(i, j) == Product(n, a', b')(i, j)
    {
      SumCongruent(n, Terms(a, b, i, j), Terms(a', b', i, j));
    }
  }

  lemma ProductAssociatesAt(n: nat, a: Matrix, b: Matrix, c: Matrix, i: int, j: int)
    ensures Product(n, Product(n, a, b), c)(i, j) == Product(n, a, Product(n, b, c))(i, j)
  {
    hide Times, Plus;
    var f: Matrix := (l, k) => Times(a(i, k), Times(b(k, l), c(l, j)));
    forall l | 0 <= l < n
      ensures Terms(Product(n, a, b), c, i, j)(l) == RowSums(n, f)(l)
    {
      SumTimesRight(n, Terms(a, b, i, l), c(l, j));
      forall k ensures Times(Terms(a, b, i, l)(k), c(l, j)) == f(l, k) {
        TimesAssociates(a(i, k), b(k, l), c(l, j));
      }
      SumCongruent(n, k => Times(Terms(a, b, i, l)(k), c(l, j)), k => f(l, k));
    }
    forall k | 0 <= k < n
      ensures Terms(a, Product(n, b, c), i, j)(k) == ColumnSums(n, f)(k)
    {
      SumTimesLeft(n, a(i, k), Terms(b, c, k, j));
      SumCongruent(n, l => Times(a(i, k), Terms(b, c, k, j)(l)), l => f(l, k));
    }
    SumCongruent(n, Terms(Product(n, a, b), c, i, j), RowSums(n, f));
    SumCongruent(n, Terms(a, Product(n, b, c), i, j), ColumnSums(n, f));
    SumSwap(n, n, f);
  }

  lemma ProductAssociates(n: nat, a: Matrix, b: Matrix, c: Matrix)
    ensures Same(n, Product(n, Product(n, a, b), c), Product(n, a, Product(n, b, c)))
  {
    forall i, j { ProductAssociatesAt(n, a, b, c, i, j); }
  }

  lemma ProductIdentity(n: nat, a: Matrix)
    ensures Same(n, Product(n, IDENTITY, a), a)
    ensures Same(n, Product(n, a, IDENTITY), a)
  {
    forall i, j | 0 <= i < n && 0 <= j < n
      ensures Product(n, IDENTITY, a)(i, j) == a(i, j) == Product(n, a, IDENTITY)(i, j)
    {
      forall k ensures Times(IDENTITY(i, k), a(k, j)) == if k == i then a(i, j) else ZERO {
        TimesUnits(a(k, j));
      }
      forall k ensures Times(a(i, k), IDENTITY(k, j)) == if k == j then a(i, j) else ZERO {
        TimesUnits(a(i, k));
      }
      SumOfOne(n, Terms(IDENTITY, a, i, j), i);
      SumOfOne(n, Terms(a, IDENTITY, i, j), j);
    }
  }
}
