/** Complex numbers with exact real parts: the arithmetic of `hls::x_complex`, without rounding. */
module ComplexNumbers {

  datatype Complex = Complex(re: real, im: real)

  const ZERO := Complex(0.0, 0.0)
  const ONE := Complex(1.0, 0.0)

  function Plus(a: Complex, b: Complex): Complex {
    Complex(a.re + b.re, a.im + b.im)
  }

  function Minus(a: Complex, b: Complex): Complex {
    Complex(a.re - b.re, a.im - b.im)
  }

  function Times(a: Complex, b: Complex): Complex {
    Complex(a.re * b.re - a.im * b.im, a.re * b.im + a.im * b.re)
  }

  function Conj(a: Complex): Complex {
    Complex(a.re, -a.im)
  }

  function Scaled(a: Complex, s: real): Complex {
    Complex(a.re * s, a.im * s)
  }

  function RealProduct(x: real, y: real): real {
    x * y
  }

  function NormSq(a: Complex): real {
    RealProduct(a.re, a.re) + RealProduct(a.im, a.im)
  }

  lemma RealProductSigns(x: real, y: real)
    ensures x > 0.0 && y > 0.0 ==> RealProduct(x, y) > 0.0
    ensures RealProduct(-x, -y) == RealProduct(x, y)
    ensures RealProduct(0.0, y) == 0.0
  {}

  lemma SquarePositive(x: real)
    ensures RealProduct(x, x) >= 0.0
    ensures RealProduct(x, x) == 0.0 <==> x == 0.0
  {
    hide RealProduct;
    RealProductSigns(x, x);
    RealProductSigns(-x, -x);
  }

  lemma NormSqPositive(a: Complex)
    ensures NormSq(a) >= 0.0
    ensures NormSq(a) == 0.0 <==> a == ZERO
  {
    hide RealProduct;
    SquarePositive(a.re);
    SquarePositive(a.im);
  }

  lemma ConjTimesSelf(a: Complex)
    ensures Times(Conj(a), a) == Complex(NormSq(a), 0.0)
  {}

  /** Complex division, a * conj(b) / |b|^2. */
  function Over(a: Complex, b: Complex): Complex
    requires b != ZERO
  {
    NormSqPositive(b);
    Scaled(Times(a, Conj(b)), 1.0 / NormSq(b))
  }

  lemma TimesCommutes(a: Complex, b: Complex)
    ensures Times(a, b) == Times(b, a)
  {}

  lemma RealDistributes(x: real, y: real, z: real)
    ensures RealProduct(x + y, z) == RealProduct(x, z) + RealProduct(y, z)
    ensures RealProduct(x - y, z) == RealProduct(x, z) - RealProduct(y, z)
    ensures RealProduct(z, x + y) == RealProduct(z, x) + RealProduct(z, y)
    ensures RealProduct(z, x - y) == RealProduct(z, x) - RealProduct(z, y)
  {}

  lemma RealAssociates(x: real, y: real, z: real)
    ensures RealProduct(RealProduct(x, y), z) == RealProduct(x, RealProduct(y, z))
  {}

  lemma TimesParts(a: Complex, b: Complex)
    ensures Times(a, b).re == RealProduct(a.re, b.re) - RealProduct(a.im, b.im)
    ensures Times(a, b).im == RealProduct(a.re, b.im) + RealProduct(a.im, b.re)
  {}

  lemma TimesAssociates(a: Complex, b: Complex, c: Complex)
    ensures Times(Times(a, b), c) == Times(a, Times(b, c))
  {
    hide Times, RealProduct;
    TimesParts(a, b);
    TimesParts(b, c);
    TimesParts(Times(a, b), c);
    TimesParts(a, Times(b, c));
    FourProducts(a.re, a.im, b.re, b.im, c.re);
    FourProducts(a.re, a.im, b.re, b.im, c.im);
    FourFactors(a.re, b.re, b.im, c.re, c.im);
    FourFactors(a.im, b.re, b.im, c.re, c.im);
  }

  /** The products with z of the two parts of a product. */
  lemma FourProducts(p: real, q: real, r: real, s: real, z: real)
    ensures RealProduct(RealProduct(p, r) - RealProduct(q, s), z) == RealProduct(p, RealProduct(r, z)) - RealProduct(q, RealProduct(s, z))
    ensures RealProduct(RealProduct(p, s) + RealProduct(q, r), z) == RealProduct(p, RealProduct(s, z)) + RealProduct(q, RealProduct(r, z))
  {
    hide RealProduct;
    RealDistributes(RealProduct(p, r), RealProduct(q, s), z);
    RealDistributes(RealProduct(p, s), RealProduct(q, r), z);
    RealAssociates(p, r, z);
    RealAssociates(q, s, z);
    RealAssociates(p, s, z);
    RealAssociates(q, r, z);
  }

  lemma FourFactors(p: real, r: real, s: real, y: real, z: real)
    ensures RealProduct(p, RealProduct(r, y) - RealProduct(s, z)) == RealProduct(p, RealProduct(r, y)) - RealProduct(p, RealProduct(s, z))
    ensures RealProduct(p, RealProduct(r, z) + RealProduct(s, y)) == RealProduct(p, RealProduct(r, z)) + RealProduct(p, RealProduct(s, y))
  {
    hide RealProduct;
    RealDistributes(RealProduct(r, y), RealProduct(s, z), p);
    RealDistributes(RealProduct(r, z), RealProduct(s, y), p);
  }

  lemma MinusTwice(a: Complex, b: Complex, c: Complex)
    ensures Minus(Minus(a, b), c) == Minus(a, Plus(b, c))
    ensures Minus(a, ZERO) == a
  {}

  lemma TimesDistributes(a: Complex, b: Complex, c: Complex)
    ensures Times(a, Plus(b, c)) == Plus(Times(a, b), Times(a, c))
    ensures Times(Plus(b, c), a) == Plus(Times(b, a), Times(c, a))
    ensures Times(a, Minus(b, c)) == Minus(Times(a, b), Times(a, c))
    ensures Times(Minus(b, c), a) == Minus(Times(b, a), Times(c, a))
  {
    hide Times;
    TimesDistributesLeft(a, b, c);
    TimesCommutes(a, b);
    TimesCommutes(a, c);
    TimesCommutes(a, Plus(b, c));
    TimesCommutes(a, Minus(b, c));
  }

  lemma TimesDistributesLeft(a: Complex, b: Complex, c: Complex)
    ensures Times(a, Plus(b, c)) == Plus(Times(a, b), Times(a, c))
    ensures Times(a, Minus(b, c)) == Minus(Times(a, b), Times(a, c))
  {
    hide Times, RealProduct;
    TimesParts(a, b);
    TimesParts(a, c);
    TimesParts(a, Plus(b, c));
    TimesParts(a, Minus(b, c));
    RealDistributes(b.re, c.re, a.re);
    RealDistributes(b.im, c.im, a.im);
    RealDistributes(b.re, c.re, a.im);
    RealDistributes(b.im, c.im, a.re);
  }

  lemma TimesUnits(a: Complex)
    ensures Times(ZERO, a) == ZERO && Times(a, ZERO) == ZERO
    ensures Times(ONE, a) == a && Times(a, ONE) == a
  {}

  lemma ConjTimes(a: Complex, b: Complex)
    ensures Conj(Times(a, b)) == Times(Conj(a), Conj(b))
  {}

  lemma ScaledTimes(p: Complex, d: real, b: Complex)
    ensures Times(Scaled(p, d), b) == Scaled(Times(p, b), d)
  {}

  lemma ScaledByReciprocal(a: Complex, m: real)
    requires m != 0.0
    ensures Scaled(Times(a, Complex(m, 0.0)), 1.0 / m) == a
  {
    var d := 1.0 / m;
    assert d * m == 1.0;
    assert (a.re * m) * d == a.re * (d * m);
    assert (a.im * m) * d == a.im * (d * m);
  }

  lemma OverTimes(a: Complex, b: Complex)
    requires b != ZERO
    ensures Times(Over(a, b), b) == a
  {
    hide Times, Scaled, NormSq;
    NormSqPositive(b);
    var d := 1.0 / NormSq(b);
    ScaledTimes(Times(a, Conj(b)), d, b);
    TimesAssociates(a, Conj(b), b);
    ConjTimesSelf(b);
    ScaledByReciprocal(a, NormSq(b));
  }

  /** Multiplying by the reciprocal of b and then by b gives back the number. */
  lemma ReciprocalCancels(a: Complex, b: Complex)
    requires b != ZERO
    ensures Times(Times(a, Over(ONE, b)), b) == a
  {
    hide Over, Times;
    TimesAssociates(a, Over(ONE, b), b);
    OverTimes(ONE, b);
    TimesUnits(a);
  }
}
