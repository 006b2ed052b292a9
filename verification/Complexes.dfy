/** Complex numbers over the reals: the ring of the exact transform, and bounds on
    magnitudes without square roots. */
module Complexes {
  import opened Rings

  datatype Complex = Complex(re: real, im: real)

  function Add(a: Complex, b: Complex): Complex { Complex(a.re + b.re, a.im + b.im) }

  function Neg(a: Complex): Complex { Complex(-a.re, -a.im) }

  function Minus(a: Complex, b: Complex): Complex { Complex(a.re - b.re, a.im - b.im) }

  function Mul(a: Complex, b: Complex): Complex {
    Complex(a.re * b.re - a.im * b.im, a.re * b.im + a.im * b.re)
  }

  function Scale(c: real, a: Complex): Complex { Complex(c * a.re, c * a.im) }

  function Conj(a: Complex): Complex { Complex(a.re, -a.im) }

  function ComplexRing(): Ring<Complex> {
    Ring(Complex(0.0, 0.0), Complex(1.0, 0.0), (a, b) => Add(a, b), (a, b) => Mul(a, b), a => Neg(a))
  }

  lemma ComplexIsRing()
    ensures IsCommutativeRing(ComplexRing())
  {
    var r := ComplexRing();
    forall a, b, c
      ensures r.AddLaws(a, b, c) && r.MulLaws(a, b, c)
    {
      MulAssociative(a, b, c);
      MulDistributes(a, b, c);
    }
  }

  lemma MulAssociative(a: Complex, b: Complex, c: Complex)
    ensures Mul(Mul(a, b), c) == Mul(a, Mul(b, c))
  {
    RealPartAssociative(a.re, a.im, b.re, b.im, c.re, c.im);
    ImaginaryPartAssociative(a.re, a.im, b.re, b.im, c.re, c.im);
  }

  lemma RealPartAssociative(a: real, a': real, b: real, b': real, c: real, c': real)
    ensures (a * b - a' * b') * c - (a * b' + a' * b) * c' == a * (b * c - b' * c') - a' * (b * c' + b' * c)
  {
    assert (a * b - a' * b') * c == a * b * c - a' * b' * c;
    assert (a * b' + a' * b) * c' == a * b' * c' + a' * b * c';
    assert a * (b * c - b' * c') == a * b * c - a * b' * c';
    assert a' * (b * c' + b' * c) == a' * b * c' + a' * b' * c;
  }

  lemma ImaginaryPartAssociative(a: real, a': real, b: real, b': real, c: real, c': real)
    ensures (a * b - a' * b') * c' + (a * b' + a' * b) * c == a * (b * c' + b' * c) + a' * (b * c - b' * c')
  {
    assert (a * b - a' * b') * c' == a * b * c' - a' * b' * c';
    assert (a * b' + a' * b) * c == a * b' * c + a' * b * c;
    assert a * (b * c' + b' * c) == a * b * c' + a * b' * c;
    assert a' * (b * c - b' * c') == a' * b * c - a' * b' * c';
  }

  lemma MulDistributes(a: Complex, b: Complex, c: Complex)
    ensures Mul(a, Add(b, c)) == Add(Mul(a, b), Mul(a, c))
  {
  }

  // ------------------------------------------------------------ magnitudes

  function Norm(a: Complex): real { a.re * a.re + a.im * a.im }

  /** The magnitude of a is at most r. */
  ghost predicate MagLe(a: Complex, r: real) {
    r >= 0.0 && Norm(a) <= r * r
  }

  lemma SquareNonNegative(x: real)
    ensures x * x >= 0.0
  {
  }

  lemma ProductMonotone(a: real, b: real, c: real, d: real)
    requires 0.0 <= a <= c && 0.0 <= b <= d
    ensures 0.0 <= a * b <= c * d
  {
    assert (c - a) * d >= 0.0;
    assert a * (d - b) >= 0.0;
    assert a * b >= 0.0;
  }

  lemma FromSquares(x: real, y: real)
    requires y >= 0.0 && x * x <= y * y
    ensures -y <= x <= y
  {
    if x > y {
      ProductPositive(x - y, x + y);
    } else if x < -y {
      ProductPositive(-x - y, y - x);
    }
  }

  lemma ProductPositive(x: real, y: real)
    requires x > 0.0 && y > 0.0
    ensures x * y > 0.0
  {
  }

  lemma SquareOfSum(x: real, y: real)
    ensures (x + y) * (x + y) == x * x + y * y + 2.0 * (x * y)
  {
  }

  lemma NormOfProduct(a: Complex, b: Complex)
    ensures Norm(Mul(a, b)) == Norm(a) * Norm(b)
  {
    var p, q, r, s := a.re * b.re, a.im * b.im, a.re * b.im, a.im * b.re;
    assert (p - q) * (p - q) + (r + s) * (r + s) == p * p + q * q + r * r + s * s - 2.0 * (p * q) + 2.0 * (r * s);
    assert p * q == r * s;
    assert p * p == (a.re * a.re) * (b.re * b.re);
    assert q * q == (a.im * a.im) * (b.im * b.im);
    assert r * r == (a.re * a.re) * (b.im * b.im);
    assert s * s == (a.im * a.im) * (b.re * b.re);
  }

  lemma MagOfProduct(a: Complex, r: real, b: Complex, s: real)
    requires MagLe(a, r) && MagLe(b, s)
    ensures MagLe(Mul(a, b), r * s)
  {
    NormOfProduct(a, b);
    SquareNonNegative(a.re);
    SquareNonNegative(a.im);
    SquareNonNegative(b.re);
    SquareNonNegative(b.im);
    ProductMonotone(Norm(a), Norm(b), r * r, s * s);
    ProductMonotone(0.0, 0.0, r, s);
    assert (r * r) * (s * s) == (r * s) * (r * s);
  }

  /** The triangle inequality. */
  lemma MagOfSum(a: Complex, r: real, b: Complex, s: real)
    requires MagLe(a, r) && MagLe(b, s)
    ensures MagLe(Add(a, b), r + s)
  {
    hide Mul, Conj;
    DotBounded(a, r, b, s);
    TriangleParts(a.re, a.im, b.re, b.im, r, s);
  }

  /** The Cauchy-Schwarz inequality. */
  lemma DotBounded(a: Complex, r: real, b: Complex, s: real)
    requires MagLe(a, r) && MagLe(b, s)
    ensures a.re * b.re + a.im * b.im <= r * s
  {
    var c := Conj(a);
    assert MagLe(c, r) by { assert (-a.im) * (-a.im) == a.im * a.im; }
    MagOfProduct(c, r, b, s);
    PartsBounded(Mul(c, b), r * s);
    assert c.im * b.im == -(a.im * b.im);
  }

  lemma TriangleParts(a: real, b: real, c: real, d: real, r: real, s: real)
    requires a * a + b * b <= r * r && c * c + d * d <= s * s && a * c + b * d <= r * s
    ensures (a + c) * (a + c) + (b + d) * (b + d) <= (r + s) * (r + s)
  {
    SquareOfSum(a, c);
    SquareOfSum(b, d);
    SquareOfSum(r, s);
  }

  lemma PartsBounded(a: Complex, r: real)
    requires MagLe(a, r)
    ensures -r <= a.re <= r && -r <= a.im <= r
  {
    SquareNonNegative(a.re);
    SquareNonNegative(a.im);
    FromSquares(a.re, r);
    FromSquares(a.im, r);
  }

  lemma MagWeaken(a: Complex, r: real, s: real)
    requires MagLe(a, r) && r <= s
    ensures MagLe(a, s)
  {
    ProductMonotone(r, r, s, s);
  }

  lemma MagOfNeg(a: Complex, r: real)
    requires MagLe(a, r)
    ensures MagLe(Neg(a), r)
  {
    assert (-a.re) * (-a.re) == a.re * a.re;
    assert (-a.im) * (-a.im) == a.im * a.im;
  }

  lemma MagOfScaled(c: real, a: Complex, r: real)
    requires MagLe(a, r) && c >= 0.0
    ensures MagLe(Scale(c, a), c * r)
  {
    var cc := c * c;
    SquareNonNegative(c);
    ProductMonotone(0.0, 0.0, c, r);
    assert (c * a.re) * (c * a.re) == cc * (a.re * a.re);
    assert (c * a.im) * (c * a.im) == cc * (a.im * a.im);
    assert (c * r) * (c * r) == cc * (r * r);
    assert cc * (r * r - Norm(a)) >= 0.0;
  }

  /** Both parts small means the magnitude is small. */
  lemma MagFromParts(a: Complex, x: real, y: real, r: real)
    requires 0.0 <= x && 0.0 <= y && r >= 0.0 && -x <= a.re <= x && -y <= a.im <= y
    requires x * x + y * y <= r * r
    ensures MagLe(a, r)
  {
    SquareOfBounded(a.re, x);
    SquareOfBounded(a.im, y);
  }

  lemma SquareOfBounded(a: real, x: real)
    requires -x <= a <= x
    ensures a * a <= x * x
  {
    assert (x - a) * (x + a) >= 0.0;
    assert (x - a) * (x + a) == x * x - a * a;
  }
}
