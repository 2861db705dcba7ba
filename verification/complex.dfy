/** Exact complex arithmetic over `real`, the number system the transform and the
    band equalizer work in. The source stores a complex value as two adjacent
    slots [re, im] of a Float32Array; here it is a pair of unbounded reals. */
module Complex {

  datatype Complex = Complex(re: real, im: real)

  const Zero := Complex(0.0, 0.0)
  const One := Complex(1.0, 0.0)

  function Add(a: Complex, b: Complex): Complex {
    Complex(a.re + b.re, a.im + b.im)
  }

  function Sub(a: Complex, b: Complex): Complex {
    Complex(a.re - b.re, a.im - b.im)
  }

  function Neg(a: Complex): Complex {
    Complex(-a.re, -a.im)
  }

  /** Complex product, written the way the butterfly writes t = twiddle * odd. */
  function Mul(a: Complex, b: Complex): Complex {
    Complex(a.re * b.re - a.im * b.im, a.re * b.im + a.im * b.re)
  }

  /** Multiplication by a real factor, as the equalizer applies a gain to both slots. */
  function Scale(a: Complex, f: real): Complex {
    Complex(a.re * f, a.im * f)
  }

  function Conj(a: Complex): Complex {
    Complex(a.re, -a.im)
  }

  function OfReal(x: real): Complex {
    Complex(x, 0.0)
  }

  // Ring laws used by the transform proofs.

  lemma MulComm(a: Complex, b: Complex)
    ensures Mul(a, b) == Mul(b, a)
  {
  }

  lemma MulAssoc(a: Complex, b: Complex, c: Complex)
    ensures Mul(Mul(a, b), c) == Mul(a, Mul(b, c))
  {
    assert Mul(Mul(a, b), c).re == Mul(a, Mul(b, c)).re by {
      assert (a.re * b.re - a.im * b.im) * c.re - (a.re * b.im + a.im * b.re) * c.im
          == a.re * (b.re * c.re - b.im * c.im) - a.im * (b.re * c.im + b.im * c.re);
    }
    assert Mul(Mul(a, b), c).im == Mul(a, Mul(b, c)).im by {
      assert (a.re * b.re - a.im * b.im) * c.im + (a.re * b.im + a.im * b.re) * c.re
          == a.re * (b.re * c.im + b.im * c.re) + a.im * (b.re * c.re - b.im * c.im);
    }
  }

  lemma MulAddDistr(a: Complex, b: Complex, c: Complex)
    ensures Mul(a, Add(b, c)) == Add(Mul(a, b), Mul(a, c))
  {
    assert a.re * (b.re + c.re) == a.re * b.re + a.re * c.re;
    assert a.im * (b.im + c.im) == a.im * b.im + a.im * c.im;
    assert a.re * (b.im + c.im) == a.re * b.im + a.re * c.im;
    assert a.im * (b.re + c.re) == a.im * b.re + a.im * c.re;
  }

  lemma MulNeg(a: Complex, b: Complex)
    ensures Mul(a, Neg(b)) == Neg(Mul(a, b))
  {
  }

  lemma MulNegLeft(a: Complex, b: Complex)
    ensures Mul(Neg(a), b) == Neg(Mul(a, b))
  {
  }

  lemma MulOne(a: Complex)
    ensures Mul(a, One) == a && Mul(One, a) == a
  {
  }

  lemma MulZero(a: Complex)
    ensures Mul(a, Zero) == Zero && Mul(Zero, a) == Zero
  {
  }

  lemma ConjMul(a: Complex, b: Complex)
    ensures Conj(Mul(a, b)) == Mul(Conj(a), Conj(b))
  {
  }

  /** A product of complex numbers is zero only if a factor is: the field has no zero divisors. */
  lemma NoZeroDivisors(a: Complex, b: Complex)
    requires Mul(a, b) == Zero
    requires a != Zero
    ensures b == Zero
  {
    SquareNonNeg(a.re);
    SquareNonNeg(a.im);
    if a.re != 0.0 {
      SquarePos(a.re);
    } else {
      assert a == Complex(0.0, a.im);
      SquarePos(a.im);
    }
    assert a.re * a.re + a.im * a.im > 0.0;
    assert a.re * b.re - a.im * b.im == 0.0;
    assert a.re * b.im + a.im * b.re == 0.0;
    assert (a.re * a.re + a.im * a.im) * b.re == a.re * (a.re * b.re - a.im * b.im) + a.im * (a.re * b.im + a.im * b.re);
    assert (a.re * a.re + a.im * a.im) * b.im == a.re * (a.re * b.im + a.im * b.re) - a.im * (a.re * b.re - a.im * b.im);
  }

  lemma SquareNonNeg(x: real)
    ensures x * x >= 0.0
  {
    if x < 0.0 {
      assert x * x == (-x) * (-x);
    }
  }

  lemma SquarePos(x: real)
    requires x != 0.0
    ensures x * x > 0.0
  {
    if x < 0.0 {
      assert x * x == (-x) * (-x);
    }
  }
}
