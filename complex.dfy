/**
 * Exact complex numbers: a pair of reals standing in for numpy's complex128.
 * There is no rounding, no infinity and no NaN; division demands a non-zero divisor.
 */
module ComplexField {
  datatype Complex = Complex(re: real, im: real)

  const Zero: Complex := Complex(0.0, 0.0)
  const One: Complex := Complex(1.0, 0.0)

  function Add(a: Complex, b: Complex): Complex { Complex(a.re + b.re, a.im + b.im) }

  function Neg(a: Complex): Complex { Complex(-a.re, -a.im) }

  function Sub(a: Complex, b: Complex): Complex { Complex(a.re - b.re, a.im - b.im) }

  /** Multiplication by a real scalar (numpy's int * complex). */
  function Scale(x: real, a: Complex): Complex { Complex(x * a.re, x * a.im) }

  function Half(a: Complex): Complex { Scale(0.5, a) }

  function Mul(a: Complex, b: Complex): Complex {
    Complex(a.re * b.re - a.im * b.im, a.re * b.im + a.im * b.re)
  }

  function Sq(a: Complex): Complex { Mul(a, a) }

  /** The squared modulus |a|^2. */
  function Norm2(a: Complex): real {
    a.re * a.re + a.im * a.im
  }

  /**
   * A non-zero number has a non-zero squared modulus. Dividing |a|^2 by the square
   * of a non-zero component leaves 1 + t^2, which the solver sees is non-zero.
   */
  lemma Norm2NonZero(a: Complex)
    requires a != Zero
    ensures Norm2(a) != 0.0
  {
    assert a.re != 0.0 || a.im != 0.0 by { assert a == Complex(a.re, a.im); }
    if a.re != 0.0 {
      assert Norm2(a) * (1.0 / a.re) * (1.0 / a.re) == 1.0 + (a.im / a.re) * (a.im / a.re);
    } else {
      assert Norm2(a) * (1.0 / a.im) * (1.0 / a.im) == 1.0 + (a.re / a.im) * (a.re / a.im);
    }
  }

  /** The multiplicative inverse of a non-zero complex number. */
  function Inv(a: Complex): (r: Complex)
    requires a != Zero
    ensures Mul(r, a) == One
  {
    Norm2NonZero(a);
    var n := Norm2(a);
    var r := Complex(a.re / n, -(a.im / n));
    assert r.re * a.re - r.im * a.im == n / n == 1.0;
    assert r.re * a.im + r.im * a.re == 0.0;
    r
  }

  /** Complex division: the unique r with r * b == a. */
  function Div(a: Complex, b: Complex): (r: Complex)
    requires b != Zero
    ensures Mul(r, b) == a
  {
    var r := Mul(a, Inv(b));
    MulAssoc(a, Inv(b), b);
    r
  }

  lemma MulAssoc(a: Complex, b: Complex, c: Complex)
    ensures Mul(Mul(a, b), c) == Mul(a, Mul(b, c))
  {
  }

  lemma MulComm(a: Complex, b: Complex)
    ensures Mul(a, b) == Mul(b, a)
  {
  }

  lemma MulAddDistrib(a: Complex, b: Complex, d: Complex)
    ensures Mul(Add(a, b), d) == Add(Mul(a, d), Mul(b, d))
  {
  }

  lemma MulScale(x: real, a: Complex, b: Complex)
    ensures Mul(Scale(x, a), b) == Scale(x, Mul(a, b))
  {
  }

  /** The complex numbers have no zero divisors. */
  lemma NoZeroDivisors(a: Complex, b: Complex)
    ensures Mul(a, b) == Zero <==> a == Zero || b == Zero
  {
    if Mul(a, b) == Zero && a != Zero {
      calc {
        b;
        Mul(Mul(Inv(a), a), b);
        { MulAssoc(Inv(a), a, b); }
        Mul(Inv(a), Mul(a, b));
        Zero;
      }
    }
  }

  /** Dividing by a negated denominator a negated numerator changes nothing. */
  lemma DivNegNeg(a: Complex, b: Complex)
    requires b != Zero
    ensures Neg(b) != Zero
    ensures Div(Neg(a), Neg(b)) == Div(a, b)
  {
  }

  /** A non-zero factor can be cancelled. */
  lemma MulCancel(a: Complex, b: Complex, d: Complex)
    requires d != Zero && Mul(a, d) == Mul(b, d)
    ensures a == b
  {
    assert Mul(Sub(a, b), d) == Zero;
    NoZeroDivisors(Sub(a, b), d);
  }
}
