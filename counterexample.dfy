/**
 * A frequency point at which the root selection of extract_pad (pads.py:115) picks a
 * root with a negative imaginary part, against the documented intent Im(Z1) > 0.
 *
 * At Z11 = -1 + i, Z21 = 3 the closure denominator is 3 + 6 i and k = 3/5 - 6/5 i
 * (ExampleClosure with PadExtractor.ClosureUnique), b = -8/5 + 26/5 i, c = -9 - 2 i,
 * the discriminant is (18/5 - 6/5 i)^2 (its principal square root), both roots
 * 13/5 - 16/5 i and -1 - 2 i lie in the lower half plane, and the extraction gives
 * Z1 = -1 - 2 i, Z2 = 3 + 3 i and Z3 = -3.
 *
 * Each step of the arithmetic on constants is a lemma of its own with one conclusion;
 * the lemmas about the extraction only put the steps together.
 */
module PadCounterexample {
  import opened ComplexField
  import opened PadExtractor

  /** The example point and the values the extraction computes for it. */
  const Z11: Complex := Complex(-1.0, 1.0)
  const Z21: Complex := Complex(3.0, 0.0)
  const K: Complex := Complex(0.6, -1.2)
  const Root: Complex := Complex(3.6, -1.2)
  const Extracted: PadPoint := PadPoint(Complex(-1.0, -2.0), Complex(3.0, 3.0), Complex(-3.0, 0.0))

  /**
   * extract_pad at the example point, with np.sqrt returning 18/5 - 6/5 i: Z1 = -1 - 2 i,
   * whose imaginary part is negative, Z2 = 3 + 3 i, whose imaginary part is positive,
   * and Z3 = -3.
   */
  lemma ExampleExtractPoint()
    ensures ClosureDenominator(Z11, Z21) != Zero && ExtractPoint(Z11, Z21, Root) == Extracted
  {
    ExampleK();
    ExampleRest();
    ExtractPointWithClosure(Z11, Z21, K, Root, Extracted);
  }

  /** K is the closure constant of the example point. */
  lemma ExampleK()
    ensures ClosureDenominator(Z11, Z21) != Zero && Mul(K, ClosureDenominator(Z11, Z21)) == Sq(Z21)
  {
    ExampleDenominator();
    ExampleClosure();
  }

  /** The steps after k at the example point. */
  lemma ExampleRest()
    ensures ExtractWithClosure(Z11, Z21, K, Root) == Extracted
  {
    ExamplePoint();
  }

  /** 3/5 - 6/5 i times the closure denominator is Z21^2, so it is k (ClosureUnique). */
  lemma ExampleClosure()
    ensures Mul(Complex(0.6, -1.2), ClosureDenominator(Complex(-1.0, 1.0), Complex(3.0, 0.0))) == Sq(Complex(3.0, 0.0))
  {
    ExampleDenominator();
    KTimesDenominator();
    Z21Squared();
  }

  /** The closure denominator 2 Z21 Z11 + Z21^2 at the example point is 3 + 6 i. */
  lemma ExampleDenominator()
    ensures ClosureDenominator(Complex(-1.0, 1.0), Complex(3.0, 0.0)) == Complex(3.0, 6.0)
  {
    DoubledZ21();
    DoubledZ21TimesZ11();
    Z21Squared();
    DenominatorSum();
  }

  /** b = -2 (Z11 + Z21 k) = -8/5 + 26/5 i at the example point. */
  lemma ExampleCoeffB()
    ensures CoeffB(Complex(-1.0, 1.0), Complex(3.0, 0.0), Complex(0.6, -1.2)) == Complex(-1.6, 5.2)
  {
    Z21TimesK();
    CoeffBSum();
  }

  /** c = Z11 Z11 - Z21 Z21 = -9 - 2 i at the example point. */
  lemma ExampleCoeffC()
    ensures CoeffC(Complex(-1.0, 1.0), Complex(3.0, 0.0)) == Complex(-9.0, -2.0)
  {
    Z11Squared();
    Z21Squared();
    CoeffCDifference();
  }

  /** 18/5 - 6/5 i is a square root of the discriminant b b - 4 c at the example point. */
  lemma ExampleDiscriminant()
    ensures Sq(Complex(3.6, -1.2)) == Discriminant(Complex(-1.0, 1.0), Complex(3.0, 0.0), Complex(0.6, -1.2))
  {
    ExampleCoeffB();
    ExampleCoeffC();
    BSquared();
    DiscriminantDifference();
    RootSquared();
  }

  /** Both roots of the example's quadratic have a negative imaginary part. */
  lemma BothRootsCapacitive()
    ensures var b := CoeffB(Complex(-1.0, 1.0), Complex(3.0, 0.0), Complex(0.6, -1.2));
            PlusRoot(b, Complex(3.6, -1.2)).im < 0.0 && MinusRoot(b, Complex(3.6, -1.2)).im < 0.0
  {
    ExampleCoeffB();
    ExamplePlusRoot();
    ExampleMinusRoot();
  }

  /** The extraction at the example point: Z1 = -1 - 2 i, Z2 = 3 + 3 i, Z3 = -3. */
  lemma ExamplePoint()
    ensures ExtractWithClosure(Complex(-1.0, 1.0), Complex(3.0, 0.0), Complex(0.6, -1.2), Complex(3.6, -1.2))
            == PadPoint(Complex(-1.0, -2.0), Complex(3.0, 3.0), Complex(-3.0, 0.0))
  {
    ExampleCoeffB();
    ExamplePlusRoot();
    ExampleMinusRoot();
    ExampleShunt();
    KTimesZ1();
  }

  lemma DoubledZ21()
    ensures Scale(2.0, Complex(3.0, 0.0)) == Complex(6.0, 0.0)
  {
  }

  lemma DoubledZ21TimesZ11()
    ensures Mul(Complex(6.0, 0.0), Complex(-1.0, 1.0)) == Complex(-6.0, 6.0)
  {
  }

  lemma Z21Squared()
    ensures Sq(Complex(3.0, 0.0)) == Complex(9.0, 0.0)
  {
  }

  lemma DenominatorSum()
    ensures Add(Complex(-6.0, 6.0), Complex(9.0, 0.0)) == Complex(3.0, 6.0)
  {
  }

  lemma KTimesDenominator()
    ensures Mul(Complex(0.6, -1.2), Complex(3.0, 6.0)) == Complex(9.0, 0.0)
  {
  }

  lemma Z21TimesK()
    ensures Mul(Complex(3.0, 0.0), Complex(0.6, -1.2)) == Complex(1.8, -3.6)
  {
  }

  lemma CoeffBSum()
    ensures Scale(-2.0, Add(Complex(-1.0, 1.0), Complex(1.8, -3.6))) == Complex(-1.6, 5.2)
  {
  }

  lemma Z11Squared()
    ensures Mul(Complex(-1.0, 1.0), Complex(-1.0, 1.0)) == Complex(0.0, -2.0)
  {
  }

  lemma CoeffCDifference()
    ensures Sub(Complex(0.0, -2.0), Complex(9.0, 0.0)) == Complex(-9.0, -2.0)
  {
  }

  lemma BSquared()
    ensures Mul(Complex(-1.6, 5.2), Complex(-1.6, 5.2)) == Complex(-24.48, -16.64)
  {
  }

  lemma DiscriminantDifference()
    ensures Sub(Complex(-24.48, -16.64), Scale(4.0, Complex(-9.0, -2.0))) == Complex(11.52, -8.64)
  {
  }

  lemma RootSquared()
    ensures Sq(Complex(3.6, -1.2)) == Complex(11.52, -8.64)
  {
  }

  lemma ExamplePlusRoot()
    ensures PlusRoot(Complex(-1.6, 5.2), Complex(3.6, -1.2)) == Complex(2.6, -3.2)
  {
  }

  lemma ExampleMinusRoot()
    ensures MinusRoot(Complex(-1.6, 5.2), Complex(3.6, -1.2)) == Complex(-1.0, -2.0)
  {
  }

  lemma ExampleShunt()
    ensures Sub(Add(Complex(-1.0, 1.0), Complex(3.0, 0.0)), Complex(-1.0, -2.0)) == Complex(3.0, 3.0)
  {
  }

  lemma KTimesZ1()
    ensures Mul(Complex(0.6, -1.2), Complex(-1.0, -2.0)) == Complex(-3.0, 0.0)
  {
  }
}
