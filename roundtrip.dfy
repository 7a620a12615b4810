/**
 * What extract_pad (pads.py:94-124) returns for the impedance matrix that tee_network
 * (pads.py:127-152) builds. Z11 = Z1 + Z2 and Z21 = Z2 there, and the quadratic that
 * extract_pad solves takes the value -2 Z1 Z2 k at the true series arm Z1. So the
 * true Z1 is a root only when Z1 = 0, and the extraction does not give back the T
 * network it was built from.
 */
module PadRoundTrip {
  import opened ComplexField
  import opened Networks
  import opened PadExtractor
  import opened TeeSynthesizer

  /** The quadratic of extract_pad at the tee's own series arm: -2 Z1 Z2 k, for any k. */
  lemma TeeQuadratic(z1: Complex, z2: Complex, k: Complex)
    ensures Quadratic(CoeffB(Add(z1, z2), z2, k), CoeffC(Add(z1, z2), z2), z1)
            == Scale(-2.0, Mul(Mul(z1, z2), k))
  {
    var w := Mul(z2, k);
    TeeCoeffC(z1, z2);
    MulScale(-2.0, Add(Add(z1, z2), w), z1);
    MulAddDistrib(Add(z1, z2), w, z1);
    MulAddDistrib(z1, z2, z1);
    MulComm(z2, z1);
    MulAssoc(z1, z2, k);
    MulComm(w, z1);
    MulAssoc(z2, k, z1);
    MulComm(k, z1);
    MulAssoc(z2, z1, k);
  }

  /** c = (Z1 + Z2)^2 - Z2^2 = Z1^2 + 2 Z1 Z2. */
  lemma TeeCoeffC(z1: Complex, z2: Complex)
    ensures CoeffC(Add(z1, z2), z2) == Add(Mul(z1, z1), Scale(2.0, Mul(z1, z2)))
  {
  }


  /** A tee whose closure denominator is not zero has a non-zero shunt arm. */
  lemma TeeShuntNonZero(z1: Complex, z2: Complex)
    requires ClosureDenominator(Add(z1, z2), z2) != Zero
    ensures z2 != Zero
  {
  }

  /**
   * For the matrix of a T network whose closure denominator is not zero, the series
   * arm Z1 solves extract_pad's quadratic exactly when Z1 = 0.
   */
  lemma TeeSeriesArmIsRootIffZero(z1: Complex, z2: Complex, z3: Complex)
    requires var m := TeeMatrix(z1, z2, z3); ClosureDenominator(m[0][0], m[1][0]) != Zero
    ensures var m := TeeMatrix(z1, z2, z3);
            var k := Closure(m[0][0], m[1][0]);
            Quadratic(CoeffB(m[0][0], m[1][0], k), CoeffC(m[0][0], m[1][0]), z1) == Zero <==> z1 == Zero
  {
    var k := Closure(Add(z1, z2), z2);
    TeeQuadratic(z1, z2, k);
    TeeShuntNonZero(z1, z2);
    ClosureNonZero(Add(z1, z2), z2);
    NoZeroDivisors(Mul(z1, z2), k);
    NoZeroDivisors(z1, z2);
  }

  /**
   * Extracting a pad from the matrix of a T network with a non-zero series arm Z1 gives
   * a different series arm whenever the square root supplied is a square root of the
   * discriminant; the shunt arm then comes out as Z1 + 2 Z2 minus the extracted arm.
   */
  lemma ExtractOfTeeDiffers(z1: Complex, z2: Complex, z3: Complex, s: Complex)
    requires var m := TeeMatrix(z1, z2, z3); ClosureDenominator(m[0][0], m[1][0]) != Zero
    requires var m := TeeMatrix(z1, z2, z3);
             Sq(s) == Discriminant(m[0][0], m[1][0], Closure(m[0][0], m[1][0]))
    requires z1 != Zero
    ensures var m := TeeMatrix(z1, z2, z3);
            var p := ExtractPoint(m[0][0], m[1][0], s);
            p.z1 != z1 && Add(p.z1, p.z2) == Add(Add(z1, z2), z2)
  {
    var m := TeeMatrix(z1, z2, z3);
    var k := Closure(m[0][0], m[1][0]);
    var b := CoeffB(m[0][0], m[1][0], k);
    RootsSolveQuadratic(b, CoeffC(m[0][0], m[1][0]), s);
    TeeSeriesArmIsRootIffZero(z1, z2, z3);
  }
}
