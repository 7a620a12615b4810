/**
 * extract_pad (pads.py:94-124): the T-pad impedances Z1, Z2, Z3 at every frequency
 * point from Z11 and Z21 of a network's impedance matrices, under the closure
 * assumption Z3 = k * Z1, by solving a monic quadratic for Z1.
 *
 * np.sqrt is not modelled: the extraction takes, as a parameter, the function that
 * supplies the square root of the discriminant, and the lemmas about the roots assume
 * only that it squares back to the discriminant.
 */
module PadExtractor {
  import opened Wrappers
  import opened ComplexField
  import opened Networks

  datatype PadError =
    | TooFewPorts            // Z[:, 1, 0] does not exist: an IndexError in numpy
    | DegenerateModel(index: nat)  // the closure constant k divides by zero at this frequency point

  /** The three impedances at one frequency point. */
  datatype PadPoint = PadPoint(z1: Complex, z2: Complex, z3: Complex)

  /** The per-frequency arrays extract_pad returns, with the frequency grid. */
  datatype Pad = Pad(f: seq<real>, z1: seq<Complex>, z2: seq<Complex>, z3: seq<Complex>)

  /** 2 * Z21 * Z11 + Z21^2, the denominator of k. */
  function ClosureDenominator(z11: Complex, z21: Complex): Complex {
    Add(Mul(Scale(2.0, z21), z11), Sq(z21))
  }

  /** k = -Z21^2 / (-1 * (2 * Z21 * Z11 + Z21^2)), defined when the denominator is not zero. */
  function Closure(z11: Complex, z21: Complex): (k: Complex)
    requires ClosureDenominator(z11, z21) != Zero
    ensures Mul(k, ClosureDenominator(z11, z21)) == Sq(z21)
  {
    var den := ClosureDenominator(z11, z21);
    DivNegNeg(Sq(z21), den);
    Div(Neg(Sq(z21)), Neg(den))
  }

  /** b = -2 * (Z11 + Z21 * k) for the closure constant k; the quadratic is monic (a = 1). */
  function CoeffB(z11: Complex, z21: Complex, k: Complex): (b: Complex)
    ensures Neg(b) == Scale(2.0, Add(z11, Mul(z21, k)))
  {
    Scale(-2.0, Add(z11, Mul(z21, k)))
  }

  /** c = Z11 * Z11 - Z21 * Z21, which factors as (Z11 - Z21)(Z11 + Z21). */
  function CoeffC(z11: Complex, z21: Complex): (c: Complex)
    ensures c == Mul(Sub(z11, z21), Add(z11, z21))
  {
    Sub(Mul(z11, z11), Mul(z21, z21))
  }

  /**
   * disc = b * b - 4 * a * c with a = 1: four times the square of Z11 + Z21 * k
   * less c, since b = -2 (Z11 + Z21 * k).
   */
  function Discriminant(z11: Complex, z21: Complex, k: Complex): (d: Complex)
    ensures d == Scale(4.0, Sub(Sq(Add(z11, Mul(z21, k))), CoeffC(z11, z21)))
  {
    var h := Add(z11, Mul(z21, k));
    MulScale(-2.0, h, Scale(-2.0, h));
    MulComm(h, Scale(-2.0, h));
    MulScale(-2.0, h, h);
    Sub(Mul(CoeffB(z11, z21, k), CoeffB(z11, z21, k)), Scale(4.0, CoeffC(z11, z21)))
  }

  /** x^2 + b x + c, the quadratic whose root is Z1. */
  function Quadratic(b: Complex, c: Complex, x: Complex): Complex {
    Add(Add(Sq(x), Mul(b, x)), c)
  }

  /** x1 = (-b + s) / (2 a) with a = 1, the "+" branch. */
  function PlusRoot(b: Complex, s: Complex): (x1: Complex)
    ensures Scale(2.0, x1) == Add(Neg(b), s)
  {
    Half(Add(Neg(b), s))
  }

  /** x2 = (-b - s) / (2 a) with a = 1, the "-" branch. */
  function MinusRoot(b: Complex, s: Complex): (x2: Complex)
    ensures Scale(2.0, x2) == Sub(Neg(b), s)
  {
    Half(Sub(Neg(b), s))
  }

  /**
   * np.where(np.imag(x1) >= 0, x1, x2): the "+" root when its imaginary part is not
   * negative, the "-" root otherwise. The "-" root is never checked, so Im(Z1) >= 0
   * holds exactly when one of the two roots has it.
   */
  function SelectRoot(x1: Complex, x2: Complex): (z1: Complex)
    ensures z1 == x1 || z1 == x2
    ensures x1.im >= 0.0 ==> z1 == x1
    ensures x1.im < 0.0 ==> z1 == x2
    ensures z1.im >= 0.0 <==> x1.im >= 0.0 || x2.im >= 0.0
  {
    if x1.im >= 0.0 then x1 else x2
  }

  /**
   * The extraction at one frequency point, given the value s that np.sqrt returns
   * for the discriminant.
   */
  function ExtractPoint(z11: Complex, z21: Complex, s: Complex): (p: PadPoint)
    requires ClosureDenominator(z11, z21) != Zero
    ensures Add(p.z1, p.z2) == Add(z11, z21)
    ensures Mul(p.z3, ClosureDenominator(z11, z21)) == Mul(Sq(z21), p.z1)
    ensures var b := CoeffB(z11, z21, Closure(z11, z21));
            && (PlusRoot(b, s).im >= 0.0 ==> p.z1 == PlusRoot(b, s))
            && (PlusRoot(b, s).im < 0.0 ==> p.z1 == MinusRoot(b, s))
  {
    ClosureTimesSeries(z11, z21, SelectRoot(PlusRoot(CoeffB(z11, z21, Closure(z11, z21)), s),
                                            MinusRoot(CoeffB(z11, z21, Closure(z11, z21)), s)));
    ExtractWithClosure(z11, z21, Closure(z11, z21), s)
  }

  /**
   * The steps of the extraction that follow the computation of k: Z1 by the np.where
   * rule, Z2 so that Z1 + Z2 == Z11 + Z21, and Z3 = k * Z1.
   */
  function ExtractWithClosure(z11: Complex, z21: Complex, k: Complex, s: Complex): (p: PadPoint)
    ensures Add(p.z1, p.z2) == Add(z11, z21)
    ensures p.z3 == Mul(k, p.z1)
    ensures var b := CoeffB(z11, z21, k);
            && (PlusRoot(b, s).im >= 0.0 ==> p.z1 == PlusRoot(b, s))
            && (PlusRoot(b, s).im < 0.0 ==> p.z1 == MinusRoot(b, s))
  {
    var b := CoeffB(z11, z21, k);
    var z1 := SelectRoot(PlusRoot(b, s), MinusRoot(b, s));
    PadPoint(z1, Sub(Add(z11, z21), z1), Mul(k, z1))
  }

  /**
   * Any value whose product with the closure denominator is Z21^2 is k, so the
   * extraction can be computed from it.
   */
  lemma ExtractPointWithClosure(z11: Complex, z21: Complex, k: Complex, s: Complex, p: PadPoint)
    requires ClosureDenominator(z11, z21) != Zero
    requires Mul(k, ClosureDenominator(z11, z21)) == Sq(z21)
    requires ExtractWithClosure(z11, z21, k, s) == p
    ensures ExtractPoint(z11, z21, s) == p
  {
    ClosureUnique(z11, z21, k);
  }

  /** Z3 = k * Z1 scaled by the closure denominator is Z21^2 * Z1. */
  lemma ClosureTimesSeries(z11: Complex, z21: Complex, z1: Complex)
    requires ClosureDenominator(z11, z21) != Zero
    ensures Mul(Mul(Closure(z11, z21), z1), ClosureDenominator(z11, z21)) == Mul(Sq(z21), z1)
  {
    var k := Closure(z11, z21);
    var den := ClosureDenominator(z11, z21);
    calc {
      Mul(Mul(k, z1), den);
      { MulAssoc(k, z1, den); MulComm(z1, den); MulAssoc(k, den, z1); }
      Mul(Mul(k, den), z1);
    }
  }

  /** True when the impedance matrix at a frequency point makes k divide by zero. */
  predicate Degenerate(m: Matrix)
    requires IsSquare(m) && |m| >= 2
  {
    ClosureDenominator(m[0][0], m[1][0]) == Zero
  }

  /** The first frequency point at or after `from` whose k is undefined, if any. */
  function FirstDegenerate(z: seq<Matrix>, from: nat): (r: Option<nat>)
    requires SquareAtEveryFrequency(z)
    requires forall i :: 0 <= i < |z| ==> |z[i]| >= 2
    decreases |z| - from
    ensures r.Some? ==> from <= r.value < |z| && Degenerate(z[r.value])
    ensures r.Some? ==> forall j :: from <= j < r.value ==> !Degenerate(z[j])
    ensures r.None? <==> forall j :: from <= j < |z| ==> !Degenerate(z[j])
  {
    if from >= |z| then None
    else if Degenerate(z[from]) then Some(from)
    else FirstDegenerate(z, from + 1)
  }

  /** The extraction at frequency point i of a non-degenerate impedance array. */
  function PointAt(z: seq<Matrix>, sqrt: Complex -> Complex, i: nat): (p: PadPoint)
    requires SquareAtEveryFrequency(z)
    requires i < |z| && |z[i]| >= 2 && !Degenerate(z[i])
    ensures Add(p.z1, p.z2) == Add(z[i][0][0], z[i][1][0])
    ensures Mul(p.z3, ClosureDenominator(z[i][0][0], z[i][1][0])) == Mul(Sq(z[i][1][0]), p.z1)
  {
    var z11 := z[i][0][0];
    var z21 := z[i][1][0];
    ExtractPoint(z11, z21, sqrt(Discriminant(z11, z21, Closure(z11, z21))))
  }

  /**
   * extract_pad on a network whose frequency grid is f and whose impedance matrices
   * are z. A network with fewer than two ports has no Z21 (numpy raises IndexError);
   * a zero closure denominator is reported at the first frequency point where it
   * occurs (numpy would carry on with inf or NaN).
   */
  function ExtractPad(f: seq<real>, z: seq<Matrix>, sqrt: Complex -> Complex): (r: Result<Pad, PadError>)
    requires SquareAtEveryFrequency(z)
    ensures r == Err(TooFewPorts) <==> exists i :: 0 <= i < |z| && |z[i]| < 2
    ensures r.Err? && r.error.DegenerateModel? ==>
              r.error.index < |z| && |z[r.error.index]| >= 2 && Degenerate(z[r.error.index]) &&
              forall j :: 0 <= j < r.error.index ==> !Degenerate(z[j])
    ensures r.Ok? <==>
              forall i :: 0 <= i < |z| ==> |z[i]| >= 2 && !Degenerate(z[i])
    ensures r.Ok? ==> r.value.f == f && |r.value.z1| == |z| && |r.value.z2| == |z| && |r.value.z3| == |z|
  {
    if exists i :: 0 <= i < |z| && |z[i]| < 2 then Err(TooFewPorts)
    else match FirstDegenerate(z, 0)
      case Some(i) => Err(DegenerateModel(i))
      case None =>
        var points := seq(|z|, i requires 0 <= i < |z| => PointAt(z, sqrt, i));
        Ok(Pad(f,
               seq(|z|, i requires 0 <= i < |z| => points[i].z1),
               seq(|z|, i requires 0 <= i < |z| => points[i].z2),
               seq(|z|, i requires 0 <= i < |z| => points[i].z3)))
  }

  /**
   * Both branches solve the quadratic when s squares to the discriminant, and they
   * satisfy Vieta's relations: x1 + x2 == -b and x1 * x2 == c.
   */
  lemma RootsSolveQuadratic(b: Complex, c: Complex, s: Complex)
    requires Sq(s) == Sub(Mul(b, b), Scale(4.0, c))
    ensures Quadratic(b, c, PlusRoot(b, s)) == Zero
    ensures Quadratic(b, c, MinusRoot(b, s)) == Zero
    ensures Add(PlusRoot(b, s), MinusRoot(b, s)) == Neg(b)
    ensures Mul(PlusRoot(b, s), MinusRoot(b, s)) == c
  {
    RootProduct(b, c, s);
    RootSolves(b, c, PlusRoot(b, s), MinusRoot(b, s));
    RootSolves(b, c, MinusRoot(b, s), PlusRoot(b, s));
  }

  /** x1 * x2 == c, written out on the two branches: ((-b)^2 - s^2) / 4 == c. */
  lemma RootProduct(b: Complex, c: Complex, s: Complex)
    requires Sq(s) == Sub(Mul(b, b), Scale(4.0, c))
    ensures Mul(Half(Add(Neg(b), s)), Half(Sub(Neg(b), s))) == c
  {
    assert s.re * s.re - s.im * s.im == b.re * b.re - b.im * b.im - 4.0 * c.re;
    assert s.re * s.im + s.im * s.re == b.re * b.im + b.im * b.re - 4.0 * c.im;
  }

  /** A root x whose partner y satisfies x + y == -b and x * y == c solves x^2 + b x + c. */
  lemma RootSolves(b: Complex, c: Complex, x: Complex, y: Complex)
    requires Add(x, y) == Neg(b) && Mul(x, y) == c
    ensures Quadratic(b, c, x) == Zero
  {
    assert b == Neg(Add(x, y));
    FactoredRoot(x, y);
  }

  /** x is a root of (t - x)(t - y) = t^2 - (x + y) t + x y. */
  lemma FactoredRoot(x: Complex, y: Complex)
    ensures Quadratic(Neg(Add(x, y)), Mul(x, y), x) == Zero
  {
  }

  /**
   * What extract_pad returns at each frequency point of a successful extraction:
   * Z1 + Z2 == Z11 + Z21, Z3 times the closure denominator is Z21^2 * Z1, Z1 is the
   * "+" root whenever that root has Im >= 0, Im(Z1) >= 0 exactly when some root has
   * it, and Z1 solves the quadratic whenever the square root supplied is a square
   * root of the discriminant.
   */
  lemma ExtractPadAt(f: seq<real>, z: seq<Matrix>, sqrt: Complex -> Complex, i: nat)
    requires SquareAtEveryFrequency(z)
    requires ExtractPad(f, z, sqrt).Ok? && i < |z|
    ensures |z[i]| >= 2 && !Degenerate(z[i])
    ensures var pad := ExtractPad(f, z, sqrt).value;
            var z11 := z[i][0][0];
            var z21 := z[i][1][0];
            var k := Closure(z11, z21);
            var b := CoeffB(z11, z21, k);
            var s := sqrt(Discriminant(z11, z21, k));
            var x1 := PlusRoot(b, s);
            var x2 := MinusRoot(b, s);
            && Add(pad.z1[i], pad.z2[i]) == Add(z11, z21)
            && Mul(pad.z3[i], ClosureDenominator(z11, z21)) == Mul(Sq(z21), pad.z1[i])
            && (pad.z1[i] == x1 || pad.z1[i] == x2)
            && (x1.im >= 0.0 ==> pad.z1[i] == x1)
            && (x1.im < 0.0 ==> pad.z1[i] == x2)
            && (pad.z1[i].im >= 0.0 <==> x1.im >= 0.0 || x2.im >= 0.0)
            && (Sq(s) == Discriminant(z11, z21, k) ==>
                  Quadratic(b, CoeffC(z11, z21), pad.z1[i]) == Zero)
  {
    var z11 := z[i][0][0];
    var z21 := z[i][1][0];
    var k := Closure(z11, z21);
    var b := CoeffB(z11, z21, k);
    var s := sqrt(Discriminant(z11, z21, k));
    if Sq(s) == Discriminant(z11, z21, k) {
      RootsSolveQuadratic(b, CoeffC(z11, z21), s);
    }
  }

  /** k is the only value whose product with the closure denominator is Z21^2. */
  lemma ClosureUnique(z11: Complex, z21: Complex, k: Complex)
    requires ClosureDenominator(z11, z21) != Zero
    requires Mul(k, ClosureDenominator(z11, z21)) == Sq(z21)
    ensures Closure(z11, z21) == k
  {
    MulCancel(Closure(z11, z21), k, ClosureDenominator(z11, z21));
  }

  /** k is not zero when Z21 is not. */
  lemma ClosureNonZero(z11: Complex, z21: Complex)
    requires ClosureDenominator(z11, z21) != Zero && z21 != Zero
    ensures Closure(z11, z21) != Zero
  {
    FactorNonZero(Closure(z11, z21), ClosureDenominator(z11, z21), z21);
  }

  /** A factor of Z21^2 is not zero when Z21 is not. */
  lemma FactorNonZero(k: Complex, d: Complex, z21: Complex)
    requires Mul(k, d) == Sq(z21) && z21 != Zero
    ensures k != Zero
  {
    NoZeroDivisors(z21, z21);
    NoZeroDivisors(k, d);
  }
}
