/**
 * Per-frequency parameter matrices and the network value that carries them.
 * A numpy array of shape (n_freq, N, N) is a sequence of N x N matrices, one per
 * frequency point.
 */
module Networks {
  import opened ComplexField

  /** A complex parameter matrix, row by row. */
  type Matrix = seq<seq<Complex>>

  predicate IsSquare(m: Matrix) {
    forall j :: 0 <= j < |m| ==> |m[j]| == |m|
  }

  /** Every frequency point carries a square matrix (numpy's shape (n_freq, N, N)). */
  predicate SquareAtEveryFrequency(s: seq<Matrix>) {
    forall i :: 0 <= i < |s| ==> IsSquare(s[i])
  }

  /** m.T: entry (j, k) of the transpose is entry (k, j) of the matrix. */
  function Transpose(m: Matrix): (t: Matrix)
    requires IsSquare(m)
    ensures IsSquare(t) && |t| == |m|
    ensures forall j, k :: 0 <= j < |m| && 0 <= k < |m| ==> t[j][k] == m[k][j]
  {
    seq(|m|, j requires 0 <= j < |m| => seq(|m|, k requires 0 <= k < |m| => m[k][j]))
  }

  /** Reciprocity: the matrix equals its transpose. */
  predicate IsReciprocal(m: Matrix)
    requires IsSquare(m)
  {
    forall j, k :: 0 <= j < |m| && 0 <= k < |m| ==> m[j][k] == m[k][j]
  }

  /** A reciprocal matrix is its own transpose, and conversely. */
  lemma ReciprocalIffSelfTranspose(m: Matrix)
    requires IsSquare(m)
    ensures IsReciprocal(m) <==> Transpose(m) == m
  {
    if Transpose(m) == m {
      forall j, k | 0 <= j < |m| && 0 <= k < |m| ensures m[j][k] == m[k][j] {
        assert Transpose(m)[k][j] == m[j][k];
      }
    }
    if IsReciprocal(m) {
      forall j | 0 <= j < |m| ensures Transpose(m)[j] == m[j] {
        assert forall k :: 0 <= k < |m| ==> Transpose(m)[j][k] == m[j][k];
      }
    }
  }

  /** The diagonal, as numpy's np.diag returns it. */
  function Diag(m: Matrix): (d: seq<Complex>)
    requires IsSquare(m)
    ensures |d| == |m| && forall j :: 0 <= j < |m| ==> d[j] == m[j][j]
  {
    seq(|m|, j requires 0 <= j < |m| => m[j][j])
  }

  /** Symmetry in the sense of the symmetrizer: one single value on the whole diagonal. */
  predicate HasUniformDiagonal(m: Matrix)
    requires IsSquare(m)
  {
    forall j :: 0 <= j < |m| ==> m[j][j] == m[0][0]
  }

  function Sum(d: seq<Complex>): Complex {
    if d == [] then Zero else Add(d[0], Sum(d[1..]))
  }

  /**
   * np.mean of a sequence of complex numbers. numpy gives NaN for an empty
   * sequence; here the empty mean is Zero, a value the symmetrizer never writes
   * anywhere since an empty matrix has no diagonal.
   */
  function Mean(d: seq<Complex>): (r: Complex)
    ensures d == [] ==> r == Zero
    ensures d != [] ==> Scale(|d| as real, r) == Sum(d)
  {
    if d == [] then Zero
    else
      var n := |d| as real;
      var t := Sum(d);
      assert n * ((1.0 / n) * t.re) == t.re;
      assert n * ((1.0 / n) * t.im) == t.im;
      Scale(1.0 / n, t)
  }

  /** n copies of v add up to n * v. */
  lemma {:induction false} SumOfConstant(d: seq<Complex>, v: Complex)
    requires forall j :: 0 <= j < |d| ==> d[j] == v
    ensures Sum(d) == Scale(|d| as real, v)
  {
    if d != [] {
      SumOfConstant(d[1..], v);
    }
  }

  /** The mean of a non-empty sequence of equal values is that value. */
  lemma MeanOfConstant(d: seq<Complex>, v: Complex)
    requires |d| > 0
    requires forall j :: 0 <= j < |d| ==> d[j] == v
    ensures Mean(d) == v
  {
    SumOfConstant(d, v);
    var n := |d| as real;
    assert (1.0 / n) * (n * v.re) == v.re;
    assert (1.0 / n) * (n * v.im) == v.im;
  }

  /**
   * Swapping ports 1 and 2 of a two-port: entry (j, k) moves to (1 - j, 1 - k).
   */
  function PortSwap(m: Matrix): (r: Matrix)
    requires IsSquare(m) && |m| == 2
    ensures IsSquare(r) && |r| == 2
    ensures forall j, k :: 0 <= j < 2 && 0 <= k < 2 ==> r[j][k] == m[1 - j][1 - k]
  {
    [[m[1][1], m[1][0]], [m[0][1], m[0][0]]]
  }

  /** A port swap done twice gives back the original two-port. */
  lemma PortSwapInvolution(m: Matrix)
    requires IsSquare(m) && |m| == 2
    ensures PortSwap(PortSwap(m)) == m
  {
    assert |m[0]| == 2 && |m[1]| == 2;
    assert PortSwap(PortSwap(m))[0] == m[0];
    assert PortSwap(PortSwap(m))[1] == m[1];
  }

  /**
   * A measured or derived network in scattering form: the frequency grid in Hz,
   * one scattering matrix per frequency point, and the reference impedances (numpy
   * shape (n_freq, N)), which the core only carries along.
   */
  datatype Network = Network(f: seq<real>, s: seq<Matrix>, z0: seq<seq<Complex>>)

  /**
   * A network described by its impedance matrices and a scalar reference impedance,
   * as handed to scikit-rf's Network constructor (z=..., z0=...).
   */
  datatype ZNetwork = ZNetwork(f: seq<real>, z: seq<Matrix>, z0: real)
}
