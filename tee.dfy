/**
 * tee_network (pads.py:127-152): the two-port impedance matrices of a T network with
 * series arm Z1 on the port 1 side, shunt arm Z2 and series arm Z3 on the port 2 side,
 * one matrix per frequency point:
 *
 *   Z = [[Z1 + Z2, Z2], [Z2, Z2 + Z3]]
 *
 * The matrices are written into an n x 2 x 2 array, one entry position at a time over
 * all frequency points, as the four slice assignments z[:, r, c] = ... of the source do.
 */
module TeeSynthesizer {
  import opened ComplexField
  import opened Networks

  /** The default reference impedance of tee_network, in ohms. */
  const DefaultZ0: real := 50.0

  /** The impedance matrix of a T network at one frequency point. */
  function TeeMatrix(z1: Complex, z2: Complex, z3: Complex): (m: Matrix)
    ensures IsSquare(m) && |m| == 2
    ensures IsReciprocal(m)
  {
    [[Add(z1, z2), z2], [z2, Add(z2, z3)]]
  }

  /** The impedance matrices at every frequency point. */
  function TeeMatrices(z1: seq<Complex>, z2: seq<Complex>, z3: seq<Complex>): (zs: seq<Matrix>)
    requires |z2| == |z1| && |z3| == |z1|
    ensures |zs| == |z1| && SquareAtEveryFrequency(zs)
    ensures forall i :: 0 <= i < |zs| ==> |zs[i]| == 2 && IsReciprocal(zs[i])
  {
    seq(|z1|, i requires 0 <= i < |z1| => TeeMatrix(z1[i], z2[i], z3[i]))
  }

  /** Z1 + Z2 as numpy adds two arrays of the same length, entry by entry. */
  function AddEach(a: seq<Complex>, b: seq<Complex>): (r: seq<Complex>)
    requires |b| == |a|
    ensures |r| == |a| && forall i :: 0 <= i < |a| ==> r[i] == Add(a[i], b[i])
  {
    seq(|a|, i requires 0 <= i < |a| => Add(a[i], b[i]))
  }

  /**
   * z[:, row, col] = v: writes v[i] into position (row, col) of the matrix of every
   * frequency point i, and changes nothing else.
   */
  method AssignEntry(z: array3<Complex>, row: nat, col: nat, v: seq<Complex>)
    requires row < z.Length1 && col < z.Length2 && |v| == z.Length0
    modifies z
    ensures forall i, j, k :: 0 <= i < z.Length0 && 0 <= j < z.Length1 && 0 <= k < z.Length2 ==>
              z[i, j, k] == if j == row && k == col then v[i] else old(z[i, j, k])
  {
    for n := 0 to z.Length0
      invariant forall i, j, k :: 0 <= i < z.Length0 && 0 <= j < z.Length1 && 0 <= k < z.Length2 ==>
                  z[i, j, k] == if j == row && k == col && i < n then v[i] else old(z[i, j, k])
    {
      z[n, row, col] := v[n];
    }
  }

  /**
   * tee_network(f, Z1, Z2, Z3, Z0): the arrays Z1, Z2 and Z3 have one value per
   * frequency point (numpy broadcasting of scalars is not modelled).
   */
  method TeeNetwork(f: seq<real>, z1: seq<Complex>, z2: seq<Complex>, z3: seq<Complex>, z0: real)
    returns (net: ZNetwork)
    requires |z1| == |f| && |z2| == |f| && |z3| == |f|
    ensures net == ZNetwork(f, TeeMatrices(z1, z2, z3), z0)
    ensures |net.z| == |f| && SquareAtEveryFrequency(net.z)
    ensures forall i :: 0 <= i < |net.z| ==> |net.z[i]| == 2 && IsReciprocal(net.z[i])
  {
    var n := |f|;
    var z := new Complex[n, 2, 2]((i, j, k) => Zero);
    AssignEntry(z, 0, 0, AddEach(z1, z2));
    AssignEntry(z, 0, 1, z2);
    AssignEntry(z, 1, 0, z2);
    AssignEntry(z, 1, 1, AddEach(z2, z3));
    var zs := seq(n, i requires 0 <= i < n reads z => [[z[i, 0, 0], z[i, 0, 1]], [z[i, 1, 0], z[i, 1, 1]]]);
    forall i | 0 <= i < n
      ensures zs[i] == TeeMatrix(z1[i], z2[i], z3[i])
    {
      var t := TeeMatrix(z1[i], z2[i], z3[i]);
      assert zs[i][0] == t[0] && zs[i][1] == t[1];
    }
    net := ZNetwork(f, zs, z0);
  }

  /**
   * The arms of the T network can be read back from its matrix: Z1 = Z11 - Z12,
   * Z2 = Z21 and Z3 = Z22 - Z12.
   */
  lemma TeeArms(z1: Complex, z2: Complex, z3: Complex)
    ensures var m := TeeMatrix(z1, z2, z3);
            Sub(m[0][0], m[0][1]) == z1 && m[1][0] == z2 && Sub(m[1][1], m[0][1]) == z3
  {
  }

  /** Every reciprocal two-port impedance matrix is the matrix of exactly one T network. */
  lemma TeeDecomposition(m: Matrix)
    requires IsSquare(m) && |m| == 2 && IsReciprocal(m)
    ensures m == TeeMatrix(Sub(m[0][0], m[0][1]), m[0][1], Sub(m[1][1], m[0][1]))
  {
    var t := TeeMatrix(Sub(m[0][0], m[0][1]), m[0][1], Sub(m[1][1], m[0][1]));
    assert m[1][0] == m[0][1];
    assert m[0] == t[0];
    assert m[1] == t[1];
  }

  /**
   * Exchanging the two series arms gives the mirror image of the network: the matrix of
   * (Z3, Z2, Z1) is the matrix of (Z1, Z2, Z3) with its ports swapped.
   */
  lemma TeeMirror(z1: Complex, z2: Complex, z3: Complex)
    ensures TeeMatrix(z3, z2, z1) == PortSwap(TeeMatrix(z1, z2, z3))
  {
  }

  /** The mirror property at every frequency point. */
  lemma TeeMatricesMirror(z1: seq<Complex>, z2: seq<Complex>, z3: seq<Complex>)
    requires |z2| == |z1| && |z3| == |z1|
    ensures var left := TeeMatrices(z1, z2, z3);
            var right := TeeMatrices(z3, z2, z1);
            |right| == |left| && forall i :: 0 <= i < |left| ==> right[i] == PortSwap(left[i])
  {
    forall i | 0 <= i < |z1|
      ensures TeeMatrices(z3, z2, z1)[i] == PortSwap(TeeMatrices(z1, z2, z3)[i])
    {
      TeeMirror(z1[i], z2[i], z3[i]);
    }
  }
}
