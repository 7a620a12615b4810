/**
 * enforce_reciprocal_symmetric (pads.py:5-27): make a network exactly reciprocal
 * (S = S^T) and symmetric (one shared value on the diagonal) at every frequency.
 */
module Symmetrizer {
  import opened ComplexField
  import opened Networks

  /** (S + S^T) / 2, the reciprocal part of one scattering matrix. */
  function ReciprocalPart(m: Matrix): (r: Matrix)
    requires IsSquare(m)
    ensures IsSquare(r) && |r| == |m|
    ensures IsReciprocal(r)
    ensures Diag(r) == Diag(m)
    ensures forall j, k :: 0 <= j < |m| && 0 <= k < |m| ==> r[j][k] == Half(Add(m[j][k], m[k][j]))
  {
    var t := Transpose(m);
    var r := seq(|m|, j requires 0 <= j < |m| =>
                  seq(|m|, k requires 0 <= k < |m| => Half(Add(m[j][k], t[j][k]))));
    assert forall j :: 0 <= j < |m| ==> Diag(r)[j] == Diag(m)[j];
    r
  }

  /** np.fill_diagonal(m, v): every diagonal entry becomes v, nothing else changes. */
  function FillDiagonal(m: Matrix, v: Complex): (r: Matrix)
    requires IsSquare(m)
    ensures IsSquare(r) && |r| == |m|
    ensures forall j :: 0 <= j < |m| ==> r[j][j] == v
    ensures forall j, k :: 0 <= j < |m| && 0 <= k < |m| && j != k ==> r[j][k] == m[j][k]
  {
    seq(|m|, j requires 0 <= j < |m| =>
      seq(|m|, k requires 0 <= k < |m| => if j == k then v else m[j][k]))
  }

  /**
   * What the two loops do to the matrix at one frequency point: the reciprocal
   * part, then its diagonal replaced by the diagonal's mean.
   */
  function SymmetrizeMatrix(m: Matrix): (r: Matrix)
    requires IsSquare(m)
    ensures IsSquare(r) && |r| == |m|
    ensures IsReciprocal(r) && HasUniformDiagonal(r)
    ensures forall j :: 0 <= j < |m| ==> r[j][j] == Mean(Diag(m))
    ensures forall j, k :: 0 <= j < |m| && 0 <= k < |m| && j != k ==>
              r[j][k] == Half(Add(m[j][k], m[k][j]))
  {
    var a := ReciprocalPart(m);
    FillDiagonal(a, Mean(Diag(a)))
  }

  /** The network enforce_reciprocal_symmetric returns, frequency point by frequency point. */
  function Symmetrized(network: Network): (r: Network)
    requires SquareAtEveryFrequency(network.s)
    ensures r.f == network.f && r.z0 == network.z0 && |r.s| == |network.s|
    ensures forall i :: 0 <= i < |r.s| ==> r.s[i] == SymmetrizeMatrix(network.s[i])
  {
    Network(network.f,
            seq(|network.s|, i requires 0 <= i < |network.s| => SymmetrizeMatrix(network.s[i])),
            network.z0)
  }

  /** The properties a network has once it went through the symmetrizer. */
  predicate IsReciprocalSymmetric(network: Network) {
    SquareAtEveryFrequency(network.s) &&
    forall i :: 0 <= i < |network.s| ==>
      IsReciprocal(network.s[i]) && HasUniformDiagonal(network.s[i])
  }

  /**
   * The symmetrizer as the source runs it: copy the scattering array, then one loop
   * that replaces each matrix by (S + S^T) / 2, then one loop that overwrites each
   * diagonal with its mean. The caller's network is left as it was.
   */
  method EnforceReciprocalSymmetric(network: Network) returns (r: Network)
    requires SquareAtEveryFrequency(network.s)
    ensures r == Symmetrized(network)
    ensures r.f == network.f && r.z0 == network.z0 && |r.s| == |network.s|
    ensures IsReciprocalSymmetric(r)
    ensures forall i :: 0 <= i < |r.s| ==> |r.s[i]| == |network.s[i]|
  {
    var nFreq := |network.s|;
    var s := new Matrix[nFreq](i requires 0 <= i < nFreq => network.s[i]);
    ReciprocityLoop(s);
    ghost var reciprocal := s[..];
    DiagonalLoop(s);
    forall j | 0 <= j < nFreq ensures s[j] == Symmetrized(network).s[j] {
      assert reciprocal[j] == ReciprocalPart(network.s[j]);
    }
    assert s[..] == Symmetrized(network).s;
    r := Network(network.f, s[..], network.z0);
    SymmetrizedShape(network);
  }

  /** for i in range(n_freq): s[i] = (s[i] + s[i].T) / 2 */
  method ReciprocityLoop(s: array<Matrix>)
    requires forall j :: 0 <= j < s.Length ==> IsSquare(s[j])
    modifies s
    ensures forall j :: 0 <= j < s.Length ==> s[j] == ReciprocalPart(old(s[j]))
  {
    for i := 0 to s.Length
      invariant forall j :: 0 <= j < i ==> s[j] == ReciprocalPart(old(s[j]))
      invariant forall j :: i <= j < s.Length ==> s[j] == old(s[j])
    {
      s[i] := ReciprocalPart(s[i]);
    }
  }

  /** for i in range(n_freq): np.fill_diagonal(s[i], np.mean(np.diag(s[i]))) */
  method DiagonalLoop(s: array<Matrix>)
    requires forall j :: 0 <= j < s.Length ==> IsSquare(s[j])
    modifies s
    ensures forall j :: 0 <= j < s.Length ==> s[j] == FillDiagonal(old(s[j]), Mean(Diag(old(s[j]))))
  {
    for i := 0 to s.Length
      invariant forall j :: 0 <= j < i ==> s[j] == FillDiagonal(old(s[j]), Mean(Diag(old(s[j]))))
      invariant forall j :: i <= j < s.Length ==> s[j] == old(s[j])
    {
      var avgDiag := Mean(Diag(s[i]));
      s[i] := FillDiagonal(s[i], avgDiag);
    }
  }

  /** The symmetrizer's output is reciprocal and symmetric and keeps every port count. */
  lemma SymmetrizedShape(network: Network)
    requires SquareAtEveryFrequency(network.s)
    ensures IsReciprocalSymmetric(Symmetrized(network))
    ensures forall i :: 0 <= i < |network.s| ==> |Symmetrized(network).s[i]| == |network.s[i]|
  {
  }

  /**
   * A matrix that is already reciprocal with a single diagonal value is left
   * unchanged.
   */
  lemma SymmetrizeMatrixFixedPoint(m: Matrix)
    requires IsSquare(m) && IsReciprocal(m) && HasUniformDiagonal(m)
    ensures SymmetrizeMatrix(m) == m
  {
    var r := SymmetrizeMatrix(m);
    if |m| > 0 {
      MeanOfConstant(Diag(m), m[0][0]);
    }
    forall j | 0 <= j < |m| ensures r[j] == m[j] {
      forall k | 0 <= k < |m| ensures r[j][k] == m[j][k] {
        if j != k {
          assert m[k][j] == m[j][k];
        }
      }
    }
  }

  /** Fixed point at the network level: a reciprocal symmetric network comes back as it was. */
  lemma SymmetrizedFixedPoint(network: Network)
    requires IsReciprocalSymmetric(network)
    ensures Symmetrized(network) == network
  {
    var r := Symmetrized(network);
    forall i | 0 <= i < |network.s| ensures r.s[i] == network.s[i] {
      SymmetrizeMatrixFixedPoint(network.s[i]);
    }
  }

  /** Symmetrizing twice is the same as symmetrizing once. */
  lemma SymmetrizedIdempotent(network: Network)
    requires SquareAtEveryFrequency(network.s)
    ensures Symmetrized(Symmetrized(network)) == Symmetrized(network)
  {
    SymmetrizedFixedPoint(Symmetrized(network));
  }

  /** Every output matrix is its own transpose. */
  lemma SymmetrizedIsSelfTranspose(network: Network, i: nat)
    requires SquareAtEveryFrequency(network.s) && i < |network.s|
    ensures Transpose(Symmetrized(network).s[i]) == Symmetrized(network).s[i]
  {
    ReciprocalIffSelfTranspose(Symmetrized(network).s[i]);
  }
}
