/**
 * get_pads (pads.py:154-169): de-embed the pads from a line and a line twice as long,
 * make the result reciprocal and symmetric, extract the T-pad impedances and build
 * the left pad from (Z1, Z2, Z3) and the right pad from (Z3, Z2, Z1).
 *
 * The scikit-rf operations the function calls are not part of this model: cascading
 * (the ** operator), the inverse network (.inv), the impedance matrices of a
 * scattering network (.z) and np.sqrt are parameters, gathered in a Backend.
 */
module Pipeline {
  import opened Wrappers
  import opened ComplexField
  import opened Networks
  import opened Symmetrizer
  import opened PadExtractor
  import opened TeeSynthesizer

  /** The scikit-rf and numpy operations get_pads relies on. */
  datatype Backend = Backend(
    cascade: (Network, Network) -> Network,
    inverse: Network -> Network,
    impedance: Network -> seq<Matrix>,
    sqrt: Complex -> Complex)

  /**
   * What scikit-rf guarantees of these operations and the model needs: a cascade has
   * a square scattering matrix at each frequency point, and the impedance form of a
   * network has one square matrix per frequency point.
   */
  ghost predicate WellBehaved(ops: Backend) {
    (forall a: Network, b: Network :: SquareAtEveryFrequency(ops.cascade(a, b).s)) &&
    (forall n: Network :: |ops.impedance(n)| == |n.f| && SquareAtEveryFrequency(ops.impedance(n)))
  }

  /**
   * L_line ** L2_line.inv ** L_line. Python's ** groups to the right, so this is
   * L_line ** (L2_line.inv ** L_line).
   */
  function DeEmbed(ops: Backend, line: Network, doubleLine: Network): (r: Network)
    ensures WellBehaved(ops) ==> SquareAtEveryFrequency(r.s)
  {
    ops.cascade(line, ops.cascade(ops.inverse(doubleLine), line))
  }

  /** The two pads get_pads returns. */
  datatype PadPair = PadPair(left: ZNetwork, right: ZNetwork)

  /** The network extract_pad receives and what it returns for it. */
  function PadsOf(ops: Backend, line: Network, doubleLine: Network): Network
    requires WellBehaved(ops)
    ensures IsReciprocalSymmetric(PadsOf(ops, line, doubleLine))
  {
    Symmetrized(DeEmbed(ops, line, doubleLine))
  }

  /**
   * get_pads(file1, file2) on the networks read from the two files. The error cases
   * are those of extract_pad. On success the left pad is the T network (Z1, Z2, Z3), the
   * right pad the T network (Z3, Z2, Z1), both on the frequency grid of the de-embedded
   * network with reference impedance 50 ohms, and the right pad is the left pad with
   * its ports swapped at every frequency point.
   */
  method GetPads(ops: Backend, line: Network, doubleLine: Network) returns (r: Result<PadPair, PadError>)
    requires WellBehaved(ops)
    ensures var sym := PadsOf(ops, line, doubleLine);
            var extracted := ExtractPad(sym.f, ops.impedance(sym), ops.sqrt);
            (r.Err? <==> extracted.Err?) &&
            (r.Err? ==> r.error == extracted.error) &&
            (r.Ok? ==>
               var pad := extracted.value;
               r.value.left == ZNetwork(sym.f, TeeMatrices(pad.z1, pad.z2, pad.z3), DefaultZ0) &&
               r.value.right == ZNetwork(sym.f, TeeMatrices(pad.z3, pad.z2, pad.z1), DefaultZ0))
    ensures r.Ok? ==>
              var left := r.value.left.z;
              var right := r.value.right.z;
              |left| == |right| &&
              forall i :: 0 <= i < |left| ==> |left[i]| == 2 && right[i] == PortSwap(left[i])
  {
    var pads := DeEmbed(ops, line, doubleLine);
    var sym := EnforceReciprocalSymmetric(pads);
    var extracted := ExtractPad(sym.f, ops.impedance(sym), ops.sqrt);
    match extracted {
      case Err(e) =>
        r := Err(e);
      case Ok(pad) =>
        var left := TeeNetwork(pad.f, pad.z1, pad.z2, pad.z3, DefaultZ0);
        var right := TeeNetwork(pad.f, pad.z3, pad.z2, pad.z1, DefaultZ0);
        TeeMatricesMirror(pad.z1, pad.z2, pad.z3);
        r := Ok(PadPair(left, right));
    }
  }
}
