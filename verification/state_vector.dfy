/**
  The amplitude vector shared by the simulations: a sequence of `Cplx`
  amplitudes indexed by basis state, together with the projections the
  programs sum over, and the outcome of an operation that may index outside a
  fixed-size table.
 */
module StateVector {
  import opened Bits
  import opened Complex

  /**
    The outcome of an operation that reads or writes a fixed-size table: the
    value, or the first index that fell outside the table (undefined behaviour
    in the C programs).
   */
  datatype Checked<T> = Ok(value: T) | OutOfRange(index: nat)

  /** `|0...0>`: amplitude 1 at index 0 and 0 at the other `2^n - 1` indices. */
  function InitialState(n: nat): (s: seq<Cplx>)
    ensures |s| == Pow2(n)
    ensures s[0] == One
    ensures forall i :: 1 <= i < |s| ==> s[i] == Zero
  {
    seq(Pow2(n), i => Zero)[0 := One]
  }

  function RealParts(s: seq<Cplx>): (r: seq<real>)
    ensures |r| == |s|
    ensures forall i :: 0 <= i < |s| ==> r[i] == s[i].re
  {
    seq(|s|, i requires 0 <= i < |s| => s[i].re)
  }

  function ImagParts(s: seq<Cplx>): (r: seq<real>)
    ensures |r| == |s|
    ensures forall i :: 0 <= i < |s| ==> r[i] == s[i].im
  {
    seq(|s|, i requires 0 <= i < |s| => s[i].im)
  }

  /**
    The probability weight `|s[i]|^2` of every basis state. The contract
    restates the definition; `ShoreMeasure.DistributionFacts` states that the
    normalised weights form a distribution.
   */
  function Weights(s: seq<Cplx>): (w: seq<real>)
    ensures |w| == |s|
    ensures forall i :: 0 <= i < |s| ==> w[i] == Norm2(s[i]) && w[i] >= 0.0
  {
    seq(|s|, i requires 0 <= i < |s| => Norm2(s[i]))
  }
}
