/**
  Shore.c's `controlled_phase_shift`: for every basis index `i` whose control
  bit is set, the amplitude at `i` with the target bit toggled is multiplied
  by `w` (the program's `cexp(I * theta)`, a parameter here). The copy `temp`
  the program makes is never read, so it is not modelled.
 */
module ShorePhase {
  import opened Bits
  import opened Complex
  import opened StateVector

  /**
    Whether index `j` is multiplied by the phase. For distinct qubits that is
    every index whose control bit is set; when control and target coincide
    the toggle moves the phase to the indices whose control bit is clear.
   */
  predicate Phased(control: nat, target: nat, j: nat)
  {
    if control == target then Bit(j, control) == 0 else Bit(j, control) == 1
  }

  /** The gate described index by index. */
  function PhaseShift(state: seq<Cplx>, control: nat, target: nat, w: Cplx): (r: seq<Cplx>)
    ensures |r| == |state|
  {
    seq(|state|, j requires 0 <= j < |state| => if Phased(control, target, j) then Mul(state[j], w) else state[j])
  }

  /**
    The loop of `controlled_phase_shift`. Toggling the target bit is a
    bijection on the indices, so every index is multiplied at most once: by
    the iteration `i = j ^ (1 << target)`, when that `i` has its control bit
    set.
   */
  method ControlledPhaseShift(state: seq<Cplx>, control: nat, target: nat, n: nat, w: Cplx)
    returns (out: seq<Cplx>)
    requires |state| == Pow2(n) && target < n
    ensures |out| == |state|
    ensures forall j :: 0 <= j < |state| ==>
      out[j] == (if Bit(FlipBit(j, target), control) == 1 then Mul(state[j], w) else state[j])
    ensures out == PhaseShift(state, control, target, w)
  {
    out := state;
    for i := 0 to Pow2(n)
      invariant |out| == |state|
      invariant forall j :: 0 <= j < |state| ==>
        out[j] == (if Bit(FlipBit(j, target), control) == 1 && FlipBit(j, target) < i then Mul(state[j], w) else state[j])
    {
      if Bit(i, control) == 1 {
        var k := FlipBit(i, target);
        FlipBitBound(i, target, n);
        FlipBitInvolutive(i, target);
        forall j | 0 <= j < |state| && FlipBit(j, target) == i
          ensures j == k
        {
          FlipBitInvolutive(j, target);
        }
        out := out[k := Mul(out[k], w)];
      }
    }
    forall j | 0 <= j < |state|
      ensures FlipBit(j, target) < Pow2(n)
      ensures Bit(FlipBit(j, target), control) == 1 <==> Phased(control, target, j)
    {
      FlipBitBound(j, target, n);
      BitFlip(j, target, control);
    }
  }

  /** For distinct qubits the phased indices are exactly those with the control bit set. */
  lemma PhaseShiftDistinct(state: seq<Cplx>, control: nat, target: nat, w: Cplx, j: nat)
    requires control != target && j < |state|
    ensures PhaseShift(state, control, target, w)[j] == if Bit(j, control) == 1 then Mul(state[j], w) else state[j]
  {
  }

  /** For one qubit as both control and target the phased indices are those with the bit clear. */
  lemma PhaseShiftSameQubit(state: seq<Cplx>, q: nat, w: Cplx, j: nat)
    requires j < |state|
    ensures PhaseShift(state, q, q, w)[j] == if Bit(j, q) == 1 then state[j] else Mul(state[j], w)
  {
  }

  /** A phase of 1 changes nothing. */
  lemma PhaseShiftByOne(state: seq<Cplx>, control: nat, target: nat)
    ensures PhaseShift(state, control, target, One) == state
  {
    forall j | 0 <= j < |state|
      ensures PhaseShift(state, control, target, One)[j] == state[j]
    {
      MulOne(state[j]);
    }
  }

  /** Two shifts on the same qubits combine into one shift by the product of the phases. */
  lemma PhaseShiftCompose(state: seq<Cplx>, control: nat, target: nat, v: Cplx, w: Cplx)
    ensures PhaseShift(PhaseShift(state, control, target, v), control, target, w)
      == PhaseShift(state, control, target, Mul(v, w))
  {
    forall j | 0 <= j < |state|
      ensures PhaseShift(PhaseShift(state, control, target, v), control, target, w)[j]
        == PhaseShift(state, control, target, Mul(v, w))[j]
    {
      MulAssociative(state[j], v, w);
    }
  }

  /** A phase of unit magnitude, as `cexp(I * theta)` is, leaves every measurement probability unchanged. */
  lemma PhaseShiftKeepsWeights(state: seq<Cplx>, control: nat, target: nat, w: Cplx)
    requires Norm2(w) == 1.0
    ensures Weights(PhaseShift(state, control, target, w)) == Weights(state)
  {
    var r := PhaseShift(state, control, target, w);
    forall j | 0 <= j < |state|
      ensures Weights(r)[j] == Weights(state)[j]
    {
      Norm2Mul(state[j], w);
    }
  }
}
