/**
  Optimization.c: "quantum" gradient descent on a 16-entry state of four
  qubits. Each step applies `apply_hadamard` to qubits 0..3, a controlled Z
  rotation on each qubit with itself as control, and a phase estimate, and
  then updates a local copy of `current_x` that is thrown away. `sqrt(2)`,
  the rotation factor `(cos, sin)` of the step's angle and `estimate_phase`
  are parameters. The mutex and the worker thread of every step are left out.
 */
module Optimization {
  import opened Bits
  import opened Complex
  import opened StateVector

  /** `#define NUM_QUBITS 4` */
  const NumQubits: nat := 4
  /** `1 << NUM_QUBITS` amplitudes. */
  const StateSize: nat := 16
  /** `#define NUM_ITERATIONS 100` */
  const NumIterations: nat := 100
  /** `#define LEARNING_RATE 0.01` */
  const LearningRate: real := 0.01

  /** `initialize_quantum_state`: `|0000>`, that is `(1, 0)` at index 0 and `(0, 0)` at the other 15. */
  function InitializeQuantumState(): (s: seq<Cplx>)
    ensures |s| == StateSize
    ensures s[0] == One && forall i :: 1 <= i < StateSize ==> s[i] == Zero
  {
    assert Pow2(NumQubits) == StateSize;
    InitialState(NumQubits)
  }

  /**
    One entry of `apply_hadamard`: the amplitude divided by `sqrt(2)` is
    added to itself when the qubit's bit is 0, and otherwise multiplied by
    `(1, 0)` and by `(-1, 0)` and the two products added.
   */
  function HadamardEntry(a: Cplx, bit: nat, sqrt2: real): Cplx
    requires sqrt2 != 0.0
  {
    var scaled := Cplx(a.re / sqrt2, a.im / sqrt2);
    if bit == 0 then Add(scaled, scaled) else Add(Mul(scaled, One), Mul(scaled, MinusOne))
  }

  /**
    `apply_hadamard(state, qubit)`: every entry is computed from itself only.
    An entry whose bit is 1 becomes 0, because `x * (1, 0) + x * (-1, 0) = 0`.
   */
  function ApplyHadamard(s: seq<Cplx>, qubit: nat, sqrt2: real): (r: seq<Cplx>)
    requires |s| == StateSize && sqrt2 != 0.0
    ensures |r| == StateSize
    ensures forall i :: 0 <= i < StateSize && Bit(i, qubit) == 1 ==> r[i] == Zero
  {
    seq(StateSize, i requires 0 <= i < StateSize => HadamardEntry(s[i], Bit(i, qubit), sqrt2))
  }

  /** An entry whose bit is 0 is multiplied by `2 / sqrt(2)`. */
  lemma ApplyHadamardScales(s: seq<Cplx>, qubit: nat, sqrt2: real, i: nat)
    requires |s| == StateSize && sqrt2 != 0.0
    requires i < StateSize && Bit(i, qubit) == 0
    ensures ApplyHadamard(s, qubit, sqrt2)[i] == Mul(s[i], Cplx(2.0 / sqrt2, 0.0))
  {
    DoubledEntry(s[i], sqrt2);
  }

  lemma DoubledEntry(a: Cplx, c: real)
    requires c != 0.0
    ensures HadamardEntry(a, 0, c) == Mul(a, Cplx(2.0 / c, 0.0))
  {
    DoubledQuotient(a.re, c);
    DoubledQuotient(a.im, c);
  }

  lemma DoubledQuotient(x: real, c: real)
    requires c != 0.0
    ensures x / c + x / c == x * (2.0 / c)
  {
  }

  /** The entry at `i` depends on the entry at `i` alone: partner indices are never mixed. */
  lemma ApplyHadamardIsLocal(s: seq<Cplx>, t: seq<Cplx>, qubit: nat, sqrt2: real, i: nat)
    requires |s| == StateSize && |t| == StateSize && sqrt2 != 0.0
    requires i < StateSize && s[i] == t[i]
    ensures ApplyHadamard(s, qubit, sqrt2)[i] == ApplyHadamard(t, qubit, sqrt2)[i]
  {
  }

  /** `apply_hadamard` on qubits `0, ..., k - 1` in turn. */
  function HadamardAll(s: seq<Cplx>, k: nat, sqrt2: real): (r: seq<Cplx>)
    requires |s| == StateSize && sqrt2 != 0.0
    ensures |r| == StateSize
  {
    if k == 0 then s else ApplyHadamard(HadamardAll(s, k - 1, sqrt2), k - 1, sqrt2)
  }

  /** `apply_hadamard` keeps a zero entry zero. */
  lemma ApplyHadamardKeepsZero(s: seq<Cplx>, qubit: nat, sqrt2: real, i: nat)
    requires |s| == StateSize && sqrt2 != 0.0
    requires i < StateSize && s[i] == Zero
    ensures ApplyHadamard(s, qubit, sqrt2)[i] == Zero
  {
    assert Zero.re / sqrt2 == 0.0 && Zero.im / sqrt2 == 0.0;
  }

  /** Once an entry is 0 every later `apply_hadamard` keeps it 0. */
  lemma {:induction false} HadamardAllKills(s: seq<Cplx>, k: nat, sqrt2: real, i: nat, j: nat)
    requires |s| == StateSize && sqrt2 != 0.0
    requires i < StateSize && j < k && Bit(i, j) == 1
    ensures HadamardAll(s, k, sqrt2)[i] == Zero
  {
    var before := HadamardAll(s, k - 1, sqrt2);
    if j < k - 1 {
      HadamardAllKills(s, k - 1, sqrt2, i, j);
      ApplyHadamardKeepsZero(before, k - 1, sqrt2, i);
    } else {
      ApplyHadamardKillsBit(before, k - 1, sqrt2, i);
    }
  }

  lemma ApplyHadamardKillsBit(s: seq<Cplx>, qubit: nat, sqrt2: real, i: nat)
    requires |s| == StateSize && sqrt2 != 0.0
    requires i < StateSize && Bit(i, qubit) == 1
    ensures ApplyHadamard(s, qubit, sqrt2)[i] == Zero
  {
  }

  /** A positive index below `2^k` has a set bit below `k`. */
  lemma {:induction false} NonzeroHasSetBit(i: nat, k: nat) returns (j: nat)
    requires 0 < i < Pow2(k)
    ensures j < k && Bit(i, j) == 1
  {
    if i % 2 == 1 {
      j := 0;
    } else {
      var j' := NonzeroHasSetBit(i / 2, k - 1);
      j := j' + 1;
    }
  }

  /** After `apply_hadamard` on all four qubits only index 0 can be nonzero, whatever the state was. */
  lemma HadamardAllLeavesIndexZero(s: seq<Cplx>, sqrt2: real)
    requires |s| == StateSize && sqrt2 != 0.0
    ensures forall i :: 1 <= i < StateSize ==> HadamardAll(s, NumQubits, sqrt2)[i] == Zero
  {
    assert Pow2(NumQubits) == StateSize;
    forall i | 1 <= i < StateSize
      ensures HadamardAll(s, NumQubits, sqrt2)[i] == Zero
    {
      var j := NonzeroHasSetBit(i, NumQubits);
      HadamardAllKills(s, NumQubits, sqrt2, i, j);
    }
  }

  /** Index 0 has no bit set, so `apply_hadamard` scales its real amplitude by `2 / sqrt(2)`. */
  lemma ApplyHadamardAtZero(s: seq<Cplx>, qubit: nat, sqrt2: real, x: real)
    requires |s| == StateSize && sqrt2 != 0.0 && s[0] == Cplx(x, 0.0)
    ensures ApplyHadamard(s, qubit, sqrt2)[0] == Cplx(2.0 * (x / sqrt2), 0.0)
  {
    ZeroHasNoBits(qubit);
    assert 0.0 / sqrt2 == 0.0;
  }

  /** With `sqrt2 * sqrt2 == 2`, two Hadamards on index 0 double a real amplitude. */
  lemma TwoHadamardsDouble(sqrt2: real, x: real)
    requires sqrt2 * sqrt2 == 2.0
    ensures sqrt2 != 0.0
    ensures 2.0 * ((2.0 * (x / sqrt2)) / sqrt2) == 2.0 * x
  {
    calc {
      2.0 * ((2.0 * (x / sqrt2)) / sqrt2);
      4.0 * x / (sqrt2 * sqrt2);
      2.0 * x;
    }
  }

  /** With `sqrt2 * sqrt2 == 2`, the four Hadamards take `|0000>` to `(4, 0)` at index 0 and to 0 elsewhere. */
  lemma SuperposeInitialState(sqrt2: real)
    requires sqrt2 * sqrt2 == 2.0
    ensures sqrt2 != 0.0
    ensures HadamardAll(InitializeQuantumState(), NumQubits, sqrt2)[0] == Cplx(4.0, 0.0)
    ensures forall i :: 1 <= i < StateSize ==> HadamardAll(InitializeQuantumState(), NumQubits, sqrt2)[i] == Zero
  {
    SuperposeAtZero(sqrt2);
    HadamardAllLeavesIndexZero(InitializeQuantumState(), sqrt2);
  }

  /** Index 0 of `|0000>` is doubled by each pair of Hadamards: `1 -> 2 -> 4`. */
  lemma SuperposeAtZero(sqrt2: real)
    requires sqrt2 * sqrt2 == 2.0
    ensures sqrt2 != 0.0
    ensures HadamardAll(InitializeQuantumState(), NumQubits, sqrt2)[0] == Cplx(4.0, 0.0)
  {
    TwoHadamardsDouble(sqrt2, 1.0);
    TwoHadamardsDouble(sqrt2, 2.0);
    var s0 := InitializeQuantumState();
    var s1 := HadamardAll(s0, 1, sqrt2);
    var s2 := HadamardAll(s0, 2, sqrt2);
    var s3 := HadamardAll(s0, 3, sqrt2);
    var s4 := HadamardAll(s0, 4, sqrt2);
    assert HadamardAll(s0, 0, sqrt2) == s0;
    assert s1 == ApplyHadamard(s0, 0, sqrt2);
    assert s2 == ApplyHadamard(s1, 1, sqrt2);
    assert s3 == ApplyHadamard(s2, 2, sqrt2);
    assert s4 == ApplyHadamard(s3, 3, sqrt2);
    ApplyHadamardAtZero(s0, 0, sqrt2, 1.0);
    ApplyHadamardAtZero(s1, 1, sqrt2, 2.0 * (1.0 / sqrt2));
    ApplyHadamardAtZero(s2, 2, sqrt2, 2.0);
    ApplyHadamardAtZero(s3, 3, sqrt2, 2.0 * (2.0 / sqrt2));
  }

  /**
    `controlled_z_rotation(state, control, target, angle)` with the factor
    `(cos(angle), sin(angle))` as `rot`: entries with both bits set are
    multiplied by it and the others are left alone.
   */
  function ControlledZRotation(s: seq<Cplx>, control: nat, target: nat, rot: Cplx): (r: seq<Cplx>)
    requires |s| == StateSize
    ensures |r| == StateSize
  {
    seq(StateSize, i requires 0 <= i < StateSize =>
      if Bit(i, control) == 1 && Bit(i, target) == 1 then Mul(s[i], rot) else s[i])
  }

  /** Control and target play the same role. */
  lemma ControlledZSymmetric(s: seq<Cplx>, control: nat, target: nat, rot: Cplx)
    requires |s| == StateSize
    ensures ControlledZRotation(s, control, target, rot) == ControlledZRotation(s, target, control, rot)
  {
  }

  /** A rotation by `(1, 0)` changes nothing. */
  lemma ControlledZByOne(s: seq<Cplx>, control: nat, target: nat)
    requires |s| == StateSize
    ensures ControlledZRotation(s, control, target, One) == s
  {
    forall i | 0 <= i < StateSize
      ensures ControlledZRotation(s, control, target, One)[i] == s[i]
    {
      MulOne(s[i]);
    }
  }

  /** Two rotations on the same qubits combine into one by the product of the factors. */
  lemma ControlledZCompose(s: seq<Cplx>, control: nat, target: nat, u: Cplx, v: Cplx)
    requires |s| == StateSize
    ensures ControlledZRotation(ControlledZRotation(s, control, target, u), control, target, v)
      == ControlledZRotation(s, control, target, Mul(u, v))
  {
    forall i | 0 <= i < StateSize
      ensures ControlledZRotation(ControlledZRotation(s, control, target, u), control, target, v)[i]
        == ControlledZRotation(s, control, target, Mul(u, v))[i]
    {
      MulAssociative(s[i], u, v);
    }
  }

  /** A rotation factor of unit magnitude, as `(cos, sin)` is, leaves every probability unchanged. */
  lemma ControlledZKeepsWeights(s: seq<Cplx>, control: nat, target: nat, rot: Cplx)
    requires |s| == StateSize && Norm2(rot) == 1.0
    ensures Weights(ControlledZRotation(s, control, target, rot)) == Weights(s)
  {
    var r := ControlledZRotation(s, control, target, rot);
    forall i | 0 <= i < StateSize
      ensures Weights(r)[i] == Weights(s)[i]
    {
      Norm2Mul(s[i], rot);
    }
  }

  /** A rotation whose target bit is set only on zero entries has no effect. */
  lemma ControlledZOnZeroes(s: seq<Cplx>, control: nat, target: nat, rot: Cplx)
    requires |s| == StateSize
    requires forall i :: 0 <= i < StateSize && Bit(i, target) == 1 ==> s[i] == Zero
    ensures ControlledZRotation(s, control, target, rot) == s
  {
    forall i | 0 <= i < StateSize
      ensures ControlledZRotation(s, control, target, rot)[i] == s[i]
    {
      MulZero(rot);
    }
  }

  /** The four rotations `controlled_z_rotation(state, i, i, angle)` for `i = 0, ..., k - 1`. */
  function RotateAll(s: seq<Cplx>, k: nat, rot: Cplx): (r: seq<Cplx>)
    requires |s| == StateSize
    ensures |r| == StateSize
  {
    if k == 0 then s else ControlledZRotation(RotateAll(s, k - 1, rot), k - 1, k - 1, rot)
  }

  /** On a state that is zero outside index 0 the rotations of a step have no effect. */
  lemma {:induction false} RotateAllOnIndexZero(s: seq<Cplx>, k: nat, rot: Cplx)
    requires |s| == StateSize
    requires forall i :: 1 <= i < StateSize ==> s[i] == Zero
    ensures RotateAll(s, k, rot) == s
  {
    if k > 0 {
      RotateAllOnIndexZero(s, k - 1, rot);
      ZeroHasNoBits(k - 1);
      ControlledZOnZeroes(s, k - 1, k - 1, rot);
    }
  }

  /** What a step leaves behind: the shared state and the step's own copy of `x`. */
  datatype StepOutcome = StepOutcome(state: seq<Cplx>, localX: real)

  /**
    `gradient_descent_step`: the Hadamards, the rotations by `rotation`
    (standing for `(cos, sin)` of `derivative(current_x) * learning_rate`), the
    phase estimate, and `current_x -= phase * learning_rate` on the step's
    local copy. The rotations act only on entries the Hadamards have already
    zeroed, so the state is what the Hadamards leave.
   */
  function GradientDescentStep(state: seq<Cplx>, currentX: real, learningRate: real, sqrt2: real,
                               rotation: Cplx, estimatePhase: seq<Cplx> -> real): (r: StepOutcome)
    requires |state| == StateSize && sqrt2 != 0.0
    ensures r.state == HadamardAll(state, NumQubits, sqrt2)
    ensures r.localX == currentX - estimatePhase(HadamardAll(state, NumQubits, sqrt2)) * learningRate
  {
    var superposed := HadamardAll(state, NumQubits, sqrt2);
    var rotated := RotateAll(superposed, NumQubits, rotation);
    HadamardAllLeavesIndexZero(state, sqrt2);
    RotateAllOnIndexZero(superposed, NumQubits, rotation);
    var phase := estimatePhase(rotated);
    StepOutcome(rotated, currentX - phase * learningRate)
  }

  /**
    `quantum_gradient_descent(initial_x)`: 100 steps on one shared state, each
    given the caller's `current_x` by value. The value printed after every
    step is returned; the caller's `current_x` is never assigned, so every
    printed value is `initial_x`.
   */
  method QuantumGradientDescent(initialX: real, sqrt2: real, rotationFor: real -> Cplx,
                                estimatePhase: seq<Cplx> -> real)
    returns (printed: seq<real>, finalState: seq<Cplx>)
    requires sqrt2 != 0.0
    ensures |printed| == NumIterations
    ensures forall k :: 0 <= k < |printed| ==> printed[k] == initialX
    ensures |finalState| == StateSize
    ensures forall i :: 1 <= i < StateSize ==> finalState[i] == Zero
  {
    var state := InitializeQuantumState();
    var currentX := initialX;
    printed := [];
    for iter := 0 to NumIterations
      invariant |printed| == iter
      invariant forall k :: 0 <= k < |printed| ==> printed[k] == initialX
      invariant |state| == StateSize
      invariant forall i :: 1 <= i < StateSize ==> state[i] == Zero
    {
      var outcome := GradientDescentStep(state, currentX, LearningRate, sqrt2, rotationFor(currentX), estimatePhase);
      HadamardAllLeavesIndexZero(state, sqrt2);
      state := outcome.state;
      printed := printed + [currentX];
    }
    finalState := state;
  }
}
