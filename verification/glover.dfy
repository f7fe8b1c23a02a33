/**
  Glover.c: amplitude amplification over a fixed 8-entry state vector. The
  oracle flips the sign of the target's real part, the diffusion step reflects
  every amplitude about the mean, and measurement picks the most probable index
  deterministically. `1/sqrt(N)`, `M_PI` and `sqrt(N)` are parameters.
 */
module Glover {
  import opened Complex
  import opened Sums
  import opened StateVector

  /** `#define N 8`: the number of basis states. */
  const N: nat := 8

  function SumRe(sv: seq<Cplx>): real
  {
    Sum(RealParts(sv))
  }

  function SumIm(sv: seq<Cplx>): real
  {
    Sum(ImagParts(sv))
  }

  /**
    Every entry set to `(amp, 0)`; the program passes `amp = 1/sqrt(N)`. The
    contract restates the loop; what the state is for is stated by
    `OneIterationFromUniform` and `GroverMainFindsTarget`.
   */
  function CreateSuperposition(amp: real): (sv: seq<Cplx>)
    ensures |sv| == N
    ensures forall i :: 0 <= i < N ==> sv[i] == Cplx(amp, 0.0)
  {
    seq(N, i => Cplx(amp, 0.0))
  }

  /** The oracle: `states[target].real *= -1.0`. */
  function InvertPhase(sv: seq<Cplx>, target: nat): (r: seq<Cplx>)
    requires |sv| == N && target < N
    ensures |r| == N
    ensures r[target] == Cplx(-sv[target].re, sv[target].im)
    ensures forall i :: 0 <= i < N && i != target ==> r[i] == sv[i]
  {
    sv[target := Cplx(sv[target].re * -1.0, sv[target].im)]
  }

  /** Reflection about the mean, separately for real and imaginary parts. */
  function Diffusion(sv: seq<Cplx>): (r: seq<Cplx>)
    requires |sv| == N
    ensures |r| == N
  {
    var cRe := 2.0 * SumRe(sv) / (N as real);
    var cIm := 2.0 * SumIm(sv) / (N as real);
    seq(N, i requires 0 <= i < N => Cplx(cRe - sv[i].re, cIm - sv[i].im))
  }

  /**
    `apply_diffusion` as the program runs it: one loop accumulates both sums,
    a second loop overwrites every entry. Each entry is computed from the sums
    taken before any write.
   */
  method ApplyDiffusion(sv: seq<Cplx>) returns (out: seq<Cplx>)
    requires |sv| == N
    ensures |out| == N
    ensures forall i :: 0 <= i < N ==>
      out[i] == Cplx(2.0 * SumRe(sv) / 8.0 - sv[i].re, 2.0 * SumIm(sv) / 8.0 - sv[i].im)
    ensures out == Diffusion(sv)
  {
    var sumRe, sumIm := 0.0, 0.0;
    for i := 0 to N
      invariant sumRe == Sum(RealParts(sv)[..i])
      invariant sumIm == Sum(ImagParts(sv)[..i])
    {
      assert RealParts(sv)[..i + 1][..i] == RealParts(sv)[..i];
      assert ImagParts(sv)[..i + 1][..i] == ImagParts(sv)[..i];
      sumRe := sumRe + sv[i].re;
      sumIm := sumIm + sv[i].im;
    }
    assert RealParts(sv)[..N] == RealParts(sv);
    assert ImagParts(sv)[..N] == ImagParts(sv);
    out := sv;
    for i := 0 to N
      invariant |out| == N
      invariant forall j :: 0 <= j < i ==>
        out[j] == Cplx(2.0 * sumRe / 8.0 - sv[j].re, 2.0 * sumIm / 8.0 - sv[j].im)
      invariant forall j :: i <= j < N ==> out[j] == sv[j]
    {
      out := out[i := Cplx(2.0 * sumRe / 8.0 - out[i].re, 2.0 * sumIm / 8.0 - out[i].im)];
    }
  }

  /** One Grover step: oracle, then diffusion. */
  function GroverIteration(sv: seq<Cplx>, target: nat): (r: seq<Cplx>)
    requires |sv| == N && target < N
    ensures |r| == N
  {
    Diffusion(InvertPhase(sv, target))
  }

  lemma InvertPhaseInvolutive(sv: seq<Cplx>, target: nat)
    requires |sv| == N && target < N
    ensures InvertPhase(InvertPhase(sv, target), target) == sv
  {
  }

  lemma DiffusionParts(sv: seq<Cplx>)
    requires |sv| == N
    ensures RealParts(Diffusion(sv)) == Reflect(RealParts(sv), 2.0 * SumRe(sv) / 8.0)
    ensures ImagParts(Diffusion(sv)) == Reflect(ImagParts(sv), 2.0 * SumIm(sv) / 8.0)
  {
  }

  /** Diffusion keeps the sum of the real parts and the sum of the imaginary parts. */
  lemma DiffusionPreservesSums(sv: seq<Cplx>)
    requires |sv| == N
    ensures SumRe(Diffusion(sv)) == SumRe(sv)
    ensures SumIm(Diffusion(sv)) == SumIm(sv)
  {
    DiffusionParts(sv);
    SumReflect(RealParts(sv), 2.0 * SumRe(sv) / 8.0);
    SumReflect(ImagParts(sv), 2.0 * SumIm(sv) / 8.0);
  }

  /** Reflecting about the mean twice gives back the original vector. */
  lemma DiffusionInvolutive(sv: seq<Cplx>)
    requires |sv| == N
    ensures Diffusion(Diffusion(sv)) == sv
  {
    DiffusionPreservesSums(sv);
  }

  /** A vector whose entries are all equal is its own mean. */
  lemma DiffusionFixesConstant(sv: seq<Cplx>, v: Cplx)
    requires |sv| == N
    requires forall i :: 0 <= i < N ==> sv[i] == v
    ensures Diffusion(sv) == sv
  {
    SumConstant(RealParts(sv), v.re);
    SumConstant(ImagParts(sv), v.im);
  }

  /** `k` has the largest weight, and every earlier index a strictly smaller one. */
  predicate IsLowestArgmax(sv: seq<Cplx>, k: nat)
  {
    && k < |sv|
    && (forall j :: 0 <= j < |sv| ==> Norm2(sv[j]) <= Norm2(sv[k]))
    && (forall j :: 0 <= j < k ==> Norm2(sv[j]) < Norm2(sv[k]))
  }

  /** At most one index is the lowest most probable one. */
  lemma LowestArgmaxUnique(sv: seq<Cplx>, a: nat, b: nat)
    requires IsLowestArgmax(sv, a) && IsLowestArgmax(sv, b)
    ensures a == b
  {
    var wa, wb := Norm2(sv[a]), Norm2(sv[b]);
    assert wa <= wb && wb <= wa;
    if a < b {
      assert false;
    } else if b < a {
      assert false;
    }
  }

  /**
    `measure_state`: scan from index 0 keeping the first strictly larger
    weight, starting from a maximum of 0.0 at index 0.
   */
  method MeasureState(sv: seq<Cplx>) returns (idx: nat)
    requires |sv| == N
    ensures IsLowestArgmax(sv, idx)
    ensures (forall j :: 0 <= j < N ==> Norm2(sv[j]) == 0.0) ==> idx == 0
  {
    var maxProbability := 0.0;
    idx := 0;
    for i := 0 to N
      invariant idx < N && (i > 0 ==> idx < i)
      invariant i == 0 ==> maxProbability == 0.0 && idx == 0
      invariant i > 0 ==> maxProbability == Norm2(sv[idx])
      invariant forall j :: 0 <= j < i ==> Norm2(sv[j]) <= maxProbability
      invariant forall j :: 0 <= j < idx ==> Norm2(sv[j]) < maxProbability
    {
      var probability := Norm2(sv[i]);
      if probability > maxProbability {
        maxProbability := probability;
        idx := i;
      }
    }
    if idx > 0 {
      assert Norm2(sv[0]) < maxProbability;
    }
  }

  /** The program's `(int)` cast of a double: truncation toward zero. */
  function TruncateToInt(x: real): int
  {
    if x >= 0.0 then x.Floor else -((-x).Floor)
  }

  /** `(int)(M_PI / 4.0 * sqrt(N)) - 1`, with `M_PI` and `sqrt(N)` as parameters. */
  function NumIterations(pi: real, sqrtN: real): int
  {
    TruncateToInt(pi / 4.0 * sqrtN) - 1
  }

  /** `num_iterations` Grover steps; a count of zero or less runs none. */
  function RunGrover(sv: seq<Cplx>, target: nat, count: int): (r: seq<Cplx>)
    requires |sv| == N && target < N
    ensures |r| == N
    decreases count
  {
    if count <= 0 then sv else RunGrover(GroverIteration(sv, target), target, count - 1)
  }

  /** With `pi` and `sqrt(8)` in their double-precision neighbourhoods `main` runs one step. */
  lemma MainIterationCount(pi: real, sqrtN: real)
    requires 3.14 < pi < 3.15 && 2.82 < sqrtN < 2.83
    ensures NumIterations(pi, sqrtN) == 1
  {
    var x := pi / 4.0 * sqrtN;
    calc {
      x;
    >
      0.785 * sqrtN;
    >
      0.785 * 2.82;
    }
    calc {
      x;
    <
      0.7875 * sqrtN;
    <
      0.7875 * 2.83;
    }
    assert 2.0 <= x < 3.0;
    assert x.Floor == 2;
  }

  /** From a uniform real amplitude `a > 0`, one step leaves `5a/2` at the target and `a/2` elsewhere. */
  lemma OneIterationFromUniform(a: real, target: nat)
    requires a > 0.0 && target < N
    ensures forall i :: 0 <= i < N ==>
      GroverIteration(CreateSuperposition(a), target)[i]
        == (if i == target then Cplx(5.0 * a / 2.0, 0.0) else Cplx(a / 2.0, 0.0))
  {
    var sv := CreateSuperposition(a);
    var flipped := InvertPhase(sv, target);
    SumConstant(RealParts(sv), a);
    SumConstant(ImagParts(sv), 0.0);
    assert RealParts(flipped) == RealParts(sv)[target := -a];
    assert ImagParts(flipped) == ImagParts(sv);
    SumUpdate(RealParts(sv), target, -a);
    assert SumRe(flipped) == 6.0 * a;
    assert SumIm(flipped) == 0.0;
  }

  lemma WeightOfReal(x: real)
    ensures Norm2(Cplx(x, 0.0)) == Square(x)
  {
  }

  lemma SquareGrows(x: real, y: real)
    requires x > y > 0.0
    ensures Square(x) > Square(y)
  {
    calc {
      Square(x);
      x * x;
    >
      x * y;
    >
      y * y;
    }
  }

  /**
    With `N = 8`, a positive uniform amplitude and the single step `main`
    runs, measurement returns the target.
   */
  lemma GroverMainFindsTarget(a: real, target: nat, pi: real, sqrtN: real)
    requires a > 0.0 && target < N
    requires 3.14 < pi < 3.15 && 2.82 < sqrtN < 2.83
    ensures IsLowestArgmax(RunGrover(CreateSuperposition(a), target, NumIterations(pi, sqrtN)), target)
  {
    MainIterationCount(pi, sqrtN);
    var sv := CreateSuperposition(a);
    var r := GroverIteration(sv, target);
    assert RunGrover(sv, target, 1) == RunGrover(r, target, 0) == r;
    OneIterationFromUniform(a, target);
    WeightOfReal(5.0 * a / 2.0);
    WeightOfReal(a / 2.0);
    SquareGrows(5.0 * a / 2.0, a / 2.0);
    forall j | 0 <= j < N && j != target
      ensures Norm2(r[j]) < Norm2(r[target])
    {
    }
  }
}
