/**
  Shore.c's `compute_thread` and the work split of `main`. `main` hands
  `M = 15` iterations to `NUM_THREADS = 4` workers in chunks of `M / 4`, and
  every worker runs phase estimation, the inverse transform and a measurement
  once per iteration, passing the global `N = 16` both as the qubit count and
  as the table parameter. The workers, which share one state vector without
  locking, are run here one at a time.
 */
module ShoreMain {
  import opened Bits
  import opened Complex
  import opened StateVector
  import Partition
  import ShoreEstimation
  import ShoreTransform
  import ShoreMeasure

  /** `#define NUM_THREADS 4` */
  const NumThreads: nat := 4
  /** `int M = 15` in `main`. */
  const M: nat := 15
  /** `const int N = 16` */
  const N: nat := 16

  /** `main`'s chunks `[i * 3, (i + 1) * 3)` are disjoint and cover `[0, 12)` only: iterations 12, 13 and 14 have no worker. */
  lemma MainChunks(x: nat)
    ensures Partition.ChunkSize(M, NumThreads) == 3
    ensures Partition.Assigned(3, NumThreads, x) <==> x < 12
    ensures 12 <= x < M ==> !Partition.Assigned(3, NumThreads, x)
    ensures forall i, j :: (0 <= i < NumThreads && 0 <= j < NumThreads
      && Partition.InChunk(3, i, x) && Partition.InChunk(3, j, x)) ==> i == j
  {
    Partition.ChunksCover(3, NumThreads, x);
    forall i, j | 0 <= i < NumThreads && 0 <= j < NumThreads
      && Partition.InChunk(3, i, x) && Partition.InChunk(3, j, x)
      ensures i == j
    {
      Partition.ChunksDisjoint(3, i, j, x);
    }
  }

  /**
    `compute_thread` for `[start, end)`: each iteration runs
    `quantum_phase_estimation(state, N, a, N)`, `inverse_qft(state, N)` and
    `measure_state(state, N)` on the shared vector, and the measured indices
    are collected. Every iteration has the same table bounds, so the first one
    either fails or none does: phase estimation fails for `N > 12`, the
    transform for `N > 8`, and with `N = 16` the first failure is the write to
    entry 65536.
   */
  method ComputeThread(state: seq<Cplx>, start: nat, end: nat, a: nat, bigN: nat, twoPi: real,
                       rotation: real -> Cplx, factors: seq<Cplx>, draws: seq<real>)
    returns (r: Checked<seq<nat>>)
    requires |state| == Pow2(bigN) && |factors| == ShoreTransform.FactorTableSize
    requires start <= end ==> |draws| >= end - start
    ensures end <= start ==> r == Ok([])
    ensures start < end ==> (r.OutOfRange? <==> bigN > 8)
    ensures start < end && bigN == N ==> r == OutOfRange(ShoreEstimation.TableSize)
    ensures r.Ok? ==> (|r.value| == if start < end then end - start else 0)
    ensures r.Ok? ==> forall i :: 0 <= i < |r.value| ==> r.value[i] < Pow2(bigN)
  {
    if end <= start {
      return Ok([]);
    }
    ShoreEstimation.WritesFitIff(bigN);
    ShoreTransform.FactorReadsFitIff(bigN);
    var s := state;
    var results: seq<nat> := [];
    for i := start to end
      invariant |s| == Pow2(bigN)
      invariant |results| == i - start
      invariant forall m :: 0 <= m < |results| ==> results[m] < Pow2(bigN)
      invariant i > start ==> bigN <= 8
    {
      var estimated := ShoreEstimation.QuantumPhaseEstimation(s, bigN, a, bigN, twoPi, rotation);
      if estimated.OutOfRange? {
        if bigN == N {
          ShoreEstimation.ComputeThreadFirstBadWrite(estimated.index);
        }
        return OutOfRange(estimated.index);
      }
      var transformed := ShoreTransform.InverseQft(estimated.value, bigN, factors);
      if transformed.OutOfRange? {
        return OutOfRange(transformed.index);
      }
      s := transformed.value;
      var measured := ShoreMeasure.MeasureState(s, bigN, draws[i - start]);
      results := results + [measured];
    }
    r := Ok(results);
  }
}
