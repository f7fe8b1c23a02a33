/**
  Solomon.c: the hidden-XOR-mask demo. `f(x) = x ^ mask` is evaluated on the
  inputs of every worker's range and each output is tallied in a table of
  `2^N` measurement results; `find_period` then looks for an output that was
  produced twice. The sixteen workers, which the program runs as threads
  sharing one mutex, are run here one after the other.
 */
module Solomon {
  import opened Bits
  import Partition

  /** `#define N 8`: the width of the bit strings. */
  const N: nat := 8
  /** `#define MAX_THREADS 16` */
  const MaxThreads: nat := 16
  /** `1UL << N`, the number of entries of the results table. */
  const TableSize: nat := 256
  /** `(1UL << N) - 1`, the `max_value` every worker divides by the thread count. */
  const MaxValue: nat := 255
  /** The step each worker covers: `max_value / num_threads`. */
  const Step: nat := 15
  /** The inputs the sixteen workers cover together: `[0, Step * MaxThreads)`. */
  const Covered: nat := 240
  /** `main`'s example mask `0b10101010`. */
  const ExampleMask: nat := 170

  datatype MeasurementResult = MeasurementResult(value: nat, count: nat)

  lemma Constants()
    ensures TableSize == Pow2(N) && MaxValue == TableSize - 1
    ensures Step == Partition.ChunkSize(MaxValue, MaxThreads)
    ensures Covered == Step * MaxThreads
  {
    assert Pow2(N) == 256;
  }

  /** `f(x) = x ^ mask` */
  function ApplyF(x: nat, mask: nat): nat
  {
    Xor(x, mask)
  }

  /** Applying `f` twice with the same mask gives back the input. */
  lemma ApplyFInvolutive(x: nat, mask: nat)
    ensures ApplyF(ApplyF(x, mask), mask) == x
  {
    XorSelfInverse(x, mask);
  }

  /** Distinct inputs give distinct outputs. */
  lemma ApplyFInjective(x: nat, z: nat, mask: nat)
    requires ApplyF(x, mask) == ApplyF(z, mask)
    ensures x == z
  {
    XorInjective(x, z, mask);
  }

  /** An `N`-bit input and mask give an `N`-bit output, so `results[y]` is inside the table. */
  lemma ApplyFInTable(x: nat, mask: nat)
    requires x < TableSize && mask < TableSize
    ensures ApplyF(x, mask) < TableSize
  {
    Constants();
    XorBound(x, mask, N);
  }

  /** Worker `t`'s inputs `[step * t, step * t + step)`. */
  function ThreadRange(t: nat): (r: (nat, nat))
    ensures r.0 == Partition.ChunkStart(Step, t) && r.1 == Partition.ChunkEnd(Step, t)
  {
    (Step * t, Step * t + Step)
  }

  /** The sixteen ranges are disjoint and together are exactly `[0, 240)`. */
  lemma ThreadRangesCover(x: nat)
    ensures Partition.Assigned(Step, MaxThreads, x) <==> x < Covered
    ensures forall t, u :: (0 <= t < MaxThreads && 0 <= u < MaxThreads
      && Partition.InChunk(Step, t, x) && Partition.InChunk(Step, u, x)) ==> t == u
  {
    Partition.ChunksCover(Step, MaxThreads, x);
    forall t, u | 0 <= t < MaxThreads && 0 <= u < MaxThreads
      && Partition.InChunk(Step, t, x) && Partition.InChunk(Step, u, x)
      ensures t == u
    {
      Partition.ChunksDisjoint(Step, t, u, x);
    }
  }

  /** `calloc`: every entry `(0, 0)`. */
  function EmptyTable(): (r: seq<MeasurementResult>)
    ensures |r| == TableSize
  {
    seq(TableSize, i => MeasurementResult(0, 0))
  }

  function SumCounts(results: seq<MeasurementResult>): nat
  {
    if |results| == 0 then 0 else SumCounts(results[..|results| - 1]) + results[|results| - 1].count
  }

  lemma {:induction false} SumCountsUpdate(results: seq<MeasurementResult>, y: nat, e: MeasurementResult)
    requires y < |results|
    ensures SumCounts(results[y := e]) == SumCounts(results) - results[y].count + e.count
  {
    var n := |results| - 1;
    if y == n {
      assert results[y := e][..n] == results[..n];
    } else {
      assert results[y := e][..n] == results[..n][y := e];
      SumCountsUpdate(results[..n], y, e);
    }
  }

  lemma {:induction false} SumCountsZero(results: seq<MeasurementResult>)
    requires forall i :: 0 <= i < |results| ==> results[i].count == 0
    ensures SumCounts(results) == 0
  {
    if |results| > 0 {
      SumCountsZero(results[..|results| - 1]);
    }
  }

  /**
    The body of `generate_superposition_and_apply_f` for one worker: every
    input `i` of `[start, end)` records `results[i ^ mask] = (i ^ mask, count + 1)`.
    An entry changes exactly when its index XOR the mask lies in the range,
    and the counts grow by the length of the range.
   */
  method ProcessRange(results: seq<MeasurementResult>, mask: nat, start: nat, end: nat)
    returns (out: seq<MeasurementResult>)
    requires |results| == TableSize && mask < TableSize
    requires start <= end <= TableSize
    ensures |out| == TableSize
    ensures forall y :: 0 <= y < TableSize ==>
      out[y] == (if start <= ApplyF(y, mask) < end then MeasurementResult(y, results[y].count + 1) else results[y])
    ensures SumCounts(out) == SumCounts(results) + (end - start)
  {
    out := results;
    for i := start to end
      invariant |out| == TableSize
      invariant forall y :: 0 <= y < TableSize ==>
        out[y] == (if start <= ApplyF(y, mask) < i then MeasurementResult(y, results[y].count + 1) else results[y])
      invariant SumCounts(out) == SumCounts(results) + (i - start)
    {
      var y := ApplyF(i, mask);
      ApplyFInTable(i, mask);
      ApplyFInvolutive(i, mask);
      forall z | 0 <= z < TableSize && ApplyF(z, mask) == i
        ensures z == y
      {
        ApplyFInvolutive(z, mask);
      }
      SumCountsUpdate(out, y, MeasurementResult(y, out[y].count + 1));
      out := out[y := MeasurementResult(y, out[y].count + 1)];
    }
  }

  /**
    `run_simons_algorithm` with its workers run in order: after all sixteen,
    an entry holds `(y, 1)` when `y ^ mask` was some worker's input and `(0, 0)`
    otherwise, and the counts add up to 240.
   */
  method RunSimonsAlgorithm(mask: nat) returns (results: seq<MeasurementResult>)
    requires mask < TableSize
    ensures |results| == TableSize
    ensures forall y :: 0 <= y < TableSize ==>
      results[y] == (if ApplyF(y, mask) < Covered then MeasurementResult(y, 1) else MeasurementResult(0, 0))
    ensures forall y :: 0 <= y < TableSize ==> results[y].count <= 1
    ensures SumCounts(results) == Covered
  {
    results := EmptyTable();
    SumCountsZero(results);
    for t := 0 to MaxThreads
      invariant |results| == TableSize
      invariant forall y :: 0 <= y < TableSize ==>
        results[y] == (if ApplyF(y, mask) < Step * t then MeasurementResult(y, 1) else MeasurementResult(0, 0))
      invariant SumCounts(results) == Step * t
    {
      var range := ThreadRange(t);
      results := ProcessRange(results, mask, range.0, range.1);
    }
  }

  /**
    `find_period`: the first index whose count exceeds 1, or 0 when there is
    none.
   */
  method FindPeriod(results: seq<MeasurementResult>) returns (period: nat)
    requires |results| == TableSize
    ensures period < TableSize
    ensures (exists i :: 0 <= i < TableSize && results[i].count > 1) ==>
      results[period].count > 1 && forall j :: 0 <= j < period ==> results[j].count <= 1
    ensures (forall i :: 0 <= i < TableSize ==> results[i].count <= 1) ==> period == 0
  {
    period := 0;
    var i := 0;
    while i < TableSize
      invariant 0 <= i <= TableSize
      invariant forall j :: 0 <= j < i ==> results[j].count <= 1
      invariant period == 0
    {
      if results[i].count > 1 {
        period := i;
        return;
      }
      i := i + 1;
    }
  }

  /**
    What `main` computes: because `f` is injective no output is produced
    twice, so the reported period is 0 whatever the mask.
   */
  method SimonsPeriod(mask: nat) returns (period: nat)
    requires mask < TableSize
    ensures period == 0
  {
    var results := RunSimonsAlgorithm(mask);
    period := FindPeriod(results);
  }
}
