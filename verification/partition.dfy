/**
  Splitting a range of work units among worker threads by integer division, as
  Shore.c's `main` and Solomon.c's thread body do: worker `i` of `workers`
  receives `[i * size, i * size + size)` with `size = total / workers`, so the
  last `total % workers` units are assigned to nobody. A balanced split, which
  hands one of the remainder units to each of the first workers, is given for
  comparison.
 */
module Partition {
  import Bits

  /** `total / workers`, the number of units every worker receives. */
  function ChunkSize(total: nat, workers: nat): nat
    requires workers > 0
  {
    total / workers
  }

  function ChunkStart(size: nat, i: nat): nat
  {
    i * size
  }

  function ChunkEnd(size: nat, i: nat): nat
  {
    i * size + size
  }

  predicate InChunk(size: nat, i: nat, x: nat)
  {
    ChunkStart(size, i) <= x < ChunkEnd(size, i)
  }

  /** Some worker below `workers` is given unit `x`. */
  predicate Assigned(size: nat, workers: nat, x: nat)
  {
    exists i :: 0 <= i < workers && InChunk(size, i, x)
  }

  /** No unit is given to two workers. */
  lemma ChunksDisjoint(size: nat, i: nat, j: nat, x: nat)
    requires InChunk(size, i, x) && InChunk(size, j, x)
    ensures i == j
  {
    if i < j {
      Bits.MulLe(i + 1, j, size, size);
    } else if j < i {
      Bits.MulLe(j + 1, i, size, size);
    }
  }

  /** The workers together are given exactly the units below `size * workers`. */
  lemma ChunksCover(size: nat, workers: nat, x: nat)
    ensures Assigned(size, workers, x) <==> x < size * workers
  {
    if Assigned(size, workers, x) {
      var i :| 0 <= i < workers && InChunk(size, i, x);
      Bits.MulLe(i + 1, workers, size, size);
    }
    if x < size * workers {
      OwnerOfUnit(size, workers, x);
    }
  }

  lemma OwnerOfUnit(size: nat, workers: nat, x: nat)
    requires x < size * workers
    ensures InChunk(size, x / size, x) && x / size < workers
  {
    var i := x / size;
    assert size > 0;
    assert x == i * size + x % size;
    if i >= workers {
      Bits.MulLe(workers, i, size, size);
      assert false;
    }
  }

  /** The units assigned to nobody are the last `total % workers`. */
  lemma UnassignedUnits(total: nat, workers: nat, x: nat)
    requires workers > 0
    ensures x < total && !Assigned(ChunkSize(total, workers), workers, x)
        <==> total - total % workers <= x < total
  {
    ChunksCover(ChunkSize(total, workers), workers, x);
  }

  /** Worker `i`'s first unit when the remainder goes to the first workers. */
  function BalancedStart(total: nat, workers: nat, i: nat): nat
    requires workers > 0
  {
    i * (total / workers) + (if i < total % workers then i else total % workers)
  }

  lemma BalancedStartMonotone(total: nat, workers: nat, i: nat, j: nat)
    requires workers > 0 && i <= j
    ensures BalancedStart(total, workers, i) <= BalancedStart(total, workers, j)
  {
    Bits.MulLe(i, j, total / workers, total / workers);
  }

  lemma BalancedStartEnds(total: nat, workers: nat)
    requires workers > 0
    ensures BalancedStart(total, workers, 0) == 0
    ensures BalancedStart(total, workers, workers) == total
  {
  }

  /** With the balanced split every unit below `total` has a worker. */
  lemma {:induction false} BalancedChunksCover(total: nat, workers: nat, x: nat)
    requires workers > 0 && x < total
    ensures exists i :: (0 <= i < workers
      && BalancedStart(total, workers, i) <= x < BalancedStart(total, workers, i + 1))
  {
    BalancedStartEnds(total, workers);
    BalancedCoverBelow(total, workers, workers, x);
  }

  lemma {:induction false} BalancedCoverBelow(total: nat, workers: nat, k: nat, x: nat)
    requires workers > 0 && x < BalancedStart(total, workers, k)
    ensures exists i :: (0 <= i < k
      && BalancedStart(total, workers, i) <= x < BalancedStart(total, workers, i + 1))
  {
    if k == 0 {
    } else if x < BalancedStart(total, workers, k - 1) {
      BalancedCoverBelow(total, workers, k - 1, x);
    } else {
      assert BalancedStart(total, workers, k - 1) <= x < BalancedStart(total, workers, k);
    }
  }

  /** With the balanced split no unit is given to two workers. */
  lemma BalancedChunksDisjoint(total: nat, workers: nat, i: nat, j: nat, x: nat)
    requires workers > 0
    requires BalancedStart(total, workers, i) <= x < BalancedStart(total, workers, i + 1)
    requires BalancedStart(total, workers, j) <= x < BalancedStart(total, workers, j + 1)
    ensures i == j
  {
    if i < j {
      BalancedStartMonotone(total, workers, i + 1, j);
    } else if j < i {
      BalancedStartMonotone(total, workers, j + 1, i);
    }
  }
}
