/**
  Shore.c's `quantum_phase_estimation`: a static table of 65536 phase angles is
  filled at `k * (1 << N) + j` for every `j < k < N`, and then the gate
  `controlled_phase_shift(n - 1 - j, n - 1 - k)` is applied for every
  `j < k < n` with the angle read back from the same index. `2 * PI`, `pow` and
  `cexp` are parameters. The table is filled on the first call only; the model
  describes that first call.
 */
module ShoreEstimation {
  import opened Bits
  import opened Complex
  import opened StateVector
  import opened ShorePhase

  /** `static double precomputed_phases[65536]` */
  const TableSize: nat := 65536

  /** One call of `controlled_phase_shift` issued by the schedule, with the loop indices that chose it. */
  datatype Gate = Gate(control: nat, target: nat, row: nat, col: nat)

  /** `0 + 1 + ... + (m - 1)`, the number of gates of the first `m` rows. */
  function Triangle(m: nat): nat
  {
    if m == 0 then 0 else Triangle(m - 1) + (m - 1)
  }

  lemma {:induction false} TriangleClosed(m: nat)
    ensures 2 * Triangle(m) == m * (m - 1)
  {
    if m > 0 {
      TriangleClosed(m - 1);
    }
  }

  lemma {:induction false} TriangleMonotone(a: nat, b: nat)
    requires a <= b
    ensures Triangle(a) <= Triangle(b)
    decreases b - a
  {
    if a < b {
      TriangleMonotone(a, b - 1);
    }
  }

  /**
    The gates of row `k`: `j = 0, ..., k - 1`. The contract restates the loop;
    what the rows add up to is stated by `Schedule` and `ScheduleAt`.
   */
  function Row(n: nat, k: nat): (r: seq<Gate>)
    requires k < n
    ensures |r| == k
    ensures forall j :: 0 <= j < k ==> r[j] == Gate(n - 1 - j, n - 1 - k, k, j)
  {
    seq(k, j requires 0 <= j < k => Gate(n - 1 - j, n - 1 - k, k, j))
  }

  /** Every gate of the loop nest lies strictly below the diagonal, with its qubits derived from its indices. */
  predicate WellPlaced(n: nat, k: nat, g: Gate)
  {
    && g.col < g.row < k
    && g.target == n - 1 - g.row
    && g.control == n - 1 - g.col
  }

  /** The gates of rows `0, ..., k - 1`, in the order the loops issue them. */
  function Rows(n: nat, k: nat): (r: seq<Gate>)
    requires k <= n
    ensures |r| == Triangle(k)
    ensures forall i :: 0 <= i < |r| ==> WellPlaced(n, k, r[i])
  {
    if k == 0 then [] else Rows(n, k - 1) + Row(n, k - 1)
  }

  /** The whole schedule for `n` qubits. */
  function Schedule(n: nat): (r: seq<Gate>)
    ensures 2 * |r| == n * (n - 1)
    ensures forall i :: 0 <= i < |r| ==> r[i].target < r[i].control < n
  {
    TriangleClosed(n);
    Rows(n, n)
  }

  /** Gate `(k, j)` is issued at position `Triangle(k) + j`, so every pair below the diagonal is issued once. */
  lemma {:induction false} RowsAt(n: nat, m: nat, k: nat, j: nat)
    requires j < k < m <= n
    ensures Triangle(k) + j < |Rows(n, m)|
    ensures Rows(n, m)[Triangle(k) + j] == Gate(n - 1 - j, n - 1 - k, k, j)
  {
    if k == m - 1 {
      assert Rows(n, m) == Rows(n, m - 1) + Row(n, m - 1);
    } else {
      TriangleMonotone(k + 1, m - 1);
      RowsAt(n, m - 1, k, j);
    }
  }

  lemma ScheduleAt(n: nat, k: nat, j: nat)
    requires j < k < n
    ensures Triangle(k) + j < |Schedule(n)|
    ensures Schedule(n)[Triangle(k) + j] == Gate(n - 1 - j, n - 1 - k, k, j)
  {
    RowsAt(n, n, k, j);
  }

  /** `k * (1 << N) + j`, where the table entry of `(k, j)` is written and read. */
  function PhaseIndex(k: nat, j: nat, bigN: nat): nat
  {
    k * Pow2(bigN) + j
  }

  /** Every index the rows `0, ..., rows - 1` use lies inside the table. */
  predicate IndicesFit(rows: nat, bigN: nat)
  {
    forall k, j :: 0 <= j < k < rows ==> PhaseIndex(k, j, bigN) < TableSize
  }

  /**
    `idx` is the first index outside the table that the loops over
    `j < k < rows` reach: some pair has that index, and every pair with a
    smaller index is inside the table. The loops visit the pairs in
    increasing index order, so it is also the first one visited.
   */
  predicate IsFirstBad(rows: nat, bigN: nat, idx: nat)
  {
    && TableSize <= idx
    && (exists k, j :: 0 <= j < k < rows && PhaseIndex(k, j, bigN) == idx)
    && (forall k, j :: 0 <= j < k < rows && PhaseIndex(k, j, bigN) < idx ==> PhaseIndex(k, j, bigN) < TableSize)
  }

  lemma {:induction false} BelowPow2(n: nat)
    ensures n < Pow2(n)
  {
    if n > 0 {
      BelowPow2(n - 1);
    }
  }

  /** Indices below the stride decode uniquely into row and column. */
  lemma DecodeIndex(k: nat, j: nat, p: nat)
    requires j < p
    ensures (k * p + j) / p == k && (k * p + j) % p == j
  {
    var q, r := (k * p + j) / p, (k * p + j) % p;
    assert q * p + r == k * p + j;
    if q < k {
      MulLe(q + 1, k, p, p);
    } else if k < q {
      MulLe(k + 1, q, p, p);
    }
  }

  /** A pair reached with a smaller index comes earlier in the loop order. */
  lemma IndexOrder(k: nat, j: nat, k': nat, j': nat, p: nat)
    requires j < p && j' < p
    requires k' * p + j' < k * p + j
    ensures k' < k || (k' == k && j' < j)
  {
    if k' > k {
      MulLe(k + 1, k', p, p);
    }
  }

  /** The writes stay inside the table exactly when `N <= 12`. */
  lemma WritesFitIff(bigN: nat)
    ensures IndicesFit(bigN, bigN) <==> bigN <= 12
  {
    if bigN <= 12 {
      Pow2Monotone(bigN, 12);
      assert Pow2(12) == 4096;
      forall k, j | 0 <= j < k < bigN
        ensures PhaseIndex(k, j, bigN) < TableSize
      {
        MulLe(k, 11, Pow2(bigN), 4096);
      }
    } else {
      Pow2Monotone(13, bigN);
      assert Pow2(13) == 8192;
      assert PhaseIndex(12, 0, bigN) >= TableSize;
    }
  }

  /** With `N = 16`, as `compute_thread` passes, the very first write of row 1 is index 65536. */
  lemma ComputeThreadFirstBadWrite(idx: nat)
    ensures IsFirstBad(16, 16, idx) <==> idx == TableSize
  {
    assert Pow2(12) == 4096;
    assert Pow2(14) == 16384;
    assert Pow2(16) == TableSize;
    assert PhaseIndex(1, 0, 16) == TableSize;
    forall k, j | 0 <= j < k < 16
      ensures PhaseIndex(k, j, 16) >= TableSize
    {
      MulLe(1, k, TableSize, TableSize);
    }
  }

  /**
    A row stride of `N` instead of `1 << N`: every pair `j < k < N` gets its
    own entry, and for any `N` up to 256 all of them lie inside the table.
   */
  function CorrectedPhaseIndex(k: nat, j: nat, bigN: nat): nat
  {
    k * bigN + j
  }

  lemma CorrectedPhaseIndexFits(bigN: nat, k: nat, j: nat)
    requires j < k < bigN <= 256
    ensures CorrectedPhaseIndex(k, j, bigN) < TableSize
  {
    MulLe(k, 255, bigN, 256);
  }

  lemma CorrectedPhaseIndexInjective(bigN: nat, k: nat, j: nat, k': nat, j': nat)
    requires j < k < bigN && j' < k' < bigN
    requires CorrectedPhaseIndex(k, j, bigN) == CorrectedPhaseIndex(k', j', bigN)
    ensures k == k' && j == j'
  {
    DecodeIndex(k, j, bigN);
    DecodeIndex(k', j', bigN);
  }

  /** `2 * PI * pow(a, j) / pow(N, k + 1)` with `2 * PI` as a parameter. */
  function PhaseAngle(twoPi: real, a: nat, bigN: nat, k: nat, j: nat): real
    requires bigN > 0
  {
    twoPi * Power(a, j) / Power(bigN, k + 1)
  }

  function Power(b: nat, e: nat): (r: real)
    ensures b > 0 ==> r > 0.0
  {
    if e == 0 then 1.0 else (b as real) * Power(b, e - 1)
  }

  /**
    The table after the writes: the entry of every pair `j < k < N` holds its
    angle and the others keep the static zero.
   */
  function FilledTable(twoPi: real, a: nat, bigN: nat): (t: seq<real>)
    ensures |t| == TableSize
  {
    var p := Pow2(bigN);
    seq(TableSize, idx => if idx % p < idx / p < bigN then PhaseAngle(twoPi, a, bigN, idx / p, idx % p) else 0.0)
  }

  lemma FilledTableAt(twoPi: real, a: nat, bigN: nat, k: nat, j: nat)
    requires j < k < bigN && PhaseIndex(k, j, bigN) < TableSize
    ensures FilledTable(twoPi, a, bigN)[PhaseIndex(k, j, bigN)] == PhaseAngle(twoPi, a, bigN, k, j)
  {
    BelowPow2(bigN);
    DecodeIndex(k, j, Pow2(bigN));
  }

  /**
    `table` holds the angles of the pairs before `(k, j)` in loop order and the
    static zero everywhere else.
   */
  predicate FilledUpTo(table: seq<real>, twoPi: real, a: nat, bigN: nat, k: nat, j: nat)
    requires |table| == TableSize && j <= k <= bigN
  {
    var p := Pow2(bigN);
    forall idx :: 0 <= idx < TableSize ==>
      table[idx] == (if idx % p < idx / p < k || (idx / p == k && idx % p < j)
        then PhaseAngle(twoPi, a, bigN, idx / p, idx % p) else 0.0)
  }

  /** Writing the angle of `(k, j)` extends the filled part by one pair. */
  lemma FillStep(table: seq<real>, twoPi: real, a: nat, bigN: nat, k: nat, j: nat)
    requires |table| == TableSize && j < k < bigN
    requires PhaseIndex(k, j, bigN) < TableSize
    requires FilledUpTo(table, twoPi, a, bigN, k, j)
    ensures FilledUpTo(table[PhaseIndex(k, j, bigN) := PhaseAngle(twoPi, a, bigN, k, j)], twoPi, a, bigN, k, j + 1)
  {
    var p := Pow2(bigN);
    BelowPow2(bigN);
    var idx := PhaseIndex(k, j, bigN);
    var angle := PhaseAngle(twoPi, a, bigN, k, j);
    var table' := table[idx := angle];
    DecodeIndex(k, j, p);
    forall i | 0 <= i < TableSize
      ensures table'[i] == (if i % p < i / p < k || (i / p == k && i % p < j + 1)
        then PhaseAngle(twoPi, a, bigN, i / p, i % p) else 0.0)
    {
      if i != idx {
        OtherIndex(i, k, j, p);
      }
    }
  }

  /** An index other than `k * p + j` does not decode to `(k, j)`. */
  lemma OtherIndex(i: nat, k: nat, j: nat, p: nat)
    requires 0 < p && i != k * p + j
    ensures !(i / p == k && i % p == j)
  {
    assert i == (i / p) * p + i % p;
  }

  /**
    The table-filling loops of `quantum_phase_estimation`. They succeed
    exactly when every write fits, and otherwise stop at the first write
    outside the table.
   */
  method FillPhaseTable(twoPi: real, a: nat, bigN: nat) returns (r: Checked<seq<real>>)
    ensures r.Ok? <==> IndicesFit(bigN, bigN)
    ensures r.Ok? ==> r.value == FilledTable(twoPi, a, bigN)
    ensures r.OutOfRange? ==> IsFirstBad(bigN, bigN, r.index)
  {
    var p := Pow2(bigN);
    BelowPow2(bigN);
    var table := seq(TableSize, idx => 0.0);
    for k := 0 to bigN
      invariant |table| == TableSize
      invariant IndicesFit(k, bigN)
      invariant FilledUpTo(table, twoPi, a, bigN, k, 0)
    {
      for j := 0 to k
        invariant |table| == TableSize
        invariant IndicesFit(k, bigN)
        invariant forall j' :: 0 <= j' < j ==> PhaseIndex(k, j', bigN) < TableSize
        invariant FilledUpTo(table, twoPi, a, bigN, k, j)
      {
        var idx := k * p + j;
        if idx >= TableSize {
          forall k', j' | 0 <= j' < k' < bigN && PhaseIndex(k', j', bigN) < idx
            ensures PhaseIndex(k', j', bigN) < TableSize
          {
            IndexOrder(k, j, k', j', p);
          }
          assert PhaseIndex(k, j, bigN) == idx;
          return OutOfRange(idx);
        }
        FillStep(table, twoPi, a, bigN, k, j);
        table := table[idx := PhaseAngle(twoPi, a, bigN, k, j)];
      }
      forall k', j' | 0 <= j' < k' < k + 1
        ensures PhaseIndex(k', j', bigN) < TableSize
      {
      }
    }
    r := Ok(table);
  }

  /** Every gate of the sequence reads an index inside `table`. */
  predicate Readable(gates: seq<Gate>, bigN: nat, table: seq<real>)
  {
    forall i :: 0 <= i < |gates| ==> PhaseIndex(gates[i].row, gates[i].col, bigN) < |table|
  }

  /** Applies the gates in order, each with the phase `rotation` gives its table entry. */
  function ApplyGates(state: seq<Cplx>, gates: seq<Gate>, table: seq<real>, bigN: nat, rotation: real -> Cplx)
    : (r: seq<Cplx>)
    requires Readable(gates, bigN, table)
    ensures |r| == |state|
  {
    if |gates| == 0 then state
    else
      var g := gates[|gates| - 1];
      PhaseShift(ApplyGates(state, gates[..|gates| - 1], table, bigN, rotation),
        g.control, g.target, rotation(table[PhaseIndex(g.row, g.col, bigN)]))
  }

  lemma ScheduleReadable(n: nat, bigN: nat, table: seq<real>)
    requires IndicesFit(n, bigN) && |table| == TableSize
    ensures Readable(Schedule(n), bigN, table)
  {
    var s := Schedule(n);
    forall i | 0 <= i < |s|
      ensures PhaseIndex(s[i].row, s[i].col, bigN) < |table|
    {
      assert WellPlaced(n, n, s[i]);
    }
  }

  lemma {:induction false} ApplyGatesAppend(state: seq<Cplx>, front: seq<Gate>, back: seq<Gate>, table: seq<real>,
                                            bigN: nat, rotation: real -> Cplx)
    requires Readable(front, bigN, table) && Readable(back, bigN, table)
    ensures Readable(front + back, bigN, table)
    ensures ApplyGates(state, front + back, table, bigN, rotation)
      == ApplyGates(ApplyGates(state, front, table, bigN, rotation), back, table, bigN, rotation)
  {
    if |back| > 0 {
      var m := |back| - 1;
      assert (front + back)[..|front + back| - 1] == front + back[..m];
      ApplyGatesAppend(state, front, back[..m], table, bigN, rotation);
    } else {
      assert front + back == front;
    }
  }

  function Max(a: nat, b: nat): nat
  {
    if a < b then b else a
  }

  /**
    The inner loop of the gate phase for row `k`: the gates `j = 0, ..., k - 1`
    in order, each reading its angle at `k * (1 << N) + j`. The indices of a
    row increase with `j`, so the first one outside the table is 65536 itself,
    or the row's first index when that is already outside.
   */
  method ApplyRow(s0: seq<Cplx>, n: nat, k: nat, bigN: nat, table: seq<real>, rotation: real -> Cplx)
    returns (r: Checked<seq<Cplx>>)
    requires |s0| == Pow2(n) && k < n && |table| == TableSize
    ensures r.Ok? <==> forall j :: 0 <= j < k ==> PhaseIndex(k, j, bigN) < TableSize
    ensures r.OutOfRange? ==> r.index == Max(TableSize, PhaseIndex(k, 0, bigN))
    ensures r.Ok? ==> (Readable(Row(n, k), bigN, table)
      && r.value == ApplyGates(s0, Row(n, k), table, bigN, rotation))
  {
    var p := Pow2(bigN);
    var row := Row(n, k);
    var s := s0;
    assert row[..0] == [];
    for j := 0 to k
      invariant |s| == |s0|
      invariant forall j' :: 0 <= j' < j ==> PhaseIndex(k, j', bigN) < TableSize
      invariant Readable(row[..j], bigN, table)
      invariant s == ApplyGates(s0, row[..j], table, bigN, rotation)
    {
      var idx := k * p + j;
      if idx >= TableSize {
        FirstBadInRow(k, j, bigN);
        return OutOfRange(idx);
      }
      RowStep(s0, s, n, k, j, bigN, table, rotation);
      s := ControlledPhaseShift(s, n - 1 - j, n - 1 - k, n, rotation(table[idx]));
    }
    assert row[..k] == row;
    r := Ok(s);
  }

  /** The indices of a row are consecutive, so its first one outside the table is 65536 or the row's start. */
  lemma FirstBadInRow(k: nat, j: nat, bigN: nat)
    requires PhaseIndex(k, j, bigN) >= TableSize
    requires forall j' :: 0 <= j' < j ==> PhaseIndex(k, j', bigN) < TableSize
    ensures PhaseIndex(k, j, bigN) == Max(TableSize, PhaseIndex(k, 0, bigN))
  {
    if j > 0 {
      assert PhaseIndex(k, j - 1, bigN) < TableSize;
    }
  }

  /** One more gate of row `k` applied to the state after the first `j`. */
  lemma RowStep(s0: seq<Cplx>, s: seq<Cplx>, n: nat, k: nat, j: nat, bigN: nat, table: seq<real>,
                rotation: real -> Cplx)
    requires j < k < n && |table| == TableSize && PhaseIndex(k, j, bigN) < TableSize
    requires Readable(Row(n, k)[..j], bigN, table)
    requires s == ApplyGates(s0, Row(n, k)[..j], table, bigN, rotation)
    ensures Readable(Row(n, k)[..j + 1], bigN, table)
    ensures ApplyGates(s0, Row(n, k)[..j + 1], table, bigN, rotation)
      == PhaseShift(s, n - 1 - j, n - 1 - k, rotation(table[PhaseIndex(k, j, bigN)]))
  {
    var row := Row(n, k);
    assert row[..j + 1][..j] == row[..j];
    assert row[..j + 1][j] == Gate(n - 1 - j, n - 1 - k, k, j);
  }

  /**
    `quantum_phase_estimation(state, n, a, N)` on its first call. It fails at
    the first write outside the table; otherwise it fails in the first row of
    gates that reads outside the table, at the first such read; otherwise it
    applies the whole schedule with the angles of the filled table.
   */
  method QuantumPhaseEstimation(state: seq<Cplx>, n: nat, a: nat, bigN: nat, twoPi: real, rotation: real -> Cplx)
    returns (r: Checked<seq<Cplx>>)
    requires |state| == Pow2(n)
    ensures r.Ok? <==> IndicesFit(bigN, bigN) && IndicesFit(n, bigN)
    ensures !IndicesFit(bigN, bigN) ==> r.OutOfRange? && IsFirstBad(bigN, bigN, r.index)
    ensures IndicesFit(bigN, bigN) && !IndicesFit(n, bigN) ==> (r.OutOfRange?
      && exists k :: (0 <= k < n && IndicesFit(k, bigN) && !IndicesFit(k + 1, bigN)
        && r.index == Max(TableSize, PhaseIndex(k, 0, bigN))))
    ensures r.Ok? ==> (Readable(Schedule(n), bigN, FilledTable(twoPi, a, bigN))
      && r.value == ApplyGates(state, Schedule(n), FilledTable(twoPi, a, bigN), bigN, rotation))
  {
    var filled := FillPhaseTable(twoPi, a, bigN);
    if filled.OutOfRange? {
      return OutOfRange(filled.index);
    }
    var table := filled.value;
    var s := state;
    for k := 0 to n
      invariant |s| == |state|
      invariant IndicesFit(k, bigN)
      invariant Readable(Rows(n, k), bigN, table)
      invariant s == ApplyGates(state, Rows(n, k), table, bigN, rotation)
    {
      var next := ApplyRow(s, n, k, bigN, table, rotation);
      if next.OutOfRange? {
        var j :| 0 <= j < k && PhaseIndex(k, j, bigN) >= TableSize;
        assert !IndicesFit(k + 1, bigN);
        return OutOfRange(next.index);
      }
      ApplyGatesAppend(state, Rows(n, k), Row(n, k), table, bigN, rotation);
      s := next.value;
    }
    r := Ok(s);
  }
}
