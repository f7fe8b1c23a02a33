/**
  Shore.c's `inverse_qft`: a static table of 65536 twiddle factors (for the
  global `N = 16`, given here as the parameter `factors`) and an in-place loop
  that overwrites `state[i]` with `sum_j state[j] * factors[i * j]`. Row `i`
  therefore reads the entries `0, ..., i - 1` that earlier rows have already
  overwritten, and `i * j` leaves the table once it reaches 65536.
 */
module ShoreTransform {
  import opened Bits
  import opened Complex
  import opened StateVector

  /** `static cplx precomputed_factors[65536]`, filled for `j < (1 << N)` with `N = 16`. */
  const FactorTableSize: nat := 65536

  /** `i * j`, the factor read for row `i` and column `j`. */
  function FactorIndex(i: nat, j: nat): nat
  {
    i * j
  }

  /** `sum_j v[j] * w[j]`, accumulated left to right from 0 as the inner loop does. */
  function Dot(v: seq<Cplx>, w: seq<Cplx>): Cplx
    requires |v| == |w|
  {
    if |v| == 0 then Zero else Add(Dot(v[..|v| - 1], w[..|w| - 1]), Mul(v[|v| - 1], w[|w| - 1]))
  }

  /** Row `i`'s factors for `m` columns, as the program indexes them. */
  function RowFactors(factors: seq<Cplx>, i: nat, m: nat): (r: seq<Cplx>)
    requires forall j :: 0 <= j < m ==> FactorIndex(i, j) < |factors|
    ensures |r| == m
    ensures forall j :: 0 <= j < m ==> r[j] == factors[FactorIndex(i, j)]
  {
    seq(m, j requires 0 <= j < m => factors[FactorIndex(i, j)])
  }

  /** Every factor row `i` reads lies inside the table. */
  predicate RowFits(i: nat, m: nat, factors: seq<Cplx>)
  {
    forall j :: 0 <= j < m ==> FactorIndex(i, j) < |factors|
  }

  /** What row `i` sees: the new values before it, the old ones from `i` on. */
  function Mix(out: seq<Cplx>, state: seq<Cplx>, i: nat): (r: seq<Cplx>)
    requires |out| == |state| && i <= |state|
    ensures |r| == |state|
  {
    out[..i] + state[i..]
  }

  /**
    `out` is what the in-place loop leaves: every entry is its row's dot
    product with the vector as it stood when that row ran.
   */
  predicate InPlaceResult(out: seq<Cplx>, state: seq<Cplx>, factors: seq<Cplx>)
  {
    && |out| == |state|
    && forall i :: 0 <= i < |out| ==>
      (RowFits(i, |out|, factors) && out[i] == Dot(Mix(out, state, i), RowFactors(factors, i, |out|)))
  }

  /** Every read of the loop nest for `n` qubits lies inside the table. */
  predicate FactorReadsFit(n: nat)
  {
    forall i, j :: 0 <= i < Pow2(n) && 0 <= j < Pow2(n) ==> FactorIndex(i, j) < FactorTableSize
  }

  /** `(i, j)` is the first read outside the table in the loops' row-major order. */
  predicate IsFirstBadFactor(n: nat, i: nat, j: nat)
  {
    && i < Pow2(n) && j < Pow2(n)
    && FactorTableSize <= FactorIndex(i, j)
    && (forall i', j' :: 0 <= i' < i && 0 <= j' < Pow2(n) ==> FactorIndex(i', j') < FactorTableSize)
    && (forall j' :: 0 <= j' < j ==> FactorIndex(i, j') < FactorTableSize)
  }

  /**
    The inner loop for one row: accumulates `s[j] * factors[i * j]` and stops
    at the first read outside the table.
   */
  method RowDot(s: seq<Cplx>, factors: seq<Cplx>, i: nat) returns (r: Checked<Cplx>)
    ensures r.Ok? <==> RowFits(i, |s|, factors)
    ensures r.Ok? ==> r.value == Dot(s, RowFactors(factors, i, |s|))
    ensures r.OutOfRange? ==> exists j :: (0 <= j < |s| && r.index == FactorIndex(i, j)
      && |factors| <= r.index && forall j' :: 0 <= j' < j ==> FactorIndex(i, j') < |factors|)
  {
    var sum := Zero;
    for j := 0 to |s|
      invariant RowFits(i, j, factors)
      invariant sum == Dot(s[..j], RowFactors(factors, i, j))
    {
      if FactorIndex(i, j) >= |factors| {
        return OutOfRange(FactorIndex(i, j));
      }
      assert s[..j + 1][..j] == s[..j];
      assert RowFactors(factors, i, j + 1)[..j] == RowFactors(factors, i, j);
      sum := Add(sum, Mul(s[j], factors[FactorIndex(i, j)]));
    }
    assert s[..|s|] == s;
    r := Ok(sum);
  }

  /** Rows `0, ..., i - 1` of `s` hold their in-place dot products. */
  predicate RowsDone(s: seq<Cplx>, state: seq<Cplx>, factors: seq<Cplx>, i: nat)
    requires |s| == |state| && i <= |s|
  {
    forall i' :: 0 <= i' < i ==>
      (RowFits(i', |s|, factors) && s[i'] == Dot(Mix(s, state, i'), RowFactors(factors, i', |s|)))
  }

  /** A view depends only on the entries before its row. */
  lemma MixUnchanged(s: seq<Cplx>, s': seq<Cplx>, state: seq<Cplx>, k: nat)
    requires |s| == |state| && |s'| == |state| && k <= |state|
    requires s'[..k] == s[..k]
    ensures Mix(s', state, k) == Mix(s, state, k)
  {
  }

  /** Writing row `i` keeps the earlier rows, whose views end before `i`, and completes row `i`. */
  lemma RowsDoneStep(s: seq<Cplx>, state: seq<Cplx>, factors: seq<Cplx>, i: nat, v: Cplx)
    requires |s| == |state| && i < |s|
    requires RowsDone(s, state, factors, i)
    requires forall i' :: i <= i' < |s| ==> s[i'] == state[i']
    requires RowFits(i, |s|, factors) && v == Dot(s, RowFactors(factors, i, |s|))
    ensures RowsDone(s[i := v], state, factors, i + 1)
  {
    var s' := s[i := v];
    assert s[..i] + state[i..] == s;
    forall i' | 0 <= i' < i + 1
      ensures RowFits(i', |s'|, factors)
      ensures s'[i'] == Dot(Mix(s', state, i'), RowFactors(factors, i', |s'|))
    {
      assert s'[..i'] == s[..i'];
      MixUnchanged(s, s', state, i');
    }
  }

  /**
    `inverse_qft(state, n)`: rows in increasing order, each overwriting its own
    entry. It fails at the first read outside the factor table, and otherwise
    leaves the in-place result.
   */
  method InverseQft(state: seq<Cplx>, n: nat, factors: seq<Cplx>) returns (r: Checked<seq<Cplx>>)
    requires |state| == Pow2(n) && |factors| == FactorTableSize
    ensures r.Ok? <==> FactorReadsFit(n)
    ensures r.OutOfRange? ==> exists i, j :: IsFirstBadFactor(n, i, j) && r.index == FactorIndex(i, j)
    ensures r.Ok? ==> InPlaceResult(r.value, state, factors)
  {
    var s := state;
    for i := 0 to Pow2(n)
      invariant |s| == |state|
      invariant forall i', j :: 0 <= i' < i && 0 <= j < Pow2(n) ==> FactorIndex(i', j) < FactorTableSize
      invariant forall i' :: i <= i' < |s| ==> s[i'] == state[i']
      invariant RowsDone(s, state, factors, i)
    {
      var row := RowDot(s, factors, i);
      if row.OutOfRange? {
        var j :| 0 <= j < |s| && row.index == FactorIndex(i, j)
          && |factors| <= row.index && forall j' :: 0 <= j' < j ==> FactorIndex(i, j') < |factors|;
        assert IsFirstBadFactor(n, i, j);
        return OutOfRange(row.index);
      }
      RowsDoneStep(s, state, factors, i, row.value);
      s := s[i := row.value];
    }
    r := Ok(s);
  }

  /** The reads stay inside the table exactly when `n <= 8`. */
  lemma FactorReadsFitIff(n: nat)
    ensures FactorReadsFit(n) <==> n <= 8
  {
    if n <= 8 {
      Pow2Monotone(n, 8);
      assert Pow2(8) == 256;
      forall i, j | 0 <= i < Pow2(n) && 0 <= j < Pow2(n)
        ensures FactorIndex(i, j) < FactorTableSize
      {
        MulLe(i, 255, j, 255);
      }
    } else {
      Pow2Monotone(9, n);
      assert Pow2(9) == 512;
      assert FactorIndex(256, 256) == FactorTableSize;
    }
  }

  /** With `n = 16`, as `compute_thread` passes, the first read outside the table is row 2, column 32768. */
  lemma ComputeThreadFirstBadFactor(i: nat, j: nat)
    ensures IsFirstBadFactor(16, i, j) <==> i == 2 && j == 32768
  {
    assert Pow2(8) == 256;
    assert Pow2(12) == 4096;
    assert Pow2(16) == 65536;
    if i == 2 && j == 32768 {
      forall i', j' | 0 <= i' < 2 && 0 <= j' < Pow2(16)
        ensures FactorIndex(i', j') < FactorTableSize
      {
      }
    }
    if IsFirstBadFactor(16, i, j) {
      assert FactorIndex(2, 32768) == FactorTableSize;
      assert i < 2 ==> FactorIndex(i, j) <= j;
      if i < 2 {
        assert false;
      } else if i > 2 {
        assert false;
      } else if j > 32768 {
        assert false;
      }
    }
  }

  /** `out[i] = sum_j state[j] * factors[(i * j * stride) % 65536]` with `stride = 1 << (16 - n)`. */
  function WrappedFactors(factors: seq<Cplx>, n: nat, i: nat): (r: seq<Cplx>)
    requires n <= 16 && |factors| == FactorTableSize
    ensures |r| == Pow2(n)
    ensures forall j :: 0 <= j < Pow2(n) ==> r[j] == factors[(i * j * Pow2(16 - n)) % FactorTableSize]
  {
    seq(Pow2(n), j => factors[(i * j * Pow2(16 - n)) % FactorTableSize])
  }

  /**
    The transform read from the untouched input, with the factor index taken
    modulo the period of the table. It is defined for every `n <= 16`.
   */
  function TextbookInverseQft(state: seq<Cplx>, n: nat, factors: seq<Cplx>): (out: seq<Cplx>)
    requires |state| == Pow2(n) && n <= 16 && |factors| == FactorTableSize
    ensures |out| == |state|
    ensures forall i :: 0 <= i < |out| ==> out[i] == Dot(state, WrappedFactors(factors, n, i))
  {
    seq(|state|, i requires 0 <= i < |state| => Dot(state, WrappedFactors(factors, n, i)))
  }

  /** A vector that is 1 at index 0 and 0 elsewhere picks the first factor. */
  lemma {:induction false} DotOfFirstUnit(v: seq<Cplx>, w: seq<Cplx>)
    requires |v| == |w| && |v| > 0
    requires v[0] == One && forall j :: 1 <= j < |v| ==> v[j] == Zero
    ensures Dot(v, w) == w[0]
  {
    var m := |v| - 1;
    if m == 0 {
      assert v[..m] == [];
      MulOne(w[0]);
      AddCommutative(Zero, Mul(One, w[0]));
      AddZero(Mul(One, w[0]));
    } else {
      DotOfFirstUnit(v[..m], w[..m]);
      MulCommutative(v[m], w[m]);
      MulZero(w[m]);
      AddZero(w[0]);
    }
  }

  /** The corrected transform maps `|0...0>` to the uniform vector `factors[0]`. */
  lemma TextbookOfInitialState(n: nat, factors: seq<Cplx>)
    requires n <= 16 && |factors| == FactorTableSize
    ensures forall i :: 0 <= i < Pow2(n) ==> TextbookInverseQft(InitialState(n), n, factors)[i] == factors[0]
  {
    forall i | 0 <= i < Pow2(n)
      ensures TextbookInverseQft(InitialState(n), n, factors)[i] == factors[0]
    {
      TextbookRowOfInitialState(n, factors, i);
    }
  }

  lemma TextbookRowOfInitialState(n: nat, factors: seq<Cplx>, i: nat)
    requires n <= 16 && |factors| == FactorTableSize && i < Pow2(n)
    ensures TextbookInverseQft(InitialState(n), n, factors)[i] == factors[0]
  {
    var v := InitialState(n);
    var w := WrappedFactors(factors, n, i);
    assert i * 0 * Pow2(16 - n) == 0;
    assert w[0] == factors[0];
    DotOfFirstUnit(v, w);
  }

  /**
    On one qubit and the input `|0>`, the in-place loop leaves `f0` in row 0
    and then `f0 * f0` in row 1, because row 1 reads the new entry 0.
   */
  lemma InPlaceOnFirstUnit(out: seq<Cplx>, factors: seq<Cplx>)
    requires |factors| == FactorTableSize
    requires InPlaceResult(out, [One, Zero], factors)
    ensures out[0] == factors[0]
    ensures out[1] == Mul(factors[0], factors[0])
  {
    var state := [One, Zero];
    assert Mix(out, state, 0) == state;
    DotOfFirstUnit(state, RowFactors(factors, 0, 2));
    var v := Mix(out, state, 1);
    var w := RowFactors(factors, 1, 2);
    assert v == [out[0], Zero];
    assert v[..1] == [out[0]] && w[..1] == [factors[0]];
    assert [out[0]][..0] == [];
    assert Dot([out[0]], [factors[0]]) == Add(Zero, Mul(out[0], factors[0]));
    AddCommutative(Zero, Mul(out[0], factors[0]));
    AddZero(Mul(out[0], factors[0]));
    MulCommutative(Zero, w[1]);
    MulZero(w[1]);
    AddZero(Mul(out[0], factors[0]));
  }

  /**
    With the program's first factor `cexp(0) / 65536`, the in-place result on
    `|0>` differs from the corrected transform in row 1.
   */
  lemma InPlaceDiffersFromTextbook(out: seq<Cplx>, factors: seq<Cplx>)
    requires |factors| == FactorTableSize && factors[0] == Cplx(1.0 / 65536.0, 0.0)
    requires InPlaceResult(out, [One, Zero], factors)
    ensures out[1] != TextbookInverseQft([One, Zero], 1, factors)[1]
  {
    InPlaceOnFirstUnit(out, factors);
    assert Pow2(1) == 2;
    var unit := [One, Zero];
    assert unit == InitialState(1);
    TextbookOfInitialState(1, factors);
  }
}
