/**
  The selection step of Shore.c's `measure_state`: the weights `|state[i]|^2`
  are normalised by their sum, and the result is the first index whose
  cumulative probability exceeds the draw, or 0 when none does. The draw
  `rand() / RAND_MAX` is an input.
 */
module ShoreMeasure {
  import opened Bits
  import opened Complex
  import opened Sums
  import opened StateVector

  /** `probabilities[i] /= sum` for every `i`. */
  function Distribution(state: seq<Cplx>): (ps: seq<real>)
    requires Sum(Weights(state)) != 0.0
    ensures |ps| == |state|
  {
    Divide(Weights(state), Sum(Weights(state)))
  }

  /** The cumulative probability after adding entry `i`. */
  function Cumulative(ps: seq<real>, i: nat): real
    requires i < |ps|
  {
    Sum(ps[..i + 1])
  }

  /** `i` is where the scan stops: the first index whose cumulative probability exceeds the draw. */
  predicate IsSelected(ps: seq<real>, draw: real, i: nat)
  {
    && i < |ps|
    && draw < Cumulative(ps, i)
    && forall m :: 0 <= m < i ==> draw >= Cumulative(ps, m)
  }

  /** The cumulative probability never exceeds the draw. */
  predicate NoneSelected(ps: seq<real>, draw: real)
  {
    forall m :: 0 <= m < |ps| ==> draw >= Cumulative(ps, m)
  }

  /** The scan of `measure_state`, from `result = 0`, stopping at the first success. */
  method SelectIndex(ps: seq<real>, draw: real) returns (result: nat)
    ensures IsSelected(ps, draw, result) || (result == 0 && NoneSelected(ps, draw))
  {
    result := 0;
    var cumulative := 0.0;
    for i := 0 to |ps|
      invariant cumulative == Sum(ps[..i])
      invariant forall m :: 0 <= m < i ==> draw >= Cumulative(ps, m)
    {
      assert ps[..i + 1][..i] == ps[..i];
      cumulative := cumulative + ps[i];
      if draw < cumulative {
        result := i;
        return;
      }
    }
  }

  /**
    `measure_state(state, n)` with the draw as an input. When every weight is
    0 the program divides 0 by 0; every comparison with the resulting NaN is
    false, so the result stays 0.
   */
  method MeasureState(state: seq<Cplx>, n: nat, draw: real) returns (result: nat)
    requires |state| == Pow2(n)
    ensures result < |state|
    ensures Sum(Weights(state)) == 0.0 ==> result == 0
    ensures Sum(Weights(state)) != 0.0 ==>
      (IsSelected(Distribution(state), draw, result) || (result == 0 && NoneSelected(Distribution(state), draw)))
  {
    var total := Sum(Weights(state));
    if total == 0.0 {
      result := 0;
    } else {
      result := SelectIndex(Distribution(state), draw);
    }
  }

  /** The scan stops at one place only. */
  lemma SelectedIsUnique(ps: seq<real>, draw: real, a: nat, b: nat)
    requires IsSelected(ps, draw, a) && IsSelected(ps, draw, b)
    ensures a == b
  {
    var ca, cb := Cumulative(ps, a), Cumulative(ps, b);
    assert draw < ca && draw < cb;
    if a < b {
      assert false;
    } else if b < a {
      assert false;
    }
  }

  /** Once some prefix of length `k` exceeds a non-negative draw, the scan stops before `k`. */
  lemma {:induction false} FirstCrossing(ps: seq<real>, draw: real, k: nat)
    requires 0.0 <= draw && k <= |ps| && draw < Sum(ps[..k])
    ensures exists i: nat :: i < k && IsSelected(ps, draw, i)
  {
    assert ps[..0] == [];
    if forall m :: 0 <= m < k - 1 ==> draw >= Cumulative(ps, m) {
      assert IsSelected(ps, draw, k - 1);
    } else {
      var m :| 0 <= m < k - 1 && draw < Cumulative(ps, m);
      FirstCrossing(ps, draw, m + 1);
    }
  }

  lemma DistributionFacts(state: seq<Cplx>)
    requires Sum(Weights(state)) != 0.0
    ensures Sum(Distribution(state)) == 1.0
    ensures forall i :: 0 <= i < |state| ==> Distribution(state)[i] >= 0.0
  {
    var w := Weights(state);
    SumDivide(w, Sum(w));
    assert Sum(w) / Sum(w) == 1.0;
    PrefixSumMonotone(w, 0, |w|);
    assert w[..0] == [] && w[..|w|] == w;
    assert Sum(w) > 0.0;
  }

  /** For a state with some weight, every draw in `[0, 1)` selects an index. */
  lemma SomeIndexSelected(state: seq<Cplx>, draw: real)
    requires Sum(Weights(state)) != 0.0 && 0.0 <= draw < 1.0
    ensures exists i :: IsSelected(Distribution(state), draw, i)
  {
    var ps := Distribution(state);
    DistributionFacts(state);
    assert ps[..|ps|] == ps;
    FirstCrossing(ps, draw, |ps|);
  }

  /** A draw of 1 or more is never below a cumulative probability, so nothing is selected. */
  lemma NothingSelectedFromOne(state: seq<Cplx>, draw: real)
    requires Sum(Weights(state)) != 0.0 && draw >= 1.0
    ensures NoneSelected(Distribution(state), draw)
  {
    var ps := Distribution(state);
    DistributionFacts(state);
    forall m | 0 <= m < |ps|
      ensures draw >= Cumulative(ps, m)
    {
      PrefixSumMonotone(ps, m + 1, |ps|);
      assert ps[..|ps|] == ps;
    }
  }

  /** All the weight sits at index `k`. */
  predicate PointMass(state: seq<Cplx>, k: nat)
  {
    && k < |state|
    && state[k] != Zero
    && forall i :: 0 <= i < |state| && i != k ==> state[i] == Zero
  }

  lemma PositiveWeight(a: Cplx)
    requires a != Zero
    ensures Norm2(a) > 0.0
  {
    Norm2ZeroIff(a);
  }

  /** Weights that are positive at `k` and zero elsewhere. */
  predicate WeightAt(w: seq<real>, k: nat)
  {
    && k < |w|
    && w[k] > 0.0
    && forall i :: 0 <= i < |w| && i != k ==> w[i] == 0.0
  }

  lemma PointMassZeroWeights(state: seq<Cplx>, k: nat)
    requires PointMass(state, k)
    ensures forall i :: 0 <= i < |state| && i != k ==> Weights(state)[i] == 0.0
  {
    assert Norm2(Zero) == 0.0;
  }

  lemma PointMassWeights(state: seq<Cplx>, k: nat)
    requires PointMass(state, k)
    ensures WeightAt(Weights(state), k)
  {
    PositiveWeight(state[k]);
    PointMassZeroWeights(state, k);
  }

  /** The cumulative probabilities of weights concentrated at `k` are 0 before `k` and 1 from `k` on. */
  lemma WeightAtCumulative(w: seq<real>, k: nat)
    requires WeightAt(w, k)
    ensures Sum(w) == w[k]
    ensures forall m :: 0 <= m < |w| ==> Cumulative(Divide(w, Sum(w)), m) == if m >= k then 1.0 else 0.0
  {
    PrefixSumOfPoint(w, k, |w|);
    assert w[..|w|] == w;
    forall m | 0 <= m < |w|
      ensures Cumulative(Divide(w, Sum(w)), m) == if m >= k then 1.0 else 0.0
    {
      NormalisedPrefix(w, k, m);
    }
  }

  lemma NormalisedPrefix(w: seq<real>, k: nat, m: nat)
    requires WeightAt(w, k) && m < |w| && Sum(w) == w[k]
    ensures Cumulative(Divide(w, Sum(w)), m) == if m >= k then 1.0 else 0.0
  {
    var ps := Divide(w, w[k]);
    NormalisedPoint(w, k);
    PrefixSumOfPoint(ps, k, m + 1);
  }

  /** Divided by their total, weights concentrated at `k` become 1 at `k` and 0 elsewhere. */
  lemma NormalisedPoint(w: seq<real>, k: nat)
    requires WeightAt(w, k)
    ensures Divide(w, w[k])[k] == 1.0
    ensures forall i :: 0 <= i < |w| && i != k ==> Divide(w, w[k])[i] == 0.0
  {
    DivSelf(w[k]);
    forall i | 0 <= i < |w| && i != k
      ensures Divide(w, w[k])[i] == 0.0
    {
      assert w[i] == 0.0;
    }
  }

  lemma WeightAtSelects(w: seq<real>, k: nat, draw: real, i: nat)
    requires WeightAt(w, k) && 0.0 <= draw < 1.0
    ensures Sum(w) != 0.0
    ensures IsSelected(Divide(w, Sum(w)), draw, i) <==> i == k
  {
    WeightAtCumulative(w, k);
    var ps := Divide(w, Sum(w));
    if i < k && i < |ps| {
      assert Cumulative(ps, i) == 0.0;
    } else if k < i && i < |ps| {
      assert Cumulative(ps, k) == 1.0;
    }
  }

  /** For a state with all its weight at `k`, every draw in `[0, 1)` selects exactly `k`. */
  lemma PointMassSelects(state: seq<Cplx>, k: nat, draw: real, i: nat)
    requires PointMass(state, k) && 0.0 <= draw < 1.0
    ensures Sum(Weights(state)) != 0.0
    ensures IsSelected(Distribution(state), draw, i) <==> i == k
  {
    PointMassWeights(state, k);
    WeightAtSelects(Weights(state), k, draw, i);
  }

  /** `initialize_state` followed by `measure_state` reads 0 for every draw in `[0, 1)`. */
  lemma InitialStateSelectsZero(n: nat, draw: real, i: nat)
    requires 0.0 <= draw < 1.0
    ensures Sum(Weights(InitialState(n))) != 0.0
    ensures IsSelected(Distribution(InitialState(n)), draw, i) <==> i == 0
  {
    PointMassSelects(InitialState(n), 0, draw, i);
  }

  /** `(double)rand() / RAND_MAX` for a value `k` of `rand()`. */
  function Draw(k: nat, randMax: nat): real
    requires 0 < randMax
  {
    (k as real) / (randMax as real)
  }

  /**
    When `rand()` returns `RAND_MAX` the draw is exactly 1, nothing is
    selected, and the result is 0 even for a state whose whole weight is at
    another index.
   */
  lemma TopDrawMissesPointMass(state: seq<Cplx>, k: nat, randMax: nat)
    requires PointMass(state, k) && 0 < randMax
    ensures Draw(randMax, randMax) == 1.0
    ensures Sum(Weights(state)) != 0.0
    ensures NoneSelected(Distribution(state), Draw(randMax, randMax))
  {
    assert Draw(randMax, randMax) == 1.0;
    PointMassWeights(state, k);
    WeightAtCumulative(Weights(state), k);
    NothingSelectedFromOne(state, Draw(randMax, randMax));
  }

  /** `rand() / (RAND_MAX + 1.0)`: always in `[0, 1)`. */
  function CorrectedDraw(k: nat, randMax: nat): (d: real)
    requires k <= randMax
    ensures 0.0 <= d < 1.0
  {
    (k as real) / ((randMax + 1) as real)
  }

  /** With the corrected draw a point mass at `k` is read as `k` for every value of `rand()`. */
  lemma CorrectedDrawSelectsPointMass(state: seq<Cplx>, k: nat, r: nat, randMax: nat, i: nat)
    requires PointMass(state, k) && r <= randMax
    ensures Sum(Weights(state)) != 0.0
    ensures IsSelected(Distribution(state), CorrectedDraw(r, randMax), i) <==> i == k
  {
    PointMassSelects(state, k, CorrectedDraw(r, randMax), i);
  }
}
