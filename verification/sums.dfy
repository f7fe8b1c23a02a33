/**
  Finite sums of reals, accumulated left to right as the programs' `sum +=`
  loops do. Over exact reals the order does not matter; it is kept so that a
  prefix of the loop is a prefix of the sum.
 */
module Sums {

  function Sum(xs: seq<real>): real
  {
    if |xs| == 0 then 0.0 else Sum(xs[..|xs| - 1]) + xs[|xs| - 1]
  }

  /** `c - xs[i]` for every `i`. */
  function Reflect(xs: seq<real>, c: real): (r: seq<real>)
    ensures |r| == |xs|
    ensures forall i :: 0 <= i < |xs| ==> r[i] == c - xs[i]
  {
    seq(|xs|, i requires 0 <= i < |xs| => c - xs[i])
  }

  /** `xs[i] / d` for every `i`. */
  function Divide(xs: seq<real>, d: real): (r: seq<real>)
    requires d != 0.0
    ensures |r| == |xs|
    ensures forall i :: 0 <= i < |xs| ==> r[i] == xs[i] / d
  {
    seq(|xs|, i requires 0 <= i < |xs| => xs[i] / d)
  }

  lemma DivSelf(x: real)
    requires x != 0.0
    ensures x / x == 1.0
  {
  }

  lemma {:induction false} SumConstant(xs: seq<real>, c: real)
    requires forall i :: 0 <= i < |xs| ==> xs[i] == c
    ensures Sum(xs) == (|xs| as real) * c
  {
    if |xs| > 0 {
      SumConstant(xs[..|xs| - 1], c);
    }
  }

  lemma {:induction false} SumReflect(xs: seq<real>, c: real)
    ensures Sum(Reflect(xs, c)) == (|xs| as real) * c - Sum(xs)
  {
    if |xs| > 0 {
      var n := |xs| - 1;
      assert Reflect(xs, c)[..n] == Reflect(xs[..n], c);
      SumReflect(xs[..n], c);
    }
  }

  /** Replacing one entry changes the sum by the difference. */
  lemma {:induction false} SumUpdate(xs: seq<real>, k: nat, v: real)
    requires k < |xs|
    ensures Sum(xs[k := v]) == Sum(xs) - xs[k] + v
  {
    var n := |xs| - 1;
    if k == n {
      assert xs[k := v][..n] == xs[..n];
    } else {
      assert xs[k := v][..n] == xs[..n][k := v];
      SumUpdate(xs[..n], k, v);
    }
  }

  lemma {:induction false} SumDivide(xs: seq<real>, d: real)
    requires d != 0.0
    ensures Sum(Divide(xs, d)) == Sum(xs) / d
  {
    if |xs| > 0 {
      var n := |xs| - 1;
      assert Divide(xs, d)[..n] == Divide(xs[..n], d);
      SumDivide(xs[..n], d);
    }
  }

  /** A prefix sum of non-negative terms never exceeds a longer prefix sum. */
  lemma {:induction false} PrefixSumMonotone(xs: seq<real>, m: nat, k: nat)
    requires m <= k <= |xs|
    requires forall i :: 0 <= i < |xs| ==> xs[i] >= 0.0
    ensures Sum(xs[..m]) <= Sum(xs[..k])
    decreases k - m
  {
    if m < k {
      assert xs[..k][..k - 1] == xs[..k - 1];
      PrefixSumMonotone(xs, m, k - 1);
    }
  }

  /** The prefix sums of a sequence that is zero except at `k`. */
  lemma {:induction false} PrefixSumOfPoint(xs: seq<real>, k: nat, m: nat)
    requires k < |xs| && m <= |xs|
    requires forall i :: 0 <= i < |xs| && i != k ==> xs[i] == 0.0
    ensures Sum(xs[..m]) == if m > k then xs[k] else 0.0
  {
    if m > 0 {
      assert xs[..m][..m - 1] == xs[..m - 1];
      PrefixSumOfPoint(xs, k, m - 1);
    }
  }
}
