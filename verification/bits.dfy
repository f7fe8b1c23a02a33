/**
  Basis-index arithmetic on unbounded naturals: powers of two (`1 << k`), the bit
  `(i >> k) & 1`, exclusive or (`^`) and the single-bit toggle `i ^ (1 << t)`.
  For the constants the programs use (at most 16 qubits, 8-bit masks) every
  index stays far below the width of their integer types, so no wrap-around is
  modelled here. For a general qubit count `n` the model's naturals do not
  follow C: `1 << n` overflows a 32-bit `int` from `n = 31` on.
 */
module Bits {

  /** `1 << k` */
  function Pow2(k: nat): (r: nat)
    ensures r >= 1
    ensures k > 0 ==> r >= 2
  {
    if k == 0 then 1 else 2 * Pow2(k - 1)
  }

  /** Bit `k` of `i`, as `(i >> k) & 1` computes it. */
  function Bit(i: nat, k: nat): (b: nat)
    ensures b <= 1
  {
    if k == 0 then i % 2 else Bit(i / 2, k - 1)
  }

  /** Bitwise exclusive or, as `^` on unsigned operands computes it. */
  function Xor(a: nat, b: nat): nat
    decreases a + b
  {
    if a == 0 && b == 0 then 0 else 2 * Xor(a / 2, b / 2) + (a % 2 + b % 2) % 2
  }

  /** `i ^ (1 << t)`: the index `i` with bit `t` toggled. */
  function FlipBit(i: nat, t: nat): nat
  {
    Xor(i, Pow2(t))
  }

  lemma Pow2Monotone(a: nat, b: nat)
    requires a <= b
    ensures Pow2(a) <= Pow2(b)
    decreases b
  {
    if a < b {
      Pow2Monotone(a, b - 1);
    }
  }

  /** The recursive step of `Xor` holds for every pair, including `0, 0`. */
  lemma XorStep(a: nat, b: nat)
    ensures Xor(a, b) == 2 * Xor(a / 2, b / 2) + (a % 2 + b % 2) % 2
  {
  }

  /** XOR with a fixed mask is its own inverse. */
  lemma {:induction false} XorSelfInverse(x: nat, m: nat)
    ensures Xor(Xor(x, m), m) == x
    decreases x + m
  {
    if x == 0 && m == 0 {
    } else {
      var xb, mb := x % 2, m % 2;
      var h := Xor(x / 2, m / 2);
      var low := (xb + mb) % 2;
      var y := Xor(x, m);
      assert y == 2 * h + low;
      calc {
        Xor(y, m);
      == { XorStep(y, m); }
        2 * Xor(y / 2, m / 2) + (y % 2 + mb) % 2;
      == { HalveTwice(h, low); }
        2 * Xor(h, m / 2) + (low + mb) % 2;
      == { XorSelfInverse(x / 2, m / 2); ParityCancel(xb, mb); }
        2 * (x / 2) + xb;
      }
    }
  }

  lemma ParityCancel(a: nat, b: nat)
    requires a <= 1 && b <= 1
    ensures ((a + b) % 2 + b) % 2 == a
  {
  }

  lemma HalveTwice(h: nat, low: nat)
    requires low <= 1
    ensures (2 * h + low) / 2 == h && (2 * h + low) % 2 == low
  {
  }

  /** XOR with a fixed mask is injective. */
  lemma XorInjective(a: nat, b: nat, m: nat)
    requires Xor(a, m) == Xor(b, m)
    ensures a == b
  {
    XorSelfInverse(a, m);
    XorSelfInverse(b, m);
  }

  /** XOR never leaves the range of `n`-bit numbers. */
  lemma {:induction false} XorBound(a: nat, b: nat, n: nat)
    requires a < Pow2(n) && b < Pow2(n)
    ensures Xor(a, b) < Pow2(n)
  {
    if n == 0 {
      assert a == 0 && b == 0;
    } else {
      XorStep(a, b);
      XorBound(a / 2, b / 2, n - 1);
    }
  }

  /** Bit `k` of `a ^ b` is the sum of the operands' bits modulo 2. */
  lemma {:induction false} BitXor(a: nat, b: nat, k: nat)
    ensures Bit(Xor(a, b), k) == (Bit(a, k) + Bit(b, k)) % 2
  {
    XorStep(a, b);
    if k > 0 {
      BitXor(a / 2, b / 2, k - 1);
    }
  }

  /** `1 << t` has exactly bit `t` set. */
  lemma {:induction false} BitPow2(t: nat, k: nat)
    ensures Bit(Pow2(t), k) == if k == t then 1 else 0
  {
    if k == 0 {
      if t > 0 {
        assert Pow2(t) == 2 * Pow2(t - 1);
      }
    } else if t == 0 {
      assert Bit(1, k) == Bit(0, k - 1);
      ZeroHasNoBits(k - 1);
    } else {
      BitPow2(t - 1, k - 1);
    }
  }

  lemma {:induction false} ZeroHasNoBits(k: nat)
    ensures Bit(0, k) == 0
  {
    if k > 0 {
      ZeroHasNoBits(k - 1);
    }
  }

  /** Toggling bit `t` changes bit `t` and no other bit. */
  lemma BitFlip(i: nat, t: nat, k: nat)
    ensures Bit(FlipBit(i, t), k) == if k == t then 1 - Bit(i, k) else Bit(i, k)
  {
    BitXor(i, Pow2(t), k);
    BitPow2(t, k);
  }

  lemma FlipBitInvolutive(i: nat, t: nat)
    ensures FlipBit(FlipBit(i, t), t) == i
  {
    XorSelfInverse(i, Pow2(t));
  }

  /** Toggling a bit below `n` keeps an `n`-bit index an `n`-bit index. */
  lemma FlipBitBound(i: nat, t: nat, n: nat)
    requires i < Pow2(n) && t < n
    ensures FlipBit(i, t) < Pow2(n)
  {
    Pow2Monotone(t + 1, n);
    XorBound(i, Pow2(t), n);
  }

  /** Products of naturals grow with both factors. */
  lemma MulLe(a: nat, b: nat, c: nat, d: nat)
    requires a <= b && c <= d
    ensures a * c <= b * d
  {
    calc {
      a * c;
    <=
      b * c;
    <=
      b * d;
    }
  }
}
