/**
  Complex amplitudes as pairs of exact reals. The programs use two hand-written
  struct types (`Complex` in Glover.c, `ComplexNumber` in Optimization.c) and
  C99 `double complex` in Shore.c; all three add and multiply by the same
  formulas, so one datatype serves every module. Floating-point rounding is not
  modelled.
 */
module Complex {

  datatype Cplx = Cplx(re: real, im: real)

  const Zero: Cplx := Cplx(0.0, 0.0)
  const One: Cplx := Cplx(1.0, 0.0)
  const MinusOne: Cplx := Cplx(-1.0, 0.0)

  /** Componentwise sum. */
  function Add(a: Cplx, b: Cplx): Cplx
  {
    Cplx(a.re + b.re, a.im + b.im)
  }

  /** `(a.re*b.re - a.im*b.im, a.re*b.im + a.im*b.re)` */
  function Mul(a: Cplx, b: Cplx): Cplx
  {
    Cplx(a.re * b.re - a.im * b.im, a.re * b.im + a.im * b.re)
  }

  function Neg(a: Cplx): Cplx
  {
    Cplx(-a.re, -a.im)
  }

  /** Squared magnitude `re*re + im*im`: the probability weight of an amplitude. */
  function Norm2(a: Cplx): (p: real)
    ensures p >= 0.0
  {
    SquarePositive(a.re);
    SquarePositive(a.im);
    Square(a.re) + Square(a.im)
  }

  function Square(x: real): real
  {
    x * x
  }

  lemma SquarePositive(x: real)
    ensures Square(x) >= 0.0
    ensures x != 0.0 ==> Square(x) > 0.0
  {
    if x > 0.0 {
      calc {
        Square(x);
        x * x;
      >
        0.0 * x;
      }
    } else if x < 0.0 {
      calc {
        Square(x);
        (-x) * (-x);
      >
        0.0 * (-x);
      }
    }
  }

  /** Only the zero amplitude has zero weight. */
  lemma Norm2ZeroIff(a: Cplx)
    ensures Norm2(a) == 0.0 <==> a == Zero
  {
    SquarePositive(a.re);
    SquarePositive(a.im);
  }

  lemma AddCommutative(a: Cplx, b: Cplx)
    ensures Add(a, b) == Add(b, a)
  {
  }

  lemma AddZero(a: Cplx)
    ensures Add(a, Zero) == a && Add(Zero, a) == a
  {
  }

  /** Multiplying by `(1, 0)` is the identity. */
  lemma MulOne(a: Cplx)
    ensures Mul(a, One) == a && Mul(One, a) == a
  {
  }

  /** Multiplying by `(-1, 0)` negates. */
  lemma MulMinusOne(a: Cplx)
    ensures Mul(a, MinusOne) == Neg(a)
  {
  }

  lemma MulZero(a: Cplx)
    ensures Mul(Zero, a) == Zero && Mul(a, Zero) == Zero
  {
  }

  lemma MulCommutative(a: Cplx, b: Cplx)
    ensures Mul(a, b) == Mul(b, a)
  {
  }

  lemma MulAssociative(a: Cplx, b: Cplx, c: Cplx)
    ensures Mul(Mul(a, b), c) == Mul(a, Mul(b, c))
  {
    assert Mul(Mul(a, b), c).re == a.re * b.re * c.re - a.im * b.im * c.re - a.re * b.im * c.im - a.im * b.re * c.im;
    assert Mul(a, Mul(b, c)).re == a.re * b.re * c.re - a.re * b.im * c.im - a.im * b.re * c.im - a.im * b.im * c.re;
    assert Mul(Mul(a, b), c).im == a.re * b.re * c.im - a.im * b.im * c.im + a.re * b.im * c.re + a.im * b.re * c.re;
    assert Mul(a, Mul(b, c)).im == a.re * b.re * c.im + a.re * b.im * c.re + a.im * b.re * c.re - a.im * b.im * c.im;
  }

  /** The squared magnitude of a product is the product of the squared magnitudes. */
  lemma Norm2Mul(a: Cplx, b: Cplx)
    ensures Norm2(Mul(a, b)) == Norm2(a) * Norm2(b)
  {
    var x, y, u, v := a.re, a.im, b.re, b.im;
    calc {
      Norm2(Mul(a, b));
      Square(x * u - y * v) + Square(x * v + y * u);
      (x * u - y * v) * (x * u - y * v) + (x * v + y * u) * (x * v + y * u);
      x * x * u * u + y * y * v * v + x * x * v * v + y * y * u * u;
      (x * x + y * y) * (u * u + v * v);
      (Square(x) + Square(y)) * (Square(u) + Square(v));
    }
  }
}
