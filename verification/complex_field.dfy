/** Exact complex arithmetic on pairs of reals, the ring in which the transform is stated. */
module ComplexField {
  datatype Complex = Complex(re: real, im: real)

  const ZERO: Complex := Complex(0.0, 0.0)
  const ONE: Complex := Complex(1.0, 0.0)
  const MINUS_ONE: Complex := Complex(-1.0, 0.0)

  function Add(a: Complex, b: Complex): Complex
  {
    Complex(a.re + b.re, a.im + b.im)
  }

  function Sub(a: Complex, b: Complex): Complex
  {
    Complex(a.re - b.re, a.im - b.im)
  }

  function Mul(a: Complex, b: Complex): Complex
  {
    Complex(a.re * b.re - a.im * b.im, a.re * b.im + a.im * b.re)
  }

  function Pow(w: Complex, n: nat): Complex
  {
    if n == 0 then ONE else Mul(Pow(w, n - 1), w)
  }

  lemma MulCommutes(a: Complex, b: Complex)
    ensures Mul(a, b) == Mul(b, a)
  {
  }

  lemma MulAssociates(a: Complex, b: Complex, c: Complex)
    ensures Mul(Mul(a, b), c) == Mul(a, Mul(b, c))
  {
  }

  lemma MulDistributes(a: Complex, b: Complex, c: Complex)
    ensures Mul(a, Add(b, c)) == Add(Mul(a, b), Mul(a, c))
  {
  }

  lemma MulOne(a: Complex)
    ensures Mul(a, ONE) == a && Mul(ONE, a) == a
    ensures Mul(a, MINUS_ONE) == Sub(ZERO, a)
  {
  }

  /** Adding the negated product is subtracting the product. */
  lemma MulMinus(a: Complex, b: Complex, c: Complex)
    ensures Add(a, Mul(Mul(b, MINUS_ONE), c)) == Sub(a, Mul(b, c))
  {
  }

  lemma AddShuffle(a: Complex, b: Complex, c: Complex, d: Complex)
    ensures Add(Add(a, b), Add(c, d)) == Add(Add(a, c), Add(b, d))
    ensures Add(Add(Add(a, b), c), d) == Add(Add(a, c), Add(b, d))
    ensures Add(a, ZERO) == a && Add(ZERO, a) == a
  {
  }

  lemma {:induction false} PowAdd(w: Complex, a: nat, b: nat)
    ensures Pow(w, a + b) == Mul(Pow(w, a), Pow(w, b))
    decreases b
  {
    hide Mul;
    if b == 0 {
      MulOne(Pow(w, a));
    } else {
      PowAdd(w, a, b - 1);
      MulAssociates(Pow(w, a), Pow(w, b - 1), w);
    }
  }

  lemma {:induction false} PowOne(n: nat)
    ensures Pow(ONE, n) == ONE
  {
    hide Mul;
    if n > 0 {
      PowOne(n - 1);
      MulOne(ONE);
    }
  }

  lemma {:induction false} PowSquare(w: Complex, n: nat)
    ensures Pow(Mul(w, w), n) == Pow(w, 2 * n)
  {
    hide Mul;
    if n > 0 {
      PowSquare(w, n - 1);
      MulAssociates(Pow(w, 2 * n - 2), w, w);
      assert Pow(w, 2 * n - 1) == Mul(Pow(w, 2 * n - 2), w);
    }
  }

  /** A power of a power. */
  lemma {:induction false} PowMul(w: Complex, a: nat, b: nat)
    ensures Pow(Pow(w, a), b) == Pow(w, a * b)
    decreases b
  {
    hide Mul;
    if b > 0 {
      PowMul(w, a, b - 1);
      PowAdd(w, a * (b - 1), a);
      assert a * (b - 1) + a == a * b;
    }
  }
}
