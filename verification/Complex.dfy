/** Exact complex numbers and tables of unit roots. */
module Complex {

  datatype Complex = Complex(re: real, im: real)

  const ZERO := Complex(0.0, 0.0)
  const ONE := Complex(1.0, 0.0)

  function Add(a: Complex, b: Complex): Complex {
    Complex(a.re + b.re, a.im + b.im)
  }

  function Sub(a: Complex, b: Complex): Complex {
    Complex(a.re - b.re, a.im - b.im)
  }

  function Mul(a: Complex, b: Complex): Complex {
    Complex(a.re * b.re - a.im * b.im, a.re * b.im + a.im * b.re)
  }

  function Scale(r: real, a: Complex): Complex {
    Complex(r * a.re, r * a.im)
  }

  function Conj(a: Complex): Complex {
    Complex(a.re, -a.im)
  }

  /** i * a */
  function TimesI(a: Complex): Complex {
    Complex(-a.im, a.re)
  }

  lemma MulAssoc(a: Complex, b: Complex, c: Complex)
    ensures Mul(Mul(a, b), c) == Mul(a, Mul(b, c))
  {}

  lemma MulCommutes(a: Complex, b: Complex)
    ensures Mul(a, b) == Mul(b, a)
  {}

  lemma MulZero(a: Complex)
    ensures Mul(a, ZERO) == ZERO && Mul(ZERO, a) == ZERO
    ensures Mul(a, ONE) == a && Mul(ONE, a) == a
    ensures Add(ZERO, a) == a
  {}

  lemma MulDistributes(a: Complex, b: Complex, c: Complex)
    ensures Mul(a, Add(b, c)) == Add(Mul(a, b), Mul(a, c))
    ensures Mul(Add(b, c), a) == Add(Mul(b, a), Mul(c, a))
  {}

  /** Cosine and sine sampled at multiples of 2*pi/n. A table is a value, not an axiom:
      whatever functions are passed in only have to obey the angle-addition laws. */
  datatype Trig = Trig(n: nat, c: int -> real, s: int -> real) {

    ghost predicate AddLaw(a: int, b: int) {
      && c(a + b) == c(a) * c(b) - s(a) * s(b)
      && s(a + b) == s(a) * c(b) + c(a) * s(b)
    }

    ghost predicate ParityLaw(a: int) {
      c(-a) == c(a) && s(-a) == -s(a)
    }

    /** The laws the true cosine and sine obey: half a turn is -1. */
    ghost predicate Valid() {
      && 0 < n && n % 2 == 0
      && c(0) == 1.0 && s(0) == 0.0
      && c(n / 2) == -1.0 && s(n / 2) == 0.0
      && (forall a: int, b: int :: AddLaw(a, b))
      && (forall a: int :: ParityLaw(a))
    }

    /** e^{+2*pi*i*j/n} */
    function W(j: int): Complex {
      Complex(c(j), s(j))
    }
  }

  lemma RootAdd(t: Trig, a: int, b: int)
    requires t.Valid()
    ensures t.W(a + b) == Mul(t.W(a), t.W(b))
  {
    assert t.AddLaw(a, b);
  }

  lemma RootHalfTurn(t: Trig, a: int)
    requires t.Valid()
    ensures t.W(a + t.n / 2) == Scale(-1.0, t.W(a))
  {
    assert t.AddLaw(a, t.n / 2);
  }

  lemma RootTurn(t: Trig, a: int)
    requires t.Valid()
    ensures t.W(a + t.n) == t.W(a)
  {
    RootHalfTurn(t, a);
    RootHalfTurn(t, a + t.n / 2);
  }

  /** Whole turns do not change a root. */
  lemma {:induction false} RootPeriod(t: Trig, a: int, turns: nat)
    requires t.Valid()
    ensures t.W(a + turns * t.n) == t.W(a)
  {
    if turns > 0 {
      RootPeriod(t, a, turns - 1);
      RootTurn(t, a + (turns - 1) * t.n);
      assert a + (turns - 1) * t.n + t.n == a + turns * t.n;
    }
  }
}
