/** The inverse DFT as a plain sum, cut in half. */
module Dft {
  import opened Complex

  /** Sum over the first k entries of x[j] * W(j * phase). */
  function PhaseSum(t: Trig, x: seq<Complex>, phase: int, k: nat): Complex
    requires k <= |x|
  {
    if k == 0 then ZERO
    else Add(PhaseSum(t, x, phase, k - 1), Mul(x[k - 1], t.W((k - 1) * phase)))
  }

  /** Entry m of the unnormalised inverse transform of x, where step * |x| is a
      whole turn. */
  function Idft(t: Trig, x: seq<Complex>, step: int, m: int): Complex {
    PhaseSum(t, x, step * m, |x|)
  }

  /** The whole transform, in natural order. */
  function Transform(t: Trig, x: seq<Complex>, step: int): (y: seq<Complex>)
    ensures |y| == |x|
    ensures forall m :: 0 <= m < |x| ==> y[m] == Idft(t, x, step, m)
  {
    seq(|x|, m requires 0 <= m => Idft(t, x, step, m))
  }

  function Evens<T>(x: seq<T>): (e: seq<T>)
    requires |x| % 2 == 0
    ensures |e| == |x| / 2
    ensures forall j :: 0 <= j < |e| ==> e[j] == x[2 * j]
  {
    seq(|x| / 2, j requires 0 <= j < |x| / 2 => x[2 * j])
  }

  function Odds<T>(x: seq<T>): (o: seq<T>)
    requires |x| % 2 == 0
    ensures |o| == |x| / 2
    ensures forall j :: 0 <= j < |o| ==> o[j] == x[2 * j + 1]
  {
    seq(|x| / 2, j requires 0 <= j < |x| / 2 => x[2 * j + 1])
  }

  lemma {:induction false} ParitySplit(t: Trig, x: seq<Complex>, phase: int, k: nat)
    requires t.Valid()
    requires |x| % 2 == 0 && 2 * k <= |x|
    ensures PhaseSum(t, x, phase, 2 * k)
         == Add(PhaseSum(t, Evens(x), 2 * phase, k),
                Mul(t.W(phase), PhaseSum(t, Odds(x), 2 * phase, k)))
    decreases k
  {
    hide Mul, Add;
    MulZero(t.W(phase));
    MulZero(ZERO);
    if k > 0 {
      var j := k - 1;
      ParitySplit(t, x, phase, j);
      PairPhases(phase, j);
      var u, w := t.W(phase), t.W(j * (2 * phase));
      RootAdd(t, phase, j * (2 * phase));
      SplitStep(PhaseSum(t, x, phase, 2 * j), PhaseSum(t, Evens(x), 2 * phase, j),
                PhaseSum(t, Odds(x), 2 * phase, j), u, x[2 * j], x[2 * j + 1], w);
    }
  }

  lemma PairPhases(phase: int, j: int)
    ensures (2 * j) * phase == j * (2 * phase)
    ensures (2 * j + 1) * phase == phase + j * (2 * phase)
  {}

  lemma SplitStep(a: Complex, e: Complex, o: Complex, u: Complex, p: Complex, q: Complex, w: Complex)
    requires a == Add(e, Mul(u, o))
    ensures Add(Add(a, Mul(p, w)), Mul(q, Mul(u, w)))
         == Add(Add(e, Mul(p, w)), Mul(u, Add(o, Mul(q, w))))
  {
    OddTerm(q, u, w);
    MulDistributes(u, o, Mul(q, w));
  }

  lemma OddTerm(o: Complex, u: Complex, w: Complex)
    ensures Mul(o, Mul(u, w)) == Mul(u, Mul(o, w))
  {
    MulCommutes(u, w);
    MulAssoc(o, w, u);
    MulCommutes(Mul(o, w), u);
  }

  /** Turning the phase by whole turns changes nothing. */
  lemma {:induction false} PhasePeriod(t: Trig, x: seq<Complex>, phase: int, k: nat)
    requires t.Valid()
    requires k <= |x|
    ensures PhaseSum(t, x, phase + t.n, k) == PhaseSum(t, x, phase, k)
  {
    hide Mul;
    if k > 0 {
      PhasePeriod(t, x, phase, k - 1);
      assert (k - 1) * (phase + t.n) == (k - 1) * phase + (k - 1) * t.n;
      RootPeriod(t, (k - 1) * phase, k - 1);
    }
  }

  /** Decimation in time at one phase and at the phase half a turn further on. */
  lemma DecimationAt(t: Trig, x: seq<Complex>, p: int, h: nat)
    requires t.Valid()
    requires |x| == 2 * h
    ensures PhaseSum(t, x, p, 2 * h)
         == Add(PhaseSum(t, Evens(x), 2 * p, h), Mul(t.W(p), PhaseSum(t, Odds(x), 2 * p, h)))
    ensures PhaseSum(t, x, p + t.n / 2, 2 * h)
         == Sub(PhaseSum(t, Evens(x), 2 * p, h), Mul(t.W(p), PhaseSum(t, Odds(x), 2 * p, h)))
  {
    hide Mul, PhaseSum;
    ParitySplit(t, x, p, h);
    ParitySplit(t, x, p + t.n / 2, h);
    assert 2 * (p + t.n / 2) == 2 * p + t.n;
    PhasePeriod(t, Evens(x), 2 * p, h);
    PhasePeriod(t, Odds(x), 2 * p, h);
    RootHalfTurn(t, p);
    NegatedTerm(PhaseSum(t, Evens(x), 2 * p, h), t.W(p), PhaseSum(t, Odds(x), 2 * p, h));
  }

  lemma NegatedTerm(e: Complex, w: Complex, o: Complex)
    ensures Add(e, Mul(Scale(-1.0, w), o)) == Sub(e, Mul(w, o))
  {}

  /** len steps make one whole turn. */
  ghost predicate Turn(t: Trig, step: int, len: int) {
    step * len == t.n
  }

  /** The k-th factor of a stage: e^{+i*angle} at k steps. */
  function Twiddle(t: Trig, step: int, k: int): Complex {
    t.W(k * step)
  }

  /** Decimation in time: the transform of 2h points from those of its even and
      odd halves, one twiddle per pair of outputs. */
  lemma DecimationInTime(t: Trig, x: seq<Complex>, step: int, h: nat, m: int)
    requires t.Valid()
    requires |x| == 2 * h && Turn(t, step, 2 * h)
    ensures Idft(t, x, step, m)
         == Add(Idft(t, Evens(x), 2 * step, m), Mul(Twiddle(t, step, m), Idft(t, Odds(x), 2 * step, m)))
    ensures Idft(t, x, step, m + h)
         == Sub(Idft(t, Evens(x), 2 * step, m), Mul(Twiddle(t, step, m), Idft(t, Odds(x), 2 * step, m)))
  {
    hide Mul, PhaseSum;
    HalfPhases(t.n, step, h, m);
    DecimationAt(t, x, step * m, h);
  }

  lemma HalfPhases(n: int, step: int, h: int, m: int)
    requires step * (2 * h) == n
    ensures step * (m + h) == step * m + n / 2
    ensures (2 * step) * m == 2 * (step * m)
    ensures m * step == step * m
  {
    assert step * h * 2 == n;
  }
}
