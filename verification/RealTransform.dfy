/** The real inverse transform, direct and split in half. */
module RealTransform {
  // The textbook sum over the extended spectrum, the direct kernel's cosine/sine sum,
  // and the split into one complex transform of half the length.

  import opened Complex
  import opened Dft

  // ----- Sums of phases ------------------------------------------------------

  lemma {:induction false} PhaseConcat(t: Trig, a: seq<Complex>, b: seq<Complex>, p: int, k: nat)
    requires t.Valid()
    requires k <= |b|
    ensures PhaseSum(t, a + b, p, |a| + k)
         == Add(PhaseSum(t, a, p, |a|), Mul(t.W(|a| * p), PhaseSum(t, b, p, k)))
    decreases k
  {
    hide Mul, Add;
    var u := t.W(|a| * p);
    MulZero(u);
    if k == 0 {
      PhasePrefix(t, a, b, p, |a|);
      AddZero(PhaseSum(t, a, p, |a|));
    } else {
      PhaseConcat(t, a, b, p, k - 1);
      assert (|a| + k - 1) * p == |a| * p + (k - 1) * p;
      RootAdd(t, |a| * p, (k - 1) * p);
      OddTerm(b[k - 1], u, t.W((k - 1) * p));
      MulDistributes(u, PhaseSum(t, b, p, k - 1), Mul(b[k - 1], t.W((k - 1) * p)));
      AddAssoc(PhaseSum(t, a, p, |a|), Mul(u, PhaseSum(t, b, p, k - 1)),
               Mul(u, Mul(b[k - 1], t.W((k - 1) * p))));
    }
  }

  lemma {:induction false} PhasePrefix(t: Trig, a: seq<Complex>, b: seq<Complex>, p: int, k: nat)
    requires k <= |a|
    ensures PhaseSum(t, a + b, p, k) == PhaseSum(t, a, p, k)
  {
    hide Mul, Add;
    if k > 0 {
      PhasePrefix(t, a, b, p, k - 1);
    }
  }

  function Reversed(x: seq<Complex>): (r: seq<Complex>)
    ensures |r| == |x|
    ensures forall k {:trigger r[k]} :: 0 <= k < |x| ==> r[k] == x[|x| - 1 - k]
  {
    if x == [] then [] else [x[|x| - 1]] + Reversed(x[..|x| - 1])
  }

  /** Reading a sequence backwards is running the phase backwards. */
  lemma {:induction false} PhaseReversed(t: Trig, x: seq<Complex>, p: int)
    requires t.Valid()
    requires x != []
    ensures PhaseSum(t, Reversed(x), p, |x|)
         == Mul(t.W((|x| - 1) * p), PhaseSum(t, x, -p, |x|))
    decreases |x|
  {
    hide Mul, Add;
    var n := |x| - 1;
    var front, last := x[..n], x[n];
    var tail := PhaseSum(t, front, -p, n);
    PhaseConcat(t, [last], Reversed(front), p, n);
    SingleTerm(t, last, p);
    assert front + [last] == x;
    PhasePrefix(t, front, [last], -p, n);
    if n == 0 {
      MulZero(last);
      MulZero(t.W(p));
      AddZero(last);
      SingleTerm(t, last, -p);
      assert x == [last];
    } else {
      PhaseReversed(t, front, p);
      BackOnePhase(t, n, p);
      MulAssoc(t.W(p), t.W((n - 1) * p), tail);
      ReversedStep(last, t.W(n * p), t.W(n * -p), tail);
    }
  }

  lemma BackOnePhase(t: Trig, n: nat, p: int)
    requires t.Valid()
    ensures Mul(t.W(p), t.W((n - 1) * p)) == t.W(n * p)
    ensures Mul(t.W(n * p), t.W(n * -p)) == ONE
  {
    hide Mul;
    assert p + (n - 1) * p == n * p;
    assert n * p + n * -p == 0;
    RootAdd(t, p, (n - 1) * p);
    RootAdd(t, n * p, n * -p);
  }

  lemma ReversedStep(last: Complex, u: Complex, v: Complex, tail: Complex)
    requires Mul(u, v) == ONE
    ensures Add(last, Mul(u, tail)) == Mul(u, Add(tail, Mul(last, v)))
  {
    hide Mul, Add;
    MulDistributes(u, tail, Mul(last, v));
    OddTerm(last, u, v);
    MulZero(last);
    AddCommutes(last, Mul(u, tail));
  }

  lemma SingleTerm(t: Trig, a: Complex, p: int)
    requires t.Valid()
    ensures PhaseSum(t, [a], p, 1) == a
  {
    MulZero(a);
    assert PhaseSum(t, [a], p, 1) == Add(PhaseSum(t, [a], p, 0), Mul(a, t.W(0 * p)));
  }

  function Conjugates(x: seq<Complex>): (y: seq<Complex>)
    ensures |y| == |x|
    ensures forall k {:trigger y[k]} :: 0 <= k < |x| ==> y[k] == Conj(x[k])
  {
    seq(|x|, k requires 0 <= k < |x| => Conj(x[k]))
  }

  /** Conjugating the entries and running the phase backwards conjugates the sum. */
  lemma {:induction false} PhaseConj(t: Trig, x: seq<Complex>, p: int, k: nat)
    requires t.Valid()
    requires k <= |x|
    ensures PhaseSum(t, Conjugates(x), -p, k) == Conj(PhaseSum(t, x, p, k))
  {
    hide Mul, Add;
    if k > 0 {
      PhaseConj(t, x, p, k - 1);
      assert (k - 1) * -p == -((k - 1) * p);
      assert t.ParityLaw((k - 1) * p);
      ConjTerm(PhaseSum(t, x, p, k - 1), x[k - 1], t.W((k - 1) * p));
    }
  }

  lemma ConjTerm(acc: Complex, a: Complex, w: Complex)
    ensures Conj(Add(acc, Mul(a, w))) == Add(Conj(acc), Mul(Conj(a), Conj(w)))
  {}

  // ----- The textbook transform ----------------------------------------------

  /** The half-spectrum X[0..h] continued to 2h bins by Hermitian symmetry, with
      the Nyquist bin conjugated. */
  function Extended(x: seq<Complex>): (y: seq<Complex>)
    requires |x| >= 2
    ensures |y| == 2 * (|x| - 1)
  {
    x[..|x| - 1] + Mirrored(x)
  }

  /** conj X[h], conj X[h-1], ..., conj X[1]: the bins the split reads backwards. */
  function Mirrored(x: seq<Complex>): (y: seq<Complex>)
    requires |x| >= 1
    ensures |y| == |x| - 1
    ensures forall k {:trigger y[k]} :: 0 <= k < |y| ==> y[k] == Conj(x[|x| - 1 - k])
  {
    Reversed(Conjugates(x[1..]))
  }

  /** Twice the real part of the first k bins' sum, counting bin 0 once and never
      its imaginary part, plus the Nyquist bin: the direct kernel's accumulator. */
  function DirectSum(t: Trig, x: seq<Complex>, i: int, k: nat): real
    requires 1 <= k < |x|
  {
    if k == 1 then x[0].re + Sign(i) * x[|x| - 1].re
    else DirectSum(t, x, i, k - 1)
         + (2.0 * x[k - 1].re * t.c((k - 1) * i) - 2.0 * x[k - 1].im * t.s((k - 1) * i))
  }

  /** (-1)^i */
  function Sign(i: int): real {
    if i % 2 == 0 then 1.0 else -1.0
  }

  lemma {:induction false} DirectIsRealPart(t: Trig, x: seq<Complex>, i: int, k: nat)
    requires t.Valid()
    requires 1 <= k < |x|
    ensures 2.0 * PhaseSum(t, x, i, k).re
         == DirectSum(t, x, i, k) + x[0].re - Sign(i) * x[|x| - 1].re
  {
    if k == 1 {
      SingleTerm(t, x[0], i);
      assert [x[0]] + x[1..] == x;
      PhasePrefix(t, [x[0]], x[1..], i, 1);
    } else {
      DirectIsRealPart(t, x, i, k - 1);
      DirectStep(x[k - 1], t.W((k - 1) * i), PhaseSum(t, x, i, k - 1));
    }
  }

  lemma DirectStep(x: Complex, w: Complex, acc: Complex)
    ensures 2.0 * Add(acc, Mul(x, w)).re == 2.0 * acc.re + (2.0 * x.re * w.re - 2.0 * x.im * w.im)
  {}

  lemma {:induction false} NyquistPhase(t: Trig, h: nat, i: nat)
    requires t.Valid()
    requires t.n == 2 * h
    ensures t.W(h * i) == Complex(Sign(i), 0.0)
  {
    if i >= 1 {
      NyquistPhase(t, h, i - 1);
      assert h * i == h * (i - 1) + h;
      RootHalfTurn(t, h * (i - 1));
    }
  }

  /** The textbook sum over all 2h bins: its real part is the direct kernel's
      sum, and all that is left of the imaginary part comes from bins 0 and h. */
  lemma ExtendedSum(t: Trig, x: seq<Complex>, h: nat, i: int)
    requires t.Valid()
    requires 0 <= i
    requires t.n == 2 * h && |x| == h + 1
    ensures PhaseSum(t, Extended(x), i, 2 * h)
         == Complex(DirectSum(t, x, i, h), x[0].im - Sign(i) * x[h].im)
  {
    hide Mul, Add, PhaseSum, DirectSum;
    var low, tail := x[..h], x[1..];
    PhaseConcat(t, low, Mirrored(x), i, h);
    PhasePrefix(t, low, [x[h]], i, h);
    assert low + [x[h]] == x;
    PhaseReversed(t, Conjugates(tail), i);
    MirroredPhase(t, h, i);
    MulAssoc(t.W(h * i), t.W((h - 1) * i), PhaseSum(t, Conjugates(tail), -i, h));
    TailConj(t, x, h, i);
    NyquistPhase(t, h, i);
    DirectIsRealPart(t, x, i, h);
    ExtendedStep(PhaseSum(t, x, i, h), x[0], x[h], Sign(i), DirectSum(t, x, i, h));
  }

  lemma MirroredPhase(t: Trig, h: nat, i: int)
    requires t.Valid()
    requires 0 <= i
    requires t.n == 2 * h && h > 0
    ensures Mul(t.W(h * i), t.W((h - 1) * i)) == t.W(-i)
  {
    hide Mul;
    RootAdd(t, h * i, (h - 1) * i);
    assert h * i + (h - 1) * i == -i + i * t.n;
    RootPeriod(t, -i, i);
  }

  /** The mirrored bins' sum is the conjugate of the sum over bins 1..h. */
  lemma TailConj(t: Trig, x: seq<Complex>, h: nat, i: int)
    requires t.Valid()
    requires 0 <= i
    requires t.n == 2 * h && |x| == h + 1 && h > 0
    ensures Mul(t.W(-i), PhaseSum(t, Conjugates(x[1..]), -i, h))
         == Sub(Conj(Add(PhaseSum(t, x, i, h), Mul(x[h], t.W(h * i)))), Conj(x[0]))
  {
    hide Mul, Add;
    var c := Conjugates(x[1..]);
    assert [Conj(x[0])] + c == Conjugates(x);
    PhaseConcat(t, [Conj(x[0])], c, -i, h);
    SingleTerm(t, Conj(x[0]), -i);
    PhaseConj(t, x, i, h + 1);
    assert PhaseSum(t, x, i, h + 1) == Add(PhaseSum(t, x, i, h), Mul(x[h], t.W(h * i)));
    AddSub(Conj(x[0]), Mul(t.W(-i), PhaseSum(t, c, -i, h)));
  }

  lemma AddSub(a: Complex, b: Complex)
    ensures Sub(Add(a, b), a) == b
  {}

  lemma ExtendedStep(s: Complex, x0: Complex, xh: Complex, sign: real, direct: real)
    requires 2.0 * s.re == direct + x0.re - sign * xh.re
    ensures Add(s, Sub(Conj(Add(s, Mul(xh, Complex(sign, 0.0)))), Conj(x0)))
         == Complex(direct, x0.im - sign * xh.im)
  {
    assert Mul(xh, Complex(sign, 0.0)) == Complex(sign * xh.re, sign * xh.im);
    hide Mul;
  }

  // ----- The split -----------------------------------------------------------

  /** Z[k] = E[k] + i*O[k], with the factor 1/2 of the definition replaced by
      `scale`. */
  function SplitEntry(t: Trig, x: seq<Complex>, scale: real, k: nat): Complex
    requires k < |x| - 1
  {
    var a, m := x[k], Conj(x[|x| - 1 - k]);
    Add(Scale(scale, Add(a, m)), TimesI(Mul(Scale(scale, Sub(a, m)), t.W(k))))
  }

  function Split(t: Trig, x: seq<Complex>, scale: real): (z: seq<Complex>)
    requires |x| >= 1
    ensures |z| == |x| - 1
    ensures forall k {:trigger z[k]} :: 0 <= k < |z| ==> z[k] == SplitEntry(t, x, scale, k)
  {
    seq(|x| - 1, k requires 0 <= k < |x| - 1 => SplitEntry(t, x, scale, k))
  }

  /** The split's sum at an even phase gathers the even sample in its real
      direction and the odd sample in its imaginary one. */
  lemma {:induction false} SplitPrefix(t: Trig, x: seq<Complex>, scale: real, m: nat, k: nat)
    requires t.Valid()
    requires k < |x|
    ensures PhaseSum(t, Split(t, x, scale), 2 * m, k)
         == Joined(scale, PhaseSum(t, x[..|x| - 1], 2 * m, k), PhaseSum(t, Mirrored(x), 2 * m, k),
                   PhaseSum(t, x[..|x| - 1], 2 * m + 1, k), PhaseSum(t, Mirrored(x), 2 * m + 1, k))
    decreases k
  {
    hide Mul, Add, Joined, SplitEntry;
    if k == 0 {
      JoinedZero(scale);
    } else {
      var j := k - 1;
      SplitPrefix(t, x, scale, m, j);
      SplitEntryTurned(t, x, scale, m, j);
      var a, b := x[j], Conj(x[|x| - 1 - j]);
      JoinedAdd(scale, PhaseSum(t, x[..|x| - 1], 2 * m, j), PhaseSum(t, Mirrored(x), 2 * m, j),
                PhaseSum(t, x[..|x| - 1], 2 * m + 1, j), PhaseSum(t, Mirrored(x), 2 * m + 1, j),
                Mul(a, t.W(j * (2 * m))), Mul(b, t.W(j * (2 * m))),
                Mul(a, t.W(j * (2 * m + 1))), Mul(b, t.W(j * (2 * m + 1))));
    }
  }

  lemma SplitEntryTurned(t: Trig, x: seq<Complex>, scale: real, m: nat, j: nat)
    requires t.Valid()
    requires j < |x| - 1
    ensures Mul(SplitEntry(t, x, scale, j), t.W(j * (2 * m)))
         == Joined(scale,
                   Mul(x[j], t.W(j * (2 * m))), Mul(Conj(x[|x| - 1 - j]), t.W(j * (2 * m))),
                   Mul(x[j], t.W(j * (2 * m + 1))), Mul(Conj(x[|x| - 1 - j]), t.W(j * (2 * m + 1))))
  {
    hide Mul, Add, Sub, Scale, TimesI, Joined;
    assert j * (2 * m + 1) == j + j * (2 * m);
    RootAdd(t, j, j * (2 * m));
    SplitTerm(scale, x[j], Conj(x[|x| - 1 - j]), t.W(j), t.W(j * (2 * m)));
  }

  /** s * ((a0 + b0) + i*(a1 - b1)) */
  function Joined(s: real, a0: Complex, b0: Complex, a1: Complex, b1: Complex): Complex {
    Scale(s, Add(Add(a0, b0), TimesI(Sub(a1, b1))))
  }

  lemma JoinedZero(s: real)
    ensures Joined(s, ZERO, ZERO, ZERO, ZERO) == ZERO
  {}

  lemma JoinedAdd(s: real, a0: Complex, b0: Complex, a1: Complex, b1: Complex,
                  c0: Complex, d0: Complex, c1: Complex, d1: Complex)
    ensures Add(Joined(s, a0, b0, a1, b1), Joined(s, c0, d0, c1, d1))
         == Joined(s, Add(a0, c0), Add(b0, d0), Add(a1, c1), Add(b1, d1))
  {}

  lemma SplitTerm(s: real, a: Complex, b: Complex, w: Complex, w1: Complex)
    ensures Mul(Add(Scale(s, Add(a, b)), TimesI(Mul(Scale(s, Sub(a, b)), w))), w1)
         == Joined(s, Mul(a, w1), Mul(b, w1), Mul(a, Mul(w, w1)), Mul(b, Mul(w, w1)))
  {
    hide Mul;
    var d := Sub(a, b);
    MulDistributes(w1, Scale(s, Add(a, b)), TimesI(Mul(Scale(s, d), w)));
    ScaleMul(s, Add(a, b), w1);
    MulDistributes(w1, a, b);
    ScaleMul(s, d, w);
    ScaleI(s, Mul(d, w), w1);
    MulAssoc(d, w, w1);
    SubMul(a, b, Mul(w, w1));
  }

  lemma ScaleMul(s: real, a: Complex, b: Complex)
    ensures Mul(Scale(s, a), b) == Scale(s, Mul(a, b))
  {}

  lemma ScaleI(s: real, a: Complex, b: Complex)
    ensures Mul(TimesI(Scale(s, a)), b) == Scale(s, TimesI(Mul(a, b)))
  {}

  lemma SubMul(a: Complex, b: Complex, c: Complex)
    ensures Mul(Sub(a, b), c) == Sub(Mul(a, c), Mul(b, c))
  {}

  /** Sample i of the direct kernel, before its window. */
  function DirectSample(t: Trig, x: seq<Complex>, i: int): real
    requires |x| >= 2 && t.n > 0
  {
    DirectSum(t, x, i, |x| - 1) * (1.0 / t.n as real)
  }

  /** Entry m of the half-length transform carries samples 2m and 2m+1 of the
      direct kernel, off by exactly what the imaginary parts of bins 0 and h
      contribute, which the direct kernel ignores. */
  lemma SplitTransform(t: Trig, x: seq<Complex>, h: nat, m: nat)
    requires t.Valid()
    requires t.n == 2 * h && |x| == h + 1
    ensures Idft(t, Split(t, x, 1.0 / t.n as real), 2, m)
         == Complex(DirectSample(t, x, 2 * m) - (x[0].im + x[h].im) / t.n as real,
                    DirectSample(t, x, 2 * m + 1) + (x[0].im - x[h].im) / t.n as real)
  {
    hide Mul, Add, PhaseSum, DirectSum;
    var s := 1.0 / t.n as real;
    var low, high := x[..h], Mirrored(x);
    SplitPrefix(t, x, s, m, h);
    forall i: nat | i == 2 * m || i == 2 * m + 1
      ensures Add(PhaseSum(t, low, i, h), Scale(Sign(i), PhaseSum(t, high, i, h)))
           == Complex(DirectSum(t, x, i, h), x[0].im - Sign(i) * x[h].im)
    {
      ExtendedSum(t, x, h, i);
      PhaseConcat(t, low, high, i, h);
      NyquistPhase(t, h, i);
      RealMul(Sign(i), PhaseSum(t, high, i, h));
    }
    JoinedSamples(s, PhaseSum(t, low, 2 * m, h), PhaseSum(t, high, 2 * m, h),
                  PhaseSum(t, low, 2 * m + 1, h), PhaseSum(t, high, 2 * m + 1, h),
                  DirectSum(t, x, 2 * m, h), DirectSum(t, x, 2 * m + 1, h), x[0].im, x[h].im);
    DivIsScale(x[0].im + x[h].im, t.n as real);
    DivIsScale(x[0].im - x[h].im, t.n as real);
  }

  lemma RealMul(r: real, a: Complex)
    ensures Mul(Complex(r, 0.0), a) == Scale(r, a)
  {}

  lemma DivIsScale(a: real, n: real)
    requires n != 0.0
    ensures a / n == (1.0 / n) * a
  {}

  lemma JoinedSamples(s: real, a0: Complex, b0: Complex, a1: Complex, b1: Complex,
                      d0: real, d1: real, u: real, v: real)
    requires Add(a0, Scale(1.0, b0)) == Complex(d0, u - 1.0 * v)
    requires Add(a1, Scale(-1.0, b1)) == Complex(d1, u - -1.0 * v)
    ensures Joined(s, a0, b0, a1, b1) == Complex(d0 * s - s * (u + v), d1 * s + s * (u - v))
  {
    assert Add(a0, b0) == Complex(d0, u - v);
    assert Sub(a1, b1) == Complex(d1, u + v);
    assert Joined(s, a0, b0, a1, b1) == Complex(s * (d0 - (u + v)), s * ((u - v) + d1));
  }

  // ----- The oracle ----------------------------------------------------------

  /** The half-spectrum continued to 2h bins, bin 2h-k being conj X[k]. */
  function Hermitian(x: seq<Complex>): (y: seq<Complex>)
    requires |x| >= 2
    ensures |y| == 2 * (|x| - 1)
    ensures forall k {:trigger y[k]} :: 0 <= k < |y| ==>
              y[k] == if k < |x| then x[k] else Conj(x[|y| - k])
  {
    x + Mirrored(x)[1..]
  }

  lemma {:induction false} PhaseUpdate(t: Trig, x: seq<Complex>, j: nat, v: Complex, p: int, k: nat)
    requires j < |x| && k <= |x|
    ensures PhaseSum(t, x[j := v], p, k)
         == if j < k then Add(PhaseSum(t, x, p, k), Mul(Sub(v, x[j]), t.W(j * p)))
            else PhaseSum(t, x, p, k)
  {
    hide Mul, Add, Sub;
    if k > 0 {
      PhaseUpdate(t, x, j, v, p, k - 1);
      UpdateTerm(PhaseSum(t, x, p, k - 1), x[k - 1], v, x[j], t.W((k - 1) * p), t.W(j * p));
    }
  }

  lemma UpdateTerm(acc: Complex, a: Complex, v: Complex, b: Complex, w: Complex, u: Complex)
    ensures Add(acc, Mul(v, w)) == Add(Add(acc, Mul(b, w)), Mul(Sub(v, b), w))
    ensures Add(Add(acc, Mul(Sub(v, b), u)), Mul(a, w)) == Add(Add(acc, Mul(a, w)), Mul(Sub(v, b), u))
  {}

  /** Every sample of the direct kernel is the real part of the textbook inverse
      transform, whatever the spectrum. */
  lemma DirectIsTextbook(t: Trig, x: seq<Complex>, h: nat, i: nat)
    requires t.Valid()
    requires t.n == 2 * h && |x| == h + 1
    ensures DirectSample(t, x, i) == PhaseSum(t, Hermitian(x), i, 2 * h).re * (1.0 / t.n as real)
  {
    hide Mul, Add, Sub, PhaseSum, DirectSum;
    HermitianIsUpdate(x, h);
    PhaseUpdate(t, Extended(x), h, x[h], i, 2 * h);
    ExtendedSum(t, x, h, i);
    NyquistPhase(t, h, i);
    NyquistUpdate(PhaseSum(t, Extended(x), i, 2 * h), x[h], Sign(i));
  }

  lemma HermitianIsUpdate(x: seq<Complex>, h: nat)
    requires h > 0 && |x| == h + 1
    ensures Extended(x)[h] == Conj(x[h])
    ensures Hermitian(x) == Extended(x)[h := x[h]]
  {
    hide Mirrored;
    var m := Mirrored(x);
    assert Extended(x) == x[..h] + m;
    assert x == x[..h] + [x[h]];
    assert (x[..h] + m)[h := x[h]] == x[..h] + [x[h]] + m[1..];
  }

  lemma NyquistUpdate(acc: Complex, v: Complex, sign: real)
    ensures Add(acc, Mul(Sub(v, Conj(v)), Complex(sign, 0.0))).re == acc.re
  {}

  lemma AddZero(a: Complex)
    ensures Add(a, ZERO) == a
  {}

  lemma AddCommutes(a: Complex, b: Complex)
    ensures Add(a, b) == Add(b, a)
  {}

  lemma AddAssoc(a: Complex, b: Complex, c: Complex)
    ensures Add(Add(a, b), c) == Add(a, Add(b, c))
  {}
}
