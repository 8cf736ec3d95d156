/** The forward real transform, and why the inverse kernels undo it. The bins of a
    windowed frame are sums over its samples, so the inverse of the whole spectrum is
    a sum over samples of what the inverse makes of a unit impulse; the impulse's
    answer is n at the sample itself and, by the geometric sum over all n bins, zero
    everywhere else, provided no smaller power of the n-th root is one. */
module Analysis {
  import opened Complex
  import opened Dft
  import opened RealTransform
  import opened IstftFrame

  /** Bin k of the forward transform of the first m samples. */
  function Bin(t: Trig, s: seq<real>, k: int, m: nat): Complex
    requires m <= |s|
  {
    if m == 0 then ZERO
    else Add(Bin(t, s, k, m - 1), Scale(s[m - 1], Conj(t.W(k * (m - 1)))))
  }

  /** The half-spectrum of a frame's first m samples. */
  function Spectrum(t: Trig, s: seq<real>, m: nat): (x: seq<Complex>)
    requires m <= |s|
    ensures |x| == t.n / 2 + 1
    ensures forall k {:trigger x[k]} :: 0 <= k < |x| ==> x[k] == Bin(t, s, k, m)
  {
    seq(t.n / 2 + 1, k => Bin(t, s, k, m))
  }

  /** No power below n of the n-th root is one. */
  ghost predicate Primitive(t: Trig) {
    forall d {:trigger t.W(d)} :: 0 < d < t.n ==> t.W(d) != ONE
  }

  function Ones(t: Trig): (x: seq<Complex>)
    ensures |x| == t.n / 2 + 1
    ensures forall k {:trigger x[k]} :: 0 <= k < |x| ==> x[k] == ONE
  {
    seq(t.n / 2 + 1, k => ONE)
  }

  function Distance(i: nat, j: nat): nat {
    if i < j then j - i else i - j
  }

  /** What the direct sum makes of a unit impulse, i - j samples away. */
  function Kernel(t: Trig, d: nat): real
    requires t.n >= 2
  {
    DirectSum(t, Ones(t), d, t.n / 2)
  }

  lemma KernelAtZero(t: Trig, k: nat)
    requires t.Valid() && 1 <= k <= t.n / 2
    ensures DirectSum(t, Ones(t), 0, k) == 2.0 * k as real
  {
    if k > 1 {
      KernelAtZero(t, k - 1);
      assert (k - 1) * 0 == 0;
    }
  }

  lemma {:induction false} Geometric(t: Trig, x: seq<Complex>, d: int, k: nat)
    requires t.Valid() && k <= |x|
    requires forall j {:trigger x[j]} :: 0 <= j < |x| ==> x[j] == ONE
    ensures Mul(Sub(t.W(d), ONE), PhaseSum(t, x, d, k)) == Sub(t.W(k * d), ONE)
  {
    hide Mul, Add, Sub;
    if k == 0 {
      MulZero(Sub(t.W(d), ONE));
      SelfSub();
    } else {
      var acc, u := PhaseSum(t, x, d, k - 1), t.W((k - 1) * d);
      Geometric(t, x, d, k - 1);
      MulZero(u);
      RootAdd(t, d, (k - 1) * d);
      assert d + (k - 1) * d == k * d;
      GeometricStep(t.W(d), u, acc);
    }
  }

  lemma SelfSub()
    ensures Sub(ONE, ONE) == ZERO
  {}

  lemma GeometricStep(w: Complex, u: Complex, acc: Complex)
    requires Mul(Sub(w, ONE), acc) == Sub(u, ONE)
    ensures Mul(Sub(w, ONE), Add(acc, u)) == Sub(Mul(w, u), ONE)
  {
    MulDistributes(Sub(w, ONE), acc, u);
    assert Mul(Sub(w, ONE), u) == Sub(Mul(w, u), u);
    hide Mul;
  }

  lemma RealFactor(a: Complex, d: real)
    requires a != ZERO && Mul(a, Complex(d, 0.0)) == ZERO
    ensures d == 0.0
  {
    assert a.re * d == 0.0 && a.im * d == 0.0;
    if a.re != 0.0 {
      NoZeroDivisor(a.re, d);
    } else {
      NoZeroDivisor(a.im, d);
    }
  }

  lemma NoZeroDivisor(a: real, d: real)
    requires a * d == 0.0 && a != 0.0
    ensures d == 0.0
  {}

  lemma OnesExtended(t: Trig)
    requires t.Valid()
    ensures |Extended(Ones(t))| == t.n
    ensures forall j {:trigger Extended(Ones(t))[j]} :: 0 <= j < t.n ==> Extended(Ones(t))[j] == ONE
  {}

  /** An impulse reaches no sample but its own. */
  lemma KernelElsewhere(t: Trig, d: nat)
    requires t.Valid() && Primitive(t) && 0 < d < t.n
    ensures Kernel(t, d) == 0.0
  {
    hide DirectSum, Mul, PhaseSum, Ones, Extended, Sign;
    var h := t.n / 2;
    var x := Ones(t);
    OnesExtended(t);
    ExtendedSum(t, x, h, d);
    Geometric(t, Extended(x), d, t.n);
    RootPeriod(t, 0, d);
    assert t.n * d == 0 + d * t.n;
    var s := PhaseSum(t, Extended(x), d, t.n);
    OnesImag(t, d, x, h);
    assert Mul(Sub(t.W(d), ONE), s) == Sub(ONE, ONE);
    SelfSub();
    RealFactor(Sub(t.W(d), ONE), Kernel(t, d));
  }

  lemma OnesImag(t: Trig, d: nat, x: seq<Complex>, h: nat)
    requires t.Valid() && h == t.n / 2 && x == Ones(t)
    ensures x[0].im - Sign(d) * x[h].im == 0.0
  {}

  lemma SignDistance(i: nat, j: nat)
    ensures Sign(i) * Sign(j) == Sign(Distance(i, j))
  {
    if i % 2 == j % 2 {
      assert Distance(i, j) % 2 == 0;
    } else {
      assert Distance(i, j) % 2 == 1;
    }
  }

  /** One more sample adds its multiple of the shifted kernel to the direct sum. */
  lemma {:induction false} OneMoreSample(t: Trig, s: seq<real>, m: nat, i: nat, k: nat)
    requires t.Valid() && m < |s| && 1 <= k <= t.n / 2
    ensures DirectSum(t, Spectrum(t, s, m + 1), i, k)
         == DirectSum(t, Spectrum(t, s, m), i, k) + s[m] * DirectSum(t, Ones(t), Distance(i, m), k)
  {
    hide Bin, DirectSum, Distance, Sign, Add, Scale;
    var d := Distance(i, m);
    if k == 1 {
      FirstSample(t, s, m, i);
    } else {
      OneMoreSample(t, s, m, i, k - 1);
      BinStep(t, s, k - 1, m);
      Correlation(t, k - 1, i, m);
      NextTerm(s[m], Bin(t, s, k - 1, m), t.W((k - 1) * m), t.W((k - 1) * i), t.c((k - 1) * d), t.s((k - 1) * d));
      DirectNext(t, Spectrum(t, s, m + 1), i, k);
      DirectNext(t, Spectrum(t, s, m), i, k);
      DirectNext(t, Ones(t), d, k);
      Distributes(s[m], DirectSum(t, Ones(t), d, k - 1),
                  2.0 * 1.0 * t.c((k - 1) * d) - 2.0 * 0.0 * t.s((k - 1) * d));
    }
  }

  lemma Distributes(v: real, a: real, b: real)
    ensures v * (a + b) == v * a + v * b
  {}

  lemma FirstSample(t: Trig, s: seq<real>, m: nat, i: nat)
    requires t.Valid() && m < |s|
    ensures DirectSum(t, Spectrum(t, s, m + 1), i, 1)
         == DirectSum(t, Spectrum(t, s, m), i, 1) + s[m] * DirectSum(t, Ones(t), Distance(i, m), 1)
  {
    hide Bin, Distance, Sign, DirectSum, Add, Scale;
    var h, d := t.n / 2, Distance(i, m);
    BinStep(t, s, 0, m);
    BinStep(t, s, h, m);
    NyquistPhase(t, h, m);
    assert t.W(0 * m) == ONE;
    RealPart(Bin(t, s, 0, m), s[m], ONE);
    RealPart(Bin(t, s, h, m), s[m], t.W(h * m));
    SignDistance(i, m);
    DirectFirst(t, Spectrum(t, s, m + 1), i);
    DirectFirst(t, Spectrum(t, s, m), i);
    DirectFirst(t, Ones(t), d);
    FirstReals(s[m], Sign(i), Sign(m), Sign(d), Bin(t, s, h, m).re);
  }

  lemma RealPart(a: Complex, v: real, w: Complex)
    ensures Add(a, Scale(v, Conj(w))).re == a.re + v * w.re
  {}

  lemma DirectFirst(t: Trig, x: seq<Complex>, i: int)
    requires |x| >= 2
    ensures DirectSum(t, x, i, 1) == x[0].re + Sign(i) * x[|x| - 1].re
  {}

  lemma DirectNext(t: Trig, x: seq<Complex>, i: int, k: nat)
    requires 1 < k < |x|
    ensures DirectSum(t, x, i, k) == DirectSum(t, x, i, k - 1)
              + (2.0 * x[k - 1].re * t.c((k - 1) * i) - 2.0 * x[k - 1].im * t.s((k - 1) * i))
  {}

  lemma BinStep(t: Trig, s: seq<real>, k: int, m: nat)
    requires m < |s|
    ensures Bin(t, s, k, m + 1) == Add(Bin(t, s, k, m), Scale(s[m], Conj(t.W(k * m))))
  {}

  lemma FirstReals(v: real, si: real, sm: real, sd: real, b: real)
    requires si * sm == sd
    ensures v + si * (b + v * sm) == si * b + v * (1.0 + sd * 1.0)
  {
    Distributes(si, b, v * sm);
    Distributes(v, 1.0, sd);
    Swap(si, v, sm);
  }

  lemma Swap(a: real, b: real, c: real)
    ensures a * (b * c) == b * (a * c)
  {}

  lemma NextTerm(v: real, a: Complex, wm: Complex, wi: Complex, cd: real, sd: real)
    requires cd == wi.re * wm.re + wi.im * wm.im
    ensures 2.0 * Add(a, Scale(v, Conj(wm))).re * wi.re - 2.0 * Add(a, Scale(v, Conj(wm))).im * wi.im
         == (2.0 * a.re * wi.re - 2.0 * a.im * wi.im) + v * (2.0 * 1.0 * cd - 2.0 * 0.0 * sd)
  {}

  lemma Correlation(t: Trig, k: int, i: nat, j: nat)
    requires t.Valid()
    ensures t.c(k * Distance(i, j)) == t.c(k * i) * t.c(k * j) + t.s(k * i) * t.s(k * j)
  {
    assert k * i + -(k * j) == k * (i - j);
    assert t.AddLaw(k * i, -(k * j));
    assert t.ParityLaw(k * j);
    assert -(k * (i - j)) == k * (j - i);
    assert t.ParityLaw(k * (i - j));
  }

  lemma {:induction false} DirectOfSpectrum(t: Trig, s: seq<real>, m: nat, i: nat)
    requires t.Valid() && Primitive(t) && |s| == t.n && m <= t.n && i < t.n
    ensures DirectSum(t, Spectrum(t, s, m), i, t.n / 2) == if i < m then t.n as real * s[i] else 0.0
  {
    hide DirectSum, Primitive, Spectrum, Ones;
    if m == 0 {
      NoSamples(t, s, i, t.n / 2);
    } else {
      DirectOfSpectrum(t, s, m - 1, i);
      OneMoreSample(t, s, m - 1, i, t.n / 2);
      if i == m - 1 {
        KernelAtZero(t, t.n / 2);
        assert 2.0 * (t.n / 2) as real == t.n as real;
      } else {
        KernelElsewhere(t, Distance(i, m - 1));
      }
    }
  }

  lemma {:induction false} NoSamples(t: Trig, s: seq<real>, i: nat, k: nat)
    requires t.Valid() && 1 <= k <= t.n / 2
    ensures DirectSum(t, Spectrum(t, s, 0), i, k) == 0.0
  {
    if k > 1 { NoSamples(t, s, i, k - 1); }
  }

  lemma RealPhase(t: Trig, k: nat, j: nat)
    requires t.Valid() && (k == 0 || k == t.n / 2)
    ensures t.W(k * j).im == 0.0
  {
    if k == 0 {
      assert k * j == 0;
    } else {
      NyquistPhase(t, k, j);
    }
  }

  /** The zeroth and the Nyquist bin of a real frame are real. */
  lemma {:induction false} RealBin(t: Trig, s: seq<real>, k: nat, m: nat)
    requires t.Valid() && m <= |s| && (k == 0 || k == t.n / 2)
    ensures Bin(t, s, k, m).im == 0.0
  {
    hide Add, Scale;
    if m > 0 {
      RealBin(t, s, k, m - 1);
      RealPhase(t, k, m - 1);
      RealTerm(Bin(t, s, k, m - 1), s[m - 1], t.W(k * (m - 1)));
    }
  }

  lemma RealTerm(a: Complex, v: real, w: Complex)
    requires a.im == 0.0 && w.im == 0.0
    ensures Add(a, Scale(v, Conj(w))).im == 0.0
  {}

  lemma ScaleBack(n: real, v: real)
    requires n > 0.0
    ensures n * v * (1.0 / n) == v
  {}

  /** Either inverse kernel recovers a real frame from its forward transform. */
  lemma InverseOfSpectrum(t: Trig, kernel: IstftPlan.Kernel, s: seq<real>, i: nat)
    requires t.Valid() && Primitive(t) && |s| == t.n && i < t.n
    ensures InverseSample(t, kernel, Spectrum(t, s, t.n), i) == s[i]
  {
    hide DirectSum, Primitive, Bin;
    DirectOfSpectrum(t, s, t.n, i);
    RealBin(t, s, 0, t.n);
    RealBin(t, s, t.n / 2, t.n);
    ScaleBack(t.n as real, s[i]);
  }
}
