/** One frame of the inverse transform, by either kernel. */
module IstftFrame {
  import opened Complex
  import opened Dft
  import opened BitReversal
  import opened Fft
  import opened RealTransform
  import opened IstftPlan
  import Scalar = IstftKernels
  import Avx2 = IstftAvx2
  import opened IstftKernels

  /** Sample i of a frame's inverse transform. The radix-2 kernel reads the imaginary
      parts of bins 0 and n/2, the direct kernel does not. */
  function InverseSample(t: Trig, kernel: Kernel, x: seq<Complex>, i: nat): real
    requires |x| >= 2 && t.n > 0
  {
    DirectSample(t, x, i) + if kernel == RealRadix2 then Leak(t, x, i) else 0.0
  }

  /** Windowed sample i of a frame. */
  function FrameSample(t: Trig, kernel: Kernel, x: seq<Complex>, i: nat): real
    requires |x| >= 2 && t.n > 0
  {
    InverseSample(t, kernel, x, i) * Hann(t, i)
  }

  /** What the imaginary parts of bins 0 and n/2 add to sample i of the radix-2
      kernel. */
  function Leak(t: Trig, x: seq<Complex>, i: nat): real
    requires |x| >= 2 && t.n > 0
  {
    if i % 2 == 0 then -((x[0].im + x[|x| - 1].im) / t.n as real)
    else (x[0].im - x[|x| - 1].im) / t.n as real
  }

  function FrameSamples(t: Trig, kernel: Kernel, x: seq<Complex>): (f: seq<real>)
    requires |x| >= 2 && t.n > 0
    ensures |f| == t.n
    ensures forall i {:trigger f[i]} :: 0 <= i < t.n ==> f[i] == FrameSample(t, kernel, x, i)
  {
    seq(t.n, i requires 0 <= i => FrameSample(t, kernel, x, i))
  }

  /** Workspace of one execution context; every buffer is reassigned per call. */
  class Workspace {
    var frame: array<real>
    var specReal: array<real>
    var specImag: array<real>
    var ola: array<real>
    var envelope: array<real>
    var binReal: array<real>
    var binImag: array<real>

    constructor ()
      ensures fresh(frame) && fresh(specReal) && fresh(specImag) && fresh(ola)
      ensures fresh(envelope) && fresh(binReal) && fresh(binImag)
    {
      frame, specReal, specImag := new real[0], new real[0], new real[0];
      ola, envelope, binReal, binImag := new real[0], new real[0], new real[0], new real[0];
    }
  }

  // ----- Direct kernel ----------------------------------------------------------

  method DirectFrame(plan: Plan, ghost t: Trig, frame: array<real>, re: seq<real>, im: seq<real>, simd: bool)
    requires ValidPlan(plan, t) && plan.kernel == DirectDft
    requires frame.Length == t.n && |re| == |im| == plan.Bins()
    modifies frame
    ensures frame[..] == FrameSamples(t, DirectDft, Zip(re, im))
  {
    hide ValidPlan, DirectSum;
    ghost var x := Zip(re, im);
    PlanSize(plan, t);
    var n := plan.config.nFft;
    EvenOddBins(t, frame, re, im);
    for k := 1 to n / 2
      invariant forall j {:trigger frame[j]} :: 0 <= j < n ==> frame[j] == DirectSum(t, x, j, k)
    {
      AddBin(plan, t, frame, re, im, k, simd);
    }
    WindowDirect(plan, t, frame, x, simd);
  }

  method WindowDirect(plan: Plan, ghost t: Trig, frame: array<real>, ghost x: seq<Complex>, simd: bool)
    requires ValidPlan(plan, t)
    requires frame.Length == t.n && |x| == plan.Bins() && |x| >= 2
    requires forall j {:trigger frame[j]} :: 0 <= j < t.n ==> frame[j] == DirectSum(t, x, j, t.n / 2)
    modifies frame
    ensures frame[..] == FrameSamples(t, DirectDft, x)
  {
    hide ValidPlan, DirectSum, Windowed, FrameSample, Hann;
    PlanSize(plan, t);
    PlanWindow(plan, t);
    var scale := 1.0 / plan.config.nFft as real;
    forall j | 0 <= j < t.n
      ensures Windowed(DirectSum(t, x, j, t.n / 2), scale, plan.window[j]) == FrameSample(t, DirectDft, x, j)
    {
      WindowedDirect(t, x, j);
    }
    if simd {
      Avx2.WindowScaled(frame, plan.window, scale);
    } else {
      Scalar.WindowScaled(frame, plan.window, scale);
    }
  }

  lemma WindowedDirect(t: Trig, x: seq<Complex>, j: nat)
    requires t.n > 0 && |x| == t.n / 2 + 1 && |x| >= 2
    ensures Windowed(DirectSum(t, x, j, t.n / 2), 1.0 / t.n as real, Hann(t, j))
         == FrameSample(t, DirectDft, x, j)
  {
    hide DirectSum, Hann;
  }

  /** The DC and Nyquist terms: their sum on even samples, difference on odd ones. */
  method EvenOddBins(ghost t: Trig, frame: array<real>, re: seq<real>, im: seq<real>)
    requires t.Valid() && frame.Length == t.n
    requires |re| == |im| == t.n / 2 + 1
    modifies frame
    ensures forall j {:trigger frame[j]} :: 0 <= j < t.n ==> frame[j] == DirectSum(t, Zip(re, im), j, 1)
  {
    var dc, nyquist := re[0], re[|re| - 1];
    var i := 0;
    while i < frame.Length
      invariant i <= frame.Length && i % 2 == 0
      invariant forall j {:trigger frame[j]} :: 0 <= j < i ==> frame[j] == DirectSum(t, Zip(re, im), j, 1)
    {
      frame[i] := dc + nyquist;
      frame[i + 1] := dc - nyquist;
      i := i + 2;
    }
  }

  method AddBin(plan: Plan, ghost t: Trig, frame: array<real>, re: seq<real>, im: seq<real>, k: nat, simd: bool)
    requires ValidPlan(plan, t) && plan.kernel == DirectDft
    requires frame.Length == t.n && |re| == |im| == plan.Bins() && 1 <= k < t.n / 2
    requires forall j {:trigger frame[j]} :: 0 <= j < t.n ==> frame[j] == DirectSum(t, Zip(re, im), j, k)
    modifies frame
    ensures forall j {:trigger frame[j]} :: 0 <= j < t.n ==> frame[j] == DirectSum(t, Zip(re, im), j, k + 1)
  {
    hide ValidPlan, DirectSum, Rotated;
    PlanSize(plan, t);
    DirectRow(plan, t, k);
    var n := plan.config.nFft;
    var c, s := plan.dftCos[k * n..k * n + n], plan.dftSin[k * n..k * n + n];
    ghost var x := Zip(re, im);
    forall j | 0 <= j < n
      ensures DirectSum(t, x, j, k) + Rotated(2.0 * re[k], c[j], 2.0 * im[k], s[j]) == DirectSum(t, x, j, k + 1)
    {
      assert c[j] == CosRun(t, k, n)[j] && s[j] == SinRun(t, k, n)[j];
      DirectBin(t, x, k, j, c[j], s[j]);
    }
    if simd {
      Avx2.AccumulateRotation(frame, 2.0 * re[k], c, 2.0 * im[k], s);
    } else {
      Scalar.AccumulateRotation(frame, 2.0 * re[k], c, 2.0 * im[k], s);
    }
  }

  lemma PlanSize(plan: Plan, t: Trig)
    requires ValidPlan(plan, t)
    ensures t.Valid() && t.n == plan.config.nFft && t.n % 2 == 0 && t.n >= 2
  {}

  lemma PlanWindow(plan: Plan, t: Trig)
    requires ValidPlan(plan, t)
    ensures |plan.window| == t.n
    ensures forall i {:trigger plan.window[i]} :: 0 <= i < t.n ==> plan.window[i] == Hann(t, i)
  {}

  lemma DirectRow(plan: Plan, t: Trig, k: nat)
    requires ValidPlan(plan, t) && plan.kernel == DirectDft && k <= t.n / 2
    ensures var n := plan.config.nFft;
            && k * n + n <= |plan.dftCos| == |plan.dftSin|
            && plan.dftCos[k * n..k * n + n] == CosRun(t, k, n)
            && plan.dftSin[k * n..k * n + n] == SinRun(t, k, n)
  {
    assert DftRow(plan.dftCos, plan.dftSin, t, k);
  }

  lemma DirectBin(t: Trig, x: seq<Complex>, k: nat, j: nat, c: real, s: real)
    requires 1 <= k < |x| - 1
    requires c == t.c(j * k) && s == t.s(j * k)
    ensures DirectSum(t, x, j, k) + Rotated(2.0 * x[k].re, c, 2.0 * x[k].im, s) == DirectSum(t, x, j, k + 1)
  {
    assert j * k == k * j;
  }

  // ----- Radix-2 kernel ---------------------------------------------------------

  lemma Radix2Exponent(plan: Plan, t: Trig) returns (e: nat)
    requires ValidPlan(plan, t) && plan.kernel == RealRadix2
    ensures Radix2Tables(plan, t, e) && e >= 1
    ensures Turn(t, 2, Pow2(e))
  {
    e :| Radix2Tables(plan, t, e);
  }

  method Radix2Frame(plan: Plan, ghost t: Trig, frame: array<real>, zr: array<real>, zi: array<real>,
                     re: seq<real>, im: seq<real>, simd: bool)
    requires ValidPlan(plan, t) && plan.kernel == RealRadix2
    requires frame != zr && frame != zi && zr != zi
    requires frame.Length == t.n && zr.Length == zi.Length == t.n / 2
    requires |re| == |im| == plan.Bins()
    modifies frame, zr, zi
    ensures frame[..] == FrameSamples(t, RealRadix2, Zip(re, im))
  {
    hide ValidPlan, Radix2Tables, Split, Stages, Permuted;
    PlanSize(plan, t);
    ghost var e := Radix2Exponent(plan, t);
    ghost var x := Zip(re, im);
    ghost var z := Split(t, x, 1.0 / t.n as real);
    SplitBins(plan, t, e, zr, zi, re, im, simd);
    PlanSwaps(plan, t, e, z);
    Scalar.SwapPairs(zr, zi, plan.bitReversePairs);
    RunStages(plan, t, e, zr, zi, simd);
    StagesComputeTransform(t, z, 2, e);
    InterleaveFrame(plan, t, e, frame, zr, zi, x, simd);
  }

  method SplitBins(plan: Plan, ghost t: Trig, ghost e: nat, zr: array<real>, zi: array<real>,
                   re: seq<real>, im: seq<real>, simd: bool)
    requires t.Valid() && t.n == plan.config.nFft && Radix2Tables(plan, t, e)
    requires zr != zi && zr.Length == zi.Length == t.n / 2 && |re| == |im| == t.n / 2 + 1
    modifies zr, zi
    ensures Zip(zr[..], zi[..]) == Split(t, Zip(re, im), 1.0 / t.n as real)
  {
    hide SplitAt, SplitEntry;
    var half := plan.config.nFft / 2;
    var scale := 0.5 / half as real;
    if simd {
      Avx2.HermitianSplit(re, im, plan.splitCos, plan.splitSin, scale, zr, zi);
    } else {
      Scalar.HermitianSplit(re, im, plan.splitCos, plan.splitSin, scale, zr, zi);
    }
    HalfScale(t.n);
    forall k | 0 <= k < half
      ensures SplitAt(re, im, plan.splitCos[k], plan.splitSin[k], scale, k) == SplitEntry(t, Zip(re, im), scale, k)
    {
      SplitAtIsEntry(t, re, im, scale, k);
    }
  }

  lemma HalfScale(n: nat)
    requires n > 0 && n % 2 == 0
    ensures 0.5 / (n / 2) as real == 1.0 / n as real
  {
    assert n as real == 2.0 * (n / 2) as real;
  }

  lemma SplitAtIsEntry(t: Trig, re: seq<real>, im: seq<real>, scale: real, k: nat)
    requires |re| == |im| && k < |re| - 1
    ensures SplitAt(re, im, t.c(k), t.s(k), scale, k) == SplitEntry(t, Zip(re, im), scale, k)
  {}

  lemma PlanSwaps(plan: Plan, t: Trig, e: nat, z: seq<Complex>)
    requires Radix2Tables(plan, t, e) && |z| == t.n / 2
    ensures |plan.bitReversePairs| % 2 == 0
    ensures Indices(plan.bitReversePairs, |z|)
    ensures |z| == Pow2(e)
    ensures Swapped(z, plan.bitReversePairs, |plan.bitReversePairs| / 2) == Permuted(z, e)
  {
    hide Swapped, Permuted;
    SwapListIsBitReversal(z, e);
  }

  method RunStages(plan: Plan, ghost t: Trig, ghost e: nat, zr: array<real>, zi: array<real>, simd: bool)
    requires t.Valid() && t.n == plan.config.nFft && Radix2Tables(plan, t, e) && e >= 1
    requires zr != zi && zr.Length == zi.Length == Pow2(e)
    modifies zr, zi
    ensures Zip(zr[..], zi[..]) == Stages(t, old(Zip(zr[..], zi[..])), e, 2)
  {
    hide Stage, Stages, Whole, Radix2Tables;
    ghost var y0 := Zip(zr[..], zi[..]);
    var half := zr.Length;
    WholePow2(e, 1);
    FirstStage(t, y0, e);
    if simd {
      Avx2.FftStagePairs(zr, zi);
    } else {
      Scalar.FftStagePairs(zr, zi);
    }
    var h := 2;
    ghost var j := 1;
    while h < half
      invariant 1 <= j <= e && h == Pow2(j)
      invariant Zip(zr[..], zi[..]) == Stages(t, y0, j, Pow2(e - j + 1))
      decreases e - j
    {
      Pow2Increases(j, e);
      WholePow2(e, j + 1);
      StageSlices(plan, t, e, j);
      NextStage(t, y0, e, j);
      var twc, tws := plan.stageTwCos[h - 1..2 * h - 1], plan.stageTwSin[h - 1..2 * h - 1];
      if simd {
        LaneMultiple(j);
        Avx2.FftStage(zr, zi, twc, tws, h);
      } else {
        Scalar.FftStage(zr, zi, twc, tws, h);
      }
      h := 2 * h;
      j := j + 1;
    }
    Pow2Increases(j, e);
  }

  lemma FirstStage(t: Trig, y: seq<Complex>, e: nat)
    requires t.Valid() && e >= 1
    ensures Stages(t, y, 1, Pow2(e)) == Stage(y, 1, [ONE])
  {
    assert StageTwiddles(t, 1, Pow2(e)) == [ONE];
    assert Stages(t, y, 0, 2 * Pow2(e)) == y;
  }

  lemma NextStage(t: Trig, y: seq<Complex>, e: nat, j: nat)
    requires j < e
    ensures Stages(t, y, j + 1, Pow2(e - j))
         == Stage(Stages(t, y, j, Pow2(e - j + 1)), Pow2(j), StageTwiddles(t, Pow2(j), Pow2(e - j)))
  {
    assert Pow2(e - j + 1) == 2 * Pow2(e - j);
  }

  lemma StageSlices(plan: Plan, t: Trig, e: nat, j: nat)
    requires Radix2Tables(plan, t, e) && j < e
    ensures var h := Pow2(j);
            && 2 * h - 1 <= |plan.stageTwCos| == |plan.stageTwSin|
            && Zip(plan.stageTwCos[h - 1..2 * h - 1], plan.stageTwSin[h - 1..2 * h - 1])
               == StageTwiddles(t, h, Pow2(e - j))
  {
    assert StageRun(plan.stageTwCos, plan.stageTwSin, t, Pow2(j), Pow2(e - j));
  }

  /** A stage shorter than a vector falls back to the scalar form; any longer one is
      a whole number of vectors. */
  lemma {:induction false} LaneMultiple(j: nat)
    ensures Pow2(j) < 8 || Pow2(j) % 8 == 0
  {
    assert Pow2(3) == 8;
    if j > 3 {
      LaneMultiple(j - 1);
      Pow2Increases(3, j - 1);
      Doubled(Pow2(j - 1));
    } else if j < 3 {
      Pow2Increases(j, 3);
    }
  }

  lemma Doubled(p: nat)
    requires p % 8 == 0
    ensures 2 * p % 8 == 0
  {
  }

  method InterleaveFrame(plan: Plan, ghost t: Trig, ghost e: nat, frame: array<real>, zr: array<real>, zi: array<real>,
                         ghost x: seq<Complex>, simd: bool)
    requires t.Valid() && t.n == plan.config.nFft && Radix2Tables(plan, t, e) && |x| == t.n / 2 + 1
    requires frame != zr && frame != zi && zr != zi
    requires frame.Length == t.n && zr.Length == zi.Length == t.n / 2
    requires Zip(zr[..], zi[..]) == Transform(t, Split(t, x, 1.0 / t.n as real), 2)
    modifies frame
    ensures frame[..] == FrameSamples(t, RealRadix2, x)
  {
    hide Interleaved, FrameSample, Split, Transform;
    forall i | 0 <= i < t.n
      ensures Interleaved(zr[..], zi[..], plan.windowEven, plan.windowOdd, i) == FrameSample(t, RealRadix2, x, i)
    {
      InterleavedSample(plan, t, e, zr[..], zi[..], x, i);
    }
    if simd {
      Avx2.InterleaveWindowed(frame, zr, zi, plan.windowEven, plan.windowOdd);
    } else {
      Scalar.InterleaveWindowed(frame, zr, zi, plan.windowEven, plan.windowOdd);
    }
  }

  lemma InterleavedSample(plan: Plan, t: Trig, e: nat, zr: seq<real>, zi: seq<real>, x: seq<Complex>, i: nat)
    requires t.Valid() && t.n == plan.config.nFft && Radix2Tables(plan, t, e) && |x| == t.n / 2 + 1
    requires |zr| == |zi| == t.n / 2 && i < t.n
    requires Zip(zr, zi) == Transform(t, Split(t, x, 1.0 / t.n as real), 2)
    ensures Interleaved(zr, zi, plan.windowEven, plan.windowOdd, i) == FrameSample(t, RealRadix2, x, i)
  {
    hide Radix2Tables, Split, InverseSample, Hann, Transform, Idft;
    var m := i / 2;
    HalfWindows(plan, t, e, m);
    PairSamples(t, Zip(zr, zi), x, m);
    assert Zip(zr, zi)[m] == Complex(zr[m], zi[m]);
    if i % 2 == 0 {
      assert i == 2 * m;
    } else {
      assert i == 2 * m + 1;
    }
  }

  lemma HalfWindows(plan: Plan, t: Trig, e: nat, m: nat)
    requires t.n > 0 && Radix2Tables(plan, t, e) && m < t.n / 2
    ensures |plan.windowEven| == |plan.windowOdd| == t.n / 2
    ensures plan.windowEven[m] == Hann(t, 2 * m) && plan.windowOdd[m] == Hann(t, 2 * m + 1)
  {
    hide Hann, StageTables, SwapList, Pow2;
  }

  lemma PairSamples(t: Trig, z: seq<Complex>, x: seq<Complex>, m: nat)
    requires t.Valid() && |x| == t.n / 2 + 1 && m < |z|
    requires |Split(t, x, 1.0 / t.n as real)| == |z| && z == Transform(t, Split(t, x, 1.0 / t.n as real), 2)
    ensures z[m].re == InverseSample(t, RealRadix2, x, 2 * m)
    ensures z[m].im == InverseSample(t, RealRadix2, x, 2 * m + 1)
  {
    hide Split, DirectSample, Idft;
    SplitTransform(t, x, t.n / 2, m);
  }

  // ----- What the two kernels agree on ------------------------------------------

  /** For a half-spectrum with real bins 0 and n/2, the radix-2 frame is the direct
      inverse real DFT, windowed; and for no other spectrum is it. */
  lemma KernelsAgree(t: Trig, x: seq<Complex>)
    requires t.Valid() && t.n >= 4 && t.n % 4 == 0 && |x| == t.n / 2 + 1
    ensures FrameSamples(t, RealRadix2, x) == FrameSamples(t, DirectDft, x)
       <==> x[0].im == 0.0 && x[t.n / 2].im == 0.0
  {
    hide FrameSample, Leak, Hann;
    var h := t.n / 2;
    var a, b := FrameSamples(t, RealRadix2, x), FrameSamples(t, DirectDft, x);
    if x[0].im == 0.0 && x[h].im == 0.0 {
      forall i | 0 <= i < t.n
        ensures a[i] == b[i]
      {
        NoLeak(t, x, i);
      }
    } else if a == b {
      HalfTurnWindow(t, x);
      var i := OddWindow(t);
      assert a[h] == b[h] && a[i] == b[i];
      VisibleLeak(t, x, h);
      VisibleLeak(t, x, i);
      LeakOnBothParities(t, x, h, i);
    }
  }

  lemma VisibleLeak(t: Trig, x: seq<Complex>, i: nat)
    requires |x| >= 2 && t.n > 0
    requires FrameSample(t, RealRadix2, x, i) == FrameSample(t, DirectDft, x, i)
    requires Hann(t, i) != 0.0
    ensures Leak(t, x, i) == 0.0
  {
    hide DirectSample, Leak, Hann;
    LeakVisible(DirectSample(t, x, i), Leak(t, x, i), Hann(t, i));
  }

  lemma LeakOnBothParities(t: Trig, x: seq<Complex>, i: nat, j: nat)
    requires |x| >= 2 && t.n > 0 && i % 2 == 0 && j % 2 == 1
    requires Leak(t, x, i) == 0.0 && Leak(t, x, j) == 0.0
    ensures x[0].im == 0.0 && x[|x| - 1].im == 0.0
  {
    NonzeroQuotient(x[0].im + x[|x| - 1].im, t.n as real);
    NonzeroQuotient(x[0].im - x[|x| - 1].im, t.n as real);
  }

  lemma NoLeak(t: Trig, x: seq<Complex>, i: nat)
    requires |x| >= 2 && t.n > 0 && x[0].im == 0.0 && x[|x| - 1].im == 0.0
    ensures Leak(t, x, i) == 0.0
    ensures FrameSample(t, RealRadix2, x, i) == FrameSample(t, DirectDft, x, i)
  {
    hide DirectSample, Hann;
  }

  lemma HalfTurnWindow(t: Trig, x: seq<Complex>)
    requires t.Valid()
    ensures Hann(t, t.n / 2) == 1.0
  {}

  /** Some odd position has a nonzero window. */
  lemma OddWindow(t: Trig) returns (i: nat)
    requires t.Valid() && t.n >= 4 && t.n % 4 == 0
    ensures i < t.n && i % 2 == 1 && Hann(t, i) != 0.0
  {
    i := 1;
    if t.c(1) == 1.0 {
      CosOne(t, t.n / 2);
    }
  }

  lemma {:induction false} CosOne(t: Trig, j: nat)
    requires t.Valid() && t.c(1) == 1.0
    ensures t.c(j) == 1.0 && t.s(j) == 0.0
  {
    assert t.AddLaw(1, -1) && t.ParityLaw(1);
    assert t.s(1) * t.s(1) == 0.0;
    if j > 0 {
      CosOne(t, j - 1);
      assert t.AddLaw(j - 1, 1);
    }
  }

  lemma LeakVisible(d: real, leak: real, w: real)
    requires (d + leak) * w == (d + 0.0) * w && w != 0.0
    ensures leak == 0.0
  {}

  lemma NonzeroQuotient(a: real, n: real)
    requires n > 0.0
    ensures a / n == 0.0 ==> a == 0.0
  {}
}
