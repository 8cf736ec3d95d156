/** What overlap-add recovers from slices of one signal. */
module Reconstruction {
  import opened Wrappers
  import opened Complex
  import opened Analysis
  import opened IstftPlan
  import opened IstftFrame
  import opened OverlapAdd
  import opened Istft

  /** Every column inverse-transforms to the windowed slice of y at stride hop. */
  ghost predicate SlicesOf(t: Trig, plan: Plan, view: SpectrumView, y: int -> real)
    requires t.n > 0 && view.bins >= 2
    requires view.re.Data? && view.im.Data? && view.InBounds()
  {
    forall f: nat, i: nat {:trigger InverseSample(t, plan.kernel, view.Column(f), i)} ::
      f < view.frames && i < t.n ==>
        InverseSample(t, plan.kernel, view.Column(f), i) == Hann(t, i) * y(plan.config.hop * f + i)
  }

  /** Accumulated window energy at padded position p. */
  ghost function Energy(t: Trig, plan: Plan, frames: nat, p: nat): real {
    Overlap(EnergiesOf(t, frames), plan.config.hop, p, frames)
  }

  lemma SquaredWindow(w: real, y: real)
    ensures w * y * w == y * (w * w)
  {}

  lemma Distribute(y: real, a: real, b: real)
    ensures y * (a + b) == y * a + y * b
  {}

  lemma DivideOut(y: real, e: real)
    requires e > 0.0
    ensures y * e / e == y
  {}

  lemma SliceSample(t: Trig, plan: Plan, view: SpectrumView, y: int -> real, f: nat, p: nat)
    requires t.n > 0 && view.bins >= 2
    requires view.re.Data? && view.im.Data? && view.InBounds()
    requires SlicesOf(t, plan, view, y) && f < view.frames
    ensures Sample(FramesOf(t, plan.kernel, view)[f], plan.config.hop * f, p)
         == y(p) * Sample(EnergiesOf(t, view.frames)[f], plan.config.hop * f, p)
  {
    hide InverseSample, Hann;
    var base := plan.config.hop * f;
    if base <= p < base + t.n {
      var i := p - base;
      assert InverseSample(t, plan.kernel, view.Column(f), i) == Hann(t, i) * y(p);
      assert FramesOf(t, plan.kernel, view)[f][i] == Hann(t, i) * y(p) * Hann(t, i);
      assert EnergiesOf(t, view.frames)[f][i] == Hann(t, i) * Hann(t, i);
      SquaredWindow(Hann(t, i), y(p));
    }
  }

  /** Overlapping the windowed slices weighs y by the accumulated energy. */
  lemma {:induction false} OverlapOfSlices(t: Trig, plan: Plan, view: SpectrumView, y: int -> real, p: nat, k: nat)
    requires t.n > 0 && view.bins >= 2
    requires view.re.Data? && view.im.Data? && view.InBounds()
    requires SlicesOf(t, plan, view, y) && k <= view.frames
    ensures Overlap(FramesOf(t, plan.kernel, view), plan.config.hop, p, k)
         == y(p) * Overlap(EnergiesOf(t, view.frames), plan.config.hop, p, k)
  {
    hide SlicesOf, FramesOf, EnergiesOf, Sample;
    if k > 0 {
      OverlapOfSlices(t, plan, view, y, p, k - 1);
      SliceSample(t, plan, view, y, k - 1, p);
      Distribute(y(p), Overlap(EnergiesOf(t, view.frames), plan.config.hop, p, k - 1),
                 Sample(EnergiesOf(t, view.frames)[k - 1], plan.config.hop * (k - 1), p));
    }
  }

  /** Exact reconstruction: a sample with enough window energy is the original
      sample, one without is zero. */
  lemma ExactReconstruction(t: Trig, plan: Plan, view: SpectrumView, y: int -> real, audio: seq<real>, i: nat)
    requires view.InBounds() && t.n > 0 && plan.Bins() >= 2 && view.frames > 0
    requires Istft.Reconstruction(t, plan, view) == Ok(audio) && i < |audio|
    requires SlicesOf(t, plan, view, y)
    ensures audio[i] == if Energy(t, plan, view.frames, i + Trim(plan.config)) > MIN_ENVELOPE
                        then y(i + Trim(plan.config)) else 0.0
  {
    hide SlicesOf, FramesOf, EnergiesOf, Overlap;
    var p := i + Trim(plan.config);
    var es := EnergiesOf(t, view.frames);
    OverlapOfSlices(t, plan, view, y, p, view.frames);
    if Energy(t, plan, view.frames, p) > MIN_ENVELOPE {
      DivideOut(y(p), Energy(t, plan, view.frames, p));
    }
  }

  /** Frame f of a signal, windowed for analysis. */
  function WindowedSlice(t: Trig, y: int -> real, base: int): (s: seq<real>)
    requires t.n > 0
    ensures |s| == t.n
    ensures forall i {:trigger s[i]} :: 0 <= i < t.n ==> s[i] == Hann(t, i) * y(base + i)
  {
    seq(t.n, i requires 0 <= i => Hann(t, i) * y(base + i))
  }

  /** Element frameStride * f + binStride * k of the two buffers is the real and the
      imaginary part of bin k of the windowed frame f of y. */
  ghost predicate AnalysisOf(t: Trig, plan: Plan, view: SpectrumView, y: int -> real)
    requires t.n > 0 && view.bins == t.n / 2 + 1 && view.re.Data? && view.im.Data? && view.InBounds()
  {
    forall f: nat, k: nat {:trigger view.Offset(f, k)} :: f < view.frames && k < view.bins ==>
      var at := view.frameStride * f + view.binStride * k;
      var bin := Bin(t, WindowedSlice(t, y, plan.config.hop * f), k, t.n);
      && 0 <= at < |view.re.values| && 0 <= at < |view.im.values|
      && view.re.values[at] == bin.re && view.im.values[at] == bin.im
  }

  lemma ColumnIsSpectrum(t: Trig, plan: Plan, view: SpectrumView, y: int -> real, f: nat)
    requires t.n > 0 && view.bins == t.n / 2 + 1 && view.re.Data? && view.im.Data? && view.InBounds()
    requires AnalysisOf(t, plan, view, y) && f < view.frames
    ensures view.Column(f) == Spectrum(t, WindowedSlice(t, y, plan.config.hop * f), t.n)
  {
    hide Bin;
    var slice := WindowedSlice(t, y, plan.config.hop * f);
    forall k | 0 <= k < view.bins
      ensures view.Column(f)[k] == Spectrum(t, slice, t.n)[k]
    {
      assert view.Offset(f, k) == view.frameStride * f + view.binStride * k;
    }
  }

  /** Windowed analysis, laid out in the two buffers with any strides, followed by the
      reconstruction is the identity wherever the windows leave enough energy, with
      either kernel. */
  lemma AnalysisThenSynthesis(t: Trig, plan: Plan, view: SpectrumView, y: int -> real, audio: seq<real>, i: nat)
    requires t.Valid() && Primitive(t) && plan.config.nFft == t.n
    requires view.InBounds() && plan.Bins() >= 2 && view.frames > 0
    requires Istft.Reconstruction(t, plan, view) == Ok(audio) && i < |audio|
    requires AnalysisOf(t, plan, view, y)
    ensures var p := i + if plan.config.center then t.n / 2 else 0;
            audio[i] == if Energy(t, plan, view.frames, p) > 0.00000001 then y(p) else 0.0
  {
    hide FramesOf, EnergiesOf, Overlap, Primitive, Spectrum, InverseSample, Energy, Hann, AnalysisOf;
    forall f: nat, j: nat {:trigger InverseSample(t, plan.kernel, view.Column(f), j)} | f < view.frames && j < t.n
      ensures InverseSample(t, plan.kernel, view.Column(f), j) == Hann(t, j) * y(plan.config.hop * f + j)
    {
      ColumnIsSpectrum(t, plan, view, y, f);
      InverseOfSpectrum(t, plan.kernel, WindowedSlice(t, y, plan.config.hop * f), j);
    }
    ExactReconstruction(t, plan, view, y, audio, i);
  }

  /** A centred plan yields hop samples per frame after the first. */
  lemma CentredLength(t: Trig, plan: Plan, view: SpectrumView, audio: seq<real>)
    requires view.InBounds() && t.n > 0 && plan.Bins() >= 2 && view.frames > 0 && plan.config.center
    requires Istft.Reconstruction(t, plan, view) == Ok(audio)
    ensures |audio| == (view.frames - 1) * plan.config.hop
  {
    hide FramesOf, EnergiesOf;
  }
}
