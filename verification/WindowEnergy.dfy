/** Where the squared windows leave enough energy to divide by. */
module WindowEnergy {
  import opened Wrappers
  import opened Arith
  import opened Complex
  import opened Analysis
  import opened IstftPlan
  import opened OverlapAdd
  import opened Istft
  import opened Reconstruction

  ghost predicate Nonnegative(contrib: seq<seq<real>>) {
    forall f, i {:trigger contrib[f][i]} :: 0 <= f < |contrib| && 0 <= i < |contrib[f]| ==> contrib[f][i] >= 0.0
  }

  lemma {:induction false} OverlapNonnegative(contrib: seq<seq<real>>, hop: nat, p: nat, k: nat)
    requires Nonnegative(contrib) && k <= |contrib|
    ensures Overlap(contrib, hop, p, k) >= 0.0
  {
    if k > 0 { OverlapNonnegative(contrib, hop, p, k - 1); }
  }

  /** The sum over all frames is at least that of any two of them. */
  lemma {:induction false} AtLeastTwo(contrib: seq<seq<real>>, hop: nat, p: nat, k: nat, f: nat, g: nat)
    requires Nonnegative(contrib) && f < g < k <= |contrib|
    ensures Overlap(contrib, hop, p, k)
         >= Sample(contrib[f], hop * f, p) + Sample(contrib[g], hop * g, p)
  {
    if k - 1 > g {
      AtLeastTwo(contrib, hop, p, k - 1, f, g);
    } else {
      AtLeastOne(contrib, hop, p, g, f);
    }
  }

  lemma {:induction false} AtLeastOne(contrib: seq<seq<real>>, hop: nat, p: nat, k: nat, f: nat)
    requires Nonnegative(contrib) && f < k <= |contrib|
    ensures Overlap(contrib, hop, p, k) >= Sample(contrib[f], hop * f, p)
  {
    if k - 1 > f {
      AtLeastOne(contrib, hop, p, k - 1, f);
    } else {
      OverlapNonnegative(contrib, hop, p, k - 1);
    }
  }

  lemma SquareNonnegative(x: real)
    ensures x * x >= 0.0
  {}

  lemma EnergiesNonnegative(t: Trig, frames: nat)
    ensures Nonnegative(EnergiesOf(t, frames))
  {
    var es := EnergiesOf(t, frames);
    forall f, i {:trigger es[f][i]} | 0 <= f < |es| && 0 <= i < |es[f]|
      ensures es[f][i] >= 0.0
    {
      SquareNonnegative(Hann(t, i));
    }
  }

  /** Two windows half a frame apart have squares that add up to at least a half. */
  lemma HalfTurnEnergy(t: Trig, i: int)
    requires t.Valid()
    ensures Hann(t, i) * Hann(t, i) + Hann(t, i + t.n / 2) * Hann(t, i + t.n / 2) >= 0.5
  {
    RootHalfTurn(t, i);
    var c := t.c(i);
    assert t.c(i + t.n / 2) == -c;
    SquareNonnegative(c);
    assert (0.5 - 0.5 * c) * (0.5 - 0.5 * c) + (0.5 + 0.5 * c) * (0.5 + 0.5 * c) == 0.5 + 0.5 * (c * c);
  }

  lemma EnergySample(t: Trig, frames: nat, f: nat, hop: nat, p: nat)
    requires f < frames && hop * f <= p < hop * f + t.n
    ensures Sample(EnergiesOf(t, frames)[f], hop * f, p) == Hann(t, p - hop * f) * Hann(t, p - hop * f)
  {
    assert EnergiesOf(t, frames)[f] == WindowSquared(t);
  }

  lemma Quotient(p: nat, hop: nat) returns (q: nat)
    requires hop > 0
    ensures hop * q <= p < hop * (q + 1) == hop * q + hop
  {
    DivModDef(p, hop);
    q := p / hop;
    assert q * hop == hop * q;
  }

  lemma Fewer(hop: nat, a: nat, b: nat)
    requires hop * a < hop * b
    ensures a < b
  {
    assert hop * b == b * hop && hop * a == a * hop;
    if b <= a { MulMono(b, a, hop); }
  }

  /** The last frame that starts at or before p, and the one half a frame earlier. */
  lemma CoveringFrames(hop: nat, m: nat, frames: nat, half: nat, p: nat) returns (g: nat)
    requires m >= 1 && frames > m && hop * m == half && half > 0
    requires half <= p < half + hop * (frames - 1)
    ensures m <= g < frames && hop * g <= p < hop * g + half
    ensures hop * (g - m) == hop * g - half
  {
    assert hop > 0;
    var q := Quotient(p, hop);
    Fewer(hop, m, q + 1);
    MulMono(1, m, hop);
    assert m * hop == hop * m;
    g := if q < frames then q else frames - 1;
    MulMono(g, q, hop);
    assert g * hop == hop * g && q * hop == hop * q;
    assert hop * (g - m) == hop * g - hop * m;
  }

  /** When whole hops make half a frame, every sample of a centred plan has energy. */
  lemma EnoughEnergy(t: Trig, plan: Plan, frames: nat, m: nat, p: nat)
    requires t.Valid() && m >= 1 && plan.config.hop * m == t.n / 2 && frames > m
    requires t.n / 2 <= p < t.n / 2 + plan.config.hop * (frames - 1)
    ensures Energy(t, plan, frames, p) >= 0.5
  {
    hide Hann, Overlap, Sample, Nonnegative;
    var hop, half := plan.config.hop, t.n / 2;
    var g := CoveringFrames(hop, m, frames, half, p);
    EnergiesNonnegative(t, frames);
    AtLeastTwo(EnergiesOf(t, frames), hop, p, frames, g - m, g);
    EnergySample(t, frames, g, hop, p);
    EnergySample(t, frames, g - m, hop, p);
    HalfTurnEnergy(t, p - hop * g);
    assert p - hop * (g - m) == p - hop * g + half;
  }

  /** Then analysis followed by synthesis gives back every sample, to the very edges,
      of a signal longer than half a frame. */
  lemma EverySampleBack(t: Trig, plan: Plan, view: SpectrumView, y: int -> real, audio: seq<real>, m: nat, i: nat)
    requires t.Valid() && Primitive(t) && plan.config.nFft == t.n && plan.config.center
    requires m >= 1 && plan.config.hop * m == t.n / 2 && view.frames > m
    requires view.InBounds() && plan.Bins() >= 2
    requires Istft.Reconstruction(t, plan, view) == Ok(audio) && i < |audio|
    requires AnalysisOf(t, plan, view, y)
    ensures audio[i] == y(i + t.n / 2)
  {
    hide AnalysisOf, Primitive, Energy;
    CentredLength(t, plan, view, audio);
    assert (view.frames - 1) * plan.config.hop == plan.config.hop * (view.frames - 1);
    AnalysisThenSynthesis(t, plan, view, y, audio, i);
    EnoughEnergy(t, plan, view.frames, m, i + t.n / 2);
  }

  /** With frames that do not overlap, the start of every frame has no energy. */
  lemma {:induction false} NoEnergy(t: Trig, hop: nat, frames: nat, f: nat, k: nat)
    requires t.Valid() && hop == t.n && k <= frames
    ensures Overlap(EnergiesOf(t, frames), hop, hop * f, k) == 0.0
  {
    if k > 0 {
      NoEnergy(t, hop, frames, f, k - 1);
      var j := k - 1;
      if j == f {
        EnergySample(t, frames, j, hop, hop * f);
      } else if j < f {
        MulMono(j + 1, f, hop);
        assert (j + 1) * hop == hop * j + hop && f * hop == hop * f;
      } else {
        MulMono(f + 1, j, hop);
        assert (f + 1) * hop == hop * f + hop && j * hop == hop * j;
      }
    }
  }

  /** So a plan whose hop is the whole frame emits a zero there, inside the signal and
      whatever the spectrum. */
  lemma FullHopLosesSamples(t: Trig, plan: Plan, view: SpectrumView, audio: seq<real>, f: nat)
    requires t.Valid() && plan.config.nFft == t.n && plan.config.center && plan.config.hop == t.n
    requires view.InBounds() && plan.Bins() >= 2 && 1 <= f < view.frames
    requires Istft.Reconstruction(t, plan, view) == Ok(audio)
    ensures 0 <= t.n * f - t.n / 2 < |audio| && audio[t.n * f - t.n / 2] == 0.0
  {
    hide FramesOf, EnergiesOf, Overlap;
    CentredLength(t, plan, view, audio);
    MulMono(1, f, t.n);
    MulMono(f, view.frames - 1, t.n);
    assert f * t.n == t.n * f;
    NoEnergy(t, t.n, view.frames, f, view.frames);
  }
}
