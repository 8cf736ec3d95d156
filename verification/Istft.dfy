/** Windowed overlap-add reconstruction over a strided spectrum, with the workspace's
    buffers updated in place. */
module Istft {
  import opened Wrappers
  import opened Arith
  import opened Complex
  import opened IstftPlan
  import opened IstftFrame
  import opened OverlapAdd
  import Scalar = IstftKernels
  import Avx2 = IstftAvx2
  import opened IstftKernels

  /** Below this window energy a sample counts as uncovered. */
  const MIN_ENVELOPE: real := 0.00000001

  /** A buffer handed in by the caller, possibly a null pointer. */
  datatype Buffer = Null | Data(values: seq<real>)

  datatype SpectrumView = SpectrumView(
    re: Buffer, im: Buffer, bins: nat, frames: nat, binStride: int, frameStride: int)
  {
    function Offset(f: int, k: int): int {
      frameStride * f + binStride * k
    }

    /** Every element the strides name lies in both buffers. */
    ghost predicate InBounds() {
      re.Data? && im.Data? ==>
        forall f: nat, k: nat {:trigger Offset(f, k)} :: f < frames && k < bins ==>
          0 <= Offset(f, k) < |re.values| && Offset(f, k) < |im.values|
    }

    /** Column f as a complex half-spectrum. */
    ghost function Column(f: nat): (x: seq<Complex>)
      requires re.Data? && im.Data? && InBounds() && f < frames
      ensures |x| == bins
    {
      seq(bins, k requires 0 <= k < bins => Complex(re.values[Offset(f, k)], im.values[Offset(f, k)]))
    }
  }

  datatype IstftError = BinMismatch | NullBuffer | LengthOverflow

  // ----- What the reconstruction is ----------------------------------------------

  /** Output sample at padded position p: the windowed frames covering it over the
      summed squared window. */
  ghost function OutSample(frames: seq<seq<real>>, energies: seq<seq<real>>, hop: nat, p: nat): real {
    Normalised(Overlap(frames, hop, p, |frames|), Overlap(energies, hop, p, |energies|), MIN_ENVELOPE)
  }

  /** Every frame of a spectrum, inverse-transformed and windowed. */
  ghost function FramesOf(t: Trig, kernel: Kernel, view: SpectrumView): (fs: seq<seq<real>>)
    requires t.n > 0 && view.bins >= 2
    requires view.re.Data? && view.im.Data? && view.InBounds()
    ensures |fs| == view.frames && AllOfLength(fs, t.n)
    ensures forall f {:trigger fs[f]} :: 0 <= f < view.frames ==> fs[f] == FrameSamples(t, kernel, view.Column(f))
  {
    seq(view.frames, f requires 0 <= f < view.frames => FrameSamples(t, kernel, view.Column(f)))
  }

  /** The squared window once per frame. */
  ghost function EnergiesOf(t: Trig, frames: nat): (es: seq<seq<real>>)
    ensures |es| == frames && AllOfLength(es, t.n)
    ensures forall f {:trigger es[f]} :: 0 <= f < frames ==> es[f] == WindowSquared(t)
  {
    seq(frames, f => WindowSquared(t))
  }

  ghost function WindowSquared(t: Trig): (w: seq<real>)
    ensures |w| == t.n
    ensures forall i {:trigger w[i]} :: 0 <= i < t.n ==> w[i] == Hann(t, i) * Hann(t, i)
  {
    seq(t.n, i => Hann(t, i) * Hann(t, i))
  }

  function Trim(config: Config): nat {
    if config.center then config.nFft / 2 else 0
  }

  /** The whole result, from the plan's tables and the spectrum alone. */
  ghost function Reconstruction(t: Trig, plan: Plan, view: SpectrumView): Result<seq<real>, IstftError>
    requires t.n > 0 && plan.Bins() >= 2 && view.InBounds()
  {
    if view.bins != plan.Bins() then Err(BinMismatch)
    else if view.frames == 0 then Ok([])
    else if view.re.Null? || view.im.Null? then Err(NullBuffer)
    else match plan.OutputSamples(view.frames)
      case None => Err(LengthOverflow)
      case Some(len) =>
        var fs, es := FramesOf(t, plan.kernel, view), EnergiesOf(t, view.frames);
        Ok(Signal(fs, es, plan.config.hop, Trim(plan.config), len))
  }

  /** The first `len` output samples after trimming. */
  ghost function Signal(frames: seq<seq<real>>, energies: seq<seq<real>>, hop: nat, trim: nat, len: nat): (y: seq<real>)
    ensures |y| == len
    ensures forall i {:trigger y[i]} :: 0 <= i < len ==> y[i] == OutSample(frames, energies, hop, i + trim)
  {
    seq(len, i requires 0 <= i => OutSample(frames, energies, hop, i + trim))
  }

  // ----- Emission ------------------------------------------------------------------

  /** The output holds its final value below `emitted` and zeros above. */
  ghost predicate Emitted(audio: seq<real>, frames: seq<seq<real>>, energies: seq<seq<real>>,
                          hop: nat, trim: nat, emitted: nat)
  {
    forall i {:trigger audio[i]} :: 0 <= i < |audio| ==>
      audio[i] == if i + trim < emitted then OutSample(frames, energies, hop, i + trim) else 0.0
  }

  method ClearRun(ring: array<real>, slot: nat, run: nat)
    requires slot + run <= ring.Length
    modifies ring
    ensures forall s {:trigger ring[s]} :: 0 <= s < ring.Length ==>
              ring[s] == if slot <= s < slot + run then 0.0 else old(ring[s])
  {
    for k := 0 to run
      invariant forall s {:trigger ring[s]} :: 0 <= s < ring.Length ==>
                  ring[s] == if slot <= s < slot + k then 0.0 else old(ring[s])
    {
      ring[slot + k] := 0.0;
    }
  }

  /** Emits one contiguous run of the ring. */
  method EmitRun(audio: array<real>, ola: array<real>, env: array<real>, n: nat, hop: nat, trim: nat,
                 emitted: nat, run: nat, simd: bool,
                 ghost frames: seq<seq<real>>, ghost energies: seq<seq<real>>, ghost k: nat)
    requires audio != ola && audio != env
    requires 0 < n && |frames| == |energies| && k <= |frames|
    requires 0 < run <= n - emitted % n
    requires k == |frames| || emitted + run <= hop * k
    requires Ring(ola[..], frames, hop, n, emitted, k) && Ring(env[..], energies, hop, n, emitted, k)
    requires Emitted(audio[..], frames, energies, hop, trim, emitted)
    modifies audio
    ensures Emitted(audio[..], frames, energies, hop, trim, emitted + run)
  {
    hide Overlap, OutSample, Ring, Normalised;
    RingLength(ola[..], frames, hop, n, emitted, k);
    RingLength(env[..], energies, hop, n, emitted, k);
    var slot := emitted % n;
    var begin := if emitted > trim then emitted else trim;
    var end := if emitted + run < trim + audio.Length then emitted + run else trim + audio.Length;
    if begin < end {
      var offset := begin - emitted;
      forall s | slot + offset <= s < slot + offset + (end - begin)
        ensures Normalised(ola[s], env[s], MIN_ENVELOPE) == OutSample(frames, energies, hop, emitted + (s - slot))
      {
        LiveSample(ola[..], env[..], n, hop, emitted, s, frames, energies, k);
      }
      if simd {
        Avx2.Normalise(audio, begin - trim, ola, env, slot + offset, end - begin, MIN_ENVELOPE);
      } else {
        Scalar.Normalise(audio, begin - trim, ola, env, slot + offset, end - begin, MIN_ENVELOPE);
      }
    }
  }

  /** A slot about to be emitted already holds the final sums of its position. */
  lemma LiveSample(ola: seq<real>, env: seq<real>, n: nat, hop: nat, emitted: nat, s: nat,
                   frames: seq<seq<real>>, energies: seq<seq<real>>, k: nat)
    requires 0 < n && |frames| == |energies| && k <= |frames|
    requires emitted % n <= s < n
    requires k == |frames| || emitted + (s - emitted % n) < hop * k
    requires Ring(ola, frames, hop, n, emitted, k) && Ring(env, energies, hop, n, emitted, k)
    ensures Normalised(ola[s], env[s], MIN_ENVELOPE)
         == OutSample(frames, energies, hop, emitted + (s - emitted % n))
  {
    var p := emitted + (s - emitted % n);
    assert Position(n, emitted, s) == p;
    OverlapSettled(frames, hop, p, k, |frames|);
    OverlapSettled(energies, hop, p, k, |frames|);
  }

  /** Emits every padded position below `pending` and frees its slot, one run per
      pass through the ring. */
  method FlushUntil(audio: array<real>, ola: array<real>, env: array<real>, n: nat, hop: nat, trim: nat,
                    from: nat, pending: nat, simd: bool,
                    ghost frames: seq<seq<real>>, ghost energies: seq<seq<real>>, ghost k: nat)
    returns (emitted: nat)
    requires audio != ola && audio != env && ola != env
    requires 0 < n && |frames| == |energies| && k <= |frames|
    requires AllOfLength(frames, n) && AllOfLength(energies, n)
    requires from <= pending
    requires k > 0 ==> hop * (k - 1) <= from
    requires k == |frames| || pending <= hop * k
    requires Ring(ola[..], frames, hop, n, from, k) && Ring(env[..], energies, hop, n, from, k)
    requires Emitted(audio[..], frames, energies, hop, trim, from)
    modifies audio, ola, env
    ensures emitted == pending
    ensures Ring(ola[..], frames, hop, n, emitted, k) && Ring(env[..], energies, hop, n, emitted, k)
    ensures Emitted(audio[..], frames, energies, hop, trim, emitted)
  {
    hide Ring, Emitted;
    RingLength(ola[..], frames, hop, n, from, k);
    RingLength(env[..], energies, hop, n, from, k);
    emitted := from;
    while emitted < pending
      invariant from <= emitted <= pending
      invariant Ring(ola[..], frames, hop, n, emitted, k) && Ring(env[..], energies, hop, n, emitted, k)
      invariant Emitted(audio[..], frames, energies, hop, trim, emitted)
      decreases pending - emitted
    {
      var slot := emitted % n;
      var run := if pending - emitted < n - slot then pending - emitted else n - slot;
      EmitRun(audio, ola, env, n, hop, trim, emitted, run, simd, frames, energies, k);
      FreeRun(ola, n, hop, emitted, run, frames, k);
      FreeRun(env, n, hop, emitted, run, energies, k);
      emitted := emitted + run;
    }
  }

  lemma RingLength(ring: seq<real>, contrib: seq<seq<real>>, hop: nat, n: nat, emitted: nat, k: nat)
    requires 0 < n && k <= |contrib| && Ring(ring, contrib, hop, n, emitted, k)
    ensures |ring| == n
  {}

  method FreeRun(ring: array<real>, n: nat, hop: nat, emitted: nat, run: nat,
                 ghost contrib: seq<seq<real>>, ghost k: nat)
    requires 0 < n && k <= |contrib| && AllOfLength(contrib, n)
    requires 0 < run <= n - emitted % n
    requires k > 0 ==> hop * (k - 1) <= emitted
    requires ring.Length == n && Ring(ring[..], contrib, hop, n, emitted, k)
    modifies ring
    ensures Ring(ring[..], contrib, hop, n, emitted + run, k)
  {
    hide Ring;
    ghost var before := ring[..];
    ClearRun(ring, emitted % n, run);
    RingAdvance(before, ring[..], contrib, hop, n, emitted, run, k);
  }

  // ----- The transform --------------------------------------------------------------

  /** Column f of both buffers, gathered into contiguous scratch unless it already
      is contiguous. */
  method LoadColumn(view: SpectrumView, f: nat, binReal: array<real>, binImag: array<real>)
    returns (re: seq<real>, im: seq<real>)
    requires view.re.Data? && view.im.Data? && view.InBounds() && f < view.frames
    requires binReal != binImag
    requires view.binStride != 1 ==> binReal.Length == binImag.Length == view.bins
    modifies binReal, binImag
    ensures |re| == |im| == view.bins && Zip(re, im) == view.Column(f)
  {
    var base := view.frameStride * f;
    ColumnOffsets(view, f);
    if view.binStride != 1 {
      Scalar.GatherStrided(binReal, view.re.values, base, view.binStride);
      Scalar.GatherStrided(binImag, view.im.values, base, view.binStride);
      re, im := binReal[..], binImag[..];
    } else if view.bins == 0 {
      re, im := [], [];
    } else {
      assert view.Offset(f, 0) == base && view.Offset(f, view.bins - 1) == base + view.bins - 1;
      re, im := view.re.values[base..base + view.bins], view.im.values[base..base + view.bins];
    }
  }

  lemma ColumnOffsets(view: SpectrumView, f: nat)
    requires view.re.Data? && view.im.Data? && view.InBounds() && f < view.frames
    ensures forall k {:trigger view.Offset(f, k)} :: 0 <= k < view.bins ==>
              view.Offset(f, k) == view.frameStride * f + view.binStride * k
    ensures forall k :: 0 <= k < view.bins ==>
              0 <= view.frameStride * f + view.binStride * k < |view.re.values|
    ensures forall k :: 0 <= k < view.bins ==>
              0 <= view.frameStride * f + view.binStride * k < |view.im.values|
  {
    forall k | 0 <= k < view.bins
      ensures 0 <= view.frameStride * f + view.binStride * k < |view.re.values|
      ensures 0 <= view.frameStride * f + view.binStride * k < |view.im.values|
    {
      assert 0 <= view.Offset(f, k);
    }
  }

  /** The buffers one call works in: sized for the plan, and no two the same. */
  ghost predicate Scratch(plan: Plan, t: Trig, view: SpectrumView, frame: array<real>,
                          zr: array<real>, zi: array<real>, binReal: array<real>, binImag: array<real>,
                          ola: array<real>, env: array<real>)
  {
    && frame.Length == ola.Length == env.Length == t.n
    && (plan.kernel == RealRadix2 ==> zr.Length == zi.Length == t.n / 2)
    && (view.binStride != 1 ==> binReal.Length == binImag.Length == view.bins)
    && frame != zr && frame != zi && zr != zi && binReal != binImag && ola != env
    && ola !in {frame, zr, zi, binReal, binImag} && env !in {frame, zr, zi, binReal, binImag}
  }

  /** One frame: inverse transform, window, and the two additions into the rings. */
  method AddFrame(plan: Plan, ghost t: Trig, view: SpectrumView, f: nat, simd: bool,
                  frame: array<real>, zr: array<real>, zi: array<real>,
                  binReal: array<real>, binImag: array<real>, ola: array<real>, env: array<real>,
                  ghost fs: seq<seq<real>>, ghost es: seq<seq<real>>)
    requires ValidPlan(plan, t) && view.re.Data? && view.im.Data? && view.InBounds()
    requires view.bins == plan.Bins() && f < view.frames
    requires fs == FramesOf(t, plan.kernel, view) && es == EnergiesOf(t, view.frames)
    requires Scratch(plan, t, view, frame, zr, zi, binReal, binImag, ola, env)
    requires Ring(ola[..], fs, plan.config.hop, t.n, plan.config.hop * f, f)
    requires Ring(env[..], es, plan.config.hop, t.n, plan.config.hop * f, f)
    modifies frame, zr, zi, binReal, binImag, ola, env
    ensures Ring(ola[..], fs, plan.config.hop, t.n, plan.config.hop * f, f + 1)
    ensures Ring(env[..], es, plan.config.hop, t.n, plan.config.hop * f, f + 1)
  {
    hide ValidPlan, Ring, FrameSamples, FramesOf, EnergiesOf, WindowSquared;
    PlanSize(plan, t);
    PlanEnergy(plan, t);
    FrameInverse(plan, t, view, f, simd, frame, zr, zi, binReal, binImag);
    var n, hop := plan.config.nFft, plan.config.hop;
    assert fs[f] == frame[..] && es[f] == plan.windowSq;
    AddToBoth(ola, env, frame[..], plan.windowSq, n, hop, f, simd, fs, es);
  }

  method AddToBoth(ola: array<real>, env: array<real>, frame: seq<real>, energy: seq<real>, n: nat, hop: nat, f: nat,
                   simd: bool, ghost fs: seq<seq<real>>, ghost es: seq<seq<real>>)
    requires 0 < n && ola != env && ola.Length == env.Length == n && |frame| == |energy| == n
    requires f < |fs| == |es| && AllOfLength(fs, n) && AllOfLength(es, n)
    requires fs[f] == frame && es[f] == energy
    requires Ring(ola[..], fs, hop, n, hop * f, f) && Ring(env[..], es, hop, n, hop * f, f)
    modifies ola, env
    ensures Ring(ola[..], fs, hop, n, hop * f, f + 1) && Ring(env[..], es, hop, n, hop * f, f + 1)
  {
    hide Ring;
    var start := (hop * f) % n;
    ghost var ola0, env0 := ola[..], env[..];
    AddToRing(ola, frame, start, simd);
    AddToRing(env, energy, start, simd);
    RingAdd(ola0, ola[..], fs, hop, n, f);
    RingAdd(env0, env[..], es, hop, n, f);
  }

  /** The frame buffer receives column f, inverse-transformed and windowed. */
  method FrameInverse(plan: Plan, ghost t: Trig, view: SpectrumView, f: nat, simd: bool,
                      frame: array<real>, zr: array<real>, zi: array<real>,
                      binReal: array<real>, binImag: array<real>)
    requires ValidPlan(plan, t) && view.re.Data? && view.im.Data? && view.InBounds()
    requires view.bins == plan.Bins() && f < view.frames
    requires frame.Length == t.n && frame != zr && frame != zi && zr != zi && binReal != binImag
    requires plan.kernel == RealRadix2 ==> zr.Length == zi.Length == t.n / 2
    requires view.binStride != 1 ==> binReal.Length == binImag.Length == view.bins
    modifies frame, zr, zi, binReal, binImag
    ensures t.n > 0 && view.bins >= 2
    ensures frame[..] == FrameSamples(t, plan.kernel, view.Column(f))
  {
    hide ValidPlan, FrameSamples;
    PlanSize(plan, t);
    var re, im := LoadColumn(view, f, binReal, binImag);
    if plan.kernel == DirectDft {
      DirectFrame(plan, t, frame, re, im, simd);
    } else {
      Radix2Frame(plan, t, frame, zr, zi, re, im, simd);
    }
  }

  lemma PlanEnergy(plan: Plan, t: Trig)
    requires ValidPlan(plan, t)
    ensures plan.windowSq == WindowSquared(t)
  {}

  lemma PlanHop(plan: Plan, t: Trig)
    requires ValidPlan(plan, t)
    ensures 0 < plan.config.hop <= plan.config.nFft == t.n
  {}

  /** Windowed overlap-add reconstruction. The result depends on the plan's tables
      and the spectrum alone: not on the workspace's earlier contents, nor on
      whether the vector or the scalar kernels run. */
  method Istft(plan: Plan, ghost t: Trig, ws: Workspace, view: SpectrumView, simd: bool)
    returns (r: Result<array<real>, IstftError>)
    requires ValidPlan(plan, t) && view.InBounds()
    modifies ws
    ensures t.n > 0 && plan.Bins() >= 2
    ensures match r
            case Ok(audio) => Reconstruction(t, plan, view) == Ok(audio[..])
            case Err(e) => Reconstruction(t, plan, view) == Err(e)
    ensures r == Err(BinMismatch) <==> view.bins != plan.config.nFft / 2 + 1
    ensures r == Err(NullBuffer) <==>
              view.bins == plan.config.nFft / 2 + 1 && view.frames > 0 && (view.re.Null? || view.im.Null?)
    ensures r == Err(LengthOverflow) <==>
              && view.bins == plan.config.nFft / 2 + 1 && view.frames > 0 && view.re.Data? && view.im.Data?
              && plan.config.hop * (view.frames - 1) + plan.config.nFft > 0xFFFF_FFFF_FFFF_FFFF
    ensures r.Ok? && view.frames == 0 ==> r.value.Length == 0
    ensures r.Ok? && view.frames > 0 && plan.config.center ==>
              r.value.Length == plan.config.hop * (view.frames - 1)
    ensures r.Ok? && view.frames > 0 && !plan.config.center ==>
              r.value.Length == plan.config.hop * (view.frames - 1) + plan.config.nFft
  {
    hide ValidPlan, FramesOf, EnergiesOf, Signal;
    PlanSize(plan, t);
    PlanHop(plan, t);
    var n, hop := plan.config.nFft, plan.config.hop;
    if view.bins != plan.Bins() {
      return Err(BinMismatch);
    }
    if view.frames == 0 {
      var none := new real[0];
      assert none[..] == [];
      return Ok(none);
    }
    if view.re.Null? || view.im.Null? {
      return Err(NullBuffer);
    }
    var outLen := plan.OutputSamples(view.frames);
    if outLen.None? {
      return Err(LengthOverflow);
    }
    var paddedLen := CheckedMulAdd(hop, view.frames - 1, n);
    if paddedLen.None? {
      return Err(LengthOverflow);
    }
    var audio := new real[outLen.value](i => 0.0);
    if outLen.value == 0 {
      assert audio[..] == [];
      return Ok(audio);
    }
    FillOutput(plan, t, ws, view, simd, audio, paddedLen.value);
    return Ok(audio);
  }

  method Zeros(n: nat) returns (a: array<real>)
    ensures fresh(a) && a.Length == n
    ensures forall i {:trigger a[i]} :: 0 <= i < n ==> a[i] == 0.0
  {
    a := new real[n](i => 0.0);
  }

  /** Gives the workspace cleared buffers of this call's sizes. */
  method PrepareBuffers(plan: Plan, ghost t: Trig, ws: Workspace, view: SpectrumView)
    returns (frame: array<real>, zr: array<real>, zi: array<real>, binReal: array<real>, binImag: array<real>,
             ola: array<real>, env: array<real>)
    requires plan.config.nFft == t.n
    modifies ws
    ensures fresh({frame, zr, zi, binReal, binImag, ola, env})
    ensures Scratch(plan, t, view, frame, zr, zi, binReal, binImag, ola, env)
    ensures forall i {:trigger ola[i]} :: 0 <= i < ola.Length ==> ola[i] == 0.0
    ensures forall i {:trigger env[i]} :: 0 <= i < env.Length ==> env[i] == 0.0
  {
    var n := plan.config.nFft;
    frame := Zeros(n);
    ola := Zeros(n);
    env := Zeros(n);
    ws.frame, ws.ola, ws.envelope := frame, ola, env;
    var half := if plan.kernel == RealRadix2 then n / 2 else 0;
    zr := Zeros(half);
    zi := Zeros(half);
    var gathered := if view.binStride != 1 then view.bins else 0;
    binReal := Zeros(gathered);
    binImag := Zeros(gathered);
    if plan.kernel == RealRadix2 {
      ws.specReal, ws.specImag := zr, zi;
    }
    if view.binStride != 1 {
      ws.binReal, ws.binImag := binReal, binImag;
    }
  }

  method FillOutput(plan: Plan, ghost t: Trig, ws: Workspace, view: SpectrumView, simd: bool,
                    audio: array<real>, paddedLen: nat)
    requires ValidPlan(plan, t) && view.re.Data? && view.im.Data? && view.InBounds()
    requires view.bins == plan.Bins() && view.bins >= 2 && view.frames > 0
    requires paddedLen == plan.PaddedLength(view.frames)
    requires audio.Length + Trim(plan.config) <= paddedLen
    requires forall i {:trigger audio[i]} :: 0 <= i < audio.Length ==> audio[i] == 0.0
    modifies ws, audio
    ensures t.n > 0
    ensures audio[..] == Signal(FramesOf(t, plan.kernel, view), EnergiesOf(t, view.frames),
                                plan.config.hop, Trim(plan.config), audio.Length)
  {
    hide ValidPlan, FramesOf, EnergiesOf, Signal, SpectrumView.InBounds, Trim, Scratch;
    PlanSize(plan, t);
    var frame, zr, zi, binReal, binImag, ola, env := PrepareBuffers(plan, t, ws, view);
    RunFrames(plan, t, view, simd, audio, paddedLen, frame, zr, zi, binReal, binImag, ola, env);
  }

  /** The frame loop over freshly cleared buffers. */
  method RunFrames(plan: Plan, ghost t: Trig, view: SpectrumView, simd: bool,
                   audio: array<real>, paddedLen: nat, frame: array<real>, zr: array<real>, zi: array<real>,
                   binReal: array<real>, binImag: array<real>, ola: array<real>, env: array<real>)
    requires ValidPlan(plan, t) && view.re.Data? && view.im.Data? && view.InBounds()
    requires view.bins == plan.Bins() && view.bins >= 2 && view.frames > 0
    requires paddedLen == plan.PaddedLength(view.frames)
    requires audio.Length + Trim(plan.config) <= paddedLen
    requires forall i {:trigger audio[i]} :: 0 <= i < audio.Length ==> audio[i] == 0.0
    requires Scratch(plan, t, view, frame, zr, zi, binReal, binImag, ola, env)
    requires audio !in {frame, zr, zi, binReal, binImag, ola, env}
    requires forall i {:trigger ola[i]} :: 0 <= i < ola.Length ==> ola[i] == 0.0
    requires forall i {:trigger env[i]} :: 0 <= i < env.Length ==> env[i] == 0.0
    modifies audio, frame, zr, zi, binReal, binImag, ola, env
    ensures t.n > 0
    ensures audio[..] == Signal(FramesOf(t, plan.kernel, view), EnergiesOf(t, view.frames),
                                plan.config.hop, Trim(plan.config), audio.Length)
  {
    hide ValidPlan, Ring, FramesOf, EnergiesOf, OutSample, Emitted, Signal;
    PlanSize(plan, t);
    PlanHop(plan, t);
    var n, hop, trim := plan.config.nFft, plan.config.hop, Trim(plan.config);
    ghost var fs, es := FramesOf(t, plan.kernel, view), EnergiesOf(t, view.frames);
    EmptyRing(ola[..], fs, hop, n);
    EmptyRing(env[..], es, hop, n);
    NothingEmitted(audio[..], fs, es, hop, trim);
    var emitted := 0;
    for f := 0 to view.frames
      invariant emitted == Flushed(hop, f)
      invariant Ring(ola[..], fs, hop, n, emitted, f) && Ring(env[..], es, hop, n, emitted, f)
      invariant Emitted(audio[..], fs, es, hop, trim, emitted)
    {
      FlushedMono(hop, f);
      emitted := FlushUntil(audio, ola, env, n, hop, trim, emitted, hop * f, simd, fs, es, f);
      AddFrame(plan, t, view, f, simd, frame, zr, zi, binReal, binImag, ola, env, fs, es);
    }
    FlushedMono(hop, view.frames);
    emitted := FlushUntil(audio, ola, env, n, hop, trim, emitted, paddedLen, simd, fs, es, view.frames);
    AllEmitted(audio[..], fs, es, hop, trim, emitted);
  }

  /** Where emission stands when frame f begins. */
  function Flushed(hop: nat, f: nat): nat {
    if f == 0 then 0 else hop * (f - 1)
  }

  lemma FlushedMono(hop: nat, f: nat)
    ensures Flushed(hop, f) <= hop * f
    ensures f > 0 ==> Flushed(hop, f) == hop * (f - 1)
  {
    if f > 0 { MulMono(f - 1, f, hop); }
  }

  lemma NothingEmitted(audio: seq<real>, frames: seq<seq<real>>, energies: seq<seq<real>>, hop: nat, trim: nat)
    requires forall i {:trigger audio[i]} :: 0 <= i < |audio| ==> audio[i] == 0.0
    ensures Emitted(audio, frames, energies, hop, trim, 0)
  {
    hide OutSample;
  }

  lemma AllEmitted(audio: seq<real>, frames: seq<seq<real>>, energies: seq<seq<real>>, hop: nat, trim: nat,
                   emitted: nat)
    requires Emitted(audio, frames, energies, hop, trim, emitted) && |audio| + trim <= emitted
    ensures audio == Signal(frames, energies, hop, trim, |audio|)
  {
    hide OutSample;
  }
}
