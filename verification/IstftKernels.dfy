/** The inner loops of the inverse transform, in scalar form, each proved to write
    what its specification function says and nothing else. The specification functions
    are shared with the vector forms, so that a kernel of either family can stand for
    the other. Arrays are distinct where the loops write one and read another. */
module IstftKernels {
  import opened Complex
  import opened Fft
  import opened IstftPlan

  /** Two parallel buffers read as complex numbers. */
  function Zip(re: seq<real>, im: seq<real>): (z: seq<Complex>)
    requires |re| == |im|
    ensures |z| == |re|
    ensures forall k {:trigger z[k]} :: 0 <= k < |re| ==> z[k] == Complex(re[k], im[k])
  {
    seq(|re|, k requires 0 <= k < |re| => Complex(re[k], im[k]))
  }

  method GatherStrided(dst: array<real>, src: seq<real>, base: int, stride: int)
    requires forall i :: 0 <= i < dst.Length ==> 0 <= base + stride * i < |src|
    modifies dst
    ensures forall i {:trigger dst[i]} :: 0 <= i < dst.Length ==> dst[i] == src[base + stride * i]
  {
    for i := 0 to dst.Length
      invariant forall j {:trigger dst[j]} :: 0 <= j < i ==> dst[j] == src[base + stride * j]
    {
      dst[i] := src[base + stride * i];
    }
  }

  method AddInplace(dst: array<real>, at: nat, src: seq<real>)
    requires at + |src| <= dst.Length
    modifies dst
    ensures forall i {:trigger dst[i]} :: 0 <= i < dst.Length ==>
              dst[i] == if at <= i < at + |src| then old(dst[i]) + src[i - at] else old(dst[i])
  {
    for k := 0 to |src|
      invariant forall i {:trigger dst[i]} :: 0 <= i < dst.Length ==>
                  dst[i] == if at <= i < at + k then old(dst[i]) + src[i - at] else old(dst[i])
    {
      dst[at + k] := dst[at + k] + src[k];
    }
  }

  /** One bin's contribution to one sample. */
  function Rotated(cr: real, c: real, ci: real, s: real): real {
    cr * c - ci * s
  }

  method AccumulateRotation(acc: array<real>, cr: real, c: seq<real>, ci: real, s: seq<real>)
    requires |c| == |s| == acc.Length
    modifies acc
    ensures forall i {:trigger acc[i]} :: 0 <= i < acc.Length ==>
              acc[i] == old(acc[i]) + Rotated(cr, c[i], ci, s[i])
  {
    for k := 0 to acc.Length
      invariant forall i {:trigger acc[i]} :: 0 <= i < acc.Length ==>
                  acc[i] == if i < k then old(acc[i]) + Rotated(cr, c[i], ci, s[i]) else old(acc[i])
    {
      acc[k] := acc[k] + (cr * c[k] - ci * s[k]);
    }
  }

  function Windowed(x: real, scale: real, w: real): real {
    (x * scale) * w
  }

  method WindowScaled(frame: array<real>, window: seq<real>, scale: real)
    requires |window| == frame.Length
    modifies frame
    ensures forall i {:trigger frame[i]} :: 0 <= i < frame.Length ==>
              frame[i] == Windowed(old(frame[i]), scale, window[i])
  {
    for k := 0 to frame.Length
      invariant forall i {:trigger frame[i]} :: 0 <= i < frame.Length ==>
                  frame[i] == if i < k then Windowed(old(frame[i]), scale, window[i]) else old(frame[i])
    {
      frame[k] := frame[k] * scale * window[k];
    }
  }

  /** Sample i of the windowed interleaving of the two parities. */
  function Interleaved(zr: seq<real>, zi: seq<real>, we: seq<real>, wo: seq<real>, i: nat): real
    requires |zr| == |zi| == |we| == |wo| && i < 2 * |zr|
  {
    if i % 2 == 0 then zr[i / 2] * we[i / 2] else zi[i / 2] * wo[i / 2]
  }

  method InterleaveWindowed(frame: array<real>, zr: array<real>, zi: array<real>, we: seq<real>, wo: seq<real>)
    requires frame != zr && frame != zi
    requires zr.Length == zi.Length == |we| == |wo| && frame.Length == 2 * zr.Length
    modifies frame
    ensures forall i {:trigger frame[i]} :: 0 <= i < frame.Length ==>
              frame[i] == Interleaved(zr[..], zi[..], we, wo, i)
  {
    for m := 0 to zr.Length
      invariant forall i {:trigger frame[i]} :: 0 <= i < 2 * m ==>
                  frame[i] == Interleaved(zr[..], zi[..], we, wo, i)
    {
      frame[2 * m] := zr[m] * we[m];
      frame[2 * m + 1] := zi[m] * wo[m];
    }
  }

  /** One output sample: the overlap-add divided by the window energy over it. */
  function Normalised(ola: real, env: real, minEnv: real): real
    requires minEnv >= 0.0
  {
    if env > minEnv then ola / env else 0.0
  }

  method Normalise(out: array<real>, at: nat, ola: array<real>, env: array<real>, from: nat, n: nat, minEnv: real)
    requires out != ola && out != env && minEnv >= 0.0
    requires at + n <= out.Length && from + n <= ola.Length == env.Length
    modifies out
    ensures forall i {:trigger out[i]} :: 0 <= i < out.Length ==>
              out[i] == if at <= i < at + n
                        then Normalised(ola[from + i - at], env[from + i - at], minEnv)
                        else old(out[i])
  {
    for k := 0 to n
      invariant forall i {:trigger out[i]} :: 0 <= i < out.Length ==>
                  out[i] == if at <= i < at + k
                            then Normalised(ola[from + i - at], env[from + i - at], minEnv)
                            else old(out[i])
    {
      out[at + k] := if env[from + k] > minEnv then ola[from + k] / env[from + k] else 0.0;
    }
  }

  /** Z[k] for a half-spectrum given as two buffers and one factor. */
  function SplitAt(re: seq<real>, im: seq<real>, sc: real, ss: real, scale: real, k: nat): Complex
    requires |re| == |im| && k < |re| - 1
  {
    var a, m := Complex(re[k], im[k]), Conj(Complex(re[|re| - 1 - k], im[|re| - 1 - k]));
    Add(Scale(scale, Add(a, m)), TimesI(Mul(Scale(scale, Sub(a, m)), Complex(sc, ss))))
  }

  method HermitianSplit(re: seq<real>, im: seq<real>, splitCos: seq<real>, splitSin: seq<real>,
                        scale: real, zr: array<real>, zi: array<real>)
    requires zr != zi && zr.Length == zi.Length == |splitCos| == |splitSin|
    requires |re| == |im| == zr.Length + 1
    modifies zr, zi
    ensures forall k {:trigger zr[k]} {:trigger zi[k]} :: 0 <= k < zr.Length ==>
              Complex(zr[k], zi[k]) == SplitAt(re, im, splitCos[k], splitSin[k], scale, k)
  {
    hide SplitAt;
    var half := zr.Length;
    for k := 0 to half
      invariant forall j {:trigger zr[j]} {:trigger zi[j]} :: 0 <= j < k ==>
                  Complex(zr[j], zi[j]) == SplitAt(re, im, splitCos[j], splitSin[j], scale, j)
    {
      var ar, ai, mr, mi := re[k], im[k], re[half - k], im[half - k];
      var er, ei := scale * (ar + mr), scale * (ai - mi);
      var dr, di := scale * (ar - mr), scale * (ai + mi);
      var sc, ss := splitCos[k], splitSin[k];
      var x, y := er - (dr * ss + di * sc), ei + (dr * sc - di * ss);
      assert Complex(x, y) == SplitValue(ar, ai, mr, mi, sc, ss, scale);
      hide SplitValue;
      SplitAtPoint(re, im, sc, ss, scale, k);
      assert half - k == |re| - 1 - k;
      zr[k] := x;
      zi[k] := y;
    }
  }

  /** The value of an entry, from the two bins it is made of. */
  lemma SplitAtPoint(re: seq<real>, im: seq<real>, sc: real, ss: real, scale: real, k: nat)
    requires |re| == |im| && k < |re| - 1
    ensures SplitAt(re, im, sc, ss, scale, k)
         == SplitValue(re[k], im[k], re[|re| - 1 - k], im[|re| - 1 - k], sc, ss, scale)
  {}

  function SplitValue(ar: real, ai: real, mr: real, mi: real, sc: real, ss: real, scale: real): Complex {
    var dr, di := scale * (ar - mr), scale * (ai + mi);
    Complex(scale * (ar + mr) - (dr * ss + di * sc), scale * (ai - mi) + (dr * sc - di * ss))
  }

  method SwapPairs(zr: array<real>, zi: array<real>, pairs: seq<nat>)
    requires zr != zi && zr.Length == zi.Length && |pairs| % 2 == 0
    requires Indices(pairs, zr.Length)
    modifies zr, zi
    ensures Zip(zr[..], zi[..]) == Swapped(old(Zip(zr[..], zi[..])), pairs, |pairs| / 2)
  {
    ghost var z0 := Zip(zr[..], zi[..]);
    for p := 0 to |pairs| / 2
      invariant Zip(zr[..], zi[..]) == Swapped(z0, pairs, p)
    {
      var i, j := pairs[2 * p], pairs[2 * p + 1];
      ghost var before := Zip(zr[..], zi[..]);
      zr[i], zr[j] := zr[j], zr[i];
      zi[i], zi[j] := zi[j], zi[i];
      assert Zip(zr[..], zi[..]) == Exchange(before, i, j);
    }
  }

  // ----- Radix-2 stages ---------------------------------------------------------

  /** A block with its first k butterflies done. */
  function PartialBlock(y: seq<Complex>, h: nat, tw: seq<Complex>, k: nat): (z: seq<Complex>)
    requires |y| == 2 * h && h <= |tw| && k <= h
    ensures |z| == |y|
    ensures forall j {:trigger z[j]} :: 0 <= j < 2 * h ==>
              z[j] == if j < k || h <= j < h + k then Butterfly(y, h, tw, j) else y[j]
  {
    seq(2 * h, j requires 0 <= j < 2 * h =>
      if j < k || h <= j < h + k then Butterfly(y, h, tw, j) else y[j])
  }

  /** z with the entries from base on replaced by b. */
  function Spliced(z: seq<Complex>, base: nat, b: seq<Complex>): (r: seq<Complex>)
    requires base + |b| <= |z|
    ensures |r| == |z|
    ensures forall j {:trigger r[j]} :: 0 <= j < |z| ==>
              r[j] == if base <= j < base + |b| then b[j - base] else z[j]
  {
    z[..base] + b + z[base + |b|..]
  }

  method BlockButterflies(re: array<real>, im: array<real>, twc: seq<real>, tws: seq<real>, base: nat, h: nat)
    requires re != im && re.Length == im.Length && base + 2 * h <= re.Length
    requires |twc| == |tws| == h
    modifies re, im
    ensures var z := old(Zip(re[..], im[..]));
            Zip(re[..], im[..]) == Spliced(z, base, Block(z[base..base + 2 * h], h, Zip(twc, tws)))
  {
    hide Butterfly, PartialBlock, Spliced, Block, Add, Sub, Mul;
    ghost var z0, tw := Zip(re[..], im[..]), Zip(twc, tws);
    ghost var y := z0[base..base + 2 * h];
    SplicedEnds(z0, base, y, h, tw);
    for k := 0 to h
      invariant Zip(re[..], im[..]) == Spliced(z0, base, PartialBlock(y, h, tw, k))
    {
      SplicedEntries(z0, base, y, h, tw, k);
      ButterflyAt(re, im, twc[k], tws[k], base + k, base + k + h);
      ButterflyValue(y, h, tw, k);
      SplicedStep(z0, base, y, h, tw, k);
    }
  }

  /** One butterfly over the entries a and b. */
  method ButterflyAt(re: array<real>, im: array<real>, wc: real, ws: real, a: nat, b: nat)
    requires re != im && re.Length == im.Length && a < re.Length && b < re.Length && a != b
    modifies re, im
    ensures var z, w := old(Zip(re[..], im[..])), Complex(wc, ws);
            Zip(re[..], im[..]) == z[a := Add(z[a], Mul(w, z[b]))][b := Sub(z[a], Mul(w, z[b]))]
  {
    ghost var z := Zip(re[..], im[..]);
    var br, bi := re[b] * wc - im[b] * ws, re[b] * ws + im[b] * wc;
    ghost var turned := Mul(Complex(wc, ws), z[b]);
    assert turned == Complex(br, bi);
    hide Mul;
    re[b] := re[a] - br;
    im[b] := im[a] - bi;
    re[a] := re[a] + br;
    im[a] := im[a] + bi;
    assert Zip(re[..], im[..]) == z[a := Add(z[a], turned)][b := Sub(z[a], turned)];
  }

  lemma ButterflyValue(y: seq<Complex>, h: nat, tw: seq<Complex>, k: nat)
    requires k < h <= |tw| && |y| == 2 * h
    ensures Butterfly(y, h, tw, k) == Add(y[k], Mul(tw[k], y[k + h]))
    ensures Butterfly(y, h, tw, k + h) == Sub(y[k], Mul(tw[k], y[k + h]))
  {}

  lemma SplicedEntries(z0: seq<Complex>, base: nat, y: seq<Complex>, h: nat, tw: seq<Complex>, k: nat)
    requires k < h <= |tw| && |y| == 2 * h && base + 2 * h <= |z0|
    ensures Spliced(z0, base, PartialBlock(y, h, tw, k))[base + k] == y[k]
    ensures Spliced(z0, base, PartialBlock(y, h, tw, k))[base + k + h] == y[k + h]
  {}

  lemma SplicedEnds(z0: seq<Complex>, base: nat, y: seq<Complex>, h: nat, tw: seq<Complex>)
    requires h <= |tw| && base + 2 * h <= |z0| && y == z0[base..base + 2 * h]
    ensures Spliced(z0, base, PartialBlock(y, h, tw, 0)) == z0
    ensures PartialBlock(y, h, tw, h) == Block(y, h, tw)
  {
    hide Butterfly;
  }

  lemma SplicedStep(z0: seq<Complex>, base: nat, y: seq<Complex>, h: nat, tw: seq<Complex>, k: nat)
    requires k < h <= |tw| && |y| == 2 * h && base + 2 * h <= |z0|
    ensures Spliced(z0, base, PartialBlock(y, h, tw, k))
              [base + k := Butterfly(y, h, tw, k)][base + k + h := Butterfly(y, h, tw, k + h)]
         == Spliced(z0, base, PartialBlock(y, h, tw, k + 1))
  {
    hide Butterfly;
  }

  method FftStage(re: array<real>, im: array<real>, twc: seq<real>, tws: seq<real>, h: nat)
    requires re != im && re.Length == im.Length
    requires 0 < h == |twc| == |tws| && Whole(re.Length, 2 * h)
    modifies re, im
    ensures Zip(re[..], im[..]) == Stage(old(Zip(re[..], im[..])), h, Zip(twc, tws))
  {
    hide Spliced, Block, Stage, StageDone;
    ghost var z0, tw := Zip(re[..], im[..]), Zip(twc, tws);
    StageEnds(z0, h, tw);
    var base := 0;
    while base < re.Length
      invariant base <= re.Length && Whole(re.Length - base, 2 * h)
      invariant StageDone(z0, base, h, tw, Zip(re[..], im[..]))
      decreases re.Length - base
    {
      ghost var z := Zip(re[..], im[..]);
      BlockButterflies(re, im, twc, tws, base, h);
      StageStep(z0, base, h, tw, z, Zip(re[..], im[..]));
      base := base + 2 * h;
    }
  }

  /** z is z0 with the stage carried out on the entries below base. */
  ghost predicate StageDone(z0: seq<Complex>, base: nat, h: nat, tw: seq<Complex>, z: seq<Complex>)
    requires 0 < h <= |tw| && base <= |z0|
  {
    z == Stage(z0[..base], h, tw) + z0[base..]
  }

  lemma StageEnds(z0: seq<Complex>, h: nat, tw: seq<Complex>)
    requires 0 < h <= |tw|
    ensures StageDone(z0, 0, h, tw, z0)
    ensures forall z :: StageDone(z0, |z0|, h, tw, z) ==> z == Stage(z0, h, tw)
  {
    assert z0[..0] == [] && z0[0..] == z0;
    assert z0[..|z0|] == z0;
  }

  /** Replacing the next block extends the part of the stage that is done. */
  lemma StageStep(z0: seq<Complex>, base: nat, h: nat, tw: seq<Complex>, z: seq<Complex>, next: seq<Complex>)
    requires 0 < h <= |tw| && base + 2 * h <= |z0| == |z|
    requires StageDone(z0, base, h, tw, z)
    requires next == Spliced(z, base, Block(z[base..base + 2 * h], h, tw))
    ensures StageDone(z0, base + 2 * h, h, tw, next)
  {
    hide Block, Spliced;
    var d := 2 * h;
    var y, rest := z0[base..base + d], z0[base + d..];
    CutThree(z0, base, d);
    SplicedMiddle(Stage(z0[..base], h, tw), y, rest, Block(y, h, tw));
    assert z0[..base + d][..base] == z0[..base];
    assert z0[..base + d][base..] == y;
  }

  lemma CutThree<T>(z: seq<T>, base: nat, d: nat)
    requires base + d <= |z|
    ensures z[base..] == z[base..base + d] + z[base + d..]
    ensures z[..base] + z[base..base + d] == z[..base + d]
  {}

  lemma SplicedMiddle(s: seq<Complex>, y: seq<Complex>, rest: seq<Complex>, b: seq<Complex>)
    requires |b| == |y|
    ensures (s + (y + rest))[|s|..|s| + |y|] == y
    ensures Spliced(s + (y + rest), |s|, b) == s + b + rest
  {}

  /** The first stage, where the only twiddle is 1. */
  method FftStagePairs(re: array<real>, im: array<real>)
    requires re != im && re.Length == im.Length && Whole(re.Length, 2)
    modifies re, im
    ensures Zip(re[..], im[..]) == Stage(old(Zip(re[..], im[..])), 1, [ONE])
  {
    hide Spliced, Block, Stage, StageDone;
    StageEnds(Zip(re[..], im[..]), 1, [ONE]);
    PairsFrom(re, im, 0, Zip(re[..], im[..]));
  }

  /** The scalar loop over adjacent pairs, from index `from` on. */
  method PairsFrom(re: array<real>, im: array<real>, from: nat, ghost z0: seq<Complex>)
    requires re != im && re.Length == im.Length == |z0|
    requires from <= re.Length && Whole(re.Length - from, 2)
    requires StageDone(z0, from, 1, [ONE], Zip(re[..], im[..]))
    modifies re, im
    ensures Zip(re[..], im[..]) == Stage(z0, 1, [ONE])
  {
    hide Spliced, Block, Stage, StageDone;
    var i := from;
    while i < re.Length
      invariant i <= re.Length && Whole(re.Length - i, 2)
      invariant StageDone(z0, i, 1, [ONE], Zip(re[..], im[..]))
      decreases re.Length - i
    {
      ghost var z := Zip(re[..], im[..]);
      PairButterfly(re, im, i);
      StageStep(z0, i, 1, [ONE], z, Zip(re[..], im[..]));
      i := i + 2;
    }
    StageEnds(z0, 1, [ONE]);
  }

  method PairButterfly(re: array<real>, im: array<real>, i: nat)
    requires re != im && re.Length == im.Length && i + 2 <= re.Length
    modifies re, im
    ensures var z := old(Zip(re[..], im[..]));
            Zip(re[..], im[..]) == Spliced(z, i, Block(z[i..i + 2], 1, [ONE]))
  {
    hide Spliced, Block;
    ghost var z := Zip(re[..], im[..]);
    var ar, ai, br, bi := re[i], im[i], re[i + 1], im[i + 1];
    re[i] := ar + br;
    im[i] := ai + bi;
    re[i + 1] := ar - br;
    im[i + 1] := ai - bi;
    assert Zip(re[..], im[..])
        == z[i := Complex(ar + br, ai + bi)][i + 1 := Complex(ar - br, ai - bi)];
    PairBlock(z, i);
  }

  lemma PairBlock(z: seq<Complex>, i: nat)
    requires i + 2 <= |z|
    ensures Spliced(z, i, Block(z[i..i + 2], 1, [ONE]))
         == z[i := Complex(z[i].re + z[i + 1].re, z[i].im + z[i + 1].im)]
             [i + 1 := Complex(z[i].re - z[i + 1].re, z[i].im - z[i + 1].im)]
  {
    MulZero(z[i + 1]);
  }
}
