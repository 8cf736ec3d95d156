/** The AVX2 forms of the kernels. Every method carries the contract of its scalar
    counterpart word for word, so the two are interchangeable over exact reals. Blocks
    of eight are proved lane by lane through the shuffles that the code uses, and the
    loops that follow them finish what is left, one sample at a time. */
module IstftAvx2 {
  import opened Complex
  import opened Fft
  import opened IstftKernels
  import opened Lanes

  /** s with v written over it from index `at` on. */
  function Overwritten(s: seq<real>, at: nat, v: seq<real>): (r: seq<real>)
    requires at + |v| <= |s|
    ensures |r| == |s|
    ensures forall i {:trigger r[i]} :: 0 <= i < |s| ==>
              r[i] == if at <= i < at + |v| then v[i - at] else s[i]
  {
    s[..at] + v + s[at + |v|..]
  }

  method Store(a: array<real>, at: nat, v: seq<real>)
    requires at + |v| <= a.Length
    modifies a
    ensures a[..] == Overwritten(old(a[..]), at, v)
    ensures forall i {:trigger a[i]} :: 0 <= i < a.Length ==>
              a[i] == if at <= i < at + |v| then v[i - at] else old(a[i])
  {
    forall k | 0 <= k < |v| {
      a[at + k] := v[k];
    }
  }

  method AddInplace(dst: array<real>, at: nat, src: seq<real>)
    requires at + |src| <= dst.Length
    modifies dst
    ensures forall i {:trigger dst[i]} :: 0 <= i < dst.Length ==>
              dst[i] == if at <= i < at + |src| then old(dst[i]) + src[i - at] else old(dst[i])
  {
    var k := 0;
    while k + 8 <= |src|
      invariant k <= |src|
      invariant forall i {:trigger dst[i]} :: 0 <= i < dst.Length ==>
                  dst[i] == if at <= i < at + k then old(dst[i]) + src[i - at] else old(dst[i])
    {
      var sum := VAdd(dst[at + k..at + k + 8], src[k..k + 8]);
      assert forall j :: 0 <= j < 8 ==> sum[j] == dst[at + k + j] + src[k + j];
      Store(dst, at + k, sum);
      k := k + 8;
    }
    while k < |src|
      invariant k <= |src|
      invariant forall i {:trigger dst[i]} :: 0 <= i < dst.Length ==>
                  dst[i] == if at <= i < at + k then old(dst[i]) + src[i - at] else old(dst[i])
    {
      dst[at + k] := dst[at + k] + src[k];
      k := k + 1;
    }
  }

  method AccumulateRotation(acc: array<real>, cr: real, c: seq<real>, ci: real, s: seq<real>)
    requires |c| == |s| == acc.Length
    modifies acc
    ensures forall i {:trigger acc[i]} :: 0 <= i < acc.Length ==>
              acc[i] == old(acc[i]) + Rotated(cr, c[i], ci, s[i])
  {
    var vcr, vci := Set1(cr), Set1(ci);
    var k := 0;
    while k + 8 <= acc.Length
      invariant k <= acc.Length
      invariant forall i {:trigger acc[i]} :: 0 <= i < acc.Length ==>
                  acc[i] == if i < k then old(acc[i]) + Rotated(cr, c[i], ci, s[i]) else old(acc[i])
    {
      var t := NMulAdd(vci, s[k..k + 8], VMul(vcr, c[k..k + 8]));
      assert forall i {:trigger t[i]} :: 0 <= i < 8 ==> t[i] == Rotated(cr, c[k + i], ci, s[k + i]);
      Store(acc, k, VAdd(acc[k..k + 8], t));
      k := k + 8;
    }
    while k < acc.Length
      invariant k <= acc.Length
      invariant forall i {:trigger acc[i]} :: 0 <= i < acc.Length ==>
                  acc[i] == if i < k then old(acc[i]) + Rotated(cr, c[i], ci, s[i]) else old(acc[i])
    {
      acc[k] := acc[k] + (cr * c[k] - ci * s[k]);
      k := k + 1;
    }
  }

  method WindowScaled(frame: array<real>, window: seq<real>, scale: real)
    requires |window| == frame.Length
    modifies frame
    ensures forall i {:trigger frame[i]} :: 0 <= i < frame.Length ==>
              frame[i] == Windowed(old(frame[i]), scale, window[i])
  {
    var vs := Set1(scale);
    var k := 0;
    while k + 8 <= frame.Length
      invariant k <= frame.Length
      invariant forall i {:trigger frame[i]} :: 0 <= i < frame.Length ==>
                  frame[i] == if i < k then Windowed(old(frame[i]), scale, window[i]) else old(frame[i])
    {
      var v := VMul(VMul(frame[k..k + 8], vs), window[k..k + 8]);
      assert forall i {:trigger v[i]} :: 0 <= i < 8 ==> v[i] == Windowed(frame[k + i], scale, window[k + i]);
      Store(frame, k, v);
      k := k + 8;
    }
    while k < frame.Length
      invariant k <= frame.Length
      invariant forall i {:trigger frame[i]} :: 0 <= i < frame.Length ==>
                  frame[i] == if i < k then Windowed(old(frame[i]), scale, window[i]) else old(frame[i])
    {
      frame[k] := frame[k] * scale * window[k];
      k := k + 1;
    }
  }

  method InterleaveWindowed(frame: array<real>, zr: array<real>, zi: array<real>, we: seq<real>, wo: seq<real>)
    requires frame != zr && frame != zi
    requires zr.Length == zi.Length == |we| == |wo| && frame.Length == 2 * zr.Length
    modifies frame
    ensures forall i {:trigger frame[i]} :: 0 <= i < frame.Length ==>
              frame[i] == Interleaved(zr[..], zi[..], we, wo, i)
  {
    var m := 0;
    while m + 8 <= zr.Length
      invariant m <= zr.Length
      invariant forall i {:trigger frame[i]} :: 0 <= i < 2 * m ==>
                  frame[i] == Interleaved(zr[..], zi[..], we, wo, i)
    {
      InterleaveEight(frame, zr, zi, we, wo, m);
      m := m + 8;
    }
    while m < zr.Length
      invariant m <= zr.Length
      invariant forall i {:trigger frame[i]} :: 0 <= i < 2 * m ==>
                  frame[i] == Interleaved(zr[..], zi[..], we, wo, i)
    {
      frame[2 * m] := zr[m] * we[m];
      frame[2 * m + 1] := zi[m] * wo[m];
      m := m + 1;
    }
  }

  method InterleaveEight(frame: array<real>, zr: array<real>, zi: array<real>, we: seq<real>, wo: seq<real>, m: nat)
    requires frame != zr && frame != zi
    requires zr.Length == zi.Length == |we| == |wo| && frame.Length == 2 * zr.Length
    requires m + 8 <= zr.Length
    modifies frame
    ensures forall i {:trigger frame[i]} :: 0 <= i < frame.Length ==>
              frame[i] == if 2 * m <= i < 2 * m + 16 then Interleaved(zr[..], zi[..], we, wo, i)
                          else old(frame[i])
  {
    var v := Interleave(VMul(zr[m..m + 8], we[m..m + 8]), VMul(zi[m..m + 8], wo[m..m + 8]));
    SixteenInterleaved(zr[..], zi[..], we, wo, m);
    Store(frame, 2 * m, v);
  }

  lemma SixteenInterleaved(zr: seq<real>, zi: seq<real>, we: seq<real>, wo: seq<real>, m: nat)
    requires |zr| == |zi| == |we| == |wo| && m + 8 <= |zr|
    ensures var v := Interleave(VMul(zr[m..m + 8], we[m..m + 8]), VMul(zi[m..m + 8], wo[m..m + 8]));
            forall i :: 2 * m <= i < 2 * m + 16 ==> v[i - 2 * m] == Interleaved(zr, zi, we, wo, i)
  {
    hide Interleave, Interleaved, VMul;
    var v := Interleave(VMul(zr[m..m + 8], we[m..m + 8]), VMul(zi[m..m + 8], wo[m..m + 8]));
    forall i | 2 * m <= i < 2 * m + 16
      ensures v[i - 2 * m] == Interleaved(zr, zi, we, wo, i)
    {
      InterleavedAt(zr, zi, we, wo, m, i - 2 * m);
    }
  }

  lemma InterleavedAt(zr: seq<real>, zi: seq<real>, we: seq<real>, wo: seq<real>, m: nat, j: nat)
    requires |zr| == |zi| == |we| == |wo| && m + 8 <= |zr| && j < 16
    ensures Interleave(VMul(zr[m..m + 8], we[m..m + 8]), VMul(zi[m..m + 8], wo[m..m + 8]))[j]
         == Interleaved(zr, zi, we, wo, 2 * m + j)
  {
    hide Interleave, VMul;
    var k := j / 2;
    assert (2 * m + j) / 2 == m + k && (2 * m + j) % 2 == j % 2;
    LaneProducts(zr, we, m, k);
    LaneProducts(zi, wo, m, k);
    var even, odd := VMul(zr[m..m + 8], we[m..m + 8]), VMul(zi[m..m + 8], wo[m..m + 8]);
    assert Interleave(even, odd)[j] == if j % 2 == 0 then even[k] else odd[k];
  }

  lemma LaneProducts(x: seq<real>, y: seq<real>, m: nat, k: nat)
    requires m + 8 <= |x| == |y| && k < 8
    ensures VMul(x[m..m + 8], y[m..m + 8])[k] == x[m + k] * y[m + k]
  {
    assert x[m..m + 8][k] == x[m + k] && y[m..m + 8][k] == y[m + k];
  }

  /** The divide runs on every lane; the mask then drops the lanes at or below the
      threshold. A masked lane's quotient is irrelevant, so 0 stands for it where
      the energy is zero. */
  function MaskedQuotient(ola: Vec, env: Vec, minEnv: real): (r: Vec)
    requires minEnv >= 0.0
    ensures forall i {:trigger r[i]} :: 0 <= i < 8 ==> r[i] == Normalised(ola[i], env[i], minEnv)
  {
    var q := Map2((x: real, y: real) => if y == 0.0 then 0.0 else x / y, ola, env);
    Map2((x: real, y: real) => if y > minEnv then x else 0.0, q, env)
  }

  method Normalise(out: array<real>, at: nat, ola: array<real>, env: array<real>, from: nat, n: nat, minEnv: real)
    requires out != ola && out != env && minEnv >= 0.0
    requires at + n <= out.Length && from + n <= ola.Length == env.Length
    modifies out
    ensures forall i {:trigger out[i]} :: 0 <= i < out.Length ==>
              out[i] == if at <= i < at + n
                        then Normalised(ola[from + i - at], env[from + i - at], minEnv)
                        else old(out[i])
  {
    var k := 0;
    while k + 8 <= n
      invariant k <= n
      invariant forall i {:trigger out[i]} :: 0 <= i < out.Length ==>
                  out[i] == if at <= i < at + k
                            then Normalised(ola[from + i - at], env[from + i - at], minEnv)
                            else old(out[i])
    {
      Store(out, at + k, MaskedQuotient(ola[from + k..from + k + 8], env[from + k..from + k + 8], minEnv));
      k := k + 8;
    }
    while k < n
      invariant k <= n
      invariant forall i {:trigger out[i]} :: 0 <= i < out.Length ==>
                  out[i] == if at <= i < at + k
                            then Normalised(ola[from + i - at], env[from + i - at], minEnv)
                            else old(out[i])
    {
      out[at + k] := if env[from + k] > minEnv then ola[from + k] / env[from + k] else 0.0;
      k := k + 1;
    }
  }

  method HermitianSplit(re: seq<real>, im: seq<real>, splitCos: seq<real>, splitSin: seq<real>,
                        scale: real, zr: array<real>, zi: array<real>)
    requires zr != zi && zr.Length == zi.Length == |splitCos| == |splitSin|
    requires |re| == |im| == zr.Length + 1
    modifies zr, zi
    ensures forall k {:trigger zr[k]} {:trigger zi[k]} :: 0 <= k < zr.Length ==>
              Complex(zr[k], zi[k]) == SplitAt(re, im, splitCos[k], splitSin[k], scale, k)
  {
    hide SplitAt;
    var half := zr.Length;
    var k := 0;
    while k + 8 <= half
      invariant k <= half
      invariant forall j {:trigger zr[j]} {:trigger zi[j]} :: 0 <= j < k ==>
                  Complex(zr[j], zi[j]) == SplitAt(re, im, splitCos[j], splitSin[j], scale, j)
    {
      SplitEight(re, im, splitCos, splitSin, scale, zr, zi, k);
      k := k + 8;
    }
    while k < half
      invariant k <= half
      invariant forall j {:trigger zr[j]} {:trigger zi[j]} :: 0 <= j < k ==>
                  Complex(zr[j], zi[j]) == SplitAt(re, im, splitCos[j], splitSin[j], scale, j)
    {
      var ar, ai, mr, mi := re[k], im[k], re[half - k], im[half - k];
      var er, ei := scale * (ar + mr), scale * (ai - mi);
      var dr, di := scale * (ar - mr), scale * (ai + mi);
      zr[k] := er - (dr * splitSin[k] + di * splitCos[k]);
      zi[k] := ei + (dr * splitCos[k] - di * splitSin[k]);
      SplitAtPoint(re, im, splitCos[k], splitSin[k], scale, k);
      k := k + 1;
    }
  }

  /** Eight entries of the split. The mirror index runs backwards: its load covers
      exactly half-k-7 .. half-k. */
  method SplitEight(re: seq<real>, im: seq<real>, splitCos: seq<real>, splitSin: seq<real>,
                    scale: real, zr: array<real>, zi: array<real>, k: nat)
    requires zr != zi && zr.Length == zi.Length == |splitCos| == |splitSin|
    requires |re| == |im| == zr.Length + 1 && k + 8 <= zr.Length
    modifies zr, zi
    ensures forall j {:trigger zr[j]} {:trigger zi[j]} :: 0 <= j < zr.Length ==>
              Complex(zr[j], zi[j])
              == if k <= j < k + 8 then SplitAt(re, im, splitCos[j], splitSin[j], scale, j)
                 else old(Complex(zr[j], zi[j]))
  {
    var at := zr.Length - k - 7;
    var (zrv, ziv) := SplitLanes(re[k..k + 8], im[k..k + 8],
                                 Reverse8(re[at..at + 8]), Reverse8(im[at..at + 8]),
                                 splitCos[k..k + 8], splitSin[k..k + 8], Set1(scale));
    EightSplit(re, im, splitCos, splitSin, scale, k, at);
    Store(zr, k, zrv);
    Store(zi, k, ziv);
  }

  lemma EightSplit(re: seq<real>, im: seq<real>, splitCos: seq<real>, splitSin: seq<real>,
                   scale: real, k: nat, at: nat)
    requires |splitCos| == |splitSin| == |re| - 1 && |re| == |im|
    requires k + 8 < |re| && at == |re| - 1 - k - 7
    ensures var z := SplitLanes(re[k..k + 8], im[k..k + 8],
                                Reverse8(re[at..at + 8]), Reverse8(im[at..at + 8]),
                                splitCos[k..k + 8], splitSin[k..k + 8], Set1(scale));
            forall j :: k <= j < k + 8 ==>
              Complex(z.0[j - k], z.1[j - k]) == SplitAt(re, im, splitCos[j], splitSin[j], scale, j)
  {
    var ar, ai := re[k..k + 8], im[k..k + 8];
    var mr, mi := Reverse8(re[at..at + 8]), Reverse8(im[at..at + 8]);
    var sc, ss := splitCos[k..k + 8], splitSin[k..k + 8];
    var z := SplitLanes(ar, ai, mr, mi, sc, ss, Set1(scale));
    forall j | k <= j < k + 8
      ensures Complex(z.0[j - k], z.1[j - k]) == SplitAt(re, im, splitCos[j], splitSin[j], scale, j)
    {
      hide SplitLanes, SplitAt;
      EightSplitAt(re, im, splitCos, splitSin, scale, k, at, j);
    }
  }

  lemma EightSplitAt(re: seq<real>, im: seq<real>, splitCos: seq<real>, splitSin: seq<real>,
                     scale: real, k: nat, at: nat, j: nat)
    requires |splitCos| == |splitSin| == |re| - 1 && |re| == |im|
    requires k <= j < k + 8 < |re| && at == |re| - 1 - k - 7
    ensures var z := SplitLanes(re[k..k + 8], im[k..k + 8],
                                Reverse8(re[at..at + 8]), Reverse8(im[at..at + 8]),
                                splitCos[k..k + 8], splitSin[k..k + 8], Set1(scale));
            Complex(z.0[j - k], z.1[j - k]) == SplitAt(re, im, splitCos[j], splitSin[j], scale, j)
  {
    hide SplitLanes, SplitAt;
    var mr, mi := Reverse8(re[at..at + 8]), Reverse8(im[at..at + 8]);
    var i := j - k;
    SplitLane(re[k..k + 8], im[k..k + 8], mr, mi, splitCos[k..k + 8], splitSin[k..k + 8], Set1(scale), i);
    assert mr[i] == re[|re| - 1 - j] && mi[i] == im[|re| - 1 - j];
    SplitAtPoint(re, im, splitCos[j], splitSin[j], scale, j);
  }

  function SplitLanes(ar: Vec, ai: Vec, mr: Vec, mi: Vec, sc: Vec, ss: Vec, vs: Vec): (r: (Vec, Vec)) {
    var er, ei := VMul(vs, VAdd(ar, mr)), VMul(vs, VSub(ai, mi));
    var dr, di := VMul(vs, VSub(ar, mr)), VMul(vs, VAdd(ai, mi));
    var oi := MulAdd(dr, ss, VMul(di, sc));
    var orr := MulSub(dr, sc, VMul(di, ss));
    (VSub(er, oi), VAdd(ei, orr))
  }

  lemma SplitLane(ar: Vec, ai: Vec, mr: Vec, mi: Vec, sc: Vec, ss: Vec, vs: Vec, i: nat)
    requires i < 8
    ensures var (zr, zi) := SplitLanes(ar, ai, mr, mi, sc, ss, vs);
            var dr, di := vs[i] * (ar[i] - mr[i]), vs[i] * (ai[i] + mi[i]);
            && zr[i] == vs[i] * (ar[i] + mr[i]) - (dr * ss[i] + di * sc[i])
            && zi[i] == vs[i] * (ai[i] - mi[i]) + (dr * sc[i] - di * ss[i])
  {}

  // ----- Radix-2 stages ---------------------------------------------------------

  method BlockButterflies(re: array<real>, im: array<real>, twc: seq<real>, tws: seq<real>, base: nat, h: nat)
    requires re != im && re.Length == im.Length && base + 2 * h <= re.Length
    requires |twc| == |tws| == h && h % 8 == 0
    modifies re, im
    ensures var z := old(Zip(re[..], im[..]));
            Zip(re[..], im[..]) == Spliced(z, base, Block(z[base..base + 2 * h], h, Zip(twc, tws)))
  {
    hide Block, Spliced, BlockDone, EightStep;
    ghost var z0, tw := Zip(re[..], im[..]), Zip(twc, tws);
    ghost var y := z0[base..base + 2 * h];
    BlockEnds(z0, base, y, h, tw);
    var k := 0;
    while k < h
      invariant k <= h && k % 8 == 0
      invariant BlockDone(z0, base, y, h, tw, k, Zip(re[..], im[..]))
    {
      ghost var z := Zip(re[..], im[..]);
      EightTwiddles(twc, tws, k);
      EightButterflies(re, im, twc[k..k + 8], tws[k..k + 8], base + k, base + k + h);
      BlockEight(z0, base, y, h, tw, k, z, Zip(twc[k..k + 8], tws[k..k + 8]), Zip(re[..], im[..]));
      k := k + 8;
    }
  }

  lemma EightTwiddles(twc: seq<real>, tws: seq<real>, k: nat)
    requires |twc| == |tws| && k + 8 <= |twc|
    ensures Zip(twc[k..k + 8], tws[k..k + 8]) == Zip(twc, tws)[k..k + 8]
  {}

  /** z is z0 with the first k butterflies of the block at base carried out. */
  ghost predicate BlockDone(z0: seq<Complex>, base: nat, y: seq<Complex>, h: nat, tw: seq<Complex>,
                            k: nat, z: seq<Complex>)
    requires k <= h <= |tw| && |y| == 2 * h && base + 2 * h <= |z0|
  {
    z == Spliced(z0, base, PartialBlock(y, h, tw, k))
  }

  lemma BlockEnds(z0: seq<Complex>, base: nat, y: seq<Complex>, h: nat, tw: seq<Complex>)
    requires h <= |tw| && base + 2 * h <= |z0| && y == z0[base..base + 2 * h]
    ensures BlockDone(z0, base, y, h, tw, 0, z0)
    ensures forall z :: BlockDone(z0, base, y, h, tw, h, z) ==> z == Spliced(z0, base, Block(y, h, tw))
  {
    SplicedEnds(z0, base, y, h, tw);
  }

  /** Eight butterflies at once, between entries at..at+8 and bt..bt+8. */
  method EightButterflies(re: array<real>, im: array<real>, wc: Vec, ws: Vec, at: nat, bt: nat)
    requires re != im && re.Length == im.Length && at + 8 <= bt && bt + 8 <= re.Length
    modifies re, im
    ensures EightStep(old(Zip(re[..], im[..])), Zip(wc, ws), at, bt, Zip(re[..], im[..]))
  {
    ghost var re0, im0 := re[..], im[..];
    var rb, ib, ra, ia := re[bt..bt + 8], im[bt..bt + 8], re[at..at + 8], im[at..at + 8];
    var br, bi := MulSub(rb, wc, VMul(ib, ws)), MulAdd(rb, ws, VMul(ib, wc));
    Store(re, bt, VSub(ra, br));
    Store(im, bt, VSub(ia, bi));
    Store(re, at, VAdd(ra, br));
    Store(im, at, VAdd(ia, bi));
    EightValues(re0, im0, wc, ws, at, bt, br, bi);
  }

  lemma EightValues(re: seq<real>, im: seq<real>, wc: Vec, ws: Vec, at: nat, bt: nat, br: Vec, bi: Vec)
    requires |re| == |im| && at + 8 <= bt && bt + 8 <= |re|
    requires br == MulSub(re[bt..bt + 8], wc, VMul(im[bt..bt + 8], ws))
    requires bi == MulAdd(re[bt..bt + 8], ws, VMul(im[bt..bt + 8], wc))
    ensures Zip(Overwritten(Overwritten(re, bt, VSub(re[at..at + 8], br)), at, VAdd(re[at..at + 8], br)),
                Overwritten(Overwritten(im, bt, VSub(im[at..at + 8], bi)), at, VAdd(im[at..at + 8], bi)))
         == EightDone(Zip(re, im), Zip(wc, ws), at, bt)
  {
    var z, tw := Zip(re, im), Zip(wc, ws);
    EightProducts(re, im, wc, ws, bt, br, bi);
    hide MulSub, MulAdd, Mul, Zip, Overwritten;
    var r := Zip(Overwritten(Overwritten(re, bt, VSub(re[at..at + 8], br)), at, VAdd(re[at..at + 8], br)),
                 Overwritten(Overwritten(im, bt, VSub(im[at..at + 8], bi)), at, VAdd(im[at..at + 8], bi)));
    forall p | 0 <= p < |re|
      ensures r[p] == EightDone(z, tw, at, bt)[p]
    {
      if at <= p < at + 8 {
        assert Complex(br[p - at], bi[p - at]) == Mul(tw[p - at], z[bt + (p - at)]);
      } else if bt <= p < bt + 8 {
        assert Complex(br[p - bt], bi[p - bt]) == Mul(tw[p - bt], z[bt + (p - bt)]);
      }
    }
  }

  /** The lanes hold the eight products of twiddle and entry. */
  lemma EightProducts(re: seq<real>, im: seq<real>, wc: Vec, ws: Vec, bt: nat, br: Vec, bi: Vec)
    requires |re| == |im| && bt + 8 <= |re|
    requires br == MulSub(re[bt..bt + 8], wc, VMul(im[bt..bt + 8], ws))
    requires bi == MulAdd(re[bt..bt + 8], ws, VMul(im[bt..bt + 8], wc))
    ensures forall i {:trigger br[i]} :: 0 <= i < 8 ==>
              Complex(br[i], bi[i]) == Mul(Zip(wc, ws)[i], Zip(re, im)[bt + i])
  {
    forall i | 0 <= i < 8
      ensures Complex(br[i], bi[i]) == Mul(Zip(wc, ws)[i], Zip(re, im)[bt + i])
    {
      var x, y := re[bt + i], im[bt + i];
      assert re[bt..bt + 8][i] == x && im[bt..bt + 8][i] == y;
      LaneProduct(x, y, wc[i], ws[i]);
      hide Mul, Zip;
      assert Zip(wc, ws)[i] == Complex(wc[i], ws[i]) && Zip(re, im)[bt + i] == Complex(x, y);
      assert br[i] == x * wc[i] - y * ws[i] && bi[i] == x * ws[i] + y * wc[i];
    }
  }

  lemma LaneProduct(x: real, y: real, wc: real, ws: real)
    ensures Complex(x * wc - y * ws, x * ws + y * wc) == Mul(Complex(wc, ws), Complex(x, y))
  {}

  ghost predicate EightStep(z: seq<Complex>, tw: seq<Complex>, at: nat, bt: nat, next: seq<Complex>)
    requires |tw| == 8 && at + 8 <= bt && bt + 8 <= |z|
  {
    next == EightDone(z, tw, at, bt)
  }

  function EightDone(z: seq<Complex>, tw: seq<Complex>, at: nat, bt: nat): (r: seq<Complex>)
    requires |tw| == 8 && at + 8 <= bt && bt + 8 <= |z|
    ensures |r| == |z|
    ensures forall i {:trigger r[i]} :: 0 <= i < |z| ==>
              r[i] == if at <= i < at + 8 then Add(z[i], Mul(tw[i - at], z[i - at + bt]))
                      else if bt <= i < bt + 8 then Sub(z[i - bt + at], Mul(tw[i - bt], z[i]))
                      else z[i]
  {
    seq(|z|, i requires 0 <= i < |z| =>
      if at <= i < at + 8 then Add(z[i], Mul(tw[i - at], z[i - at + bt]))
      else if bt <= i < bt + 8 then Sub(z[i - bt + at], Mul(tw[i - bt], z[i]))
      else z[i])
  }

  lemma BlockEight(z0: seq<Complex>, base: nat, y: seq<Complex>, h: nat, tw: seq<Complex>, k: nat,
                   z: seq<Complex>, eight: seq<Complex>, next: seq<Complex>)
    requires k + 8 <= h <= |tw| && |y| == 2 * h && base + 2 * h <= |z0|
    requires |z| == |z0| && BlockDone(z0, base, y, h, tw, k, z)
    requires eight == tw[k..k + 8]
    requires |eight| == 8 && EightStep(z, eight, base + k, base + k + h, next)
    ensures BlockDone(z0, base, y, h, tw, k + 8, next)
  {
    hide Add, Sub, Mul;
    var done := Spliced(z0, base, PartialBlock(y, h, tw, k + 8));
    forall p | 0 <= p < |z0|
      ensures next[p] == done[p]
    {
      var i := p - base;
      if k <= i < k + 8 {
        assert eight[i - k] == tw[i];
        assert z[p] == y[i] && z[p + h] == y[i + h];
      } else if k <= i - h < k + 8 {
        assert eight[i - h - k] == tw[i - h];
        assert z[p] == y[i] && z[p - h] == y[i - h];
      }
    }
    assert next == done;
  }

  method FftStage(re: array<real>, im: array<real>, twc: seq<real>, tws: seq<real>, h: nat)
    requires re != im && re.Length == im.Length
    requires 0 < h == |twc| == |tws| && Whole(re.Length, 2 * h)
    requires h < 8 || h % 8 == 0
    modifies re, im
    ensures Zip(re[..], im[..]) == Stage(old(Zip(re[..], im[..])), h, Zip(twc, tws))
  {
    if h < 8 {
      IstftKernels.FftStage(re, im, twc, tws, h);
    } else {
      VectorStage(re, im, twc, tws, h);
    }
  }

  method VectorStage(re: array<real>, im: array<real>, twc: seq<real>, tws: seq<real>, h: nat)
    requires re != im && re.Length == im.Length
    requires 0 < h == |twc| == |tws| && Whole(re.Length, 2 * h)
    requires h % 8 == 0
    modifies re, im
    ensures Zip(re[..], im[..]) == Stage(old(Zip(re[..], im[..])), h, Zip(twc, tws))
  {
    hide Spliced, Block, Stage, StageDone;
    ghost var z0, tw := Zip(re[..], im[..]), Zip(twc, tws);
    StageEnds(z0, h, tw);
    var base := 0;
    while base < re.Length
      invariant base <= re.Length && Whole(re.Length - base, 2 * h)
      invariant StageDone(z0, base, h, tw, Zip(re[..], im[..]))
      decreases re.Length - base
    {
      ghost var z := Zip(re[..], im[..]);
      BlockButterflies(re, im, twc, tws, base, h);
      StageStep(z0, base, h, tw, z, Zip(re[..], im[..]));
      base := base + 2 * h;
    }
  }

  method FftStagePairs(re: array<real>, im: array<real>)
    requires re != im && re.Length == im.Length && Whole(re.Length, 2)
    modifies re, im
    ensures Zip(re[..], im[..]) == Stage(old(Zip(re[..], im[..])), 1, [ONE])
  {
    hide Spliced, Block, Stage, StageDone;
    ghost var z0 := Zip(re[..], im[..]);
    StageEnds(z0, 1, [ONE]);
    var i := 0;
    while i + 16 <= re.Length
      invariant i <= re.Length && Whole(re.Length - i, 2)
      invariant StageDone(z0, i, 1, [ONE], Zip(re[..], im[..]))
    {
      ghost var z := Zip(re[..], im[..]);
      EightPairs(re, im, i);
      EightStageSteps(z0, i, z, Zip(re[..], im[..]));
      i := i + 16;
    }
    PairsFrom(re, im, i, z0);
  }

  /** Sums and differences of eight adjacent pairs. */
  method EightPairs(re: array<real>, im: array<real>, i: nat)
    requires re != im && re.Length == im.Length && i + 16 <= re.Length
    modifies re, im
    ensures Zip(re[..], im[..]) == PairsDone(old(Zip(re[..], im[..])), i, 8)
  {
    ghost var re0, im0 := re[..], im[..];
    Store(re, i, SumDifference(re[i..i + 8], re[i + 8..i + 16]));
    Store(im, i, SumDifference(im[i..i + 8], im[i + 8..i + 16]));
    SixteenValues(re0, im0, i);
  }

  lemma SixteenValues(re: seq<real>, im: seq<real>, i: nat)
    requires |re| == |im| && i + 16 <= |re|
    ensures Zip(Overwritten(re, i, SumDifference(re[i..i + 8], re[i + 8..i + 16])),
                Overwritten(im, i, SumDifference(im[i..i + 8], im[i + 8..i + 16])))
         == PairsDone(Zip(re, im), i, 8)
  {
    var r := Zip(Overwritten(re, i, SumDifference(re[i..i + 8], re[i + 8..i + 16])),
                 Overwritten(im, i, SumDifference(im[i..i + 8], im[i + 8..i + 16])));
    forall j | 0 <= j < |re|
      ensures r[j] == PairsDone(Zip(re, im), i, 8)[j]
    {
      if i <= j < i + 16 {
        SixteenAt(re, i, j);
        SixteenAt(im, i, j);
      }
    }
  }

  /** Sums and differences of the adjacent pairs in sixteen values, in place. */
  function SumDifference(v0: Vec, v1: Vec): (r: seq<real>)
    ensures |r| == 16
    ensures forall j {:trigger r[j]} :: 0 <= j < 16 ==>
              r[j] == if j % 2 == 0 then (v0 + v1)[j] + (v0 + v1)[j + 1] else (v0 + v1)[j - 1] - (v0 + v1)[j]
  {
    var a, b := DeinterleaveEven(v0, v1), DeinterleaveOdd(v0, v1);
    assert forall j :: 0 <= j < 16 ==> j == 2 * (j / 2) + j % 2;
    Interleave(VAdd(a, b), VSub(a, b))
  }

  lemma SixteenAt(x: seq<real>, i: nat, j: nat)
    requires i <= j < i + 16 <= |x|
    ensures SumDifference(x[i..i + 8], x[i + 8..i + 16])[j - i]
         == if (j - i) % 2 == 0 then x[j] + x[j + 1] else x[j - 1] - x[j]
  {
    assert x[i..i + 8] + x[i + 8..i + 16] == x[i..i + 16];
  }

  /** z with k pairs from index i on replaced by their sum and difference. */
  function PairsDone(z: seq<Complex>, i: nat, k: nat): (r: seq<Complex>)
    requires i + 2 * k <= |z|
    ensures |r| == |z|
    ensures forall j {:trigger r[j]} :: 0 <= j < |z| ==>
              r[j] == if !(i <= j < i + 2 * k) then z[j]
                      else if (j - i) % 2 == 0 then Add(z[j], z[j + 1]) else Sub(z[j - 1], z[j])
  {
    seq(|z|, j requires 0 <= j < |z| =>
      if !(i <= j < i + 2 * k) then z[j]
      else if (j - i) % 2 == 0 then Add(z[j], z[j + 1]) else Sub(z[j - 1], z[j]))
  }

  lemma {:induction false} PairStageSteps(z0: seq<Complex>, i: nat, k: nat, z: seq<Complex>)
    requires i + 2 * k <= |z0| == |z|
    requires StageDone(z0, i, 1, [ONE], z)
    ensures StageDone(z0, i + 2 * k, 1, [ONE], PairsDone(z, i, k))
    decreases k
  {
    hide StageDone, Spliced, Block;
    if k == 0 {
      assert PairsDone(z, i, 0) == z;
    } else {
      PairStageSteps(z0, i, k - 1, z);
      var y, j := PairsDone(z, i, k - 1), i + 2 * (k - 1);
      OnePairMore(z, i, k - 1);
      StageStep(z0, j, 1, [ONE], y, PairsDone(z, i, k));
    }
  }

  lemma OnePairMore(z: seq<Complex>, i: nat, k: nat)
    requires i + 2 * k + 2 <= |z|
    ensures var y, j := PairsDone(z, i, k), i + 2 * k;
            PairsDone(z, i, k + 1) == Spliced(y, j, Block(y[j..j + 2], 1, [ONE]))
  {
    hide PairsDone, Add, Sub, Block, Spliced;
    var y, j := PairsDone(z, i, k), i + 2 * k;
    PairBlock(y, j);
    assert y[j] == z[j] && y[j + 1] == z[j + 1];
    assert PairsDone(z, i, k + 1) == y[j := Add(y[j], y[j + 1])][j + 1 := Sub(y[j], y[j + 1])];
  }

  lemma EightStageSteps(z0: seq<Complex>, i: nat, z: seq<Complex>, next: seq<Complex>)
    requires i + 16 <= |z0| == |z|
    requires Whole(|z0| - i, 2)
    requires StageDone(z0, i, 1, [ONE], z) && next == PairsDone(z, i, 8)
    ensures StageDone(z0, i + 16, 1, [ONE], next)
    ensures Whole(|z0| - i - 16, 2)
  {
    PairStageSteps(z0, i, 8, z);
    WholeDrop(|z0| - i, 8);
  }

  lemma {:induction false} WholeDrop(len: nat, k: nat)
    requires Whole(len, 2) && 2 * k <= len
    ensures Whole(len - 2 * k, 2)
    decreases k
  {
    if k > 0 {
      WholeDrop(len - 2, k - 1);
    }
  }
}
