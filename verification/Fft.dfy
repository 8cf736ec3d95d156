/** The radix-2 stages, and what they compute. */
module Fft {
  import opened Complex
  import opened Dft
  import opened BitReversal

  /** Entry k of a block of 2h entries after its h butterflies, each over two
      entries h apart. */
  function Butterfly(y: seq<Complex>, h: nat, tw: seq<Complex>, k: nat): Complex
    requires |y| == 2 * h && h <= |tw|
    requires k < 2 * h
  {
    if k < h then Add(y[k], Mul(tw[k], y[k + h]))
    else Sub(y[k - h], Mul(tw[k - h], y[k]))
  }

  function Block(y: seq<Complex>, h: nat, tw: seq<Complex>): (z: seq<Complex>)
    requires |y| == 2 * h && h <= |tw|
    ensures |z| == |y|
    ensures forall k {:trigger z[k]} :: 0 <= k < 2 * h ==> z[k] == Butterfly(y, h, tw, k)
  {
    seq(2 * h, k requires 0 <= k < 2 * h => Butterfly(y, h, tw, k))
  }

  /** One stage: every block of 2h entries in turn. */
  function Stage(y: seq<Complex>, h: nat, tw: seq<Complex>): (z: seq<Complex>)
    requires 0 < h <= |tw|
    ensures |z| == |y|
  {
    if |y| < 2 * h then y
    else
      var last := |y| - 2 * h;
      Stage(y[..last], h, tw) + Block(y[last..], h, tw)
  }

  /** len is a whole number of blocks of size d. */
  predicate Whole(len: nat, d: nat)
    requires 0 < d
  {
    len == 0 || (d <= len && Whole(len - d, d))
  }

  lemma {:induction false} WholeHalves(len: nat, d: nat)
    requires 0 < d && Whole(len, 2 * d)
    ensures Whole(len, d)
    decreases len
  {
    if len > 0 {
      WholeHalves(len - 2 * d, d);
    }
  }

  /** The h twiddles of a stage whose angular step is given. */
  function StageTwiddles(t: Trig, h: nat, step: int): (tw: seq<Complex>)
    ensures |tw| == h
    ensures forall k :: 0 <= k < h ==> tw[k] == Twiddle(t, step, k)
  {
    seq(h, k requires 0 <= k => Twiddle(t, step, k))
  }

  /** The stages h = 1, 2, 4, ..., 2^(e-1), in that order; `step` is the angular
      step of the last one and doubles towards the first. */
  function Stages(t: Trig, y: seq<Complex>, e: nat, step: int): (z: seq<Complex>)
    ensures |z| == |y|
  {
    if e == 0 then y
    else
      var h := Pow2(e - 1);
      Stage(Stages(t, y, e - 1, 2 * step), h, StageTwiddles(t, h, step))
  }

  lemma StageLast(y: seq<Complex>, h: nat, tw: seq<Complex>)
    requires 0 < h <= |tw| && |y| >= 2 * h
    ensures Stage(y, h, tw) == Stage(y[..|y| - 2 * h], h, tw) + Block(y[|y| - 2 * h..], h, tw)
  {}

  lemma StageOfNothing(h: nat, tw: seq<Complex>)
    requires 0 < h <= |tw|
    ensures Stage([], h, tw) == []
  {}

  lemma {:induction false} StageConcat(a: seq<Complex>, b: seq<Complex>, h: nat, tw: seq<Complex>)
    requires 0 < h <= |tw| && Whole(|b|, 2 * h)
    ensures Stage(a + b, h, tw) == Stage(a, h, tw) + Stage(b, h, tw)
    decreases |b|
  {
    if |b| == 0 {
      assert a + b == a;
      StageOfNothing(h, tw);
    } else {
      var last := |b| - 2 * h;
      assert Whole(last, 2 * h);
      StageLast(a + b, h, tw);
      StageLast(b, h, tw);
      ConcatCut(a, b, last);
      StageConcat(a, b[..last], h, tw);
      hide Stage, Block, Whole;
      AppendAssoc(Stage(a, h, tw), Stage(b[..last], h, tw), Block(b[last..], h, tw));
    }
  }

  lemma ConcatCut<T>(a: seq<T>, b: seq<T>, d: nat)
    requires d <= |b|
    ensures (a + b)[..|a| + d] == a + b[..d] && (a + b)[|a| + d..] == b[d..]
  {}

  lemma AppendAssoc<T>(a: seq<T>, b: seq<T>, c: seq<T>)
    ensures (a + b) + c == a + (b + c)
  {}

  /** Stages small enough act on each part of a concatenation alone. */
  lemma {:induction false} StagesConcat(t: Trig, a: seq<Complex>, b: seq<Complex>, e: nat, step: int)
    requires Whole(|a|, Pow2(e)) && Whole(|b|, Pow2(e))
    ensures Stages(t, a + b, e, step) == Stages(t, a, e, step) + Stages(t, b, e, step)
    decreases e
  {
    if e > 0 {
      var h := Pow2(e - 1);
      WholeHalves(|a|, h);
      WholeHalves(|b|, h);
      StagesConcat(t, a, b, e - 1, 2 * step);
      StageConcat(Stages(t, a, e - 1, 2 * step), Stages(t, b, e - 1, 2 * step), h,
                  StageTwiddles(t, h, step));
    }
  }

  lemma JoinedEntries(t: Trig, x: seq<Complex>, step: int, h: nat, m: nat)
    requires t.Valid()
    requires m < h && |x| == 2 * h && Turn(t, step, 2 * h)
    ensures var y := Transform(t, Evens(x), 2 * step) + Transform(t, Odds(x), 2 * step);
            && Butterfly(y, h, StageTwiddles(t, h, step), m) == Transform(t, x, step)[m]
            && Butterfly(y, h, StageTwiddles(t, h, step), m + h) == Transform(t, x, step)[m + h]
  {
    hide Mul, Add, Sub, Idft, Turn, Twiddle, Evens, Odds;
    DecimationInTime(t, x, step, h, m);
    var e, o := Transform(t, Evens(x), 2 * step), Transform(t, Odds(x), 2 * step);
    assert (e + o)[m] == e[m] && (e + o)[m + h] == o[m];
  }

  /** One butterfly block joins the transforms of the even and odd halves. */
  lemma BlockJoins(t: Trig, x: seq<Complex>, step: int, h: nat)
    requires t.Valid()
    requires 0 < h && |x| == 2 * h && Turn(t, step, 2 * h)
    ensures Block(Transform(t, Evens(x), 2 * step) + Transform(t, Odds(x), 2 * step),
                  h, StageTwiddles(t, h, step))
         == Transform(t, x, step)
  {
    hide Butterfly, Transform, Turn, StageTwiddles, Evens, Odds;
    var y, tw := Transform(t, Evens(x), 2 * step) + Transform(t, Odds(x), 2 * step), StageTwiddles(t, h, step);
    var z := Transform(t, x, step);
    forall p | 0 <= p < 2 * h
      ensures Butterfly(y, h, tw, p) == z[p]
    {
      var m := if p < h then p else p - h;
      JoinedEntries(t, x, step, h, m);
      assert p == m || p == m + h;
    }
    SameEntries(y, h, tw, z);
  }

  lemma SameEntries(y: seq<Complex>, h: nat, tw: seq<Complex>, z: seq<Complex>)
    requires |y| == 2 * h == |z| && |tw| == h
    requires forall p {:trigger z[p]} :: 0 <= p < 2 * h ==> Butterfly(y, h, tw, p) == z[p]
    ensures Block(y, h, tw) == z
  {
    hide Butterfly;
  }

  /** The transform of 2^e points, computed stage by stage in place from the
      bit-reversed input. */
  lemma {:induction false} StagesComputeTransform(t: Trig, x: seq<Complex>, step: int, e: nat)
    requires t.Valid()
    requires |x| == Pow2(e) && Turn(t, step, Pow2(e))
    ensures Stages(t, Permuted(x, e), e, step) == Transform(t, x, step)
    decreases e
  {
    if e == 0 {
      SinglePoint(t, x, step);
    } else {
      var h := Pow2(e - 1);
      assert (2 * step) * h == step * Pow2(e);
      PermutedSplits(x, e);
      StagesComputeTransform(t, Evens(x), 2 * step, e - 1);
      StagesComputeTransform(t, Odds(x), 2 * step, e - 1);
      StagesConcat(t, Permuted(Evens(x), e - 1), Permuted(Odds(x), e - 1), e - 1, 2 * step);
      BlockJoins(t, x, step, h);
      SingleBlock(Transform(t, Evens(x), 2 * step) + Transform(t, Odds(x), 2 * step), h,
                  StageTwiddles(t, h, step));
    }
  }

  lemma SingleBlock(y: seq<Complex>, h: nat, tw: seq<Complex>)
    requires 0 < h <= |tw| && |y| == 2 * h
    ensures Stage(y, h, tw) == Block(y, h, tw)
  {
    StageLast(y, h, tw);
    StageOfNothing(h, tw);
    hide Stage, Block;
    assert y[0..] == y && y[..0] == [];
  }

  lemma SinglePoint(t: Trig, x: seq<Complex>, step: int)
    requires t.Valid()
    requires |x| == 1
    ensures Permuted(x, 0) == Transform(t, x, step)
  {
    MulZero(x[0]);
    assert PhaseSum(t, x, step * 0, 1) == Add(PhaseSum(t, x, step * 0, 0), Mul(x[0], t.W(0)));
  }

  /** Every block of 2^e entries of y is the transform of its decimated subsequence of x:
      the blocks of the first half belong to the even entries, those of the second half
      to the odd ones, and so on down to single blocks. */
  ghost predicate BlocksTransformed(t: Trig, y: seq<Complex>, x: seq<Complex>, b: nat, e: nat, step: int)
    requires |y| == |x| == Pow2(b) && e <= b
  {
    if b == e then y == Transform(t, x, step)
    else
      var h := Pow2(b - 1);
      && BlocksTransformed(t, y[..h], Evens(x), b - 1, e, step)
      && BlocksTransformed(t, y[h..], Odds(x), b - 1, e, step)
  }

  lemma {:induction false} WholePow2(b: nat, e: nat)
    requires e <= b
    ensures Whole(Pow2(b), Pow2(e))
  {
    if e < b {
      WholePow2(b - 1, e);
      WholeSum(Pow2(b - 1), Pow2(b - 1), Pow2(e));
    } else {
      assert Whole(0, Pow2(e));
    }
  }

  lemma {:induction false} WholeSum(m: nat, n: nat, d: nat)
    requires 0 < d && Whole(m, d) && Whole(n, d)
    ensures Whole(m + n, d)
  {
    if m > 0 { WholeSum(m - d, n, d); }
  }

  /** After the stages h = 1, 2, ..., 2^(e-1) over the bit-reversed input, every block
      of 2^e entries is the transform of its decimated subsequence. */
  lemma {:induction false} AfterEachStage(t: Trig, x: seq<Complex>, b: nat, e: nat, step: int)
    requires t.Valid()
    requires |x| == Pow2(b) && e <= b && Turn(t, step, Pow2(e))
    ensures BlocksTransformed(t, Stages(t, Permuted(x, b), e, step), x, b, e, step)
    decreases b
  {
    if b == e {
      StagesComputeTransform(t, x, step, e);
    } else {
      PermutedSplits(x, b);
      WholePow2(b - 1, e);
      AfterEachStage(t, Evens(x), b - 1, e, step);
      AfterEachStage(t, Odds(x), b - 1, e, step);
      var first, second := Permuted(Evens(x), b - 1), Permuted(Odds(x), b - 1);
      StagesConcat(t, first, second, e, step);
      Halves(Stages(t, first, e, step), Stages(t, second, e, step));
    }
  }

  lemma Halves<T>(a: seq<T>, b: seq<T>)
    ensures (a + b)[..|a|] == a && (a + b)[|a|..] == b
  {}
}
