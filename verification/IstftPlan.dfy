/** A validated iSTFT configuration and its precomputed tables. */
module IstftPlan {
  import opened Wrappers
  import opened Arith
  import opened Complex
  import opened BitReversal

  /** Largest size the direct kernel is allowed to take. */
  const MAX_DIRECT_DFT_N: nat := 64

  const SIZE_MAX: nat := 0xFFFF_FFFF_FFFF_FFFF

  datatype Config = Config(nFft: nat, hop: nat, center: bool)

  datatype Kernel = DirectDft | RealRadix2

  datatype PlanError = OddOrZeroSize | HopOutOfRange | UnsupportedSize

  datatype Plan = Plan(
    config: Config,
    kernel: Kernel,
    window: seq<real>,
    windowSq: seq<real>,
    windowEven: seq<real>,
    windowOdd: seq<real>,
    dftCos: seq<real>,
    dftSin: seq<real>,
    bitReversePairs: seq<nat>,
    stageTwCos: seq<real>,
    stageTwSin: seq<real>,
    splitCos: seq<real>,
    splitSin: seq<real>)
  {
    function Bins(): nat {
      config.nFft / 2 + 1
    }

    /** Length of the overlap-add signal before any trimming. */
    function PaddedLength(frames: nat): nat
      requires frames > 0
    {
      config.hop * (frames - 1) + config.nFft
    }

    /** Reconstructed length, or None on arithmetic overflow. */
    function OutputSamples(frames: nat): (r: Option<nat>)
      ensures frames == 0 ==> r == Some(0)
      ensures frames > 0 && !config.center ==>
                r == if PaddedLength(frames) <= SIZE_MAX then Some(PaddedLength(frames)) else None
      ensures frames > 0 && config.center ==>
                r == if PaddedLength(frames) <= SIZE_MAX then Some(config.hop * (frames - 1)) else None
    {
      if frames == 0 then Some(0)
      else match CheckedMulAdd(config.hop, frames - 1, config.nFft)
        case None => None
        case Some(padded) =>
          if !config.center then Some(padded)
          else
            var trim := config.nFft;
            if padded > trim then Some(padded - trim) else Some(0)
    }
  }

  /** a * b + c in 64-bit arithmetic, or None where it would wrap. */
  function CheckedMulAdd(a: nat, b: nat, c: nat): (r: Option<nat>)
    ensures r == if a * b + c <= SIZE_MAX then Some(a * b + c) else None
  {
    if a != 0 && b > SIZE_MAX / a then
      ProductOverflows(a, b, SIZE_MAX);
      None
    else if a * b > SIZE_MAX - c then None
    else Some(a * b + c)
  }

  lemma ProductOverflows(a: nat, b: nat, max: nat)
    requires a != 0 && b > max / a
    ensures a * b > max
  {
    DivModDef(max, a);
    MulMono(max / a + 1, b, a);
    assert (max / a + 1) * a == (max / a) * a + a;
  }

  // ----- Which sizes are accepted ---------------------------------------------

  /** The bitwise conjunction of two naturals. */
  function And(a: nat, b: nat): nat {
    if a == 0 || b == 0 then 0
    else (if a % 2 == 1 && b % 2 == 1 then 1 else 0) + 2 * And(a / 2, b / 2)
  }

  predicate IsPowerOfTwo(v: nat) {
    v != 0 && And(v, v - 1) == 0
  }

  lemma {:induction false} AndSelf(a: nat)
    ensures And(a, a) == a
  {
    if a > 0 {
      AndSelf(a / 2);
    }
  }

  lemma AndEven(w: nat)
    requires w > 0
    ensures And(2 * w, 2 * w - 1) == 2 * And(w, w - 1)
  {
    assert (2 * w - 1) / 2 == w - 1;
  }

  lemma AndOdd(w: nat)
    requires w > 0
    ensures And(2 * w + 1, 2 * w) == 2 * w
  {
    hide And;
    AndSelf(w);
    AndUnfold(2 * w + 1, 2 * w);
  }

  lemma AndUnfold(a: nat, b: nat)
    requires a > 0 && b > 0 && b % 2 == 0
    ensures And(a, b) == 2 * And(a / 2, b / 2)
  {}

  lemma BitsOfHalf(v: nat)
    requires v > 1
    ensures IsPowerOfTwo(v) <==> v % 2 == 0 && IsPowerOfTwo(v / 2)
  {
    if v % 2 == 0 { AndEven(v / 2); } else { AndOdd(v / 2); }
    hide And;
  }

  /** The bit trick accepts exactly the powers of two. */
  lemma {:induction false} PowerOfTwoBits(v: nat)
    ensures IsPowerOfTwo(v) <==> exists e: nat :: v == Pow2(e)
  {
    if v == 1 {
      assert v == Pow2(0);
    } else if v > 1 {
      var w := v / 2;
      PowerOfTwoBits(w);
      HalvePower(v);
      BitsOfHalf(v);
      hide IsPowerOfTwo, Pow2;
    } else {
      assert forall e: nat :: Pow2(e) > 0;
    }
  }

  lemma Twice(e: nat)
    ensures Pow2(e + 1) == 2 * Pow2(e)
  {}

  lemma Witness(v: nat, e: nat)
    requires v == Pow2(e)
    ensures exists d: nat :: v == Pow2(d)
  {}

  lemma HalvePower(v: nat)
    requires v > 1
    ensures (exists e: nat :: v == Pow2(e)) <==> v % 2 == 0 && exists e: nat :: v / 2 == Pow2(e)
  {
    assert Pow2(0) == 1;
    hide Pow2;
    if e: nat :| v == Pow2(e) {
      assert e > 0;
      Twice(e - 1);
      Witness(v / 2, e - 1);
    }
    if v % 2 == 0 {
      if e: nat :| v / 2 == Pow2(e) {
        Twice(e);
        Witness(v, e + 1);
      }
    }
  }

  /** The configurations a plan can be built for. */
  predicate Accepted(config: Config) {
    && config.nFft > 0 && config.nFft % 2 == 0
    && 0 < config.hop <= config.nFft
    && (config.nFft <= MAX_DIRECT_DFT_N || IsPowerOfTwo(config.nFft))
  }

  predicate UsesRadix2(config: Config) {
    IsPowerOfTwo(config.nFft) && config.nFft >= MAX_DIRECT_DFT_N
  }

  // ----- What the tables hold -------------------------------------------------

  /** The periodic Hann window. */
  function Hann(t: Trig, i: int): real {
    0.5 - 0.5 * t.c(i)
  }

  ghost predicate WindowTables(p: Plan, t: Trig) {
    && |p.window| == |p.windowSq| == t.n
    && (forall i {:trigger p.window[i]} :: 0 <= i < t.n ==> p.window[i] == Hann(t, i))
    && (forall i {:trigger p.windowSq[i]} :: 0 <= i < t.n ==> p.windowSq[i] == Hann(t, i) * Hann(t, i))
  }

  function CosRun(t: Trig, step: int, len: nat): (r: seq<real>)
    ensures |r| == len
    ensures forall k {:trigger r[k]} :: 0 <= k < len ==> r[k] == t.c(k * step)
  {
    seq(len, k => t.c(k * step))
  }

  function SinRun(t: Trig, step: int, len: nat): (r: seq<real>)
    ensures |r| == len
    ensures forall k {:trigger r[k]} :: 0 <= k < len ==> r[k] == t.s(k * step)
  {
    seq(len, k => t.s(k * step))
  }

  /** Row k of the direct tables, starting at offset k * n. */
  ghost predicate DftRow(cs: seq<real>, ss: seq<real>, t: Trig, k: nat) {
    && k * t.n + t.n <= |cs| == |ss|
    && cs[k * t.n..k * t.n + t.n] == CosRun(t, k, t.n)
    && ss[k * t.n..k * t.n + t.n] == SinRun(t, k, t.n)
  }

  /** The twiddles of stage h sit at offset h - 1. */
  ghost predicate StageRun(cs: seq<real>, ss: seq<real>, t: Trig, h: nat, step: int) {
    && 0 < h && 2 * h - 1 <= |cs| == |ss|
    && cs[h - 1..2 * h - 1] == CosRun(t, step, h)
    && ss[h - 1..2 * h - 1] == SinRun(t, step, h)
  }

  /** Every stage 1, 2, ..., 2^(e-1) of a 2^e-point transform is in place. */
  ghost predicate StageTables(cs: seq<real>, ss: seq<real>, t: Trig, e: nat) {
    forall j: nat :: j < e ==> StageRun(cs, ss, t, Pow2(j), Pow2(e - j))
  }

  /** The (i, j) swaps with i < j = reversed i, for i below a bound, flattened. */
  function SwapList(b: nat, bound: nat): (pairs: seq<nat>)
    ensures |pairs| % 2 == 0
  {
    if bound == 0 then []
    else
      var i := bound - 1;
      SwapList(b, i) + if Reverse(i, b) > i then [i, Reverse(i, b)] else []
  }

  ghost predicate Radix2Tables(p: Plan, t: Trig, e: nat) {
    var half := t.n / 2;
    && half == Pow2(e)
    && p.bitReversePairs == SwapList(e, half)
    && |p.stageTwCos| == |p.stageTwSin| == half - 1
    && StageTables(p.stageTwCos, p.stageTwSin, t, e)
    && p.splitCos == seq(half, k => t.c(k)) && p.splitSin == seq(half, k => t.s(k))
    && p.windowEven == seq(half, m => Hann(t, 2 * m))
    && p.windowOdd == seq(half, m => Hann(t, 2 * m + 1))
  }

  ghost predicate ValidPlan(p: Plan, t: Trig) {
    && t.Valid() && t.n == p.config.nFft
    && Accepted(p.config)
    && (p.kernel == RealRadix2 <==> UsesRadix2(p.config))
    && WindowTables(p, t)
    && (p.kernel == DirectDft ==> forall k: nat :: k <= t.n / 2 ==> DftRow(p.dftCos, p.dftSin, t, k))
    && (p.kernel == RealRadix2 ==> exists e :: Radix2Tables(p, t, e))
  }

  // ----- Building the tables ---------------------------------------------------

  /** Validates a configuration and builds its tables; `t` stands for the library's
      cosine and sine on the grid of the accepted size. */
  method Create(config: Config, t: Trig) returns (r: Result<Plan, PlanError>)
    requires config.nFft > 0 && config.nFft % 2 == 0 ==> t.Valid() && t.n == config.nFft
    ensures r.Ok? <==> Accepted(config)
    ensures r.Ok? ==> r.value.config == config && ValidPlan(r.value, t)
    ensures r.Ok? ==> |r.value.window| == config.nFft
    ensures r.Ok? ==> forall i {:trigger r.value.window[i]} :: 0 <= i < config.nFft ==>
                        r.value.window[i] == 0.5 - 0.5 * t.c(i)
    ensures r.Ok? ==> (r.value.kernel == RealRadix2 <==> config.nFft >= 64 && exists d: nat :: config.nFft == Pow2(d))
    ensures r == Err(OddOrZeroSize) <==> config.nFft == 0 || config.nFft % 2 != 0
    ensures r == Err(HopOutOfRange) <==>
              config.nFft > 0 && config.nFft % 2 == 0 && (config.hop == 0 || config.hop > config.nFft)
    ensures r == Err(UnsupportedSize) <==>
              && config.nFft > 64 && config.nFft % 2 == 0 && 0 < config.hop <= config.nFft
              && forall d: nat :: config.nFft != Pow2(d)
  {
    var n := config.nFft;
    PowerOfTwoBits(n);
    if n == 0 || n % 2 != 0 {
      return Err(OddOrZeroSize);
    }
    if config.hop == 0 || config.hop > n {
      return Err(HopOutOfRange);
    }
    var kernel;
    if IsPowerOfTwo(n) && n >= MAX_DIRECT_DFT_N {
      kernel := RealRadix2;
    } else if n <= MAX_DIRECT_DFT_N {
      kernel := DirectDft;
    } else {
      return Err(UnsupportedSize);
    }
    var window, windowSq := FillWindow(t);
    var plan := Plan(config, kernel, window, windowSq, [], [], [], [], [], [], [], [], []);
    if kernel == DirectDft {
      var cs, ss := FillDirect(t);
      plan := plan.(dftCos := cs, dftSin := ss);
    } else {
      ghost var e := HalfExponent(n);
      var half := n / 2;
      var log2Half := 0;
      while Pow2(log2Half) < half
        invariant log2Half <= e
        decreases e - log2Half
      {
        Pow2Increases(log2Half + 1, e);
        log2Half := log2Half + 1;
      }
      Pow2Increases(log2Half, e);
      var pairs := FillSwaps(log2Half, half);
      var cs, ss := FillStages(t, half, log2Half);
      var splitCos, splitSin, even, odd := FillSplit(t, window);
      plan := plan.(bitReversePairs := pairs, stageTwCos := cs, stageTwSin := ss,
                    splitCos := splitCos, splitSin := splitSin,
                    windowEven := even, windowOdd := odd);
      assert Radix2Tables(plan, t, log2Half);
    }
    return Ok(plan);
  }

  lemma HalfExponent(n: nat) returns (e: nat)
    requires IsPowerOfTwo(n) && n > 1
    ensures n / 2 == Pow2(e) && n % 2 == 0
  {
    PowerOfTwoBits(n);
    var d: nat :| n == Pow2(d);
    e := d - 1;
  }

  lemma {:induction false} Pow2Increases(a: nat, b: nat)
    ensures a < b ==> Pow2(a) < Pow2(b)
    ensures b < a ==> Pow2(b) < Pow2(a)
    decreases a
  {
    if a > 0 && b > 0 {
      Pow2Increases(a - 1, b - 1);
    }
  }

  method FillWindow(t: Trig) returns (window: seq<real>, windowSq: seq<real>)
    requires t.Valid()
    ensures |window| == |windowSq| == t.n
    ensures forall i {:trigger window[i]} :: 0 <= i < t.n ==> window[i] == Hann(t, i)
    ensures forall i {:trigger windowSq[i]} :: 0 <= i < t.n ==> windowSq[i] == Hann(t, i) * Hann(t, i)
  {
    window, windowSq := [], [];
    for i := 0 to t.n
      invariant |window| == |windowSq| == i
      invariant forall j {:trigger window[j]} :: 0 <= j < i ==> window[j] == Hann(t, j)
      invariant forall j {:trigger windowSq[j]} :: 0 <= j < i ==> windowSq[j] == Hann(t, j) * Hann(t, j)
    {
      var w := 0.5 - 0.5 * t.c(i);
      window := window + [w];
      windowSq := windowSq + [w * w];
    }
  }

  method FillDirect(t: Trig) returns (cs: seq<real>, ss: seq<real>)
    requires t.Valid()
    ensures forall k: nat :: k <= t.n / 2 ==> DftRow(cs, ss, t, k)
  {
    var n, bins := t.n, t.n / 2 + 1;
    cs, ss := [], [];
    for k := 0 to bins
      invariant |cs| == |ss| == k * n
      invariant forall j: nat :: j < k ==> DftRow(cs, ss, t, j)
    {
      var rowCos, rowSin := [], [];
      for i := 0 to n
        invariant rowCos == CosRun(t, k, i) && rowSin == SinRun(t, k, i)
      {
        assert k * i == i * k;
        rowCos := rowCos + [t.c(k * i)];
        rowSin := rowSin + [t.s(k * i)];
      }
      AppendRow(cs, ss, t, k);
      cs, ss := cs + rowCos, ss + rowSin;
    }
  }

  /** What is appended does not change an earlier row. */
  lemma RowInPrefix(cs: seq<real>, ss: seq<real>, rc: seq<real>, rs: seq<real>, t: Trig, k: nat)
    requires |rc| == |rs| && DftRow(cs, ss, t, k)
    ensures DftRow(cs + rc, ss + rs, t, k)
  {
    SliceOfPrefix(cs, rc, k * t.n, k * t.n + t.n);
    SliceOfPrefix(ss, rs, k * t.n, k * t.n + t.n);
  }

  lemma RowAtEnd(cs: seq<real>, ss: seq<real>, t: Trig, k: nat)
    requires |cs| == |ss| == k * t.n
    ensures DftRow(cs + CosRun(t, k, t.n), ss + SinRun(t, k, t.n), t, k)
  {
    SliceOfSuffix(cs, CosRun(t, k, t.n));
    SliceOfSuffix(ss, SinRun(t, k, t.n));
  }

  lemma AppendRow(cs: seq<real>, ss: seq<real>, t: Trig, k: nat)
    requires |cs| == |ss| == k * t.n
    requires forall j: nat :: j < k ==> DftRow(cs, ss, t, j)
    ensures k * t.n + t.n == (k + 1) * t.n
    ensures forall j: nat :: j < k + 1 ==>
              DftRow(cs + CosRun(t, k, t.n), ss + SinRun(t, k, t.n), t, j)
  {
    hide DftRow, CosRun, SinRun;
    var rc, rs := CosRun(t, k, t.n), SinRun(t, k, t.n);
    forall j: nat | j < k + 1
      ensures DftRow(cs + rc, ss + rs, t, j)
    {
      if j < k {
        RowInPrefix(cs, ss, rc, rs, t, j);
      } else {
        RowAtEnd(cs, ss, t, k);
      }
    }
  }

  method FillSwaps(log2Half: nat, half: nat) returns (pairs: seq<nat>)
    requires half == Pow2(log2Half)
    ensures pairs == SwapList(log2Half, half)
  {
    pairs := [];
    for i := 0 to half
      invariant pairs == SwapList(log2Half, i)
    {
      var r := 0;
      for b := 0 to log2Half
        invariant r == Reverse(i, b)
      {
        r := 2 * r + Bit(i, b);
      }
      if r > i {
        pairs := pairs + [i, r];
      }
    }
  }

  method FillStages(t: Trig, half: nat, ghost e: nat) returns (cs: seq<real>, ss: seq<real>)
    requires t.Valid() && half == Pow2(e) && t.n == 2 * half
    ensures |cs| == |ss| == half - 1
    ensures StageTables(cs, ss, t, e)
  {
    cs, ss := [], [];
    var h := 1;
    ghost var j := 0;
    while h < half
      invariant j <= e && h == Pow2(j)
      invariant |cs| == |ss| == h - 1
      invariant forall i: nat :: i < j ==> StageRun(cs, ss, t, Pow2(i), Pow2(e - i))
      decreases half - h
    {
      Pow2Increases(j, e);
      StepOf(j, e);
      var runCos, runSin := FillStage(t, h, half / (2 * h));
      AppendStage(cs, ss, t, e, j);
      cs, ss := cs + runCos, ss + runSin;
      h := 2 * h;
      j := j + 1;
    }
    Pow2Increases(j, e);
  }

  /** The twiddles of one stage. */
  method FillStage(t: Trig, h: nat, step: nat) returns (runCos: seq<real>, runSin: seq<real>)
    ensures runCos == CosRun(t, 2 * step, h) && runSin == SinRun(t, 2 * step, h)
  {
    runCos, runSin := [], [];
    for k := 0 to h
      invariant runCos == CosRun(t, 2 * step, k) && runSin == SinRun(t, 2 * step, k)
    {
      assert 2 * (k * step) == k * (2 * step);
      runCos := runCos + [t.c(2 * (k * step))];
      runSin := runSin + [t.s(2 * (k * step))];
    }
  }

  lemma {:induction false} StepOf(j: nat, e: nat)
    requires j < e
    ensures Pow2(e) / (2 * Pow2(j)) == Pow2(e - j - 1)
    ensures Pow2(e - j) == 2 * Pow2(e - j - 1)
    decreases j
  {
    Pow2Product(e - j - 1, j + 1);
    DivUnique(Pow2(e), 2 * Pow2(j), Pow2(e - j - 1), 0);
  }

  /** What is appended does not change an earlier run. */
  lemma RunInPrefix(cs: seq<real>, ss: seq<real>, rc: seq<real>, rs: seq<real>, t: Trig, h: nat, step: int)
    requires |rc| == |rs| && StageRun(cs, ss, t, h, step)
    ensures StageRun(cs + rc, ss + rs, t, h, step)
  {
    SliceOfPrefix(cs, rc, h - 1, 2 * h - 1);
    SliceOfPrefix(ss, rs, h - 1, 2 * h - 1);
  }

  lemma RunAtEnd(cs: seq<real>, ss: seq<real>, t: Trig, h: nat, step: int)
    requires h > 0 && |cs| == |ss| == h - 1
    ensures StageRun(cs + CosRun(t, step, h), ss + SinRun(t, step, h), t, h, step)
  {
    var rc, rs := CosRun(t, step, h), SinRun(t, step, h);
    assert |cs| + |rc| == 2 * h - 1 && |ss| + |rs| == 2 * h - 1;
    SliceOfSuffix(cs, rc);
    SliceOfSuffix(ss, rs);
  }

  lemma AppendStage(cs: seq<real>, ss: seq<real>, t: Trig, e: nat, j: nat)
    requires j < e && |cs| == |ss| == Pow2(j) - 1
    requires forall i: nat :: i < j ==> StageRun(cs, ss, t, Pow2(i), Pow2(e - i))
    ensures forall i: nat :: i < j + 1 ==>
              StageRun(cs + CosRun(t, Pow2(e - j), Pow2(j)), ss + SinRun(t, Pow2(e - j), Pow2(j)),
                       t, Pow2(i), Pow2(e - i))
  {
    hide StageRun, CosRun, SinRun;
    var rc, rs := CosRun(t, Pow2(e - j), Pow2(j)), SinRun(t, Pow2(e - j), Pow2(j));
    forall i: nat | i < j + 1
      ensures StageRun(cs + rc, ss + rs, t, Pow2(i), Pow2(e - i))
    {
      if i < j {
        RunInPrefix(cs, ss, rc, rs, t, Pow2(i), Pow2(e - i));
      } else {
        RunAtEnd(cs, ss, t, Pow2(j), Pow2(e - j));
      }
    }
  }

  method FillSplit(t: Trig, window: seq<real>)
    returns (splitCos: seq<real>, splitSin: seq<real>, even: seq<real>, odd: seq<real>)
    requires t.Valid() && |window| == t.n
    requires forall i {:trigger window[i]} :: 0 <= i < t.n ==> window[i] == Hann(t, i)
    ensures splitCos == seq(t.n / 2, k => t.c(k)) && splitSin == seq(t.n / 2, k => t.s(k))
    ensures even == seq(t.n / 2, m => Hann(t, 2 * m)) && odd == seq(t.n / 2, m => Hann(t, 2 * m + 1))
  {
    splitCos, splitSin, even, odd := [], [], [], [];
    for k := 0 to t.n / 2
      invariant splitCos == seq(k, i => t.c(i)) && splitSin == seq(k, i => t.s(i))
    {
      splitCos := splitCos + [t.c(k)];
      splitSin := splitSin + [t.s(k)];
    }
    for m := 0 to t.n / 2
      invariant even == seq(m, i => Hann(t, 2 * i)) && odd == seq(m, i => Hann(t, 2 * i + 1))
    {
      even := even + [window[2 * m]];
      odd := odd + [window[2 * m + 1]];
    }
  }

  // ----- The swaps realise the permutation ------------------------------------

  function Exchange<T>(y: seq<T>, i: nat, j: nat): (z: seq<T>)
    requires i < |y| && j < |y|
    ensures |z| == |y|
  {
    y[i := y[j]][j := y[i]]
  }

  predicate Indices(pairs: seq<nat>, n: nat) {
    forall q {:trigger pairs[q]} :: 0 <= q < |pairs| ==> pairs[q] < n
  }

  /** x after the first k swaps of the list. */
  function Swapped<T>(x: seq<T>, pairs: seq<nat>, k: nat): (y: seq<T>)
    requires 2 * k <= |pairs| && Indices(pairs, |x|)
    ensures |y| == |x|
  {
    if k == 0 then x
    else
      var y := Swapped(x, pairs, k - 1);
      Exchange(y, pairs[2 * (k - 1)], pairs[2 * (k - 1) + 1])
  }

  lemma {:induction false} SwapListInRange(b: nat, bound: nat)
    requires bound <= Pow2(b)
    ensures Indices(SwapList(b, bound), Pow2(b))
  {
    if bound > 0 {
      SwapListInRange(b, bound - 1);
    }
  }

  lemma {:induction false} SwappedPrefix<T>(x: seq<T>, pairs: seq<nat>, more: seq<nat>, k: nat)
    requires 2 * k <= |pairs| && Indices(pairs, |x|) && Indices(pairs + more, |x|)
    ensures Swapped(x, pairs + more, k) == Swapped(x, pairs, k)
  {
    hide Exchange, Indices;
    if k > 0 {
      SwappedPrefix(x, pairs, more, k - 1);
      assert (pairs + more)[2 * (k - 1)] == pairs[2 * (k - 1)];
      assert (pairs + more)[2 * (k - 1) + 1] == pairs[2 * (k - 1) + 1];
    }
  }

  lemma SwappedOneMore<T>(x: seq<T>, pairs: seq<nat>, i: nat, j: nat)
    requires |pairs| % 2 == 0 && Indices(pairs, |x|)
    requires i < |x| && j < |x|
    ensures Indices(pairs + [i, j], |x|)
    ensures Swapped(x, pairs + [i, j], |pairs| / 2 + 1) == Exchange(Swapped(x, pairs, |pairs| / 2), i, j)
  {
    var all, k := pairs + [i, j], |pairs| / 2;
    assert all[2 * k] == i && all[2 * k + 1] == j;
    assert Indices(all, |x|);
    hide Exchange, Indices;
    SwappedPrefix(x, pairs, [i, j], k);
  }

  /** x with every pair whose lower end is below `bound` exchanged. */
  function PermutedBelow<T>(x: seq<T>, b: nat, bound: nat): (y: seq<T>)
    requires |x| == Pow2(b)
    ensures |y| == |x|
    ensures forall p {:trigger y[p]} :: 0 <= p < |x| ==>
              y[p] == if p < bound || Reverse(p, b) < bound then x[Reverse(p, b)] else x[p]
  {
    seq(|x|, p requires 0 <= p < |x| =>
      if p < bound || Reverse(p, b) < bound then x[Reverse(p, b)] else x[p])
  }

  lemma PermutedBelowStep<T>(x: seq<T>, b: nat, i: nat)
    requires |x| == Pow2(b) && i < Pow2(b)
    ensures var r := Reverse(i, b);
            var y := PermutedBelow(x, b, i);
            PermutedBelow(x, b, i + 1) == if r > i then Exchange(y, i, r) else y
  {
    var r := Reverse(i, b);
    ReverseInvolution(i, b);
    forall p | 0 <= p < |x| && p != i && p != r
      ensures Reverse(p, b) != i
    {
      ReverseInvolution(p, b);
    }
  }

  lemma PermutedBelowNone<T>(x: seq<T>, b: nat)
    requires |x| == Pow2(b)
    ensures PermutedBelow(x, b, 0) == x
  {
    hide Reverse, Pow2;
  }

  lemma SwapListStep(b: nat, i: nat)
    ensures SwapList(b, 0) == []
    ensures SwapList(b, i + 1) == if Reverse(i, b) > i then SwapList(b, i) + [i, Reverse(i, b)] else SwapList(b, i)
  {
    assert SwapList(b, i) + [] == SwapList(b, i);
  }

  /** Running the stored swap list permutes by bit reversal. */
  lemma {:induction false} SwapListPermutes<T>(x: seq<T>, b: nat, bound: nat)
    requires |x| == Pow2(b) && bound <= Pow2(b)
    ensures Indices(SwapList(b, bound), |x|)
    ensures Swapped(x, SwapList(b, bound), |SwapList(b, bound)| / 2) == PermutedBelow(x, b, bound)
  {
    hide SwapList, PermutedBelow, Reverse, Exchange, Indices, Pow2;
    SwapListInRange(b, bound);
    if bound == 0 {
      SwapListStep(b, 0);
      PermutedBelowNone(x, b);
    } else {
      var i := bound - 1;
      SwapListStep(b, i);
      SwapListPermutes(x, b, i);
      PermutedBelowStep(x, b, i);
      hide Swapped;
      if Reverse(i, b) > i {
        SwappedOneMore(x, SwapList(b, i), i, Reverse(i, b));
      }
    }
  }

  lemma SwapListIsBitReversal<T>(x: seq<T>, b: nat)
    requires |x| == Pow2(b)
    ensures Indices(SwapList(b, |x|), |x|)
    ensures Swapped(x, SwapList(b, |x|), |SwapList(b, |x|)| / 2) == Permuted(x, b)
  {
    SwapListPermutes(x, b, |x|);
  }

  /** Bit reversal moves p, and p or where it goes is below the bound. */
  predicate MovedBelow(p: nat, b: nat, bound: nat) {
    p < Pow2(b) && Reverse(p, b) != p && (p < bound || Reverse(p, b) < bound)
  }

  lemma MovedStep(b: nat, i: nat)
    requires i < Pow2(b)
    ensures var r := Reverse(i, b);
            && !MovedBelow(i, b, i) == (r >= i) && (r > i ==> !MovedBelow(r, b, i))
            && forall p: nat :: MovedBelow(p, b, i + 1) <==> MovedBelow(p, b, i) || (r > i && (p == i || p == r))
  {
    var r := Reverse(i, b);
    ReverseInvolution(i, b);
    forall p: nat | p < Pow2(b) && Reverse(p, b) == i
      ensures p == r
    {
      ReverseInvolution(p, b);
    }
    hide Reverse, Pow2;
  }

  /** The stored pairs are disjoint: no index occurs twice, and exactly the indices
      that bit reversal moves occur. */
  lemma {:induction false} SwapListDisjoint(b: nat, bound: nat)
    requires bound <= Pow2(b)
    ensures var l := SwapList(b, bound);
            && (forall q, q' :: 0 <= q < q' < |l| ==> l[q] != l[q'])
            && (forall p: nat :: p in l <==> MovedBelow(p, b, bound))
  {
    if bound > 0 {
      var i := bound - 1;
      SwapListDisjoint(b, i);
      MovedStep(b, i);
      var before, r := SwapList(b, i), Reverse(i, b);
      assert SwapList(b, bound) == before + if r > i then [i, r] else [];
      hide SwapList, MovedBelow, Reverse;
      if r > i { PairAppended(before, i, r); } else { assert before + [] == before; }
    }
  }

  lemma PairAppended(l: seq<nat>, i: nat, r: nat)
    requires forall q, q' :: 0 <= q < q' < |l| ==> l[q] != l[q']
    requires i !in l && r !in l && i != r
    ensures var m := l + [i, r];
            && (forall q, q' :: 0 <= q < q' < |m| ==> m[q] != m[q'])
            && (forall p: nat :: p in m <==> p in l || p == i || p == r)
  {}
}
