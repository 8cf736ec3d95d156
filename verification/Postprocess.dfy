/** Trims, pauses and crossfades. Samples are exact reals. */
module Postprocess {
  import opened Arith

  const SILENCE_THRESHOLD: real := 0.01

  /** The unit of the silent-block scan. */
  const BLOCK: nat := 256

  datatype Boundary = NoBoundary | ClauseWeak | ClauseStrong | Sentence | Newline | Paragraph

  datatype Chunk = Chunk(boundaryAfter: Boundary, isFirst: bool, isLast: bool)

  datatype Config = Config(
    trimSilence: bool, maxSilenceTrimMs: int, commaPauseMs: int, sentencePauseMs: int, paragraphPauseMs: int)

  /** Whole samples in a time; none for a time or a rate that is not positive. */
  function MsToSamples(ms: int, rate: int): (n: nat)
    ensures ms > 0 && rate > 0 ==> 1000 * n <= ms * rate < 1000 * (n + 1)
    ensures ms <= 0 || rate <= 0 ==> n == 0
  {
    if ms <= 0 || rate <= 0 then 0 else ms * rate / 1000
  }

  /** Integer division that drops the fraction. */
  function Half(n: int): (h: int)
    ensures if n >= 0 then 0 <= n - 2 * h <= 1 else -1 <= n - 2 * h <= 0
  {
    if n >= 0 then n / 2 else -(-n / 2)
  }

  predicate Loud(x: real) {
    x > SILENCE_THRESHOLD || -x > SILENCE_THRESHOLD
  }

  predicate Silent(audio: seq<real>, from: nat, to: nat)
    requires from <= to <= |audio|
  {
    forall k {:trigger audio[k]} :: from <= k < to ==> -0.01 <= audio[k] <= 0.01
  }

  // ----- Scans ------------------------------------------------------------------------

  /** Whether any sample of a range is loud: eight at a time, then one at a time. */
  method AnyAboveThreshold(audio: seq<real>, from: nat, count: nat) returns (any: bool)
    requires from + count <= |audio|
    ensures any == !Silent(audio, from, from + count)
  {
    var i := 0;
    while i + 7 < count
      invariant i <= count && Silent(audio, from, from + i)
    {
      var lanes := audio[from + i..from + i + 8];
      if exists k :: 0 <= k < 8 && Loud(lanes[k]) {
        var k :| 0 <= k < 8 && Loud(lanes[k]);
        assert Loud(audio[from + i + k]);
        return true;
      }
      assert forall k {:trigger audio[k]} :: from + i <= k < from + i + 8 ==> audio[k] == lanes[k - from - i];
      i := i + 8;
    }
    while i < count
      invariant i <= count && Silent(audio, from, from + i)
    {
      if Loud(audio[from + i]) { return true; }
      i := i + 1;
    }
    return false;
  }

  /** The last position past a loud sample, looking back one sample at a time. */
  function LastLoud(audio: seq<real>, floor: nat, end: nat): (p: nat)
    requires floor <= end <= |audio|
    ensures floor <= p <= end && Silent(audio, p, end)
    ensures p > floor ==> !(-0.01 <= audio[p - 1] <= 0.01)
    decreases end - floor
  {
    if end == floor then floor
    else if Loud(audio[end - 1]) then end
    else LastLoud(audio, floor, end - 1)
  }

  /** Silence at the end does not move the edge. */
  lemma {:induction false} SilentTail(audio: seq<real>, floor: nat, mid: nat, end: nat)
    requires floor <= mid <= end <= |audio| && Silent(audio, mid, end)
    ensures LastLoud(audio, floor, end) == LastLoud(audio, floor, mid)
    decreases end - mid
  {
    if mid < end {
      assert !Loud(audio[end - 1]);
      SilentTail(audio, floor, mid, end - 1);
    }
  }

  /** The lowest position a trailing trim may reach. */
  function ScanFloor(count: nat, maxSamples: nat): nat {
    if count > maxSamples then count - maxSamples else 0
  }

  function TrailingEdge(audio: seq<real>, maxSamples: nat): (p: nat)
    ensures p <= |audio|
  {
    LastLoud(audio, ScanFloor(|audio|, maxSamples), |audio|)
  }

  /** Scans back block by block and looks inside the first block that is not silent:
      the same edge as the sample-by-sample scan of audio[base..]. */
  method ScanTrailingEdge(audio: seq<real>, base: nat, maxSamples: nat) returns (edge: nat)
    requires base <= |audio|
    ensures edge == TrailingEdge(audio[base..], maxSamples)
  {
    var view := audio[base..];
    var count := |view|;
    if count == 0 || maxSamples == 0 {
      return count;
    }
    var floor := ScanFloor(count, maxSamples);
    var end := count;
    while end > floor
      invariant floor <= end <= count
      invariant TrailingEdge(view, maxSamples) == LastLoud(view, floor, end)
    {
      var blockStart := if end > floor + BLOCK then end - BLOCK else floor;
      var loud := AnyAboveThreshold(view, blockStart, end - blockStart);
      if loud {
        var i := end;
        while i > blockStart
          invariant blockStart <= i <= end && Silent(view, i, end)
        {
          if Loud(view[i - 1]) {
            SilentTail(view, floor, i, end);
            return i;
          }
          i := i - 1;
        }
        assert false;
      }
      SilentTail(view, floor, blockStart, end);
      end := blockStart;
    }
    return floor;
  }

  /** Steps of a quarter of a 50 ms window, and the first window with a loud sample. */
  function LeadingFrom(audio: seq<real>, check: nat, window: nat, i: nat): (p: nat)
    requires check <= |audio|
    decreases check - i
    ensures i <= check ==> i <= p <= check
  {
    if i >= check then check
    else if !Silent(audio, i, i + Min(window, check - i)) then i
    else LeadingFrom(audio, check, window, i + Step(window))
  }

  function Min(a: nat, b: nat): (m: nat)
    ensures m <= a && m <= b && (m == a || m == b)
  {
    if a < b then a else b
  }

  function Step(window: nat): (s: nat)
    ensures 1 <= s && (window >= 1 ==> s <= window)
    ensures window < 4 * (s + 1) && (s > 1 ==> 4 * s <= window)
  {
    if window / 4 > 1 then window / 4 else 1
  }

  function LeadingEdge(audio: seq<real>, maxSamples: nat, rate: int): (p: nat)
    ensures p <= Min(|audio|, maxSamples)
  {
    LeadingFrom(audio, Min(|audio|, maxSamples), MsToSamples(50, rate), 0)
  }

  /** The scan looks at windows that start at multiples of the step, cut off at check. */
  predicate LoudWindow(audio: seq<real>, check: nat, window: nat, i: nat)
    requires i <= check <= |audio|
  {
    i % Step(window) == 0 && !Silent(audio, i, i + Min(window, check - i))
  }

  /** The first window with a loud sample starts at p; p is check where there is none. */
  ghost predicate FirstLoudWindow(audio: seq<real>, check: nat, window: nat, p: nat)
    requires check <= |audio|
  {
    && p <= check
    && (p < check ==> LoudWindow(audio, check, window, p))
    && forall j: nat {:trigger LoudWindow(audio, check, window, j)} :: j < p ==> !LoudWindow(audio, check, window, j)
  }

  /** No multiple of a step lies strictly between two consecutive ones. */
  lemma NextMultiple(i: nat, step: nat, j: nat)
    requires step >= 1 && i % step == 0
    ensures (i + step) % step == 0
    ensures i < j < i + step ==> j % step != 0
  {
    DivModDef(i, step);
    assert i + step == (i / step + 1) * step;
    DivUnique(i + step, step, i / step + 1, 0);
    if i < j < i + step { DivUnique(j, step, i / step, j - i); }
  }

  lemma {:induction false} LeadingIsFirst(audio: seq<real>, check: nat, window: nat, i: nat)
    requires check <= |audio| && i % Step(window) == 0
    requires forall j: nat {:trigger LoudWindow(audio, check, window, j)} ::
               j < i && j < check ==> !LoudWindow(audio, check, window, j)
    ensures FirstLoudWindow(audio, check, window, LeadingFrom(audio, check, window, i))
    decreases check - i
  {
    if i < check && Silent(audio, i, i + Min(window, check - i)) {
      var next := i + Step(window);
      NextMultiple(i, Step(window), i);
      forall j: nat {:trigger LoudWindow(audio, check, window, j)} | j < next && j < check
        ensures !LoudWindow(audio, check, window, j)
      {
        if i < j { NextMultiple(i, Step(window), j); }
      }
      LeadingIsFirst(audio, check, window, next);
    }
  }

  method ScanLeadingEdge(audio: seq<real>, maxSamples: nat, rate: int) returns (edge: nat)
    ensures edge == LeadingEdge(audio, maxSamples, rate)
    ensures FirstLoudWindow(audio, Min(|audio|, maxSamples), MsToSamples(50, rate), edge)
  {
    LeadingExactly(audio, maxSamples, rate);
    var check := Min(|audio|, maxSamples);
    if check == 0 { return 0; }
    var window := MsToSamples(50, rate);
    var step := Step(window);
    var i := 0;
    while i < check
      invariant LeadingFrom(audio, check, window, i) == LeadingEdge(audio, maxSamples, rate)
      decreases check - i
    {
      var loud := AnyAboveThreshold(audio, i, Min(window, check - i));
      if loud { return i; }
      i := i + step;
    }
    return check;
  }

  /** With a window of at least one sample, everything before the edge is silent. */
  lemma {:induction false} LeadingIsSilent(audio: seq<real>, check: nat, window: nat, i: nat)
    requires check <= |audio| && window >= 1 && i <= check + Step(window)
    requires Silent(audio, 0, Min(i, check))
    ensures LeadingFrom(audio, check, window, i) <= |audio| && Silent(audio, 0, LeadingFrom(audio, check, window, i))
    decreases check - i
  {
    if i < check && Silent(audio, i, i + Min(window, check - i)) {
      LeadingIsSilent(audio, check, window, i + Step(window));
    }
  }

  // ----- One chunk -----------------------------------------------------------------------

  function PauseMs(boundary: Boundary, config: Config, strong: int -> int): int {
    match boundary
    case Paragraph => config.paragraphPauseMs
    case Newline => Half(config.paragraphPauseMs)
    case Sentence => config.sentencePauseMs
    case ClauseStrong => strong(config.sentencePauseMs)
    case ClauseWeak => config.commaPauseMs
    case NoBoundary => 0
  }

  /** Samples that may be cut at the front. */
  function LeadBudget(chunk: Chunk, config: Config, rate: int): nat {
    if config.trimSilence && !chunk.isFirst then MsToSamples(config.maxSilenceTrimMs, rate) else 0
  }

  /** How much the trailing trim may cut, in ms: half as much before a boundary, but at
      least one millisecond even when the configured budget is zero or negative. */
  function TrailMs(chunk: Chunk, config: Config): int {
    if chunk.boundaryAfter.NoBoundary? then config.maxSilenceTrimMs
    else if Half(config.maxSilenceTrimMs) > 1 then Half(config.maxSilenceTrimMs) else 1
  }

  /** Samples that may be cut at the end. */
  function TrailBudget(chunk: Chunk, config: Config, rate: int): nat {
    if config.trimSilence then MsToSamples(TrailMs(chunk, config), rate) else 0
  }

  function PauseSamples(chunk: Chunk, config: Config, strong: int -> int, rate: int): nat {
    if chunk.isLast then 0 else MsToSamples(PauseMs(chunk.boundaryAfter, config, strong), rate)
  }

  function Zeros(n: nat): (z: seq<real>)
    ensures |z| == n && forall i {:trigger z[i]} :: 0 <= i < n ==> z[i] == 0.0
  {
    seq(n, i => 0.0)
  }

  /** The slice [start, end) of the input that is kept. */
  function Kept(audio: seq<real>, chunk: Chunk, config: Config, rate: int): (r: (nat, nat))
    ensures r.0 <= r.1 <= |audio|
  {
    var start := LeadingEdge(audio, LeadBudget(chunk, config, rate), rate);
    (start, start + TrailingEdge(audio[start..], TrailBudget(chunk, config, rate)))
  }

  /** Which part is kept, by the samples alone. The leading cut, none for the first
      chunk, ends at the first loud window. The trailing cut takes silence only, and all
      of it that the budget allows: half the configured time before a boundary, but at
      least a millisecond. */
  lemma KeptExactly(audio: seq<real>, chunk: Chunk, config: Config, rate: int)
    ensures var (start, end) := Kept(audio, chunk, config, rate);
            var ms := config.maxSilenceTrimMs;
            var lead := if config.trimSilence && !chunk.isFirst then MsToSamples(ms, rate) else 0;
            var trail := if !config.trimSilence then 0
                         else if chunk.boundaryAfter == NoBoundary then MsToSamples(ms, rate)
                         else MsToSamples(if ms < 4 then 1 else Half(ms), rate);
            && FirstLoudWindow(audio, Min(|audio|, lead), MsToSamples(50, rate), start)
            && Silent(audio, end, |audio|) && |audio| - end <= trail
            && (end > start && |audio| - end < trail ==> !(-0.01 <= audio[end - 1] <= 0.01))
  {
    var start := Kept(audio, chunk, config, rate).0;
    LeadingExactly(audio, LeadBudget(chunk, config, rate), rate);
    TrailingExactly(audio, start, TrailBudget(chunk, config, rate));
    hide LeadingEdge, TrailingEdge, FirstLoudWindow, MsToSamples;
  }

  lemma LeadingExactly(audio: seq<real>, budget: nat, rate: int)
    ensures FirstLoudWindow(audio, Min(|audio|, budget), MsToSamples(50, rate), LeadingEdge(audio, budget, rate))
  {
    hide FirstLoudWindow, MsToSamples;
    LeadingIsFirst(audio, Min(|audio|, budget), MsToSamples(50, rate), 0);
  }

  lemma TrailingExactly(audio: seq<real>, start: nat, budget: nat)
    requires start <= |audio|
    ensures var end := start + TrailingEdge(audio[start..], budget);
            && end <= |audio| && Silent(audio, end, |audio|) && |audio| - end <= budget
            && (end > start && |audio| - end < budget ==> !(-0.01 <= audio[end - 1] <= 0.01))
  {
    var view := audio[start..];
    var edge := TrailingEdge(view, budget);
    forall k {:trigger audio[k]} | start + edge <= k < |audio|
      ensures -0.01 <= audio[k] <= 0.01
    {
      assert view[k - start] == audio[k];
    }
    if edge > ScanFloor(|view|, budget) { assert view[edge - 1] == audio[start + edge - 1]; }
  }

  /** Which setting gives the pause behind a chunk: none behind the last, nor without a
      boundary. */
  lemma PauseExactly(chunk: Chunk, config: Config, strong: int -> int, rate: int)
    ensures var pause := PauseSamples(chunk, config, strong, rate);
            && (chunk.isLast || chunk.boundaryAfter == NoBoundary ==> pause == 0)
            && (!chunk.isLast ==> match chunk.boundaryAfter
                case Sentence => pause == MsToSamples(config.sentencePauseMs, rate)
                case Paragraph => pause == MsToSamples(config.paragraphPauseMs, rate)
                case Newline => pause == MsToSamples(Half(config.paragraphPauseMs), rate)
                case ClauseWeak => pause == MsToSamples(config.commaPauseMs, rate)
                case ClauseStrong => pause == MsToSamples(strong(config.sentencePauseMs), rate)
                case NoBoundary => true)
  {
    hide MsToSamples;
  }

  /** The kept slice followed by the boundary pause. Nothing louder than the threshold
      is dropped at the end, and no more than the budgets allow on either side. */
  method PostprocessChunk(audio: seq<real>, chunk: Chunk, config: Config, strong: int -> int, rate: int)
    returns (r: seq<real>)
    ensures audio == [] ==> r == []
    ensures audio != [] ==>
              && Kept(audio, chunk, config, rate).1 <= |audio|
              && r == audio[Kept(audio, chunk, config, rate).0..Kept(audio, chunk, config, rate).1]
                      + Zeros(PauseSamples(chunk, config, strong, rate))
  {
    hide LeadingEdge, TrailingEdge, MsToSamples, Half, PauseMs;
    if audio == [] {
      return [];
    }
    var start, end := 0, |audio|;
    NoBudget(audio, rate);
    if config.trimSilence {
      if !chunk.isFirst {
        var maxLead := MsToSamples(config.maxSilenceTrimMs, rate);
        start := ScanLeadingEdge(audio, maxLead, rate);
      }
      var trimMs := config.maxSilenceTrimMs;
      if !chunk.boundaryAfter.NoBoundary? {
        trimMs := if Half(trimMs) > 1 then Half(trimMs) else 1;
      }
      var maxTrail := MsToSamples(trimMs, rate);
      var edge := ScanTrailingEdge(audio, start, maxTrail);
      end := start + edge;
    }
    var pause := 0;
    var pauseMs := PauseMs(chunk.boundaryAfter, config, strong);
    if pauseMs > 0 && !chunk.isLast {
      pause := MsToSamples(pauseMs, rate);
    }
    NoPause(pauseMs, rate);
    r := CopySlice(audio, start, end, pause);
  }

  method CopySlice(audio: seq<real>, start: nat, end: nat, pause: nat) returns (r: seq<real>)
    requires start <= end <= |audio|
    ensures r == audio[start..end] + Zeros(pause)
  {
    var body := if end > start then end - start else 0;
    var result := new real[body + pause](i => 0.0);
    for k := 0 to body
      invariant forall i {:trigger result[i]} :: 0 <= i < result.Length ==>
                  result[i] == if i < k then audio[start + i] else 0.0
    {
      result[k] := audio[start + k];
    }
    r := result[..];
    assert r == audio[start..end] + Zeros(pause);
  }

  lemma NoPause(ms: int, rate: int)
    ensures ms <= 0 ==> MsToSamples(ms, rate) == 0
  {}

  lemma NoBudget(audio: seq<real>, rate: int)
    ensures LeadingEdge(audio, 0, rate) == 0
    ensures TrailingEdge(audio[0..], 0) == |audio|
  {}

  function TrimLeading(audio: seq<real>, maxMs: int, rate: int): seq<real> {
    audio[LeadingEdge(audio, MsToSamples(maxMs, rate), rate)..]
  }

  function TrimTrailing(audio: seq<real>, maxMs: int, rate: int): seq<real> {
    audio[..TrailingEdge(audio, MsToSamples(maxMs, rate))]
  }

  /** The fused trim is the leading trim, skipped for the first chunk, followed by the
      trailing trim of what is left, with half the milliseconds before a boundary. */
  lemma FusedIsChained(audio: seq<real>, chunk: Chunk, config: Config, rate: int)
    requires config.trimSilence
    ensures var (start, end) := Kept(audio, chunk, config, rate);
            var led := if chunk.isFirst then audio else TrimLeading(audio, config.maxSilenceTrimMs, rate);
            audio[start..end] == TrimTrailing(led, TrailMs(chunk, config), rate)
  {
    NoBudget(audio, rate);
    hide LeadingEdge, TrailingEdge, MsToSamples, TrailMs;
    var (start, end) := Kept(audio, chunk, config, rate);
    assert audio[start..][..end - start] == audio[start..end];
  }

  // ----- What is dropped --------------------------------------------------------------------

  /** Every sample that is cut is at or below the threshold. */
  predicate DropsOnlySilence(audio: seq<real>, chunk: Chunk, config: Config, rate: int) {
    var (start, end) := Kept(audio, chunk, config, rate);
    Silent(audio, 0, start) && Silent(audio, end, |audio|)
  }

  /** The cuts respect the budgets, whatever the rate. */
  lemma WithinBudgets(audio: seq<real>, chunk: Chunk, config: Config, rate: int)
    ensures Kept(audio, chunk, config, rate).0 <= LeadBudget(chunk, config, rate)
    ensures |audio| - Kept(audio, chunk, config, rate).1 <= TrailBudget(chunk, config, rate)
  {
    var start := Kept(audio, chunk, config, rate).0;
    var view, budget := audio[start..], TrailBudget(chunk, config, rate);
    assert TrailingEdge(view, budget) >= ScanFloor(|view|, budget);
  }

  /** Neither cut is longer than the configured budget. */
  predicate KeepsToBudget(audio: seq<real>, chunk: Chunk, config: Config, rate: int) {
    var (start, end) := Kept(audio, chunk, config, rate);
    && start <= MsToSamples(config.maxSilenceTrimMs, rate)
    && |audio| - end <= MsToSamples(config.maxSilenceTrimMs, rate)
  }

  /** The configured budget is kept for every input exactly when it is positive, or
      nothing is trimmed, or no boundary follows, or a millisecond is no sample: before
      a boundary at least one millisecond may go. */
  lemma BudgetKeptExactly(chunk: Chunk, config: Config, rate: int)
    ensures (forall audio: seq<real> :: KeepsToBudget(audio, chunk, config, rate))
       <==> config.maxSilenceTrimMs > 0 || !config.trimSilence || chunk.boundaryAfter.NoBoundary? || rate < 1000
  {
    if config.maxSilenceTrimMs > 0 || !config.trimSilence || chunk.boundaryAfter.NoBoundary? || rate < 1000 {
      TrailWithinBudget(chunk, config, rate);
      hide Kept;
      forall audio: seq<real>
        ensures KeepsToBudget(audio, chunk, config, rate)
      {
        WithinBudgets(audio, chunk, config, rate);
      }
    } else {
      assert TrailBudget(chunk, config, rate) >= 1;
      assert !Loud([0.0][0]);
      assert Kept([0.0], chunk, config, rate) == (0, 0);
      assert !KeepsToBudget([0.0], chunk, config, rate);
    }
  }

  lemma TrailWithinBudget(chunk: Chunk, config: Config, rate: int)
    requires config.maxSilenceTrimMs > 0 || !config.trimSilence || chunk.boundaryAfter.NoBoundary? || rate < 1000
    ensures TrailBudget(chunk, config, rate) <= MsToSamples(config.maxSilenceTrimMs, rate)
  {
    if config.maxSilenceTrimMs > 0 {
      MoreMs(TrailMs(chunk, config), config.maxSilenceTrimMs, rate);
    }
  }

  lemma MoreMs(a: int, b: int, rate: int)
    requires a <= b
    ensures MsToSamples(a, rate) <= MsToSamples(b, rate)
  {
    if a > 0 && rate > 0 { MulMono(a, b, rate); }
  }

  /** At usable rates only silence is dropped. */
  lemma DroppedIsSilent(audio: seq<real>, chunk: Chunk, config: Config, rate: int)
    requires rate >= 20 || rate <= 0
    ensures DropsOnlySilence(audio, chunk, config, rate)
  {
    var start := Kept(audio, chunk, config, rate).0;
    var lead := LeadBudget(chunk, config, rate);
    if rate >= 20 {
      WindowSize(rate);
      LeadingIsSilent(audio, Min(|audio|, lead), MsToSamples(50, rate), 0);
    }
    hide LeadingEdge, TrailingEdge, TrailBudget, LeadBudget;
    TrailingExactly(audio, start, TrailBudget(chunk, config, rate));
  }

  lemma WindowSize(rate: int)
    ensures MsToSamples(50, rate) >= 1 <==> rate >= 20
  {}

  /** Below 20 Hz the search window is empty, and the leading trim drops loud samples
      as readily as silent ones. */
  lemma LowRatesDropSound(rate: int)
    requires 0 < rate < 20
    ensures !DropsOnlySilence([1.0, 1.0], Chunk(NoBoundary, false, true), Config(true, 1000, 0, 0, 0), rate)
  {
    var audio, chunk, config := [1.0, 1.0], Chunk(NoBoundary, false, true), Config(true, 1000, 0, 0, 0);
    WindowSize(rate);
    var check := Min(|audio|, LeadBudget(chunk, config, rate));
    assert LeadBudget(chunk, config, rate) == rate;
    EmptyWindow(audio, check, 0);
    assert Kept(audio, chunk, config, rate).0 == check >= 1;
    assert Loud(audio[0]);
  }

  lemma {:induction false} EmptyWindow(audio: seq<real>, check: nat, i: nat)
    requires check <= |audio| && i <= check
    ensures LeadingFrom(audio, check, 0, i) == check
    decreases check - i
  {
    if i < check { EmptyWindow(audio, check, i + 1); }
  }

  /** Post-processing drops only silence, for every input, exactly at rates of at
      least 20 Hz (and at rates that are no rates at all). */
  lemma DropsOnlySilenceExactly(rate: int)
    ensures (forall audio: seq<real>, chunk: Chunk, config: Config :: DropsOnlySilence(audio, chunk, config, rate))
       <==> rate >= 20 || rate <= 0
  {
    if rate >= 20 || rate <= 0 {
      forall audio: seq<real>, chunk: Chunk, config: Config
        ensures DropsOnlySilence(audio, chunk, config, rate)
      {
        DroppedIsSilent(audio, chunk, config, rate);
      }
    } else {
      LowRatesDropSound(rate);
    }
  }

  // ----- Crossfade ------------------------------------------------------------------------------

  function Mixed(a: real, b: real, t: real): real {
    a * (1.0 - t) + b * t
  }

  lemma BlendIsMixed(n: nat, a: real, b: real, i: nat)
    requires n >= 2 && i < n
    ensures Mixed(a, b, i as real * (1.0 / (n - 1) as real)) == Blend(n, a, b, i)
  {}

  /** Sample i of an n-sample linear blend. */
  function Blend(n: nat, a: real, b: real, i: nat): real
    requires i < n
  {
    if n == 1 then b
    else
      Mixed(a, b, i as real * (1.0 / (n - 1) as real))
  }

  function Crossfaded(prev: seq<real>, next: seq<real>, n: nat): (r: seq<real>)
    requires n <= |prev| && n <= |next|
    ensures |r| == |prev| + |next| - n
  {
    seq(|prev| + |next| - n, k requires 0 <= k < |prev| + |next| - n =>
      if k < |prev| - n then prev[k]
      else if k < |prev| then Blend(n, prev[k], next[k - (|prev| - n)], k - (|prev| - n))
      else next[k - (|prev| - n)])
  }

  /** Writes the blend eight samples at a time with a running index vector, then one
      at a time. */
  method ApplyCrossfade(prev: seq<real>, next: seq<real>, crossfadeMs: int, rate: int) returns (r: seq<real>)
    ensures var n := MsToSamples(crossfadeMs, rate);
            r == if prev == [] then next else if next == [] then prev
                 else if n == 0 || |prev| < n || |next| < n then prev + next
                 else Crossfaded(prev, next, n)
  {
    if prev == [] { return next; }
    if next == [] { return prev; }
    var n := MsToSamples(crossfadeMs, rate);
    if n == 0 || |prev| < n || |next| < n {
      return prev + next;
    }
    var main := |prev| - n;
    var out := new real[n];
    if n == 1 {
      out[0] := next[0];
    } else {
      BlendRegion(prev[main..], next, out);
    }
    r := prev[..main] + out[..] + next[n..];
    assert r == Crossfaded(prev, next, n);
  }

  method BlendRegion(tail: seq<real>, head: seq<real>, out: array<real>)
    requires out.Length >= 2 && |tail| == out.Length <= |head|
    modifies out
    ensures forall k {:trigger out[k]} :: 0 <= k < out.Length ==> out[k] == Blend(out.Length, tail[k], head[k], k)
  {
    hide Blend;
    var n := out.Length;
    var inv := 1.0 / (n - 1) as real;
    forall k | 0 <= k < n
      ensures Mixed(tail[k], head[k], k as real * inv) == Blend(n, tail[k], head[k], k)
    {
      BlendIsMixed(n, tail[k], head[k], k);
    }
    hide Mixed;
    var i := 0;
    var vi := [0.0, 1.0, 2.0, 3.0, 4.0, 5.0, 6.0, 7.0];
    while i + 7 < n
      invariant i <= n && |vi| == 8 && forall k :: 0 <= k < 8 ==> vi[k] == (i + k) as real
      invariant forall k {:trigger out[k]} :: 0 <= k < i ==> out[k] == Blend(n, tail[k], head[k], k)
    {
      forall k | i <= k < i + 8 {
        out[k] := Mixed(tail[k], head[k], vi[k - i] * inv);
      }
      assert forall k :: 0 <= k < 8 ==> vi[k] + 8.0 == (i + 8 + k) as real;
      vi := seq(8, k requires 0 <= k < 8 => vi[k] + 8.0);
      i := i + 8;
    }
    while i < n
      invariant i <= n
      invariant forall k {:trigger out[k]} :: 0 <= k < i ==> out[k] == Blend(n, tail[k], head[k], k)
    {
      out[i] := Mixed(tail[i], head[i], i as real * inv);
      i := i + 1;
    }
  }

  /** The blend starts on the old chunk, ends on the new one, and never leaves the
      interval between them. */
  lemma BlendStaysBetween(n: nat, a: real, b: real, i: nat)
    requires i < n && n >= 2
    ensures Blend(n, a, b, 0) == a && Blend(n, a, b, n - 1) == b
    ensures a <= b ==> a <= Blend(n, a, b, i) <= b
    ensures b <= a ==> b <= Blend(n, a, b, i) <= a
    ensures i + 1 < n ==> (Blend(n, a, b, i + 1) - Blend(n, a, b, i)) * (n - 1) as real == b - a
  {
    if i + 1 < n { BlendSteps(n, a, b, i); }
    hide Blend;
    var inv := 1.0 / (n - 1) as real;
    FractionBounds(i, n - 1);
    FractionBounds(n - 1, n - 1);
    BlendIsMixed(n, a, b, 0);
    BlendIsMixed(n, a, b, n - 1);
    BlendIsMixed(n, a, b, i);
    hide Mixed;
    var first, last := 0 as real * inv, (n - 1) as real * inv;
    AtStart(a, b, first);
    AtEnd(a, b, last);
    Weighted(a, b, i as real * inv);
  }

  /** Every step of the blend is the same. */
  lemma BlendSteps(n: nat, a: real, b: real, i: nat)
    requires n >= 2 && i + 1 < n
    ensures (Blend(n, a, b, i + 1) - Blend(n, a, b, i)) * (n - 1) as real == b - a
  {
    var m := (n - 1) as real;
    var inv := 1.0 / m;
    var t, u := i as real * inv, (i + 1) as real * inv;
    BlendIsMixed(n, a, b, i);
    BlendIsMixed(n, a, b, i + 1);
    Shares(i as real, 1.0, inv);
    Towards(a, b, t);
    Towards(a, b, u);
    Shares(t, inv, b - a);
    Whole(m);
    StepBack(b - a, inv, m);
    hide Blend;
  }

  lemma StepBack(d: real, inv: real, m: real)
    requires m * inv == 1.0
    ensures (d * inv) * m == d
  {}

  lemma AtStart(a: real, b: real, t: real)
    requires t == 0.0
    ensures Mixed(a, b, t) == a
  {}

  lemma AtEnd(a: real, b: real, t: real)
    requires t == 1.0
    ensures Mixed(a, b, t) == b
  {}

  lemma FractionBounds(i: nat, m: nat)
    requires i <= m && m > 0
    ensures 0.0 <= i as real * (1.0 / m as real) <= 1.0
    ensures m as real * (1.0 / m as real) == 1.0
  {
    var inv := 1.0 / m as real;
    ProductSign(i as real, inv);
    ProductSign((m - i) as real, inv);
    Shares(i as real, (m - i) as real, inv);
    Whole(m as real);
  }

  lemma Shares(a: real, b: real, inv: real)
    ensures a * inv + b * inv == (a + b) * inv
  {}

  lemma Whole(m: real)
    requires m > 0.0
    ensures m * (1.0 / m) == 1.0
  {}

  lemma Weighted(a: real, b: real, t: real)
    requires 0.0 <= t <= 1.0
    ensures a <= b ==> a <= Mixed(a, b, t) <= b
    ensures b <= a ==> b <= Mixed(a, b, t) <= a
  {
    Towards(a, b, t);
    if a <= b {
      ProductSign(b - a, t);
      ProductSign(b - a, 1.0 - t);
    } else {
      ProductSign(a - b, t);
      ProductSign(a - b, 1.0 - t);
    }
  }

  lemma Towards(a: real, b: real, t: real)
    ensures a * (1.0 - t) + b * t == a + (b - a) * t
    ensures a * (1.0 - t) + b * t == b - (b - a) * (1.0 - t)
    ensures (b - a) * t == -((a - b) * t)
    ensures (b - a) * (1.0 - t) == -((a - b) * (1.0 - t))
  {}

  lemma ProductSign(x: real, y: real)
    requires x >= 0.0 && y >= 0.0
    ensures x * y >= 0.0
  {}
}
