/** How much a connection may have to write, and when it is closed. */
module Backpressure {
  import opened Wrappers
  import opened RequestContext
  import opened StreamProtocol
  import opened StreamInvariant
  import opened StreamDelivery

  /** No single piece that is put into the buffer of request r is longer than `unit`. */
  ghost predicate PiecesWithin(env: Env, q: Request, unit: nat) {
    && |StreamHead(env)| <= unit && (forall fault :: |ErrorResponse(env, fault)| <= unit) && 5 <= unit
    && (q.format.Wav? ==> |WavResponse(env, Samples(q.pushed))| <= unit)
    && forall i {:trigger q.pushed[i]} :: 0 <= i < |q.pushed| ==> |ChunkBytes(q.format, q.pushed[i])| <= unit
  }

  /** The write buffer never holds more than the high-water mark of 256 KiB and one
      piece. */
  ghost predicate Bounded(c: Connection, unit: nat) {
    |c.buffer| <= 262144 + unit
  }

  lemma StepBounded(env: Env, s: System, e: Event, r: nat, q: Request, unit: nat)
    requires Inv(env, s) && Enabled(s, e) && r < |s.requests|
    requires PiecesWithin(env, q, unit) && q.format == s.requests[r].format
    requires s.requests[r].pushed <= q.pushed && (Terminal(s.requests[r].life) ==> s.requests[r].pushed == q.pushed)
    requires r < |s.connections| && Bounded(s.connections[r], unit)
    ensures r < |Apply(env, s, e).connections| && Bounded(Apply(env, s, e).connections[r], unit)
  {
    assert |s.requests| == |s.connections| && LocalAt(env, s, r);
    hide LocalAt, Inv, PiecesWithin, LoopApply, WorkerApply, LoopEnabled, WorkerEnabled, Bounded;
    if WorkerEnabled(s, e) {
      ConnectionsKept(s, e);
    } else if e.Submit? || Touched(s, e) != r {
      ConnectionUntouched(env, s, e, r);
    } else {
      TouchedBounded(env, s, e, r, q, unit);
    }
  }

  lemma ConnectionsKept(s: System, e: Event)
    requires WorkerEnabled(s, e)
    ensures WorkerApply(s, e).connections == s.connections
  {}

  lemma ConnectionUntouched(env: Env, s: System, e: Event, r: nat)
    requires LoopEnabled(s, e) && r < |s.connections| && (e.Submit? || Touched(s, e) != r)
    ensures r < |LoopApply(env, s, e).connections| && LoopApply(env, s, e).connections[r] == s.connections[r]
  {
    hide Put, EndBytes, ChunkBytes, ErrorResponse, StreamHead;
  }

  lemma TouchedBounded(env: Env, s: System, e: Event, r: nat, q: Request, unit: nat)
    requires |s.requests| == |s.connections| && LoopEnabled(s, e) && !e.Submit? && Touched(s, e) == r < |s.requests|
    requires LocalAt(env, s, r) && PiecesWithin(env, q, unit) && q.format == s.requests[r].format
    requires s.requests[r].pushed <= q.pushed && (Terminal(s.requests[r].life) ==> s.requests[r].pushed == q.pushed)
    requires Bounded(s.connections[r], unit)
    ensures r < |LoopApply(env, s, e).connections| && Bounded(LoopApply(env, s, e).connections[r], unit)
  {
    var p, c := s.requests[r], s.connections[r];
    if p.output != [] {
      assert p.pushed[|c.popped|] == p.output[0];
      assert q.pushed[|c.popped|] == p.pushed[|c.popped|];
    }
    if s.loop.Deciding? && Terminal(s.loop.seen) && c.buffer == "" {
      assert c.popped + [] == c.popped;
      EndWithin(env, q, s.loop.seen, unit);
    }
    hide BytesOk, PointOk, Placed, EndBytes, ChunkBytes, ErrorResponse, StreamHead;
  }

  lemma EndWithin(env: Env, q: Request, seen: Life, unit: nat)
    requires PiecesWithin(env, q, unit)
    ensures |EndBytes(env, q.format, seen, q.pushed)| <= unit
  {
    hide WavResponse, ErrorResponse, StreamHead, ChunkBytes;
  }

  /** In every run: back-pressure keeps the buffer of each connection within the mark and
      one more piece. */
  lemma {:induction false} BufferBounded(env: Env, es: seq<Event>, s: System, r: nat, q: Request, unit: nat)
    requires Run(env, es) == Some(s) && r < |s.requests|
    requires PiecesWithin(env, q, unit) && q.format == s.requests[r].format
    requires s.requests[r].pushed <= q.pushed && (Terminal(s.requests[r].life) ==> s.requests[r].pushed == q.pushed)
    ensures r < |s.connections| && Bounded(s.connections[r], unit)
    decreases |es|
  {
    hide Apply, PiecesWithin, Inv;
    EveryRun(env, es);
    Paired(env, s);
    if es == [] {
      assert false;
    } else {
      var before, e := es[..|es| - 1], es[|es| - 1];
      var t := Run(env, before).value;
      EveryRun(env, before);
      Paired(env, t);
      if r < |t.requests| {
        LifeOnlyAdvances(env, t, e, r);
        BufferBounded(env, before, t, r, q, unit);
        StepBounded(env, t, e, r, q, unit);
      } else {
        NewIsEmpty(env, t, e, r);
      }
    }
  }

  lemma Paired(env: Env, s: System)
    requires Inv(env, s)
    ensures |s.requests| == |s.connections|
  {}

  lemma NewIsEmpty(env: Env, s: System, e: Event, r: nat)
    requires Inv(env, s) && Enabled(s, e) && |s.requests| <= r < |Apply(env, s, e).requests|
    ensures r < |Apply(env, s, e).connections| && Apply(env, s, e).connections[r].buffer == ""
  {
    hide Put, EndBytes, ChunkBytes, ErrorResponse, StreamHead, LocalAt;
  }

  // ----- Closing ---------------------------------------------------------------------------

  /** A response that is being finished has bytes left to write. */
  predicate WritingHasBytes(s: System, r: nat)
    requires r < |s.connections|
  {
    s.connections[r].phase.Writing? ==> s.connections[r].buffer != ""
  }

  lemma StepWriting(env: Env, s: System, e: Event, r: nat)
    requires Inv(env, s) && Enabled(s, e) && r < |s.connections| && WritingHasBytes(s, r)
    ensures r < |Apply(env, s, e).connections| && WritingHasBytes(Apply(env, s, e), r)
  {
    hide Inv, LoopApply, WorkerApply, LoopEnabled, WorkerEnabled;
    if WorkerEnabled(s, e) {
      ConnectionsKept(s, e);
    } else if e.Submit? || Touched(s, e) != r {
      ConnectionUntouched(env, s, e, r);
    } else {
      TouchedWriting(env, s, e, r);
    }
  }

  lemma TouchedWriting(env: Env, s: System, e: Event, r: nat)
    requires LoopEnabled(s, e) && !e.Submit? && Touched(s, e) == r < |s.connections| && WritingHasBytes(s, r)
    ensures r < |LoopApply(env, s, e).connections| && WritingHasBytes(LoopApply(env, s, e), r)
  {
    if s.loop.Deciding? { SomethingToEnd(env, s.requests[r].format, s.loop.seen, s.connections[r].popped); }
    if e.Attached? { assert ErrorResponse(env, NotStarted)[0] == 'H'; }
    hide EndBytes, ChunkBytes, ErrorResponse, StreamHead;
  }

  lemma SomethingToEnd(env: Env, format: Format, seen: Life, popped: seq<AudioChunk>)
    ensures EndBytes(env, format, seen, popped) != ""
  {
    hide Samples;
    hide WavFiles.WavFile, WavFiles.Fits;
  }

  /** In every run: a response is closed as soon as its last byte is written, so that an
      ended response with nothing left to write is closed, and has been sent whole unless
      the connection broke. */
  lemma {:induction false} ClosedWhenSent(env: Env, es: seq<Event>, s: System, r: nat)
    requires Run(env, es) == Some(s) && r < |s.connections|
    ensures s.connections[r].phase == Writing ==> s.connections[r].buffer != ""
    decreases |es|
  {
    hide Apply, Inv;
    if es == [] {
      assert false;
    } else {
      var before, e := es[..|es| - 1], es[|es| - 1];
      var t := Run(env, before).value;
      EveryRun(env, before);
      EveryRun(env, es);
      Paired(env, t);
      Paired(env, s);
      if r < |t.connections| {
        ClosedWhenSent(env, before, t, r);
        StepWriting(env, t, e, r);
      } else {
        NewIsAttaching(env, t, e, r);
      }
    }
  }

  lemma NewIsAttaching(env: Env, s: System, e: Event, r: nat)
    requires Inv(env, s) && Enabled(s, e) && |s.requests| <= r < |Apply(env, s, e).requests|
    ensures r < |Apply(env, s, e).connections| && Apply(env, s, e).connections[r].phase.Attaching?
  {
    hide Put, EndBytes, ChunkBytes, ErrorResponse, StreamHead, LocalAt;
  }
}
