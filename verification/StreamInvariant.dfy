/** What holds in every reachable state of the streaming protocol. */
module StreamInvariant {
  import opened Wrappers
  import opened RequestContext
  import opened ChunkedCoding
  import opened StreamProtocol

  /** Everything streamed for these chunks, before the terminal chunk. */
  function StreamOf(env: Env, format: Format, chunks: seq<AudioChunk>): string {
    if format.Wav? then "" else StreamHead(env) + Encoded(Bodies(chunks))
  }

  function HandOf(s: System, r: nat): Option<Point> {
    if s.worker.Hand? && s.worker.r == r then Some(s.worker.at) else None
  }

  function LoopOf(s: System, r: nat): Loop {
    if !s.loop.Polling? && s.loop.r == r then s.loop else Polling
  }

  // ----- Per request ------------------------------------------------------------------

  /** An unfinished request is in exactly one place, a finished one in none. */
  ghost predicate Placed(q: Request, queued: bool, hand: Option<Point>) {
    && !(queued && hand.Some?)
    && ((queued || hand.Some?) <==> !Terminal(q.life))
  }

  /** What the worker already knows about the request in its hand. */
  ghost predicate PointOk(q: Request, at: Point) {
    match at
    case CheckCancelled => true
    case LoadLife => true
    case StoreFailed => true
    case StoreCancelled => q.cancelled
    case Prepare => q.life.Preparing?
    case CheckPrepared => q.life.Preparing?
    case StoreInferring => q.life.Preparing?
    case CheckRoom => q.life.Inferring?
    case Requeue => q.life.Inferring?
    case StoreDone => q.life.Inferring?
    case CheckInfer => q.life.Inferring? && HasRoom(q)
    case Infer => q.life.Inferring? && HasRoom(q)
    case Push(_, _) => q.life.Inferring? && HasRoom(q)
  }

  /** The queue is bounded, and is what was pushed and not yet popped. */
  ghost predicate QueueOk(q: Request, c: Connection) {
    && |q.output| <= MAX_PENDING
    && q.pushed == c.popped + q.output
    && (q.life.Cancelled? ==> q.cancelled)
  }

  /** What the event loop already knows about the connection it is draining. */
  ghost predicate LoopOk(q: Request, c: Connection, at: Loop) {
    match at
    case Polling => !c.phase.Attaching?
    case Attach(_) => c == Connection(Attaching, "", "", "", [], None)
    case LoadCancelled(_) => c.phase.Streaming?
    case LoadState(_) => c.phase.Streaming?
    case Popping(_, seen) => c.phase.Streaming? && (Terminal(seen) ==> q.life == seen)
    case Deciding(_, seen) =>
      && c.phase.Streaming? && (Terminal(seen) ==> q.life == seen)
      && (Terminal(seen) && c.buffer == "" ==> q.output == [])
  }

  /** The bytes a connection has been given, and where they are. */
  ghost predicate BytesOk(env: Env, q: Request, c: Connection) {
    && c.sent <= c.put
    && (!c.phase.Closed? ==> c.put == c.sent + c.buffer)
    && (c.phase.Attaching? || c.phase.Streaming? ==> !q.cancelled && c.ended.None?)
    && (c.phase.Streaming? ==> c.put == StreamOf(env, q.format, c.popped))
    && (c.phase.Writing? && c.ended.None? ==> c.put == ErrorResponse(env, NotStarted))
    && (c.phase.Closed? && c.ended.None? ==>
          c.put == ErrorResponse(env, NotStarted) || c.put <= StreamOf(env, q.format, q.pushed))
    && (c.ended.Some? ==>
          && Terminal(c.ended.value) && q.life == c.ended.value && q.output == []
          && c.put == StreamOf(env, q.format, c.popped) + EndBytes(env, q.format, c.ended.value, c.popped))
  }

  ghost predicate Local(env: Env, q: Request, c: Connection, queued: bool, hand: Option<Point>, at: Loop) {
    && Placed(q, queued, hand)
    && (hand.Some? ==> PointOk(q, hand.value))
    && QueueOk(q, c)
    && LoopOk(q, c, at)
    && BytesOk(env, q, c)
  }

  ghost predicate LocalAt(env: Env, s: System, r: nat)
    requires r < |s.requests| && r < |s.connections|
  {
    Local(env, s.requests[r], s.connections[r], r in s.queue, HandOf(s, r), LoopOf(s, r))
  }

  ghost predicate Distinct(q: seq<nat>) {
    forall i, j {:trigger q[i], q[j]} :: 0 <= i < j < |q| ==> q[i] != q[j]
  }

  ghost predicate Inv(env: Env, s: System) {
    && |s.requests| == |s.connections|
    && Distinct(s.queue)
    && (forall r {:trigger r in s.queue} :: r in s.queue ==> r < |s.requests|)
    && (s.worker.Hand? ==> s.worker.r < |s.requests|)
    && (!s.loop.Polling? ==> s.loop.r < |s.requests|)
    && forall r: nat {:trigger LocalAt(env, s, r)} :: r < |s.requests| ==> LocalAt(env, s, r)
  }

  // ----- Queue surgery -------------------------------------------------------------------

  lemma TakeFirst(q: seq<nat>)
    requires Distinct(q) && q != []
    ensures Distinct(q[1..])
    ensures forall r {:trigger r in q[1..]} :: r in q[1..] <==> r in q && r != q[0]
  {
    forall i, j | 0 <= i < j < |q| - 1
      ensures q[1..][i] != q[1..][j]
    {
      assert q[i + 1] != q[j + 1];
    }
    forall r | r in q && r != q[0]
      ensures r in q[1..]
    {
      var i :| 0 <= i < |q| && q[i] == r;
      assert q[1..][i - 1] == r;
    }
    forall r | r in q[1..]
      ensures r in q && r != q[0]
    {
      var i :| 0 <= i < |q| - 1 && q[1..][i] == r;
      assert q[i + 1] == r;
    }
  }

  lemma AppendLast(q: seq<nat>, r: nat)
    requires Distinct(q) && r !in q
    ensures Distinct(q + [r])
    ensures forall x {:trigger x in q + [r]} :: x in q + [r] <==> x in q || x == r
  {
    forall i, j | 0 <= i < j < |q| + 1
      ensures (q + [r])[i] != (q + [r])[j]
    {
      assert (q + [r])[i] == q[i];
      assert j < |q| ==> (q + [r])[j] == q[j];
    }
  }

  // ----- Worker ----------------------------------------------------------------------------

  lemma TakeKeeps(env: Env, s: System)
    requires Inv(env, s) && WorkerEnabled(s, Take)
    ensures Inv(env, WorkerApply(s, Take))
  {
    var t := WorkerApply(s, Take);
    TakeFirst(s.queue);
    assert s.queue[0] in s.queue;
    forall r: nat | r < |t.requests|
      ensures LocalAt(env, t, r)
    {
      assert LocalAt(env, s, r);
    }
  }

  lemma ChoiceKeeps(env: Env, s: System, e: Event)
    requires Inv(env, s) && WorkerEnabled(s, e) && (e.Prepared? || e.Inferred?)
    ensures Inv(env, WorkerApply(s, e))
  {
    hide BytesOk, QueueOk;
    var t := WorkerApply(s, e);
    forall r: nat | r < |t.requests|
      ensures LocalAt(env, t, r)
    {
      assert LocalAt(env, s, r);
    }
  }

  /** Storing a life, or pushing a chunk, in the request the worker holds. */
  lemma WorkerLocal(env: Env, s: System)
    requires Inv(env, s) && WorkerEnabled(s, WorkerStep)
    ensures var t, r := WorkerApply(s, WorkerStep), s.worker.r;
            |t.requests| == |s.requests| && t.connections == s.connections && t.loop == s.loop
    ensures var t, r := WorkerApply(s, WorkerStep), s.worker.r;
            Local(env, t.requests[r], t.connections[r], r in t.queue, HandOf(t, r), LoopOf(t, r))
  {
    hide Encoded, Bodies, EndBytes, ErrorResponse, StreamHead;
    var r := s.worker.r;
    assert LocalAt(env, s, r);
    var q, c := s.requests[r], s.connections[r];
    if s.worker.at.Push? {
      MorePushed(env, q, c, s.worker.at.chunk);
    }
  }

  lemma MorePushed(env: Env, q: Request, c: Connection, chunk: AudioChunk)
    requires QueueOk(q, c) && BytesOk(env, q, c) && !Terminal(q.life) && HasRoom(q)
    ensures QueueOk(Pushed(q, chunk), c) && BytesOk(env, Pushed(q, chunk), c)
  {
    hide Encoded, Bodies, EndBytes, ErrorResponse, StreamHead;
    assert c.popped + (q.output + [chunk]) == (c.popped + q.output) + [chunk];
    StreamGrows(env, q.format, q.pushed, chunk);
  }

  lemma {:induction false} EncodedConcat(a: seq<string>, b: seq<string>)
    ensures Encoded(a + b) == Encoded(a) + Encoded(b)
  {
    if a == [] {
      assert a + b == b;
    } else {
      assert (a + b)[1..] == a[1..] + b;
      EncodedConcat(a[1..], b);
    }
  }

  /** One more chunk adds its HTTP chunk, if it has any bytes. */
  lemma StreamGrows(env: Env, format: Format, chunks: seq<AudioChunk>, chunk: AudioChunk)
    ensures StreamOf(env, format, chunks + [chunk]) == StreamOf(env, format, chunks) + ChunkBytes(format, chunk)
  {
    hide Chunk, PcmBytes;
    var bytes := PcmBytes(chunk.samples);
    assert (chunks + [chunk])[..|chunks|] == chunks;
    var last := if bytes == "" then [] else [bytes];
    EncodedConcat(Bodies(chunks), last);
    assert bytes != "" ==> [bytes][1..] == [];
  }

  /** A step of the worker concerns the request in its hand only. */
  lemma WorkerFrame(s: System)
    requires WorkerEnabled(s, WorkerStep)
    ensures var t, r := WorkerApply(s, WorkerStep), s.worker.r;
            && t.queue == (if s.worker.at.Requeue? then s.queue + [r] else s.queue)
            && (t.worker.Idle? || (t.worker.Hand? && t.worker.r == r))
            && t.loop == s.loop && t.connections == s.connections
            && r < |t.requests| && t.requests == s.requests[r := t.requests[r]]
  {}

  lemma WorkerStepKeeps(env: Env, s: System)
    requires Inv(env, s) && WorkerEnabled(s, WorkerStep)
    ensures Inv(env, WorkerApply(s, WorkerStep))
  {
    WorkerLocal(env, s);
    var t := WorkerApply(s, WorkerStep);
    var r0 := s.worker.r;
    assert LocalAt(env, s, r0);
    if s.worker.at.Requeue? { AppendLast(s.queue, r0); }
    WorkerFrame(s);
    hide Local, WorkerApply;
    forall r: nat | r < |t.requests|
      ensures LocalAt(env, t, r)
    {
      assert LocalAt(env, s, r);
    }
  }

  // ----- Event loop --------------------------------------------------------------------------

  lemma SubmitKeeps(env: Env, s: System, format: Format)
    requires Inv(env, s) && LoopEnabled(s, Submit(format))
    ensures Inv(env, LoopApply(env, s, Submit(format)))
  {
    hide StreamOf, EndBytes, ErrorResponse;
    var t := LoopApply(env, s, Submit(format));
    var n := |s.requests|;
    AppendLast(s.queue, n);
    forall r: nat | r < |t.requests|
      ensures LocalAt(env, t, r)
    {
      if r < n { assert LocalAt(env, s, r); }
    }
  }

  /** The connection and request an event-loop step works on. */
  function Touched(s: System, e: Event): nat
    requires LoopEnabled(s, e) && !e.Submit?
  {
    if e.BeginDrain? || e.Write? || e.WriteFails? || e.Disconnect? then e.r else s.loop.r
  }

  lemma AttachLocal(env: Env, s: System, ok: bool)
    requires Inv(env, s) && LoopEnabled(s, Attached(ok))
    ensures LocalAfter(env, s, Attached(ok))
  {
    hide EndBytes, Encoded, ErrorResponse;
    var r := s.loop.r;
    assert LocalAt(env, s, r);
    var q, c := s.requests[r], s.connections[r];
    assert q.pushed == [] + q.output;
    assert Encoded(Bodies([])) == "" by { EmptyStream(); }
    assert StreamHead(env) + "" == StreamHead(env);
  }

  lemma EmptyStream()
    ensures Encoded(Bodies([])) == ""
  {}

  /** The touched request after a step. */
  ghost predicate LocalAfter(env: Env, s: System, e: Event)
    requires |s.requests| == |s.connections| && LoopEnabled(s, e) && !e.Submit? && Touched(s, e) < |s.requests|
  {
    var t, r := LoopApply(env, s, e), Touched(s, e);
    Local(env, t.requests[r], t.connections[r], r in t.queue, HandOf(t, r), LoopOf(t, r))
  }

  lemma SocketLocal(env: Env, s: System, e: Event)
    requires Inv(env, s) && LoopEnabled(s, e) && (e.Write? || e.WriteFails? || e.Disconnect? || e.BeginDrain?)
    ensures LocalAfter(env, s, e)
  {
    hide StreamOf, EndBytes, ErrorResponse;
    var r := Touched(s, e);
    assert LocalAt(env, s, r);
    var c := s.connections[r];
    PoppedPart(env, s.requests[r], c);
    if e.Write? {
      assert c.sent + c.buffer == (c.sent + c.buffer[..e.n]) + c.buffer[e.n..];
    }
  }

  /** What has been streamed is part of what will be. */
  lemma PoppedPart(env: Env, q: Request, c: Connection)
    requires QueueOk(q, c)
    ensures StreamOf(env, q.format, c.popped) <= StreamOf(env, q.format, q.pushed)
  {
    hide StreamOf;
    StreamPrefix(env, q.format, c.popped, q.output);
  }

  lemma {:induction false} StreamPrefix(env: Env, format: Format, a: seq<AudioChunk>, b: seq<AudioChunk>)
    ensures StreamOf(env, format, a) <= StreamOf(env, format, a + b)
    decreases |b|
  {
    hide StreamOf, ChunkBytes;
    if b == [] {
      assert a + b == a;
    } else {
      assert a + b == (a + [b[0]]) + b[1..];
      StreamGrows(env, format, a, b[0]);
      StreamPrefix(env, format, a + [b[0]], b[1..]);
    }
  }

  lemma DrainLocal(env: Env, s: System)
    requires Inv(env, s) && LoopEnabled(s, LoopStep)
    ensures LocalAfter(env, s, LoopStep)
  {
    assert LocalAt(env, s, s.loop.r);
    if s.loop.Popping? {
      PopLocal(env, s);
    } else {
      LookLocal(env, s);
    }
  }

  lemma PopLocal(env: Env, s: System)
    requires |s.requests| == |s.connections| && LoopEnabled(s, LoopStep) && s.loop.Popping?
    requires LocalAt(env, s, s.loop.r)
    ensures LocalAfter(env, s, LoopStep)
  {
    hide StreamOf, EndBytes, ChunkBytes, ErrorResponse;
    var q, c := s.requests[s.loop.r], s.connections[s.loop.r];
    if q.output != [] {
      StreamGrows(env, q.format, c.popped, q.output[0]);
      assert c.popped + q.output == (c.popped + [q.output[0]]) + q.output[1..];
    }
  }

  lemma LookLocal(env: Env, s: System)
    requires |s.requests| == |s.connections| && LoopEnabled(s, LoopStep) && !s.loop.Popping?
    requires LocalAt(env, s, s.loop.r)
    ensures LocalAfter(env, s, LoopStep)
  {
    hide StreamOf, EndBytes, ChunkBytes, ErrorResponse, Placed, PointOk;
    PoppedPart(env, s.requests[s.loop.r], s.connections[s.loop.r]);
  }

  lemma EncoderLocal(env: Env, s: System)
    requires Inv(env, s) && LoopEnabled(s, EncoderFails)
    ensures LocalAfter(env, s, EncoderFails)
  {
    hide StreamOf, EndBytes, ChunkBytes, ErrorResponse;
    var r := s.loop.r;
    assert LocalAt(env, s, r);
    var q, c := s.requests[r], s.connections[r];
    PoppedPart(env, q, c);
    assert c.popped + q.output == (c.popped + [q.output[0]]) + q.output[1..];
  }

  lemma LoopKeeps(env: Env, s: System, e: Event)
    requires Inv(env, s) && LoopEnabled(s, e)
    ensures Inv(env, LoopApply(env, s, e))
  {
    if e.Submit? {
      SubmitKeeps(env, s, e.format);
    } else {
      var r0 := Touched(s, e);
      if e.Attached? { AttachLocal(env, s, e.ok); }
      else if e.LoopStep? { DrainLocal(env, s); }
      else if e.EncoderFails? { EncoderLocal(env, s); }
      else { SocketLocal(env, s, e); }
      OthersUntouched(env, s, e);
    }
  }

  /** A step of the event loop concerns one request and its connection only. */
  lemma LoopFrame(env: Env, s: System, e: Event)
    requires LoopEnabled(s, e) && !e.Submit? && Touched(s, e) < |s.requests| == |s.connections|
    ensures var t, r := LoopApply(env, s, e), Touched(s, e);
            && |t.requests| == |s.requests| && t.requests == s.requests[r := t.requests[r]]
            && |t.connections| == |s.connections| && t.connections == s.connections[r := t.connections[r]]
            && t.queue == s.queue && t.worker == s.worker
            && (s.loop.Polling? || s.loop.r == r) && (t.loop.Polling? || t.loop.r == r)
  {
    hide Put, EndBytes, ChunkBytes, ErrorResponse, StreamHead;
  }

  lemma OthersUntouched(env: Env, s: System, e: Event)
    requires Inv(env, s) && LoopEnabled(s, e) && !e.Submit? && LocalAfter(env, s, e)
    ensures Inv(env, LoopApply(env, s, e))
  {
    LoopFrame(env, s, e);
    hide Local, LoopApply, LoopEnabled;
    var t := LoopApply(env, s, e);
    forall r: nat | r < |t.requests|
      ensures LocalAt(env, t, r)
    {
      assert LocalAt(env, s, r);
    }
  }

  // ----- Every run --------------------------------------------------------------------------

  /** The invariant holds after every sequence of events, however the two threads
      interleave. */
  lemma {:induction false} EveryRun(env: Env, es: seq<Event>)
    ensures Run(env, es).Some? ==> Inv(env, Run(env, es).value)
    decreases |es|
  {
    hide Inv;
    if es == [] {
      StartOk(env);
    } else {
      EveryRun(env, es[..|es| - 1]);
      match Run(env, es[..|es| - 1])
      case None =>
      case Some(s) =>
        var e := es[|es| - 1];
        if Enabled(s, e) { StepKeeps(env, s, e); }
    }
  }

  lemma StartOk(env: Env)
    ensures Inv(env, START)
  {}

  lemma StepKeeps(env: Env, s: System, e: Event)
    requires Inv(env, s) && Enabled(s, e)
    ensures Inv(env, Apply(env, s, e))
  {
    hide Inv;
    match e
    case Take => TakeKeeps(env, s);
    case WorkerStep => WorkerStepKeeps(env, s);
    case Prepared(_) => ChoiceKeeps(env, s, e);
    case Inferred(_) => ChoiceKeeps(env, s, e);
    case _ => LoopKeeps(env, s, e);
  }
}
