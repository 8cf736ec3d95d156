/** What a client of a streaming request receives. */
module StreamDelivery {
  import opened Wrappers
  import opened ByteCodec
  import opened HttpMessage
  import opened HttpParsing
  import opened RequestContext
  import opened ChunkedCoding
  import opened StreamProtocol
  import opened StreamInvariant
  import WavFiles = Wav

  /** A reachable state, with what the invariant says about request r. */
  lemma Reached(env: Env, es: seq<Event>, s: System, r: nat)
    requires Run(env, es) == Some(s) && r < |s.requests|
    ensures Inv(env, s) && r < |s.connections| && LocalAt(env, s, r)
  {
    EveryRun(env, es);
  }

  /** A finished PCM stream was given the head, one HTTP chunk for every chunk the
      worker pushed, in order, and exactly one terminal chunk; while the connection is
      open, what was sent and what is buffered is all of it. */
  ghost predicate WholeStream(env: Env, q: Request, c: Connection) {
    q.format.Pcm? && c.ended.Some? ==>
      && c.put == StreamHead(env) + Encoded(Bodies(q.pushed)) + LAST_CHUNK
      && (!c.phase.Closed? ==> c.sent + c.buffer == c.put)
  }

  /** However the threads interleave. */
  lemma FinishedStream(env: Env, es: seq<Event>, s: System, r: nat)
    requires Run(env, es) == Some(s) && r < |s.requests|
    ensures r < |s.connections| && WholeStream(env, s.requests[r], s.connections[r])
  {
    hide Encoded, Bodies;
    Reached(env, es, s, r);
    var q, c := s.requests[r], s.connections[r];
    if c.ended.Some? {
      assert c.popped + [] == c.popped;
    }
  }

  /** A PCM client has received the beginning of that stream, or of the error response
      when the encoder did not start, and nothing else. */
  ghost predicate StreamPrefixOnly(env: Env, q: Request, c: Connection) {
    q.format.Pcm? ==>
      || c.sent <= ErrorResponse(env, NotStarted)
      || c.sent <= StreamHead(env) + Encoded(Bodies(q.pushed)) + LAST_CHUNK
  }

  /** Whatever happens. */
  lemma OnlyTheStream(env: Env, es: seq<Event>, s: System, r: nat)
    requires Run(env, es) == Some(s) && r < |s.requests|
    ensures r < |s.connections| && StreamPrefixOnly(env, s.requests[r], s.connections[r])
  {
    hide Encoded, Bodies;
    Reached(env, es, s, r);
    var q, c := s.requests[r], s.connections[r];
    PoppedPart(env, q, c);
    if c.ended.Some? { assert c.popped + [] == c.popped; }
  }

  /** The file of these samples, field by field. */
  ghost predicate IsFile(env: Env, file: Bytes, samples: seq<Float32>) {
    env.rate >= 0 && WavFiles.Describes(file, env.rate, WavFiles.Converted(env.value, samples))
  }

  lemma WholeFile(env: Env, samples: seq<Float32>)
    ensures WavFiles.Fits(env.rate, |samples|) ==> IsFile(env, WavFiles.WavFile(env.value, env.rate, samples), samples)
  {
    hide WavFiles.Describes, WavFiles.WavFile;
    WavFiles.FileExactly(env.value, env.rate, samples);
  }

  /** A finished WAV response is the file of every sample pushed, in order. */
  lemma FinishedFile(env: Env, es: seq<Event>, s: System, r: nat)
    requires Run(env, es) == Some(s) && r < |s.requests|
    ensures r < |s.connections| &&
            var q, c := s.requests[r], s.connections[r];
            q.format.Wav? && c.ended.Some? ==>
              c.put == if c.ended.value.Done? then WavResponse(env, Samples(q.pushed))
                       else ErrorResponse(env, NotSynthesized)
    ensures var q, c := s.requests[r], s.connections[r];
            q.format.Wav? && c.ended == Some(Life.Done) && WavFiles.Fits(env.rate, |Samples(q.pushed)|) ==>
              exists file :: IsFile(env, file, Samples(q.pushed))
                             && c.put == "HTTP/1.1 200 OK\r\n" + env.wavHeading(|file|) + AsText(file)
  {
    WholeFile(env, Samples(s.requests[r].pushed));
    hide Samples;
    hide WavFiles.Fits, WavFiles.WavFile;
    Reached(env, es, s, r);
    var q, c := s.requests[r], s.connections[r];
    if c.ended.Some? {
      assert c.popped + [] == c.popped;
      assert "" + EndBytes(env, q.format, c.ended.value, c.popped) == EndBytes(env, q.format, c.ended.value, c.popped);
    }
  }

  /** The loop ends a stream only for a life the request really has, and never as
      cancelled: only a closed connection's request is. */
  lemma NeverEndsCancelled(env: Env, es: seq<Event>, s: System, r: nat)
    requires Run(env, es) == Some(s) && r < |s.requests|
    ensures r < |s.connections| &&
            var q, c := s.requests[r], s.connections[r];
            && (c.phase.Streaming? ==> !q.cancelled && !q.life.Cancelled?)
            && (s.loop.Deciding? && s.loop.r == r ==> !s.loop.seen.Cancelled?)
            && (c.ended.Some? ==> Terminal(c.ended.value) && q.life == c.ended.value)
  {
    Reached(env, es, s, r);
  }

  // ----- Life cycle -----------------------------------------------------------------------

  /** An unfinished request is once in the queue or in the worker's hand, a finished
      one in neither, and its output queue is bounded. */
  ghost predicate InOnePlace(s: System, r: nat)
    requires r < |s.requests|
  {
    var queued := r in s.queue;
    var held := s.worker.Hand? && s.worker.r == r;
    && !(queued && held)
    && (queued || held <==> !Terminal(s.requests[r].life))
    && (forall i, j :: 0 <= i < j < |s.queue| ==> s.queue[i] != s.queue[j])
    && |s.requests[r].output| <= 3
  }

  /** In every reachable state. */
  lemma OnePlace(env: Env, es: seq<Event>, s: System, r: nat)
    requires Run(env, es) == Some(s) && r < |s.requests|
    ensures InOnePlace(s, r)
  {
    Reached(env, es, s, r);
  }

  /** The room the worker found is still there when it pushes, although checking and
      pushing are two critical sections. */
  lemma RoomLasts(env: Env, es: seq<Event>, s: System)
    requires Run(env, es) == Some(s) && s.worker.Hand?
    requires s.worker.at.CheckInfer? || s.worker.at.Infer? || s.worker.at.Push?
    ensures s.worker.r < |s.requests| && HasRoom(s.requests[s.worker.r])
  {
    EveryRun(env, es);
    assert LocalAt(env, s, s.worker.r);
  }

  /** No step leaves a terminal life, takes anything back from the history of
      pushed chunks, pushes more once finished, or forgets a cancellation. */
  lemma LifeOnlyAdvances(env: Env, s: System, e: Event, r: nat)
    requires Inv(env, s) && Enabled(s, e) && r < |s.requests|
    ensures r < |Apply(env, s, e).requests|
    ensures Advances(s.requests[r], Apply(env, s, e).requests[r])
  {
    assert LocalAt(env, s, r);
    hide Inv, LocalAt, WorkerApply, LoopApply;
    if WorkerEnabled(s, e) {
      WorkerAdvances(env, s, e, r);
    } else {
      LoopAdvances(env, s, e, r);
    }
  }

  ghost predicate Advances(q: Request, p: Request) {
    && (Terminal(q.life) ==> p.life == q.life && p.pushed == q.pushed)
    && (q.life.Inferring? ==> !p.life.Preparing?)
    && q.pushed <= p.pushed
    && (q.cancelled ==> p.cancelled)
    && p.format == q.format
  }

  lemma WorkerAdvances(env: Env, s: System, e: Event, r: nat)
    requires Inv(env, s) && WorkerEnabled(s, e) && r < |s.requests| && LocalAt(env, s, r)
    ensures r < |WorkerApply(s, e).requests| && Advances(s.requests[r], WorkerApply(s, e).requests[r])
  {
    hide BytesOk, LoopOk, QueueOk, Inv;
  }

  lemma LoopAdvances(env: Env, s: System, e: Event, r: nat)
    requires LoopEnabled(s, e) && r < |s.requests|
    ensures r < |LoopApply(env, s, e).requests| && Advances(s.requests[r], LoopApply(env, s, e).requests[r])
  {
    hide Put, ChunkBytes, EndBytes;
  }

  // ----- The client's side -----------------------------------------------------------------

  lemma {:induction false} ConcatOfBodies(chunks: seq<AudioChunk>)
    ensures Concat(Bodies(chunks)) == PcmBytes(Samples(chunks))
  {
    if chunks != [] {
      var front, last := chunks[..|chunks| - 1], chunks[|chunks| - 1];
      ConcatOfBodies(front);
      PcmConcat(Samples(front), last.samples);
      var bytes := PcmBytes(last.samples);
      var tail := if bytes == "" then [] else [bytes];
      ConcatConcat(Bodies(front), tail);
      assert bytes != "" ==> [bytes][1..] == [];
    }
  }

  lemma PcmConcat(a: seq<Float32>, b: seq<Float32>)
    ensures PcmBytes(a + b) == PcmBytes(a) + PcmBytes(b)
  {
    RawBytesConcat(a, b);
  }

  lemma {:induction false} ConcatConcat(a: seq<string>, b: seq<string>)
    ensures Concat(a + b) == Concat(a) + Concat(b)
  {
    if a == [] {
      assert a + b == b;
    } else {
      assert (a + b)[1..] == a[1..] + b;
      ConcatConcat(a[1..], b);
    }
  }

  /** A client that has read everything a finished PCM stream was given, and decodes
      what follows the head, gets the four bytes of every sample pushed, in order. */
  lemma ClientDecodes(env: Env, es: seq<Event>, s: System, r: nat, lim: Limits)
    requires Run(env, es) == Some(s) && r < |s.requests| && r < |s.connections|
    requires s.requests[r].format.Pcm? && s.connections[r].ended.Some?
    requires s.connections[r].sent == s.connections[r].put
    requires 4 * |Samples(s.requests[r].pushed)| <= lim.maxBody <= SIZE_MAX
    ensures Decoded(lim, StreamHead(env), s.connections[r].sent, Samples(s.requests[r].pushed))
  {
    hide Encoded, Bodies, Samples, NextOf;
    FinishedStream(env, es, s, r);
    var q, sent := s.requests[r], s.connections[r].sent;
    var samples := Samples(q.pushed);
    RawBytesExactly(samples);
    CharsExactly(RawBytes(samples), samples);
    var coded := Encoded(Bodies(q.pushed)) + LAST_CHUNK;
    assert sent == StreamHead(env) + coded;
    assert sent[|StreamHead(env)|..] == coded;
    assert coded + "" == coded;
    ConcatOfBodies(q.pushed);
    ChunksRoundTrip(lim, AFTER_HEAD, Bodies(q.pushed), "");
    hide RawBytes, PcmBytes, AreBytesOf, AreCharsOf;
    assert "" + PcmBytes(samples) == PcmBytes(samples);
  }

  const AFTER_HEAD := Control(ReadingChunkSize, EMPTY_REQUEST, false, 0, 0)

  /** What was sent is the head and a chunked body that decodes to these samples. */
  ghost predicate Decoded(lim: Limits, head: string, sent: string, samples: seq<Float32>) {
    && AFTER_HEAD.Valid(lim)
    && head <= sent
    && var got := NextOf(lim, AFTER_HEAD, sent[|head|..]);
       got.result.Complete? && got.rest == "" && AreCharsOf(got.result.parsed.request.body, samples)
  }
}
