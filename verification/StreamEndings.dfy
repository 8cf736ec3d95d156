/** Whether a client can tell a failed synthesis from a complete one. */
module StreamEndings {
  import opened Wrappers
  import opened ByteCodec
  import opened RequestContext
  import opened ChunkedCoding
  import opened StreamProtocol
  import WavFiles = Wav
  import opened StreamDelivery

  /** Some run ends the response of request r with this life, after these bytes. */
  ghost predicate Ended(env: Env, es: seq<Event>, r: nat, format: Format, life: Life, bytes: string) {
    && Run(env, es).Some?
    && var s := Run(env, es).value;
       && r < |s.requests| && r < |s.connections| && s.requests[r].format == format
       && s.connections[r].ended == Some(life) && s.connections[r].put == bytes
  }

  predicate SaysOk(bytes: string) {
    OK_LINE <= bytes
  }

  /** A response that begins as a success is that of a request that is done. */
  ghost predicate OkMeansDone(env: Env, format: Format) {
    forall es: seq<Event>, r: nat, life: Life, bytes: string ::
      Ended(env, es, r, format, life, bytes) && SaysOk(bytes) ==> life == Done
  }

  /** A failed synthesis shows exactly in WAV responses; in a stream it never shows, as
      failed and complete streams can have the same bytes. */
  lemma FailureShowsExactly(env: Env, format: Format)
    ensures OkMeansDone(env, format) <==> format.Wav?
    ensures format.Pcm? ==> exists es, es': seq<Event>, r, r': nat, bytes: string ::
              Ended(env, es, r, format, Done, bytes) && Ended(env, es', r', format, Failed, bytes)
  {
    hide Ended, SaysOk;
    if format.Pcm? {
      var es', failed := FailedRun(env, format);
      var es, done := DoneRun(env, format, []);
      assert Ended(env, es, 0, format, Done, failed) && Ended(env, es', 0, format, Failed, failed);
      StreamSaysOk(env);
    } else {
      forall es: seq<Event>, r: nat, life: Life, bytes: string
        | Ended(env, es, r, format, life, bytes) && SaysOk(bytes)
        ensures life == Done
      {
        WavStatus(env, es, r, life, bytes);
      }
    }
  }

  lemma StreamSaysOk(env: Env)
    ensures SaysOk(StreamHead(env) + LAST_CHUNK)
  {}

  lemma StatusLines(env: Env, samples: seq<Float32>)
    ensures SaysOk(WavResponse(env, samples)) <==> WavFiles.Fits(env.rate, |samples|)
    ensures forall fault :: !SaysOk(ErrorResponse(env, fault))
  {
    hide WavFiles.WavFile, WavFiles.Fits;
    forall fault
      ensures !SaysOk(ErrorResponse(env, fault))
    {
      assert ErrorResponse(env, fault)[9] == '5' && OK_LINE[9] == '2';
    }
  }

  /** The status line of a WAV response tells exactly whether the request is done and
      its samples fit a file. */
  lemma WavStatus(env: Env, es: seq<Event>, r: nat, life: Life, bytes: string)
    requires Ended(env, es, r, Wav, life, bytes)
    ensures r < |Run(env, es).value.requests|
    ensures SaysOk(bytes)
       <==> life == Done && WavFiles.Fits(env.rate, |Samples(Run(env, es).value.requests[r].pushed)|)
  {
    var s := Run(env, es).value;
    FinishedFile(env, es, s, r);
    StatusLines(env, Samples(s.requests[r].pushed));
    hide SaysOk, WavResponse, ErrorResponse, WavFiles.Fits;
  }

  // ----- Two short runs ---------------------------------------------------------------------

  /** One more event of a run. */
  lemma More(env: Env, es: seq<Event>, s: System, e: Event) returns (longer: seq<Event>, t: System)
    requires Run(env, es) == Some(s) && Enabled(s, e)
    ensures t == Apply(env, s, e) && Run(env, longer) == Some(t)
  {
    longer, t := es + [e], Apply(env, s, e);
    assert longer[..|es|] == es;
  }

  /** What a response begins with. */
  function Opening(env: Env, format: Format): string {
    if format.Pcm? then StreamHead(env) else ""
  }

  /** Request 0 alone, streaming, with the opening sent, and the worker somewhere. */
  function Alone(env: Env, format: Format, life: Life, worker: Worker): System {
    System([], worker, Polling, [Request(format, life, false, [], [])],
           [Connection(Streaming, "", Opening(env, format), Opening(env, format), [], None)])
  }

  lemma Attachment(env: Env, format: Format) returns (es: seq<Event>, s: System)
    ensures Run(env, es) == Some(s)
    ensures var bytes := Opening(env, format);
            s == System([0], Idle, Polling, [Request(format, Preparing, false, [], [])],
                        [Connection(Streaming, bytes, "", bytes, [], None)])
  {
    hide Run;
    es, s := [], START;
    assert Run(env, es) == Some(s) by { EmptyRun(env); }
    es, s := More(env, es, s, Submit(format));
    es, s := More(env, es, s, Attached(true));
    var bytes := Opening(env, format);
    assert "" + bytes == bytes;
    assert s.connections == [Connection(Streaming, bytes, "", bytes, [], None)];
  }

  lemma Preparation(env: Env, format: Format) returns (es: seq<Event>, s: System)
    ensures Run(env, es) == Some(s) && s == Alone(env, format, Preparing, Hand(0, Prepare))
  {
    hide Run;
    es, s := Attachment(env, format);
    var bytes := Opening(env, format);
    hide Opening;
    if bytes != "" {
      es, s := More(env, es, s, Write(0, |bytes|));
      assert "" + bytes[..|bytes|] == bytes && bytes[|bytes|..] == "";
      assert s.connections == [Connection(Streaming, "", bytes, bytes, [], None)];
    }
    es, s := More(env, es, s, Take);
    es, s := More(env, es, s, WorkerStep);
    es, s := More(env, es, s, WorkerStep);
  }

  lemma EmptyRun(env: Env)
    ensures Run(env, []) == Some(START)
  {}

  /** The event loop ends the response of request 0, which has a terminal life and at
      most one chunk left, without bytes to stream. */
  lemma Ending(env: Env, es: seq<Event>, s: System, q: Request, c: Connection)
    returns (longer: seq<Event>, t: System)
    requires Run(env, es) == Some(s) && s == System([], Idle, Polling, [q], [c])
    requires Terminal(q.life) && !q.cancelled && c.phase.Streaming? && c.buffer == ""
    requires q.output == [] || (|q.output| == 1 && ChunkBytes(q.format, q.output[0]) == "")
    ensures Run(env, longer) == Some(t) && |t.connections| == |t.requests| == 1
    ensures t.requests[0].format == q.format && t.connections[0].ended == Some(q.life)
    ensures t.connections[0].put == c.put + EndBytes(env, q.format, q.life, c.popped + q.output)
  {
    hide Run, EndBytes, ChunkBytes;
    longer, t := More(env, es, s, BeginDrain(0));
    longer, t := More(env, longer, t, LoopStep);
    longer, t := More(env, longer, t, LoopStep);
    if q.output != [] {
      longer, t := More(env, longer, t, LoopStep);
      assert q.output[1..] == [] && c.popped + [q.output[0]] == c.popped + q.output;
    }
    assert c.popped + [] == c.popped;
    assert c.put + "" == c.put;
    longer, t := More(env, longer, t, LoopStep);
    longer, t := More(env, longer, t, LoopStep);
  }

  /** The voice cannot be prepared. */
  lemma FailedRun(env: Env, format: Format) returns (es: seq<Event>, bytes: string)
    ensures Ended(env, es, 0, format, Failed, bytes)
    ensures bytes == if format.Pcm? then StreamHead(env) + LAST_CHUNK else ErrorResponse(env, NotSynthesized)
  {
    hide Run;
    var s: System;
    es, s := Preparation(env, format);
    es, s := More(env, es, s, Prepared(false));
    es, s := More(env, es, s, WorkerStep);
    es, s := Ending(env, es, s, s.requests[0], s.connections[0]);
    bytes := s.connections[0].put;
  }

  /** One chunk is all there is. */
  lemma DoneRun(env: Env, format: Format, samples: seq<Float32>) returns (es: seq<Event>, bytes: string)
    requires format.Pcm? ==> samples == []
    ensures Ended(env, es, 0, format, Done, bytes)
    ensures bytes == if format.Pcm? then StreamHead(env) + LAST_CHUNK else WavResponse(env, samples)
  {
    hide Run;
    var s: System;
    es, s := Chunked(env, format, AudioChunk(samples, 0));
    es, s := Ending(env, es, s, s.requests[0], s.connections[0]);
    bytes := s.connections[0].put;
    OneChunk(AudioChunk(samples, 0));
    assert [] + [AudioChunk(samples, 0)] == [AudioChunk(samples, 0)];
  }

  lemma OneChunk(chunk: AudioChunk)
    ensures Samples([chunk]) == chunk.samples
  {
    assert [chunk][..1 - 1] == [];
  }

  /** Request 0 alone, done, with its one chunk in the output queue. */
  lemma Chunked(env: Env, format: Format, chunk: AudioChunk) returns (es: seq<Event>, s: System)
    ensures Run(env, es) == Some(s)
    ensures s == Alone(env, format, Done, Idle).(requests := [Request(format, Done, false, [chunk], [chunk])])
  {
    hide Run;
    es, s := Preparation(env, format);
    es, s := More(env, es, s, Prepared(true));
    es, s := More(env, es, s, WorkerStep);
    es, s := More(env, es, s, WorkerStep);
    es, s := More(env, es, s, WorkerStep);
    es, s := More(env, es, s, WorkerStep);
    es, s := More(env, es, s, Inferred(Produced(chunk, true)));
    es, s := More(env, es, s, WorkerStep);
    es, s := More(env, es, s, WorkerStep);
    assert [] + [chunk] == [chunk];
    assert s.requests == [Request(format, Done, false, [chunk], [chunk])];
  }
}
