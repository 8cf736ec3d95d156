/** The worker thread and the event loop as atomic steps. */
module StreamProtocol {
  import opened Wrappers
  import opened ByteCodec
  import opened RequestContext
  import opened ChunkedCoding
  import WavFiles = Wav

  // Every load, store and critical section of the two threads is a step of its own;
  // any sequence of enabled steps is a run.

  /** write_buffer size above which the event loop stops draining audio. */
  const WRITE_BUFFER_HIGH_WATER: nat := 256 * 1024

  datatype Phase = Attaching | Streaming | Writing | Closed

  /** The client connection of a request. `put` is the history of what was written
      into the buffer, `popped` of what was taken from the queue; `ended` is the
      life the final bytes were written for. */
  datatype Connection = Connection(
    phase: Phase, buffer: string, sent: string, put: string, popped: seq<AudioChunk>, ended: Option<Life>)

  /** Where the worker is with the request in its hand. */
  datatype Point =
    | CheckCancelled | StoreCancelled | LoadLife
    | Prepare | StoreFailed | CheckPrepared | StoreInferring
    | CheckRoom | Requeue | CheckInfer | Infer | StoreDone
    | Push(chunk: AudioChunk, last: bool)

  datatype Worker = Idle | Hand(r: nat, at: Point)

  /** Where the event loop is. */
  datatype Loop =
    | Polling
    | Attach(r: nat)
    | LoadCancelled(r: nat)
    | LoadState(r: nat)
    | Popping(r: nat, seen: Life)
    | Deciding(r: nat, seen: Life)

  datatype System = System(
    queue: seq<nat>, worker: Worker, loop: Loop, requests: seq<Request>, connections: seq<Connection>)

  datatype Fault = NotStarted | NotSynthesized | NotEncoded

  /** What stays the same over a run: the sample rate, the values of the floats, and what
      the response builder puts behind the status line of a stream, of a WAV file of a
      given size, and of an error. */
  datatype Env = Env(
    rate: int, value: Float32 -> Option<real>,
    streamHeading: string, wavHeading: nat -> string, report: Fault -> string)

  const OK_LINE := "HTTP/1.1 200 OK\r\n"
  const FAILED_LINE := "HTTP/1.1 500 Internal Server Error\r\n"

  function StreamHead(env: Env): string {
    OK_LINE + env.streamHeading
  }

  function ErrorResponse(env: Env, fault: Fault): string {
    FAILED_LINE + env.report(fault)
  }

  /** The file of all samples, or an error if its sizes do not fit. */
  function WavResponse(env: Env, samples: seq<Float32>): string {
    if WavFiles.Fits(env.rate, |samples|) then
      var file := WavFiles.WavFile(env.value, env.rate, samples);
      OK_LINE + env.wavHeading(|file|) + AsText(file)
    else ErrorResponse(env, NotEncoded)
  }

  datatype Yield = Failure | Nothing | Produced(chunk: AudioChunk, last: bool)

  datatype Event =
    // worker thread
    | Take | WorkerStep | Prepared(ok: bool) | Inferred(yielded: Yield)
    // event loop
    | Submit(format: Format) | Attached(ok: bool) | BeginDrain(r: nat) | LoopStep | EncoderFails
    | Write(r: nat, n: nat) | WriteFails(r: nat) | Disconnect(r: nat)

  /** What the encoder's PCM push returns for these samples, as text. */
  function PcmBytes(samples: seq<Float32>): string {
    AsText(RawBytes(samples))
  }

  /** The bytes of the chunks that have any, one HTTP chunk each. */
  function Bodies(chunks: seq<AudioChunk>): (bs: seq<string>)
    ensures forall i {:trigger bs[i]} :: 0 <= i < |bs| ==> bs[i] != ""
  {
    if chunks == [] then []
    else
      var bytes := PcmBytes(chunks[|chunks| - 1].samples);
      Bodies(chunks[..|chunks| - 1]) + if bytes == "" then [] else [bytes]
  }

  function Samples(chunks: seq<AudioChunk>): seq<Float32> {
    if chunks == [] then [] else Samples(chunks[..|chunks| - 1]) + chunks[|chunks| - 1].samples
  }

  // ----- Worker steps ---------------------------------------------------------------

  function Holding(s: System, at: Point): System
    requires s.worker.Hand?
  {
    s.(worker := Hand(s.worker.r, at))
  }

  /** The worker stores a terminal life and drops the request. */
  function Finish(s: System, life: Life): System
    requires s.worker.Hand? && s.worker.r < |s.requests|
  {
    var r := s.worker.r;
    s.(worker := Idle, requests := s.requests[r := s.requests[r].(life := life)])
  }

  predicate WorkerEnabled(s: System, e: Event) {
    match e
    case Take => s.worker.Idle? && s.queue != []
    case WorkerStep =>
      s.worker.Hand? && s.worker.r < |s.requests| && !s.worker.at.Prepare? && !s.worker.at.Infer?
    case Prepared(_) => s.worker.Hand? && s.worker.at.Prepare?
    case Inferred(_) => s.worker.Hand? && s.worker.at.Infer?
    case _ => false
  }

  function WorkerApply(s: System, e: Event): System
    requires WorkerEnabled(s, e)
  {
    match e
    case Take => s.(worker := Hand(s.queue[0], CheckCancelled), queue := s.queue[1..])
    case Prepared(ok) => Holding(s, if ok then CheckPrepared else StoreFailed)
    case Inferred(yielded) =>
      Holding(s, match yielded
                 case Failure => StoreFailed
                 case Nothing => StoreDone
                 case Produced(chunk, last) => Push(chunk, last))
    case WorkerStep =>
      var r := s.worker.r;
      var q := s.requests[r];
      match s.worker.at
      case CheckCancelled => Holding(s, if q.cancelled then StoreCancelled else LoadLife)
      case StoreCancelled => Finish(s, Cancelled)
      case LoadLife =>
        if q.life.Preparing? then Holding(s, Prepare)
        else if q.life.Inferring? then Holding(s, CheckRoom)
        else s.(worker := Idle)
      case StoreFailed => Finish(s, Failed)
      case CheckPrepared => Holding(s, if q.cancelled then StoreCancelled else StoreInferring)
      case StoreInferring => Holding(s, CheckRoom).(requests := s.requests[r := q.(life := Inferring)])
      case CheckRoom => Holding(s, if HasRoom(q) then CheckInfer else Requeue)
      case Requeue => s.(worker := Idle, queue := s.queue + [r])
      case CheckInfer => Holding(s, if q.cancelled then StoreCancelled else Infer)
      case StoreDone => Finish(s, Done)
      case Push(chunk, last) =>
        Holding(s, if last then StoreDone else Requeue).(requests := s.requests[r := Pushed(q, chunk)])
      case _ => s
  }

  // ----- Event-loop steps -------------------------------------------------------------

  predicate LoopEnabled(s: System, e: Event) {
    match e
    case Submit(_) => s.loop.Polling? && |s.requests| == |s.connections|
    case Attached(ok) =>
      && s.loop.Attach? && s.loop.r < |s.requests| && s.loop.r < |s.connections|
      && (ok || s.requests[s.loop.r].format.Pcm?)
    case BeginDrain(r) => s.loop.Polling? && r < |s.connections| && s.connections[r].phase.Streaming?
    case LoopStep =>
      && !s.loop.Polling? && !s.loop.Attach?
      && s.loop.r < |s.requests| && s.loop.r < |s.connections|
    case EncoderFails =>
      && s.loop.Popping? && s.loop.r < |s.requests| && s.loop.r < |s.connections|
      && |s.connections[s.loop.r].buffer| <= WRITE_BUFFER_HIGH_WATER && s.requests[s.loop.r].output != []
      && s.requests[s.loop.r].format.Pcm?
    case Write(r, n) =>
      && s.loop.Polling? && r < |s.connections| && Open(s.connections[r])
      && 0 < n <= |s.connections[r].buffer|
    case WriteFails(r) => s.loop.Polling? && r < |s.connections| && Open(s.connections[r])
    case Disconnect(r) =>
      s.loop.Polling? && r < |s.connections| && r < |s.requests| && Open(s.connections[r])
    case _ => false
  }

  predicate Open(c: Connection) {
    c.phase.Streaming? || c.phase.Writing?
  }

  /** Appends to the write buffer. */
  function Put(c: Connection, bytes: string): Connection {
    c.(buffer := c.buffer + bytes, put := c.put + bytes)
  }

  /** What popping a chunk adds to the buffer. */
  function ChunkBytes(format: Format, chunk: AudioChunk): string {
    var bytes := PcmBytes(chunk.samples);
    if format.Wav? || bytes == "" then "" else Chunk(bytes)
  }

  /** The last bytes of a response, for the life the loop saw before it drained. */
  function EndBytes(env: Env, format: Format, seen: Life, popped: seq<AudioChunk>): string {
    if format.Pcm? then LAST_CHUNK
    else if seen.Done? then WavResponse(env, Samples(popped))
    else ErrorResponse(env, NotSynthesized)
  }

  function LoopApply(env: Env, s: System, e: Event): System
    requires LoopEnabled(s, e)
  {
    match e
    case Submit(format) =>
      var r := |s.requests|;
      s.(queue := s.queue + [r], loop := Attach(r),
         requests := s.requests + [Request(format, Preparing, false, [], [])],
         connections := s.connections + [Connection(Attaching, "", "", "", [], None)])
    case Attached(ok) =>
      var r := s.loop.r;
      if ok then
        var c := Put(s.connections[r], if s.requests[r].format.Pcm? then StreamHead(env) else "");
        s.(loop := Polling, connections := s.connections[r := c.(phase := Streaming)])
      else
        var c := Put(s.connections[r], ErrorResponse(env, NotStarted));
        s.(loop := Polling, connections := s.connections[r := c.(phase := Writing)],
           requests := s.requests[r := s.requests[r].(cancelled := true)])
    case BeginDrain(r) => s.(loop := LoadCancelled(r))
    case EncoderFails =>
      var r := s.loop.r;
      var q, c := s.requests[r], s.connections[r];
      s.(loop := Polling, requests := s.requests[r := Popped(q)],
         connections := s.connections[r := c.(phase := Closed, popped := c.popped + [q.output[0]])])
    case Write(r, n) =>
      var c := s.connections[r];
      var rest := c.buffer[n..];
      var phase := if rest == "" && !c.phase.Streaming? then Closed else c.phase;
      s.(connections := s.connections[r := c.(buffer := rest, sent := c.sent + c.buffer[..n], phase := phase)])
    case WriteFails(r) => s.(connections := s.connections[r := s.connections[r].(phase := Closed)])
    case Disconnect(r) =>
      s.(connections := s.connections[r := s.connections[r].(phase := Closed, buffer := "")],
         requests := s.requests[r := s.requests[r].(cancelled := true)])
    case LoopStep =>
      var r := s.loop.r;
      var q, c := s.requests[r], s.connections[r];
      match s.loop
      case LoadCancelled(_) =>
        if q.cancelled then s.(loop := Polling, connections := s.connections[r := c.(phase := Closed)])
        else s.(loop := LoadState(r))
      case LoadState(_) => s.(loop := Popping(r, q.life))
      case Popping(_, seen) =>
        if |c.buffer| <= WRITE_BUFFER_HIGH_WATER && q.output != [] then
          var chunk := q.output[0];
          s.(requests := s.requests[r := Popped(q)],
             connections := s.connections[r := Put(c.(popped := c.popped + [chunk]), ChunkBytes(q.format, chunk))])
        else s.(loop := Deciding(r, seen))
      case Deciding(_, seen) =>
        if Terminal(seen) && c.buffer == "" then
          var ending := Put(c, EndBytes(env, q.format, seen, c.popped)).(ended := Some(seen));
          var phase := if q.format.Pcm? && seen.Cancelled? then Closed else Writing;
          s.(loop := Polling, connections := s.connections[r := ending.(phase := phase)])
        else s.(loop := Polling)
      case _ => s
  }

  // ----- Runs ---------------------------------------------------------------------------

  predicate Enabled(s: System, e: Event) {
    WorkerEnabled(s, e) || LoopEnabled(s, e)
  }

  function Apply(env: Env, s: System, e: Event): System
    requires Enabled(s, e)
  {
    if WorkerEnabled(s, e) then WorkerApply(s, e) else LoopApply(env, s, e)
  }

  const START := System([], Idle, Polling, [], [])

  /** The state after a sequence of events, None where one was not enabled. */
  function Run(env: Env, es: seq<Event>): Option<System> {
    if es == [] then Some(START)
    else match Run(env, es[..|es| - 1])
      case None => None
      case Some(s) => if Enabled(s, es[|es| - 1]) then Some(Apply(env, s, es[|es| - 1])) else None
  }
}
