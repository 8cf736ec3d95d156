/** The request parser as a step machine. */
module HttpParsing {
  import opened HttpText
  import opened HttpMessage

  datatype Limits = Limits(maxHeader: nat, maxBody: nat)

  datatype State =
    ReadingHeaders | ReadingFixedBody | ReadingChunkSize | ReadingChunkData | ReadingChunkTrailer

  /** Everything the parser remembers besides its buffer. */
  datatype Control = Control(
    state: State, request: HttpRequest, keepAlive: bool, contentLength: nat, chunkSize: nat)
  {
    /** The body read so far, and what is still announced, respect the limit. */
    predicate Valid(lim: Limits) {
      && |request.body| <= lim.maxBody
      && (state.ReadingHeaders? ==> request.body == "")
      && (state.ReadingFixedBody? ==> 0 < contentLength <= lim.maxBody)
      && (state.ReadingChunkData? ==> 0 < chunkSize <= lim.maxBody - |request.body|)
    }
  }

  const START := Control(ReadingHeaders, EMPTY_REQUEST, false, 0, 0)

  /** A finished request and whether its connection may be reused. */
  datatype Parsed = Parsed(request: HttpRequest, keepAlive: bool)

  datatype Step =
    | Wait
    | Advance(next: Control, used: nat)
    | Done(parsed: Parsed, used: nat)
    | Fail(error: HttpError, used: nat)

  function StepOf(lim: Limits, c: Control, buf: string): (s: Step)
    requires c.Valid(lim)
    ensures s.Advance? ==> 0 < s.used <= |buf| && s.next.Valid(lim)
    ensures s.Done? ==> 0 < s.used <= |buf| && |s.parsed.request.body| <= lim.maxBody
    ensures s.Fail? ==> s.used <= |buf|
  {
    match c.state
    case ReadingHeaders => HeadersStep(lim, c, buf)
    case ReadingFixedBody => FixedBodyStep(c, buf)
    case ReadingChunkSize => ChunkSizeStep(lim, c, buf)
    case ReadingChunkData => ChunkDataStep(c, buf)
    case ReadingChunkTrailer => TrailerStep(lim, c, buf)
  }

  function HeadersStep(lim: Limits, c: Control, buf: string): (s: Step)
    ensures s.Advance? ==> 0 < s.used <= |buf| && s.next.Valid(lim)
    ensures s.Done? ==> 0 < s.used <= |buf| && |s.parsed.request.body| <= lim.maxBody
    ensures s.Fail? ==> s.used <= |buf|
  {
    match Find(buf, BLANK_LINE, 0)
    case None => if |buf| > lim.maxHeader then Fail(TooLarge("Headers too large"), 0) else Wait
    case Some(end) =>
      match ParseHead(buf[..end], lim.maxBody)
      case Err(e) => Fail(e, end + 4)
      case Ok(head) =>
        match head.framing
        case NoBody => Done(Parsed(head.request, head.keepAlive), end + 4)
        case FixedBody(n) =>
          if n == 0 then Done(Parsed(head.request, head.keepAlive), end + 4)
          else Advance(Control(ReadingFixedBody, head.request, head.keepAlive, n, 0), end + 4)
        case Chunked => Advance(Control(ReadingChunkSize, head.request, head.keepAlive, 0, 0), end + 4)
  }

  function FixedBodyStep(c: Control, buf: string): Step {
    if |buf| < c.contentLength then Wait
    else Done(Parsed(c.request.(body := buf[..c.contentLength]), c.keepAlive), c.contentLength)
  }

  function ChunkSizeStep(lim: Limits, c: Control, buf: string): Step {
    match Find(buf, CRLF, 0)
    case None => if |buf| > lim.maxHeader then Fail(BadRequest("Malformed chunk size"), 0) else Wait
    case Some(end) =>
      match ChunkSize(buf[..end])
      case Err(e) => Fail(e, end + 2)
      case Ok(size) =>
        if size == 0 then Advance(c.(state := ReadingChunkTrailer, chunkSize := 0), end + 2)
        else if |c.request.body| >= lim.maxBody || size > lim.maxBody - |c.request.body| then
          Fail(BODY_TOO_LARGE, end + 2)
        else Advance(c.(state := ReadingChunkData, chunkSize := size), end + 2)
  }

  function ChunkDataStep(c: Control, buf: string): Step {
    if |buf| < 2 || c.chunkSize > |buf| - 2 then Wait
    else if buf[c.chunkSize] != '\r' || buf[c.chunkSize + 1] != '\n' then
      Fail(BadRequest("Malformed chunk data"), 0)
    else
      Advance(c.(state := ReadingChunkSize, request := c.request.(body := c.request.body + buf[..c.chunkSize])),
              c.chunkSize + 2)
  }

  /** The request once its last chunk has been read. */
  function Finished(c: Control): Parsed {
    Parsed(c.request.(contentLength := AsInt32(|c.request.body|)), c.keepAlive)
  }

  function TrailerStep(lim: Limits, c: Control, buf: string): Step {
    match Find(buf, CRLF, 0)
    case None => Wait
    case Some(end) =>
      if end == 0 then Done(Finished(c), 2)
      else match Find(buf, BLANK_LINE, 0)
        case None => if |buf| > lim.maxHeader then Fail(TooLarge("Trailers too large"), 0) else Wait
        case Some(all) => Done(Finished(c), all + 4)
  }

  // ----- One call -----------------------------------------------------------------------

  datatype ParseResult = NeedMore | Complete(parsed: Parsed) | Error(error: HttpError)

  datatype Called = Called(result: ParseResult, control: Control, rest: string)

  /** A call runs steps until one waits, finishes or fails. */
  function NextOf(lim: Limits, c: Control, buf: string): (r: Called)
    requires c.Valid(lim)
    ensures r.control.Valid(lim) && |r.rest| <= |buf|
    ensures r.result.Complete? ==> |r.result.parsed.request.body| <= lim.maxBody
    decreases |buf|
  {
    match StepOf(lim, c, buf)
    case Wait => Called(NeedMore, c, buf)
    case Advance(next, used) => NextOf(lim, next, buf[used..])
    case Done(parsed, used) => Called(Complete(parsed), START, buf[used..])
    case Fail(error, used) => Called(Error(error), START, buf[used..])
  }

  /** A call in terms of its first step. */
  lemma NextUnfold(lim: Limits, c: Control, buf: string)
    requires c.Valid(lim)
    ensures StepOf(lim, c, buf).Wait? ==> NextOf(lim, c, buf) == Called(NeedMore, c, buf)
    ensures StepOf(lim, c, buf).Advance? ==>
              NextOf(lim, c, buf) == NextOf(lim, StepOf(lim, c, buf).next, buf[StepOf(lim, c, buf).used..])
    ensures StepOf(lim, c, buf).Done? ==>
              NextOf(lim, c, buf)
                == Called(Complete(StepOf(lim, c, buf).parsed), START, buf[StepOf(lim, c, buf).used..])
    ensures StepOf(lim, c, buf).Fail? ==>
              NextOf(lim, c, buf) == Called(Error(StepOf(lim, c, buf).error), START, buf[StepOf(lim, c, buf).used..])
  {}
}
