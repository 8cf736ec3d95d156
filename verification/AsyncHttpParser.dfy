/** The resumable request parser, working on its own buffer in place. Every method is
    proved to do what the step function says, with the buffer as what has arrived and
    is not yet used. */
module AsyncHttpParser {
  import opened Wrappers
  import opened HttpText
  import opened HttpMessage
  import opened HttpParsing
  import opened Fragmentation

  /** A bad digit early in a size decides the result of the whole. */
  lemma {:induction false} HexErrorPersists(line: string, i: nat)
    requires i <= |line| && HexValue(line[..i]).Err?
    ensures HexValue(line) == HexValue(line[..i])
    decreases |line| - i
  {
    if i < |line| {
      assert line[..i + 1][..i] == line[..i];
      HexErrorPersists(line, i + 1);
    } else {
      assert line[..i] == line;
    }
  }

  class AsyncHttpRequestParser {
    const lim: Limits
    var state: State
    var buffer: string
    var request: HttpRequest
    var keepAlive: bool
    var contentLength: nat
    var chunkSize: nat

    function Control(): Control
      reads this
    {
      HttpParsing.Control(state, request, keepAlive, contentLength, chunkSize)
    }

    ghost predicate Valid()
      reads this
    {
      Control().Valid(lim)
    }

    constructor (limits: Limits)
      ensures Valid() && lim == limits && buffer == "" && Control() == START
    {
      lim := limits;
      buffer := "";
      state, request, keepAlive, contentLength, chunkSize := ReadingHeaders, EMPTY_REQUEST, false, 0, 0;
    }

    method Append(data: string)
      modifies this`buffer
      ensures buffer == old(buffer) + data
    {
      buffer := buffer + data;
    }

    method ResetCurrent()
      modifies this`state, this`request, this`keepAlive, this`contentLength, this`chunkSize
      ensures Control() == START
    {
      state, request, keepAlive, contentLength, chunkSize := ReadingHeaders, EMPTY_REQUEST, false, 0, 0;
    }

    /** The next finished request, the first error, or a request for more bytes. */
    method Next() returns (r: ParseResult)
      requires Valid()
      modifies this
      ensures Valid() && Called(r, Control(), buffer) == NextOf(lim, old(Control()), old(buffer))
    {
      hide NextOf, StepOf;
      while true
        invariant Valid()
        invariant NextOf(lim, Control(), buffer) == NextOf(lim, old(Control()), old(buffer))
        decreases |buffer|
      {
        NextUnfold(lim, Control(), buffer);
        StepOfState(lim, Control(), buffer);
        if state == ReadingHeaders {
          var headerEnd := Find(buffer, BLANK_LINE, 0);
          if headerEnd.None? {
            if |buffer| > lim.maxHeader {
              r := Failure(TooLarge("Headers too large"));
              return;
            }
            return NeedMore;
          }
          r := ParseHeaders(headerEnd.value);
          if r != NeedMore { return; }
        } else if state == ReadingFixedBody {
          r := ParseFixedBody();
          return;
        } else if state == ReadingChunkSize {
          r := ParseChunkSize();
          return;
        } else if state == ReadingChunkData {
          r := ParseChunkData();
          return;
        } else {
          r := ParseChunkTrailer();
          return;
        }
      }
    }

    /** The step of a state is that state's own. */
    static lemma StepOfState(lim: Limits, c: Control, buf: string)
      requires c.Valid(lim)
      ensures c.state.ReadingHeaders? ==> StepOf(lim, c, buf) == HeadersStep(lim, c, buf)
      ensures c.state.ReadingFixedBody? ==> StepOf(lim, c, buf) == FixedBodyStep(c, buf)
      ensures c.state.ReadingChunkSize? ==> StepOf(lim, c, buf) == ChunkSizeStep(lim, c, buf)
      ensures c.state.ReadingChunkData? ==> StepOf(lim, c, buf) == ChunkDataStep(c, buf)
      ensures c.state.ReadingChunkTrailer? ==> StepOf(lim, c, buf) == TrailerStep(lim, c, buf)
    {}

    /** Reads the header block that ends at `headerEnd`. NeedMore means the loop has
        to look again, in the state reached. */
    method ParseHeaders(headerEnd: nat) returns (r: ParseResult)
      requires Valid() && state == ReadingHeaders && Find(buffer, BLANK_LINE, 0) == Some(headerEnd)
      modifies this
      ensures Valid() && |buffer| < |old(buffer)|
      ensures r != NeedMore ==> Called(r, Control(), buffer) == NextOf(lim, old(Control()), old(buffer))
      ensures r == NeedMore ==> NextOf(lim, Control(), buffer) == NextOf(lim, old(Control()), old(buffer))
    {
      hide NextOf, StepOf, Find, ParseHead;
      NextUnfold(lim, Control(), buffer);
      StepOfState(lim, Control(), buffer);
      var headerData := buffer[..headerEnd];
      buffer := buffer[headerEnd + 4..];
      var head := ReadHead(headerData);
      if head.Err? {
        r := Failure(head.error);
        return;
      }
      request, keepAlive := head.value.request, head.value.keepAlive;
      match head.value.framing
      case Chunked =>
        state, contentLength, chunkSize := ReadingChunkSize, 0, 0;
        return NeedMore;
      case NoBody =>
        r := Completed();
      case FixedBody(n) =>
        contentLength, chunkSize := n, 0;
        if n == 0 {
          r := Completed();
          return;
        }
        state := ReadingFixedBody;
        r := ParseFixedBody();
    }

    /** Request line, header lines and framing of a header block. */
    method ReadHead(headerData: string) returns (r: Result<Head, HttpError>)
      ensures r == ParseHead(headerData, lim.maxBody)
    {
      hide Find, ParseRequestLine, HeadersFrom, ParseFraming, HttpMessage.KeepAlive;
      var lineEnd := FirstLineEnd(headerData);
      if headerData == "" || lineEnd == 0 {
        return Err(BadRequest("Malformed request"));
      }
      var line := ParseRequestLine(headerData[..lineEnd]);
      if line.None? {
        return Err(BadRequest("Malformed request line"));
      }
      var block := if lineEnd < |headerData| then headerData[lineEnd + 2..] else "";
      var headers := ReadHeaderLines(block);
      if headers.Err? {
        return Err(headers.error);
      }
      var framing := ParseFraming(headers.value, lim.maxBody);
      if framing.Err? {
        return Err(framing.error);
      }
      var l := line.value;
      var length := if framing.value.FixedBody? then AsInt32(framing.value.length) else -1;
      return Ok(Head(HttpRequest(l.verb, l.path, l.query, headers.value, "", length),
                     HttpMessage.KeepAlive(l.version, headers.value), framing.value));
    }

    /** Header lines, split at newlines. */
    method ReadHeaderLines(block: string) returns (r: Result<map<string, string>, HttpError>)
      ensures r == HeadersFrom(block, 0, 0, map[])
    {
      hide Find, ParseHeaderLine, Unterminated;
      var pos, count := 0, 0;
      var headers := map[];
      while pos < |block|
        invariant pos <= |block|
        invariant HeadersFrom(block, pos, count, headers) == HeadersFrom(block, 0, 0, map[])
        decreases |block| - pos
      {
        var newline := Find(block, "\n", pos);
        NewlineInside(block, pos);
        var end := if newline.Some? then newline.value else |block|;
        var next := if newline.Some? then newline.value + 1 else |block|;
        var line := Unterminated(block[pos..end]);
        if line != "" {
          if count + 1 > MAX_HEADER_COUNT {
            return Err(TooLarge("Too many headers"));
          }
          var field := ParseHeaderLine(line);
          if field.Err? {
            return Err(field.error);
          }
          count, headers := count + 1, headers[field.value.0 := field.value.1];
        }
        pos := next;
      }
      return Ok(headers);
    }

    static lemma NewlineInside(block: string, pos: nat)
      ensures var newline := Find(block, "\n", pos); newline.Some? ==> pos <= newline.value < |block|
    {}

    method ParseFixedBody() returns (r: ParseResult)
      requires Valid() && state == ReadingFixedBody
      modifies this
      ensures Valid() && |buffer| <= |old(buffer)|
      ensures Called(r, Control(), buffer) == NextOf(lim, old(Control()), old(buffer))
      ensures r == NeedMore ==> Control() == old(Control()) && buffer == old(buffer)
    {
      hide NextOf, Find, ParseHead, ChunkSize, AsInt32;
      NextUnfold(lim, Control(), buffer);
      if |buffer| < contentLength {
        return NeedMore;
      }
      request := request.(body := buffer[..contentLength]);
      buffer := buffer[contentLength..];
      r := Completed();
    }

    method ParseChunkSize() returns (r: ParseResult)
      requires Valid() && state == ReadingChunkSize
      modifies this
      ensures Valid() && Called(r, Control(), buffer) == NextOf(lim, old(Control()), old(buffer))
      decreases |buffer|
    {
      hide NextOf, StepOf, Find, ChunkSize, HeadersStep, FixedBodyStep, TrailerStep, ChunkDataStep;
      NextUnfold(lim, Control(), buffer);
      StepOfState(lim, Control(), buffer);
      var lineEnd := Find(buffer, CRLF, 0);
      if lineEnd.None? {
        if |buffer| > lim.maxHeader {
          r := Failure(BadRequest("Malformed chunk size"));
          return;
        }
        return NeedMore;
      }
      var line := buffer[..lineEnd.value];
      buffer := buffer[lineEnd.value + 2..];
      var size := ReadChunkSize(line);
      if size.Err? {
        r := Failure(size.error);
        return;
      }
      chunkSize := size.value;
      if chunkSize == 0 {
        state := ReadingChunkTrailer;
        r := ParseChunkTrailer();
        return;
      }
      if |request.body| >= lim.maxBody || chunkSize > lim.maxBody - |request.body| {
        r := Failure(BODY_TOO_LARGE);
        return;
      }
      state := ReadingChunkData;
      r := ParseChunkData();
    }

    /** The digits of a size line, one at a time. */
    method ReadChunkSize(line: string) returns (r: Result<nat, HttpError>)
      ensures r == ChunkSize(line)
    {
      hide Find, Trim, HexAppend;
      var semicolon := Find(line, ";", 0);
      var digits := TrimAscii(if semicolon.Some? then line[..semicolon.value] else line);
      if digits == "" {
        return Err(BadRequest("Malformed chunk size"));
      }
      var value := 0;
      for i := 0 to |digits|
        invariant HexValue(digits[..i]) == Ok(value)
      {
        assert digits[..i + 1][..i] == digits[..i];
        var appended := HexAppend(value, digits[i]);
        if appended.Err? {
          HexErrorPersists(digits, i + 1);
          return Err(appended.error);
        }
        value := appended.value;
      }
      assert digits[..|digits|] == digits;
      return Ok(value);
    }

    /** What the data state does with a buffer. */
    static lemma DataUnfold(lim: Limits, c: Control, buf: string)
      requires c.Valid(lim) && c.state.ReadingChunkData?
      ensures |buf| < 2 || c.chunkSize > |buf| - 2 ==> NextOf(lim, c, buf) == Called(NeedMore, c, buf)
      ensures 2 <= |buf| && c.chunkSize <= |buf| - 2 ==>
                if buf[c.chunkSize] != '\r' || buf[c.chunkSize + 1] != '\n' then
                  NextOf(lim, c, buf) == Called(Error(BadRequest("Malformed chunk data")), START, buf)
                else
                  var grown := c.(state := ReadingChunkSize,
                                  request := c.request.(body := c.request.body + buf[..c.chunkSize]));
                  grown.Valid(lim) && NextOf(lim, c, buf) == NextOf(lim, grown, buf[c.chunkSize + 2..])
    {
      hide NextOf, StepOf;
      NextUnfold(lim, c, buf);
      StepOfState(lim, c, buf);
    }

    method ParseChunkData() returns (r: ParseResult)
      requires Valid() && state == ReadingChunkData
      modifies this
      ensures Valid() && Called(r, Control(), buffer) == NextOf(lim, old(Control()), old(buffer))
      decreases |buffer|
    {
      hide NextOf, StepOf;
      DataUnfold(lim, Control(), buffer);
      if |buffer| < 2 || chunkSize > |buffer| - 2 {
        return NeedMore;
      }
      if buffer[chunkSize] != '\r' || buffer[chunkSize + 1] != '\n' {
        r := Failure(BadRequest("Malformed chunk data"));
        return;
      }
      request := request.(body := request.body + buffer[..chunkSize]);
      buffer := buffer[chunkSize + 2..];
      state := ReadingChunkSize;
      r := ParseChunkSize();
    }

    /** What the trailer state does with a buffer. */
    static lemma TrailerUnfold(lim: Limits, c: Control, buf: string)
      requires c.Valid(lim) && c.state.ReadingChunkTrailer?
      ensures var line, all := Find(buf, CRLF, 0), Find(buf, BLANK_LINE, 0);
              NextOf(lim, c, buf)
                == (if line.None? then Called(NeedMore, c, buf)
                    else if line.value == 0 then Called(Complete(Finished(c)), START, buf[2..])
                    else if all.Some? then Called(Complete(Finished(c)), START, buf[all.value + 4..])
                    else if |buf| > lim.maxHeader then Called(Error(TooLarge("Trailers too large")), START, buf)
                    else Called(NeedMore, c, buf))
    {
      hide NextOf, StepOf, Find, Finished;
      NextUnfold(lim, c, buf);
      StepOfState(lim, c, buf);
    }

    method ParseChunkTrailer() returns (r: ParseResult)
      requires Valid() && state == ReadingChunkTrailer
      modifies this
      ensures Valid() && Called(r, Control(), buffer) == NextOf(lim, old(Control()), old(buffer))
    {
      hide NextOf, StepOf, Find, AsInt32;
      TrailerUnfold(lim, Control(), buffer);
      var trailerEnd := Find(buffer, CRLF, 0);
      if trailerEnd.None? {
        return NeedMore;
      }
      if trailerEnd.value == 0 {
        buffer := buffer[2..];
        request := request.(contentLength := AsInt32(|request.body|));
        r := Completed();
        return;
      }
      var allEnd := Find(buffer, BLANK_LINE, 0);
      if allEnd.None? {
        if |buffer| > lim.maxHeader {
          r := Failure(TooLarge("Trailers too large"));
          return;
        }
        return NeedMore;
      }
      buffer := buffer[allEnd.value + 4..];
      request := request.(contentLength := AsInt32(|request.body|));
      r := Completed();
    }

    method Completed() returns (r: ParseResult)
      modifies this`state, this`request, this`keepAlive, this`contentLength, this`chunkSize
      ensures Control() == START && r == Complete(Parsed(old(request), old(keepAlive)))
    {
      r := Complete(Parsed(request, keepAlive));
      ResetCurrent();
    }

    method Failure(error: HttpError) returns (r: ParseResult)
      modifies this`state, this`request, this`keepAlive, this`contentLength, this`chunkSize
      ensures Control() == START && r == Error(error)
    {
      r := Error(error);
      ResetCurrent();
    }
  }

  // ----- The parser object under any schedule ---------------------------------------------

  lemma AfterAfter(a: seq<Parsed>, b: seq<Parsed>, o: Outcome)
    ensures After(a, After(b, o)) == After(a + b, o)
    ensures After([], o) == o
  {
    assert a + (b + o.done) == (a + b) + o.done;
    assert [] + o.done == o.done;
  }

  /** Feeds bytes and asks for requests as the event loop happens to, up to the
      first error. For a guarded stream the schedule does not show. */
  method Replay(p: AsyncHttpRequestParser, ops: seq<Op>) returns (o: Outcome)
    requires p.Valid()
    modifies p
    ensures o == Execute(p.lim, old(p.Control()), old(p.buffer), ops)
    ensures old(Guarded(p.lim, p.Control(), p.buffer + Fed(ops))) ==>
              Drained(p.lim, o) == Parse(p.lim, old(p.Control()), old(p.buffer) + Fed(ops))
  {
    hide Guarded, Parse, NextOf, Drained, Control.Valid;
    ghost var c0, buf0 := p.Control(), p.buffer;
    ghost var goal := Execute(p.lim, c0, buf0, ops);
    if Guarded(p.lim, c0, buf0 + Fed(ops)) {
      AnyCutAgrees(p.lim, c0, buf0, ops);
    }
    var done := [];
    var i := 0;
    AfterAfter([], [], goal);
    assert ops[0..] == ops;
    while i < |ops|
      invariant i <= |ops| && p.Valid()
      invariant goal == After(done, Execute(p.lim, p.Control(), p.buffer, ops[i..]))
      decreases |ops| - i
    {
      ghost var later := ops[i + 1..];
      assert ops[i..][1..] == later;
      match ops[i] {
        case Append(bytes) =>
          p.Append(bytes);
        case Next =>
          var r := p.Next();
          if r.Error? {
            return Outcome(done, Failed(r.error, p.buffer + Fed(ops[i + 1..])));
          }
          if r.Complete? {
            AfterAfter(done, [r.parsed], Execute(p.lim, p.Control(), p.buffer, later));
            done := done + [r.parsed];
          }
      }
      i := i + 1;
    }
    return Outcome(done, Pending(p.Control(), p.buffer));
  }
}
