/** Whole requests with their bodies, one after another on a connection. */
module HttpSession {
  import opened Wrappers
  import opened HttpText
  import opened HttpMessage
  import opened HttpRendering
  import opened HttpParsing
  import opened ChunkedCoding
  import opened Fragmentation

  /** How a body is sent: not at all, with its length in the header, or in chunks with a
      last size line and trailer lines behind them. */
  datatype Body = Empty | Fixed(text: string) | Pieces(chunks: seq<Piece>, last: SizeLine, trailer: string)

  datatype Message = Message(
    line: RequestLine, query: Option<string>, fields: seq<Field>, persistence: Persistence, body: Body)

  function FramingOf(body: Body): Framing {
    match body
    case Empty => NoBody
    case Fixed(text) => FixedBody(|text|)
    case Pieces(_, _, _) => Chunked
  }

  /** The body a receiver gets. */
  function BodyText(body: Body): string {
    match body
    case Empty => ""
    case Fixed(text) => text
    case Pieces(chunks, _, _) => Received(chunks)
  }

  /** The body as it is sent. */
  function BodyBytes(body: Body): string {
    match body
    case Empty => ""
    case Fixed(text) => text
    case Pieces(chunks, last, trailer) => Sent(chunks) + LastBytes(last, trailer)
  }

  function HeadText(m: Message): string {
    RenderHead(RenderLine(m.line.verb, Target(m.line.path, m.query), m.line.version), m.fields)
  }

  function Render(m: Message): string {
    HeadText(m) + (BLANK_LINE + BodyBytes(m.body))
  }

  /** A request that can be rendered and whose fields say how its body is framed. */
  ghost predicate Renderable(m: Message) {
    && m.line.verb != "" && Lacks(m.line.verb, ' ') && Lacks(m.line.verb, '\r') && KnownVersion(m.line.version)
    && m.line.path != "" && m.line.path[0] == '/' && Lacks(m.line.path, '?') && Lacks(m.line.path, '\r')
    && m.line.query == (if m.query.Some? then m.query.value else "") && Lacks(m.line.query, '\r')
    && AllSendable(m.fields) && |m.fields| <= MAX_HEADER_COUNT
    && Says(m.fields, m.persistence) && Frames(m.fields, FramingOf(m.body))
    && (m.body.Pieces? ==> AllSound(m.body.chunks) && Announces(m.body.last, 0) && Trailing(m.body.trailer))
  }

  predicate Fits(lim: Limits, m: Message) {
    |BodyText(m.body)| <= lim.maxBody <= SIZE_MAX
  }

  function KeptAlive(m: Message): bool {
    if m.line.version == "HTTP/1.1" then !m.persistence.close else m.persistence.keep
  }

  /** What the server is to get of a message. */
  function Expected(m: Message): Parsed {
    var text := BodyText(m.body);
    Parsed(HttpRequest(m.line.verb, m.line.path, m.line.query, FieldMap(m.fields, map[]), text,
                       if m.body.Empty? then -1 else AsInt32(|text|)),
           KeptAlive(m))
  }

  // ----- Where a header block ends -------------------------------------------------------

  lemma FieldLineOpen(f: Field)
    requires Sendable(f)
    ensures LinesOpen(FieldLine(f)) && FieldLine(f) != "" && FieldLine(f)[0] != '\r'
  {
    hide Spells, Stripped;
    FieldLineShape(f);
    assert FieldLine(f)[0] == f.name[0];
  }

  lemma {:induction false} FieldsOpen(fields: seq<Field>)
    requires fields != [] && AllSendable(fields)
    ensures LinesOpen(RenderFields(fields)) && RenderFields(fields) != "" && RenderFields(fields)[0] != '\r'
  {
    hide LinesOpen, FieldLine, Sendable;
    FieldLineOpen(fields[0]);
    if |fields| > 1 {
      FieldsOpen(fields[1..]);
      NewlineEither(fields[0]);
      OpenConcat(FieldLine(fields[0]), fields[0].newline, RenderFields(fields[1..]));
    }
  }

  lemma NewlineEither(f: Field)
    requires Sendable(f)
    ensures f.newline == "\r\n" || f.newline == "\n"
  {}

  lemma LineOpen(line: string, version: string, front: string)
    requires line == front + version && KnownVersion(version) && Lacks(line, '\r')
    ensures LinesOpen(line)
  {
    assert line[|line| - 1] == version[|version| - 1];
  }

  lemma HeadOpen(m: Message)
    requires Renderable(m)
    ensures LinesOpen(HeadText(m))
  {
    hide LinesOpen, Lacks, RenderFields, Target, AllSendable;
    var verb, target, version := m.line.verb, Target(m.line.path, m.query), m.line.version;
    var line := RenderLine(verb, target, version);
    LineLacksReturn(verb, m.line.path, m.query, version);
    assert line == (verb + (" " + (target + " "))) + version;
    LineOpen(line, version, verb + (" " + (target + " ")));
    if m.fields != [] {
      FieldsOpen(m.fields);
      OpenConcat(line, CRLF, RenderFields(m.fields));
    }
  }

  // ----- One request ------------------------------------------------------------------------

  function HeadRequest(m: Message): HttpRequest {
    HttpRequest(m.line.verb, m.line.path, m.line.query, FieldMap(m.fields, map[]), "",
                if m.body.Fixed? then AsInt32(|m.body.text|) else -1)
  }

  /** The state behind the header block of a request whose body is still to come. */
  function Reading(m: Message): Control {
    if m.body.Fixed? then Control(ReadingFixedBody, HeadRequest(m), KeptAlive(m), |m.body.text|, 0)
    else Control(ReadingChunkSize, HeadRequest(m), KeptAlive(m), 0, 0)
  }

  predicate BodyToCome(m: Message) {
    m.body.Pieces? || (m.body.Fixed? && m.body.text != "")
  }

  lemma HeadStep(lim: Limits, m: Message, rest: string)
    requires Renderable(m) && Fits(lim, m)
    ensures var used := |HeadText(m)| + 4;
            && StepOf(lim, START, HeadText(m) + (BLANK_LINE + rest))
                 == (if BodyToCome(m) then Advance(Reading(m), used) else Done(Expected(m), used))
            && (HeadText(m) + (BLANK_LINE + rest))[used..] == rest
            && Find(HeadText(m) + (BLANK_LINE + rest), BLANK_LINE, 0) == Some(|HeadText(m)|)
  {
    hide Find, LinesOpen, ParseHead, AsInt32, FieldMap, Says, Frames, Lacks, AllSendable;
    var head := HeadText(m);
    HeadOpen(m);
    BlankLineBehind(head, rest);
    RequestRoundTrip(m.line, m.query, m.fields, head, m.persistence, FramingOf(m.body), lim.maxBody);
    var buf := head + (BLANK_LINE + rest);
    assert buf[..|head|] == head;
    assert buf == (head + BLANK_LINE) + rest;
  }

  /** A rendered request is read back with its body, and what follows is untouched. */
  lemma MessageRoundTrip(lim: Limits, m: Message, rest: string)
    requires Renderable(m) && Fits(lim, m)
    ensures NextOf(lim, START, Render(m) + rest) == Called(Complete(Expected(m)), START, rest)
  {
    hide StepOf, NextOf, HeadText, Renderable, AsInt32, FieldMap, Find, Expected, BodyBytes, Reading, BodyToCome;
    var after, used := BodyBytes(m.body) + rest, |HeadText(m)| + 4;
    HeadStep(lim, m, after);
    var buf := HeadText(m) + (BLANK_LINE + after);
    assert Render(m) + rest == buf;
    NextUnfold(lim, START, buf);
    assert buf[used..] == after;
    if BodyToCome(m) {
      BodyRead(lim, m, rest);
    } else {
      NoBytes(m, rest);
    }
  }

  lemma NoBytes(m: Message, rest: string)
    requires !BodyToCome(m)
    ensures BodyBytes(m.body) + rest == rest
  {}

  /** The body that is to come is read in the state behind the header block. */
  lemma BodyRead(lim: Limits, m: Message, rest: string)
    requires Renderable(m) && Fits(lim, m) && BodyToCome(m)
    ensures Reading(m).Valid(lim)
    ensures NextOf(lim, Reading(m), BodyBytes(m.body) + rest) == Called(Complete(Expected(m)), START, rest)
  {
    hide StepOf, HeadText, AsInt32, FieldMap;
    match m.body
    case Fixed(text) => FixedRead(lim, m, rest);
    case Pieces(chunks, last, trailer) =>
      PiecesSound(m);
      hide Renderable, NextOf, Sent, Received, LastBytes, Announces, Trailing, AllSound;
      assert BodyBytes(m.body) + rest == Sent(chunks) + (LastBytes(last, trailer) + rest);
      PiecesRoundTrip(lim, Reading(m), chunks, last, trailer, rest);
      assert "" + Received(chunks) == Received(chunks);
  }

  lemma PiecesSound(m: Message)
    requires Renderable(m) && m.body.Pieces?
    ensures AllSound(m.body.chunks) && Announces(m.body.last, 0) && Trailing(m.body.trailer)
  {}

  lemma FixedRead(lim: Limits, m: Message, rest: string)
    requires m.body.Fixed? && m.body.text != "" && Fits(lim, m)
    ensures StepOf(lim, Reading(m), m.body.text + rest) == Done(Expected(m), |m.body.text|)
    ensures (m.body.text + rest)[|m.body.text|..] == rest
  {
    assert (m.body.text + rest)[..|m.body.text|] == m.body.text;
  }

  // ----- A connection -------------------------------------------------------------------------

  function RenderAll(ms: seq<Message>): string {
    if ms == [] then "" else Render(ms[0]) + RenderAll(ms[1..])
  }

  function ExpectedAll(ms: seq<Message>): seq<Parsed> {
    if ms == [] then [] else [Expected(ms[0])] + ExpectedAll(ms[1..])
  }

  ghost predicate Sendings(lim: Limits, ms: seq<Message>) {
    forall i {:trigger ms[i]} :: 0 <= i < |ms| ==> Renderable(ms[i]) && Fits(lim, ms[i])
  }

  /** Requests sent one after another are read back in order, with their keep-alive
      flags, and nothing is left. */
  lemma {:induction false} SessionRoundTrip(lim: Limits, ms: seq<Message>)
    requires Sendings(lim, ms)
    ensures Parse(lim, START, RenderAll(ms)) == Outcome(ExpectedAll(ms), Pending(START, ""))
  {
    hide NextOf, Parse, Render, Expected, Renderable, Fits;
    if ms == [] {
      NothingLeft(lim);
    } else {
      MessageRoundTrip(lim, ms[0], RenderAll(ms[1..]));
      SessionRoundTrip(lim, ms[1..]);
      CallOnWhole(lim, START, RenderAll(ms));
    }
  }

  // ----- Under any cutting ---------------------------------------------------------------------

  /** The header block, the size lines and the trailer of a message stay within the
      header limit. */
  predicate InLimits(lim: Limits, m: Message) {
    && |HeadText(m)| + 3 <= lim.maxHeader
    && (m.body.Pieces? ==> LinesInLimits(lim, m.body.chunks) && EndInLimits(lim, m.body.last, m.body.trailer))
  }

  predicate LinesInLimits(lim: Limits, chunks: seq<Piece>) {
    chunks == [] || (|chunks[0].size.Text()| + 1 <= lim.maxHeader && LinesInLimits(lim, chunks[1..]))
  }

  predicate EndInLimits(lim: Limits, last: SizeLine, trailer: string) {
    && |last.Text()| + 1 <= lim.maxHeader
    && (trailer != "" ==> |trailer| + 3 <= lim.maxHeader)
  }

  lemma {:induction false} ChunksGuarded(lim: Limits, c: Control, chunks: seq<Piece>, last: SizeLine, trailer: string,
                                         rest: string)
    requires c.Valid(lim) && c.state.ReadingChunkSize? && lim.maxBody <= SIZE_MAX
    requires |c.request.body| + |Received(chunks)| <= lim.maxBody
    requires AllSound(chunks) && Announces(last, 0) && Trailing(trailer)
    ensures Guarded(lim, c, Sent(chunks) + (LastBytes(last, trailer) + rest))
       <==> LinesInLimits(lim, chunks) && EndInLimits(lim, last, trailer) && Guarded(lim, START, rest)
    decreases |chunks|
  {
    hide StepOf, InTime, Sound, Announces, LastBytes, Guarded, EndInLimits, Trailing;
    hide Piece.Bytes, SizeLine.Text;
    var end := LastBytes(last, trailer) + rest;
    if chunks == [] {
      LastChunkGuarded(lim, c, last, trailer, rest);
      assert Sent(chunks) + end == end;
    } else {
      var p, others := chunks[0], chunks[1..];
      var after := Sent(others) + end;
      assert Sent(chunks) + end == p.Bytes() + after;
      assert |Received(chunks)| == |p.data| + |Received(others)|;
      var grown := c.(request := c.request.(body := c.request.body + p.data), chunkSize := |p.data|);
      ChunkGuarded(lim, c, p, after);
      ChunksGuarded(lim, grown, others, last, trailer, rest);
    }
  }

  lemma SizeLineInTime(lim: Limits, c: Control, line: SizeLine, n: nat, rest: string)
    requires c.Valid(lim) && c.state.ReadingChunkSize? && lim.maxBody <= SIZE_MAX && Announces(line, n)
    ensures InTime(lim, c, line.Text() + (CRLF + rest)) <==> |line.Text()| + 1 <= lim.maxHeader
  {
    hide Find, StepOf, Announces;
    hide SizeLine.Text;
    SizeStep(lim, c, line, n, rest);
  }

  lemma ChunkGuarded(lim: Limits, c: Control, p: Piece, rest: string)
    requires c.Valid(lim) && c.state.ReadingChunkSize? && lim.maxBody <= SIZE_MAX
    requires Sound(p) && |c.request.body| + |p.data| <= lim.maxBody
    ensures var grown := c.(request := c.request.(body := c.request.body + p.data), chunkSize := |p.data|);
            && grown.Valid(lim)
            && (Guarded(lim, c, p.Bytes() + rest)
                <==> |p.size.Text()| + 1 <= lim.maxHeader && Guarded(lim, grown, rest))
  {
    hide StepOf, InTime, Announces;
    hide SizeLine.Text;
    var n, after := |p.data|, (p.data + CRLF) + rest;
    assert p.Bytes() + rest == p.size.Text() + (CRLF + after);
    SizeStep(lim, c, p.size, n, after);
    SizeLineInTime(lim, c, p.size, n, after);
    var reading := c.(state := ReadingChunkData, chunkSize := n);
    DataStep(lim, reading, p.data, rest);
    DataInTime(lim, reading, after);
  }

  lemma DataInTime(lim: Limits, c: Control, s: string)
    requires c.state.ReadingChunkData? || c.state.ReadingFixedBody?
    ensures InTime(lim, c, s)
  {}

  lemma LastChunkGuarded(lim: Limits, c: Control, last: SizeLine, trailer: string, rest: string)
    requires c.Valid(lim) && c.state.ReadingChunkSize? && lim.maxBody <= SIZE_MAX
    requires Announces(last, 0) && Trailing(trailer)
    ensures Guarded(lim, c, LastBytes(last, trailer) + rest)
       <==> EndInLimits(lim, last, trailer) && Guarded(lim, START, rest)
  {
    hide StepOf, InTime, Announces, Trailing, TrailerBytes;
    hide SizeLine.Text;
    var after := TrailerBytes(trailer) + rest;
    assert LastBytes(last, trailer) + rest == last.Text() + (CRLF + after);
    SizeStep(lim, c, last, 0, after);
    SizeLineInTime(lim, c, last, 0, after);
    var behind := c.(state := ReadingChunkTrailer, chunkSize := 0);
    TrailerRead(lim, behind, trailer, rest);
    TrailerInTime(lim, behind, trailer, rest);
  }

  lemma TrailerInTime(lim: Limits, c: Control, trailer: string, rest: string)
    requires c.Valid(lim) && c.state.ReadingChunkTrailer? && Trailing(trailer)
    ensures InTime(lim, c, TrailerBytes(trailer) + rest) <==> (trailer != "" ==> |trailer| + 3 <= lim.maxHeader)
  {
    hide Find, StepOf, Trailing, TrailerBytes;
    TrailerRead(lim, c, trailer, rest);
  }

  lemma MessageGuarded(lim: Limits, m: Message, rest: string)
    requires Renderable(m) && Fits(lim, m)
    ensures Guarded(lim, START, Render(m) + rest) <==> InLimits(lim, m) && Guarded(lim, START, rest)
  {
    hide StepOf, HeadText, Renderable, AsInt32, Sent, Received, FieldMap, Find, LinesInLimits, EndInLimits, LastBytes;
    var after := BodyBytes(m.body) + rest;
    var s := HeadText(m) + (BLANK_LINE + after);
    assert Render(m) + rest == s;
    HeadStep(lim, m, after);
    match m.body
    case Empty => assert after == rest;
    case Fixed(text) =>
      if text != "" {
        FixedRead(lim, m, rest);
        DataInTime(lim, Reading(m), after);
      } else {
        assert after == rest;
      }
    case Pieces(chunks, last, trailer) =>
      PiecesSound(m);
      assert after == Sent(chunks) + (LastBytes(last, trailer) + rest);
      ChunksGuarded(lim, Reading(m), chunks, last, trailer, rest);
  }

  predicate AllInLimits(lim: Limits, ms: seq<Message>) {
    ms == [] || (InLimits(lim, ms[0]) && AllInLimits(lim, ms[1..]))
  }

  lemma {:induction false} SessionGuarded(lim: Limits, ms: seq<Message>)
    requires Sendings(lim, ms)
    ensures Guarded(lim, START, RenderAll(ms)) <==> AllInLimits(lim, ms)
  {
    hide Render, Renderable, Fits, InLimits;
    if ms == [] {
      NothingGuarded(lim);
    } else {
      MessageGuarded(lim, ms[0], RenderAll(ms[1..]));
      SessionGuarded(lim, ms[1..]);
    }
  }

  lemma NothingGuarded(lim: Limits)
    ensures Guarded(lim, START, "")
  {}

  /** Whatever way the session is cut into reads, its requests come out in order and
      nothing is left. */
  ghost predicate AlwaysRead(lim: Limits, ms: seq<Message>) {
    forall ops {:trigger Fed(ops)} :: Fed(ops) == RenderAll(ms) ==>
      Drained(lim, Execute(lim, START, "", ops)) == Outcome(ExpectedAll(ms), Pending(START, ""))
  }

  /** That is so exactly when every header block and size line is within the limit. */
  lemma SessionUnderAnyCutting(lim: Limits, ms: seq<Message>)
    requires Sendings(lim, ms)
    ensures AlwaysRead(lim, ms) <==> AllInLimits(lim, ms)
  {
    hide Guarded, Parse, Execute, Sendings, AllInLimits, RenderAll, ExpectedAll;
    SessionRoundTrip(lim, ms);
    SessionGuarded(lim, ms);
    GuardIsExact(lim, START, RenderAll(ms));
    assert CutIndependent(lim, START, RenderAll(ms)) ==> AlwaysRead(lim, ms);
    assert AlwaysRead(lim, ms) ==> CutIndependent(lim, START, RenderAll(ms));
  }
}
