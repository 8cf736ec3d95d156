/** How many bytes may wait in the parser's buffer. */
module BufferBound {
  import opened Wrappers
  import opened HttpText
  import opened HttpMessage
  import opened HttpRendering
  import opened HttpParsing
  import opened ChunkedCoding
  import opened Fragmentation
  import opened HttpSession

  function Ceiling(lim: Limits): nat {
    if lim.maxHeader > lim.maxBody + 1 then lim.maxHeader else lim.maxBody + 1
  }

  /** Where no guard fires: a trailer whose first line has not ended. */
  predicate Unguarded(c: Control, buf: string) {
    c.state.ReadingChunkTrailer? && Find(buf, CRLF, 0).None?
  }

  lemma WaitIsBounded(lim: Limits, c: Control, buf: string)
    requires c.Valid(lim) && StepOf(lim, c, buf).Wait?
    ensures |buf| <= Ceiling(lim) || Unguarded(c, buf)
  {
    hide Find;
  }

  /** When a call asks for more, what is left in the buffer is within the header limit or
      the body limit and one byte, except in an unfinished trailer line. */
  lemma {:induction false} LeftIsBounded(lim: Limits, c: Control, buf: string)
    requires c.Valid(lim)
    ensures var r := NextOf(lim, c, buf);
            r.result.NeedMore? ==> |r.rest| <= Ceiling(lim) || Unguarded(r.control, r.rest)
    decreases |buf|
  {
    hide StepOf, Unguarded;
    match StepOf(lim, c, buf)
    case Wait => WaitIsBounded(lim, c, buf);
    case Advance(next, used) => LeftIsBounded(lim, next, buf[used..]);
    case _ =>
  }

  /** A buffer longer than this is never left waiting. */
  ghost predicate WaitsWithin(lim: Limits, c: Control, bound: nat)
    requires c.Valid(lim)
  {
    forall buf: string :: StepOf(lim, c, buf).Wait? ==> |buf| <= bound
  }

  predicate Refused(lim: Limits, c: Control, buf: string, code: nat)
    requires c.Valid(lim)
  {
    NextOf(lim, c, buf).result.Error? && NextOf(lim, c, buf).result.error.code == code
  }

  /** What waits in vain is refused: 431 for a header or trailer block, 400 for a size
      line, that is longer than the header limit and has not ended. */
  lemma OverlongRefused(lim: Limits, c: Control, buf: string)
    requires c.Valid(lim) && |buf| > lim.maxHeader
    ensures c.state.ReadingHeaders? && Find(buf, "\r\n\r\n", 0).None? ==> Refused(lim, c, buf, 431)
    ensures c.state.ReadingChunkSize? && Find(buf, "\r\n", 0).None? ==> Refused(lim, c, buf, 400)
    ensures var first, all := Find(buf, "\r\n", 0), Find(buf, "\r\n\r\n", 0);
            c.state.ReadingChunkTrailer? && first.Some? && first.value > 0 && all.None? ==> Refused(lim, c, buf, 431)
  {
    hide Find, ParseHead, ChunkSize;
  }

  /** A header block whose first line is no request line is refused with 400. */
  lemma NoRequestLine(lim: Limits, c: Control, line: string, rest: string)
    requires c.Valid(lim) && c.state.ReadingHeaders? && Lacks(line, '\r') && line != ""
    requires forall l: RequestLine, query: Option<string> :: !Renders(line, l, query)
    ensures Refused(lim, c, line + (BLANK_LINE + rest), 400)
  {
    hide Find, ParseRequestLine, Renders, Lacks;
    var buf := line + (BLANK_LINE + rest);
    if ParseRequestLine(line).Some? {
      RequestLineExactly(line, ParseRequestLine(line).value);
    }
    FirstLine(line, []);
    NoLineFeedInside(line);
    FirstBlankLine(line, rest);
    assert buf[..|line|] == line && line[..|line|] == line;
  }

  lemma NoLineFeedInside(line: string)
    ensures RenderHead(line, []) == line
  {}

  function Filler(n: nat): (s: string)
    ensures |s| == n && Lacks(s, '\r')
  {
    seq(n, i => 'x')
  }

  lemma FillerWaits(lim: Limits, c: Control, n: nat)
    requires c.Valid(lim) && c.state.ReadingChunkTrailer?
    ensures StepOf(lim, c, Filler(n)).Wait?
  {
    hide Find;
    var s := Filler(n);
    forall j: nat
      ensures !Occurs(s, CRLF, j)
    {
      assert j + 2 <= |s| ==> s[j..j + 2][0] == s[j];
    }
    var found := Find(s, CRLF, 0);
  }

  /** A state bounds what it lets wait exactly when it is not that of the trailer. */
  lemma BoundedExactly(lim: Limits, c: Control)
    requires c.Valid(lim)
    ensures (exists bound: nat :: WaitsWithin(lim, c, bound)) <==> !c.state.ReadingChunkTrailer?
  {
    hide StepOf;
    if c.state.ReadingChunkTrailer? {
      forall bound: nat
        ensures !WaitsWithin(lim, c, bound)
      {
        FillerWaits(lim, c, bound + 1);
      }
    } else {
      forall buf: string | StepOf(lim, c, buf).Wait?
        ensures |buf| <= Ceiling(lim)
      {
        WaitIsBounded(lim, c, buf);
      }
      assert WaitsWithin(lim, c, Ceiling(lim));
    }
  }

  /** Behind any chunked request that has had its last chunk, any number of bytes without
      a line break stays in the buffer. */
  lemma TrailerGrows(lim: Limits, m: Message, n: nat)
    requires Renderable(m) && Fits(lim, m) && m.body.Pieces? && m.body.chunks == []
    ensures var r := NextOf(lim, START, HeadText(m) + (BLANK_LINE + ("0\r\n" + Filler(n))));
            r.result.NeedMore? && r.rest == Filler(n)
  {
    hide StepOf, NextOf, HeadText, Renderable, Filler;
    var after, used := "0\r\n" + Filler(n), |HeadText(m)| + 4;
    HeadStep(lim, m, after);
    NextUnfold(lim, START, HeadText(m) + (BLANK_LINE + after));
    ZeroLine(lim, Reading(m), n);
  }

  lemma ZeroLine(lim: Limits, c: Control, n: nat)
    requires c.Valid(lim) && c.state.ReadingChunkSize? && lim.maxBody <= SIZE_MAX
    ensures var r := NextOf(lim, c, "0\r\n" + Filler(n));
            r.result.NeedMore? && r.rest == Filler(n)
  {
    hide StepOf, NextOf, Filler;
    PlainAnnounces(0);
    assert Hex(0) == "0";
    var buf := "0\r\n" + Filler(n);
    assert buf == Plain(0).Text() + (CRLF + Filler(n));
    SizeStep(lim, c, Plain(0), 0, Filler(n));
    var trailer := c.(state := ReadingChunkTrailer, chunkSize := 0);
    NextUnfold(lim, c, buf);
    FillerWaits(lim, trailer, n);
    NextUnfold(lim, trailer, Filler(n));
  }

  const CODING := "transfer-encoding"
  const CODED := [Field(CODING, CODING, "chunked", "chunked", CRLF)]

  lemma CodedSpells()
    ensures Spells(CODING, CODING) && Spells("chunked", "chunked")
  {}

  lemma CodedSendable()
    ensures AllSendable(CODED)
  {
    CodedSpells();
    StrippedAlready("chunked");
    hide Spells, Stripped;
    assert Lacks("chunked", '\n');
    assert Sendable(CODED[0]);
  }

  lemma StrippedAlready(s: string)
    requires Trimmed(s)
    ensures Stripped(s, s)
  {
    assert AllBlank("") && s == "" + s + "";
  }

  lemma CodedNames()
    ensures Has(CODED, CODING) && !Has(CODED, "connection") && !Has(CODED, "content-length")
  {
    assert Named(CODED[0], CODING);
    assert |"connection"| != |CODING| && |"content-length"| != |CODING|;
  }

  lemma CodedFields()
    ensures AllSendable(CODED) && Says(CODED, UNSAID) && Frames(CODED, Chunked)
  {
    CodedSendable();
    CodedSpells();
    CodedNames();
    hide Mentions, Spells, AllSendable;
  }

  lemma CodedRequest() returns (m: Message)
    ensures Renderable(m) && m.body == Pieces([], Plain(0), "")
  {
    m := Message(RequestLine("POST", "/", "", "HTTP/1.1"), None, CODED, UNSAID, Pieces([], Plain(0), ""));
    CodedFields();
    CodedEnd();
    CodedLine(m.line);
    hide AllSendable, Says, Frames, Announces, AllSound, Trailing, Lacks, KnownVersion;
  }

  lemma CodedEnd()
    ensures AllSound([]) && Announces(Plain(0), 0) && Trailing("")
  {
    PlainAnnounces(0);
  }

  lemma CodedLine(line: RequestLine)
    requires line == RequestLine("POST", "/", "", "HTTP/1.1")
    ensures Lacks(line.verb, ' ') && Lacks(line.verb, '\r') && KnownVersion(line.version)
    ensures Lacks(line.path, '?') && Lacks(line.path, '\r') && Lacks(line.query, '\r')
  {}

  /** So no bound holds for the buffer of every connection, whatever the limits. */
  lemma NoCeiling(lim: Limits, n: nat) returns (s: string)
    requires lim.maxBody <= SIZE_MAX
    ensures NextOf(lim, START, s).result.NeedMore? && |NextOf(lim, START, s).rest| == n
  {
    var m := CodedRequest();
    hide Renderable, NextOf, HeadText;
    TrailerGrows(lim, m, n);
    s := HeadText(m) + (BLANK_LINE + ("0\r\n" + Filler(n)));
  }
}
