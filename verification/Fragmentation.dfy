/** The outcome of a byte stream, however it is cut. */
module Fragmentation {
  import opened Wrappers
  import opened HttpText
  import opened HttpMessage
  import opened HttpParsing
  import opened HttpRendering

  /** How a stream ends: with an error, or waiting for more bytes; either way with
      the bytes no request has used. */
  datatype End = Failed(error: HttpError, left: string) | Pending(control: Control, left: string)

  /** The requests a stream produced, in order, and how it ended. */
  datatype Outcome = Outcome(done: seq<Parsed>, end: End)

  /** What the whole stream means when it is all there at once. */
  function Parse(lim: Limits, c: Control, s: string): (o: Outcome)
    requires c.Valid(lim)
    ensures |o.end.left| <= |s|
    ensures o.end.Pending? ==> o.end.control.Valid(lim)
    decreases |s|
  {
    match StepOf(lim, c, s)
    case Wait => Outcome([], Pending(c, s))
    case Advance(next, used) => Parse(lim, next, s[used..])
    case Done(parsed, used) => After([parsed], Parse(lim, START, s[used..]))
    case Fail(error, used) => Outcome([], Failed(error, s[used..]))
  }

  function After(first: seq<Parsed>, o: Outcome): Outcome {
    o.(done := first + o.done)
  }

  // ----- Any way of feeding the bytes ------------------------------------------------

  /** Bytes arrive, or the parser is asked for the next request. */
  datatype Op = Append(bytes: string) | Next

  function Fed(ops: seq<Op>): string {
    if ops == [] then "" else (if ops[0].Append? then ops[0].bytes else "") + Fed(ops[1..])
  }

  /** Runs the operations in order, up to the first error; the bytes not fed by then
      are left over. */
  function Execute(lim: Limits, c: Control, buf: string, ops: seq<Op>): (o: Outcome)
    requires c.Valid(lim)
    ensures o.end.Pending? ==> o.end.control.Valid(lim)
    decreases |ops|
  {
    if ops == [] then Outcome([], Pending(c, buf))
    else match ops[0]
      case Append(bytes) => Execute(lim, c, buf + bytes, ops[1..])
      case Next =>
        var r := NextOf(lim, c, buf);
        match r.result
        case NeedMore => Execute(lim, r.control, r.rest, ops[1..])
        case Complete(parsed) => After([parsed], Execute(lim, r.control, r.rest, ops[1..]))
        case Error(error) => Outcome([], Failed(error, r.rest + Fed(ops[1..])))
  }

  /** Calls the parser until it asks for more. */
  function Drained(lim: Limits, o: Outcome): Outcome
    requires o.end.Pending? ==> o.end.control.Valid(lim)
  {
    match o.end
    case Failed(_, _) => o
    case Pending(c, left) => After(o.done, Parse(lim, c, left))
  }

  // ----- The condition -----------------------------------------------------------------

  /** The terminator the parser is looking for, if the stream has it, ends at most
      one byte past the header limit. */
  predicate InTime(lim: Limits, c: Control, s: string) {
    match c.state
    case ReadingHeaders => Soon(lim, s, BLANK_LINE)
    case ReadingChunkSize => Soon(lim, s, CRLF)
    case ReadingChunkTrailer => Find(s, CRLF, 0) == Some(0) || Soon(lim, s, BLANK_LINE)
    case _ => true
  }

  predicate Soon(lim: Limits, s: string, pat: string)
    requires |pat| > 0
  {
    match Find(s, pat, 0)
    case None => true
    case Some(i) => i + |pat| - 1 <= lim.maxHeader
  }

  /** At every step of the whole stream. */
  predicate Guarded(lim: Limits, c: Control, s: string)
    requires c.Valid(lim)
    decreases |s|
  {
    && InTime(lim, c, s)
    && match StepOf(lim, c, s)
       case Advance(next, used) => Guarded(lim, next, s[used..])
       case Done(_, used) => Guarded(lim, START, s[used..])
       case _ => true
  }

  // ----- A step on part of the stream ---------------------------------------------------

  /** On a prefix, a step does what it does on the whole, or waits, or both fail
      without consuming anything. */
  ghost predicate Agrees(onPart: Step, onWhole: Step, part: string) {
    || (onPart.Wait? && (onWhole.Advance? || onWhole.Done? ==> onWhole.used > |part|))
    || (onPart == onWhole && (onPart.Fail? || onPart.used <= |part|))
  }

  lemma HeadersOnPrefix(lim: Limits, c: Control, s: string, t: string)
    requires c.Valid(lim) && c.state.ReadingHeaders? && InTime(lim, c, s + t)
    ensures Agrees(StepOf(lim, c, s), StepOf(lim, c, s + t), s)
  {
    hide Find, ParseHead;
    FindInPrefix(s, t, BLANK_LINE, 0);
    var whole := Find(s + t, BLANK_LINE, 0);
    if whole.Some? && whole.value + 4 <= |s| {
      assert (s + t)[..whole.value] == s[..whole.value];
    }
  }

  lemma ChunkSizeOnPrefix(lim: Limits, c: Control, s: string, t: string)
    requires c.Valid(lim) && c.state.ReadingChunkSize? && InTime(lim, c, s + t)
    ensures Agrees(StepOf(lim, c, s), StepOf(lim, c, s + t), s)
  {
    hide Find, ChunkSize;
    FindInPrefix(s, t, CRLF, 0);
    var whole := Find(s + t, CRLF, 0);
    if whole.Some? && whole.value + 2 <= |s| {
      assert (s + t)[..whole.value] == s[..whole.value];
    }
  }

  lemma TrailerOnPrefix(lim: Limits, c: Control, s: string, t: string)
    requires c.Valid(lim) && c.state.ReadingChunkTrailer? && InTime(lim, c, s + t)
    ensures Agrees(StepOf(lim, c, s), StepOf(lim, c, s + t), s)
  {
    hide Find;
    FindInPrefix(s, t, CRLF, 0);
    FindInPrefix(s, t, BLANK_LINE, 0);
    var all := Find(s + t, BLANK_LINE, 0);
    if all.Some? {
      BlankStartsWithCrlf(s + t, all.value);
    }
  }

  lemma BlankStartsWithCrlf(s: string, at: nat)
    requires Occurs(s, BLANK_LINE, at)
    ensures Occurs(s, CRLF, at)
  {
    assert s[at..at + 4][..2] == CRLF;
  }

  lemma FixedBodyOnPrefix(lim: Limits, c: Control, s: string, t: string)
    requires c.Valid(lim) && c.state.ReadingFixedBody?
    ensures Agrees(StepOf(lim, c, s), StepOf(lim, c, s + t), s)
  {
    if c.contentLength <= |s| {
      assert (s + t)[..c.contentLength] == s[..c.contentLength];
    }
  }

  lemma ChunkDataOnPrefix(lim: Limits, c: Control, s: string, t: string)
    requires c.Valid(lim) && c.state.ReadingChunkData?
    ensures Agrees(StepOf(lim, c, s), StepOf(lim, c, s + t), s)
  {
    if c.chunkSize + 2 <= |s| {
      assert (s + t)[..c.chunkSize] == s[..c.chunkSize];
    }
  }

  lemma StepOnPrefix(lim: Limits, c: Control, s: string, t: string)
    requires c.Valid(lim) && InTime(lim, c, s + t)
    ensures Agrees(StepOf(lim, c, s), StepOf(lim, c, s + t), s)
  {
    hide StepOf, Agrees, InTime;
    match c.state
    case ReadingHeaders => HeadersOnPrefix(lim, c, s, t);
    case ReadingChunkSize => ChunkSizeOnPrefix(lim, c, s, t);
    case ReadingChunkTrailer => TrailerOnPrefix(lim, c, s, t);
    case ReadingFixedBody => FixedBodyOnPrefix(lim, c, s, t);
    case ReadingChunkData => ChunkDataOnPrefix(lim, c, s, t);
  }

  /** One call on what has arrived takes the whole stream exactly as far as it gets. */
  lemma {:induction false} CallOnPrefix(lim: Limits, c: Control, s: string, t: string)
    requires c.Valid(lim) && Guarded(lim, c, s + t)
    ensures var r := NextOf(lim, c, s);
            match r.result
            case NeedMore =>
              && Guarded(lim, r.control, r.rest + t)
              && Parse(lim, c, s + t) == Parse(lim, r.control, r.rest + t)
            case Complete(parsed) =>
              && Guarded(lim, r.control, r.rest + t)
              && Parse(lim, c, s + t) == After([parsed], Parse(lim, r.control, r.rest + t))
            case Error(error) => Parse(lim, c, s + t) == Outcome([], Failed(error, r.rest + t))
    decreases |s|
  {
    hide StepOf;
    StepOnPrefix(lim, c, s, t);
    match StepOf(lim, c, s)
    case Wait =>
    case Advance(next, used) =>
      assert (s + t)[used..] == s[used..] + t;
      CallOnPrefix(lim, next, s[used..], t);
    case Done(parsed, used) =>
      assert (s + t)[used..] == s[used..] + t;
    case Fail(error, used) =>
      assert (s + t)[used..] == s[used..] + t;
  }

  /** However the stream is cut and whenever the parser is asked, the requests, the
      keep-alive flags, the first error and the bytes left are those of the whole. */
  lemma {:induction false} AnyCutAgrees(lim: Limits, c: Control, buf: string, ops: seq<Op>)
    requires c.Valid(lim) && Guarded(lim, c, buf + Fed(ops))
    ensures Drained(lim, Execute(lim, c, buf, ops)) == Parse(lim, c, buf + Fed(ops))
    decreases |ops|
  {
    hide Guarded, NextOf, Parse;
    if ops == [] {
      assert buf + Fed(ops) == buf;
    } else if ops[0].Append? {
      assert buf + Fed(ops) == (buf + ops[0].bytes) + Fed(ops[1..]);
      AnyCutAgrees(lim, c, buf + ops[0].bytes, ops[1..]);
    } else {
      assert Fed(ops) == Fed(ops[1..]);
      CallOnPrefix(lim, c, buf, Fed(ops));
      var r := NextOf(lim, c, buf);
      if !r.result.Error? {
        AnyCutAgrees(lim, r.control, r.rest, ops[1..]);
      }
    }
  }

  // ----- The condition is exact ----------------------------------------------------------

  /** What the parser looks for, and where the stream has it. */
  function Terminator(c: Control): string {
    if c.state.ReadingChunkSize? then CRLF else BLANK_LINE
  }

  /** A cut at which the parser has already lost patience. */
  function BadCut(lim: Limits, c: Control, s: string): (b: nat)
    requires c.Valid(lim) && !Guarded(lim, c, s)
    ensures b <= |s|
    decreases |s|
  {
    if !InTime(lim, c, s) then Find(s, Terminator(c), 0).value + |Terminator(c)| - 1
    else match StepOf(lim, c, s)
      case Advance(next, used) => used + BadCut(lim, next, s[used..])
      case Done(_, used) => used + BadCut(lim, START, s[used..])
      case _ => 0
  }

  lemma StepTooLate(lim: Limits, c: Control, s: string)
    requires c.Valid(lim) && !InTime(lim, c, s)
    ensures !StepOf(lim, c, s).Wait? && StepOf(lim, c, s).used > 0
    ensures Find(s, Terminator(c), 0).Some?
    ensures var cut := s[..Find(s, Terminator(c), 0).value + |Terminator(c)| - 1];
            StepOf(lim, c, cut).Fail? && StepOf(lim, c, cut).used == 0
  {
    hide Find, ParseHead, ChunkSize;
    var at := Find(s, Terminator(c), 0).value;
    var cut := s[..at + |Terminator(c)| - 1];
    assert s == cut + s[|cut|..];
    FindInPrefix(cut, s[|cut|..], Terminator(c), 0);
    if c.state.ReadingChunkTrailer? {
      FindInPrefix(cut, s[|cut|..], CRLF, 0);
      BlankStartsWithCrlf(s, at);
    }
  }

  function Following(step: Step): Control {
    if step.Advance? then step.next else START
  }

  /** A step goes on with the rest of the stream. */
  lemma StepThenRest(lim: Limits, c: Control, s: string)
    requires c.Valid(lim)
    ensures var step := StepOf(lim, c, s);
            && (step.Advance? || step.Done? ==>
                  Parse(lim, c, s).end == Parse(lim, Following(step), s[step.used..]).end)
            && (step.Fail? ==> Parse(lim, c, s).end == Failed(step.error, s[step.used..]))
  {}

  lemma FailsNow(lim: Limits, c: Control, s: string)
    requires c.Valid(lim) && !InTime(lim, c, s)
    ensures var b := BadCut(lim, c, s);
            var early := Parse(lim, c, s[..b]);
            early.end.Failed? && |early.end.left| + |s| - b > |Parse(lim, c, s).end.left|
  {
    hide StepOf, InTime, Parse, Find;
    StepTooLate(lim, c, s);
    StepThenRest(lim, c, s);
    StepThenRest(lim, c, s[..BadCut(lim, c, s)]);
  }

  /** Cut there, the parser fails with more bytes left than the whole stream leaves. */
  lemma {:induction false} FailsEarly(lim: Limits, c: Control, s: string)
    requires c.Valid(lim) && !Guarded(lim, c, s)
    ensures var b := BadCut(lim, c, s);
            var early := Parse(lim, c, s[..b]);
            early.end.Failed? && |early.end.left| + |s| - b > |Parse(lim, c, s).end.left|
    decreases |s|
  {
    hide StepOf, InTime, Parse;
    if !InTime(lim, c, s) {
      FailsNow(lim, c, s);
    } else {
      var b, step := BadCut(lim, c, s), StepOf(lim, c, s);
      var rest, used := s[step.used..], step.used;
      assert b == used + BadCut(lim, Following(step), rest);
      FailsEarly(lim, Following(step), rest);
      hide BadCut, Guarded;
      assert s == s[..b] + s[b..];
      StepOnPrefix(lim, c, s[..b], s[b..]);
      StepThenRest(lim, c, s);
      StepThenRest(lim, c, s[..b]);
      assert s[..b][used..] == rest[..b - used];
    }
  }

  /** A call when everything has arrived. */
  lemma {:induction false} CallOnWhole(lim: Limits, c: Control, s: string)
    requires c.Valid(lim)
    ensures var r := NextOf(lim, c, s);
            match r.result
            case NeedMore => Parse(lim, c, s).end.Pending?
            case Complete(parsed) => Parse(lim, c, s) == After([parsed], Parse(lim, r.control, r.rest))
            case Error(error) => Parse(lim, c, s) == Outcome([], Failed(error, r.rest))
    decreases |s|
  {
    hide StepOf;
    match StepOf(lim, c, s)
    case Advance(next, used) => CallOnWhole(lim, next, s[used..]);
    case _ =>
  }

  function Calls(k: nat): seq<Op> {
    if k == 0 then [] else [Next] + Calls(k - 1)
  }

  /** Enough calls reach the error of what has arrived. */
  lemma {:induction false} CallsReachError(lim: Limits, c: Control, buf: string, k: nat, tail: seq<Op>)
    requires c.Valid(lim) && Parse(lim, c, buf).end.Failed? && k > |Parse(lim, c, buf).done|
    ensures Execute(lim, c, buf, Calls(k) + tail).end.Failed?
    ensures |Execute(lim, c, buf, Calls(k) + tail).end.left| == |Parse(lim, c, buf).end.left| + |Fed(tail)|
    decreases k
  {
    hide NextOf, Parse;
    CallOnWhole(lim, c, buf);
    var ops := Calls(k) + tail;
    assert ops[0] == Next && ops[1..] == Calls(k - 1) + tail;
    var r := NextOf(lim, c, buf);
    if r.result.Complete? {
      CallsReachError(lim, r.control, r.rest, k - 1, tail);
    } else {
      FedCalls(k - 1, tail);
    }
  }

  lemma {:induction false} FedCalls(k: nat, tail: seq<Op>)
    ensures Fed(Calls(k) + tail) == Fed(tail)
  {
    var ops := Calls(k) + tail;
    if k == 0 {
      assert ops == tail;
    } else {
      assert ops[0] == Next && ops[1..] == Calls(k - 1) + tail;
      FedCalls(k - 1, tail);
    }
  }

  /** The outcome is the same for every way of feeding these bytes. */
  ghost predicate CutIndependent(lim: Limits, c: Control, s: string)
    requires c.Valid(lim)
  {
    forall ops {:trigger Fed(ops)} :: Fed(ops) == s ==>
      Drained(lim, Execute(lim, c, "", ops)) == Parse(lim, c, s)
  }

  /** Fragmentation independence holds exactly when every terminator comes in time. */
  lemma GuardIsExact(lim: Limits, c: Control, s: string)
    requires c.Valid(lim)
    ensures CutIndependent(lim, c, s) <==> Guarded(lim, c, s)
  {
    hide Guarded, Parse, NextOf;
    if Guarded(lim, c, s) {
      forall ops {:trigger Fed(ops)} | Fed(ops) == s
        ensures Drained(lim, Execute(lim, c, "", ops)) == Parse(lim, c, s)
      {
        assert "" + Fed(ops) == s;
        AnyCutAgrees(lim, c, "", ops);
      }
    } else {
      var ops := BadSchedule(lim, c, s);
      assert Fed(ops) == s;
    }
  }

  /** Feed up to the bad cut, call until the error, then feed the rest. */
  lemma BadSchedule(lim: Limits, c: Control, s: string) returns (ops: seq<Op>)
    requires c.Valid(lim) && !Guarded(lim, c, s)
    ensures Fed(ops) == s
    ensures Drained(lim, Execute(lim, c, "", ops)) != Parse(lim, c, s)
  {
    hide Guarded, Parse, NextOf, BadCut, Execute, Fed, Calls, ScheduleWith;
    var b := BadCut(lim, c, s);
    FailsEarly(lim, c, s);
    var k := |Parse(lim, c, s[..b]).done| + 1;
    var rest := s[b..];
    ops := ScheduleWith(s[..b], k, rest);
    assert s[..b] + rest == s;
    CallsReachError(lim, c, s[..b], k, [Append(rest)]);
    ScheduleRuns(lim, c, s[..b], k, rest);
    FailedStays(lim, Execute(lim, c, "", ops));
  }

  lemma FailedStays(lim: Limits, o: Outcome)
    requires o.end.Failed?
    ensures Drained(lim, o) == o
  {}

  function ScheduleWith(first: string, k: nat, rest: string): (ops: seq<Op>)
    ensures |ops| > 0 && ops[0] == Append(first) && ops[1..] == Calls(k) + [Append(rest)]
  {
    [Append(first)] + (Calls(k) + [Append(rest)])
  }

  lemma ScheduleRuns(lim: Limits, c: Control, first: string, k: nat, rest: string)
    requires c.Valid(lim)
    ensures Fed(ScheduleWith(first, k, rest)) == first + rest
    ensures Fed([Append(rest)]) == rest
    ensures Execute(lim, c, "", ScheduleWith(first, k, rest))
         == Execute(lim, c, first, Calls(k) + [Append(rest)])
  {
    hide ScheduleWith, Calls;
    FedCalls(k, [Append(rest)]);
    assert [Append(rest)][1..] == [];
    assert rest + Fed([]) == rest;
    assert "" + first == first;
  }

  // ----- Streams outside the condition ------------------------------------------------------

  lemma FirstBlankLine(line: string, rest: string)
    requires Lacks(line, '\r')
    ensures Find(line + (BLANK_LINE + rest), BLANK_LINE, 0) == Some(|line|)
  {
    hide Find;
    var s := line + (BLANK_LINE + rest);
    forall j | 0 <= j < |line|
      ensures !Occurs(s, BLANK_LINE, j)
    {
      assert j + 4 <= |s| ==> s[j..j + 4][0] == line[j];
    }
    assert s[|line|..|line| + 4] == BLANK_LINE;
    FindAt(s, BLANK_LINE, 0, |line|);
  }

  /** A request line that is too long for the header limit is accepted when it comes
      with its blank line, and refused when the cut falls before the last byte. */
  lemma LongRequest(lim: Limits, line: RequestLine, query: Option<string>)
    requires line.verb != "" && Lacks(line.verb, ' ') && Lacks(line.verb, '\r') && KnownVersion(line.version)
    requires line.path != "" && line.path[0] == '/' && Lacks(line.path, '?') && Lacks(line.path, '\r')
    requires line.query == (if query.Some? then query.value else "") && Lacks(line.query, '\r')
    requires |RenderLine(line.verb, Target(line.path, query), line.version)| + 3 > lim.maxHeader
    ensures var text := RenderLine(line.verb, Target(line.path, query), line.version);
            var request := HttpRequest(line.verb, line.path, line.query, map[], "", -1);
            Parse(lim, START, text + BLANK_LINE)
              == Outcome([Parsed(request, line.version == "HTTP/1.1")], Pending(START, ""))
    ensures !CutIndependent(lim, START, RenderLine(line.verb, Target(line.path, query), line.version) + BLANK_LINE)
  {
    hide Find, Lacks, ParseHead, CutIndependent, RenderLine, Target, KnownVersion;
    var text := RenderLine(line.verb, Target(line.path, query), line.version);
    LineLacksReturn(line.verb, line.path, query, line.version);
    FirstBlankLine(text, "");
    assert BLANK_LINE + "" == BLANK_LINE;
    RequestRoundTrip(line, query, [], text, UNSAID, NoBody, lim.maxBody);
    var s := text + BLANK_LINE;
    assert s[..|text|] == text && s[|text| + 4..] == "";
    NothingLeft(lim);
    GuardIsExact(lim, START, s);
  }

  lemma NothingLeft(lim: Limits)
    ensures Parse(lim, START, "") == Outcome([], Pending(START, ""))
  {}

  /** No limit is large enough: some request is cut-dependent. */
  lemma EveryLimitHasOne(lim: Limits) returns (s: string)
    ensures |Parse(lim, START, s).done| == 1 && !CutIndependent(lim, START, s)
  {
    hide Parse, CutIndependent;
    var path := "/" + seq(lim.maxHeader, i => 'a');
    LongRequest(lim, RequestLine("GET", path, "", "HTTP/1.1"), None);
    s := RenderLine("GET", path, "HTTP/1.1") + BLANK_LINE;
  }
}
