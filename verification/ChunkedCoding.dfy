/** Chunked transfer coding (section 7.1 of RFC 9112). */
module ChunkedCoding {
  import opened Wrappers
  import opened HttpText
  import opened HttpMessage
  import opened HttpRendering
  import opened HttpParsing

  const LAST_CHUNK := "0\r\n\r\n"

  const HEX_DIGITS := "0123456789abcdef"

  function HexChar(d: nat): (c: char)
    requires d < 16
    ensures c == HEX_DIGITS[d] && HexDigit(c) == Some(d) && !('A' <= c <= 'Z')
  {
    if d < 10 then '0' + d as char else 'a' + (d - 10) as char
  }

  /** A size in lower-case hexadecimal, most significant digit first. */
  function Hex(n: nat): (s: string)
    ensures |s| > 0 && NoCapitals(s)
    ensures forall i {:trigger s[i]} :: 0 <= i < |s| ==> HexDigit(s[i]).Some?
  {
    if n < 16 then [HexChar(n)] else Hex(n / 16) + [HexChar(n % 16)]
  }

  function Chunk(data: string): string {
    Hex(|data|) + (CRLF + (data + CRLF))
  }

  function Encoded(chunks: seq<string>): string {
    if chunks == [] then "" else Chunk(chunks[0]) + Encoded(chunks[1..])
  }

  function Concat(chunks: seq<string>): string {
    if chunks == [] then "" else chunks[0] + Concat(chunks[1..])
  }

  /** An empty chunk would be the terminal one, so callers never ask for it. */
  method AppendHttpChunk(out: string, data: string) returns (r: string)
    requires data != ""
    ensures r == out + Chunk(data)
  {
    r := out + Hex(|data|) + CRLF;
    r := r + data;
    r := r + CRLF;
    assert r == out + Chunk(data);
  }

  /** What is appended completes a chunked request, whatever it has brought so far. */
  method AppendFinalHttpChunk(out: string) returns (r: string)
    ensures out <= r
    ensures forall lim: Limits, c: Control, rest: string ::
              c.Valid(lim) && c.state.ReadingChunkSize? && lim.maxBody <= SIZE_MAX ==>
                NextOf(lim, c, r[|out|..] + rest) == Called(Complete(Finished(c)), START, rest)
    ensures r == out + LAST_CHUNK
  {
    r := out + LAST_CHUNK;
    assert r[|out|..] == LAST_CHUNK;
    forall lim: Limits, c: Control, rest: string
      | c.Valid(lim) && c.state.ReadingChunkSize? && lim.maxBody <= SIZE_MAX
      ensures NextOf(lim, c, LAST_CHUNK + rest) == Called(Complete(Finished(c)), START, rest)
    {
      ReadLastChunk(lim, c, rest);
    }
  }

  // ----- One size line --------------------------------------------------------------

  /** A size line as a client may send it. */
  datatype SizeLine = SizeLine(front: string, digits: string, back: string, extension: string) {
    function Text(): string {
      front + (digits + (back + extension))
    }
  }

  /** The line announces n: hexadecimal digits in either case, leading zeros, blanks on
      both sides, and perhaps an extension behind a semicolon. */
  ghost predicate Announces(line: SizeLine, n: nat) {
    && AllBlank(line.front) && AllBlank(line.back)
    && (exists k: nat :: Spells(line.digits, Zeros(k) + Hex(n)))
    && (line.extension == "" || line.extension[0] == ';')
    && Lacks(line.Text(), '\n')
  }

  lemma SameDigit(sent: char, small: char)
    requires SameLetter(sent, small) && HexDigit(small).Some?
    ensures HexDigit(sent) == HexDigit(small)
  {}

  lemma {:induction false} ZeroDigits(digits: string, k: nat)
    requires Spells(digits, Zeros(k))
    ensures HexValue(digits) == Ok(0)
  {
    if k > 0 {
      assert digits[..k] == digits;
      var front := digits[..k - 1];
      assert SameLetter(digits[k - 1], Zeros(k)[k - 1]);
      ZeroDigits(front, k - 1);
    }
  }

  /** Parsing the digits gives the number back, or says that it cannot fit. */
  lemma {:induction false} HexRoundTrip(digits: string, k: nat, n: nat)
    requires Spells(digits, Zeros(k) + Hex(n))
    ensures digits != "" && forall i {:trigger digits[i]} :: 0 <= i < |digits| ==> HexDigit(digits[i]).Some?
    ensures HexValue(digits) == if n <= SIZE_MAX then Ok(n) else Err(BODY_TOO_LARGE)
    decreases n
  {
    hide HexDigit, Spells, Hex, HexValue, HexAppend;
    var last := |digits| - 1;
    LastDigit(digits, k, n);
    var front, c := digits[..last], digits[last];
    ValueStep(digits);
    if n < 16 {
      ZeroDigits(front, k);
      AppendStep(0, c, n);
    } else {
      HexRoundTrip(front, k, n / 16);
      assert 16 * (n / 16) + n % 16 == n;
      if n / 16 <= SIZE_MAX { AppendStep(n / 16, c, n); }
    }
  }

  lemma ValueStep(digits: string)
    requires digits != ""
    ensures var before := HexValue(digits[..|digits| - 1]);
            HexValue(digits) == if before.Err? then before else HexAppend(before.value, digits[|digits| - 1])
  {}

  lemma AppendStep(value: nat, c: char, n: nat)
    requires value <= SIZE_MAX && HexDigit(c) == Some(n % 16) && n == 16 * value + n % 16
    ensures HexAppend(value, c) == if n <= SIZE_MAX then Ok(n) else Err(BODY_TOO_LARGE)
  {
    hide HexDigit;
    var r := HexAppend(value, c);
  }

  /** The last digit, and what is left without it. */
  lemma LastDigit(digits: string, k: nat, n: nat)
    requires Spells(digits, Zeros(k) + Hex(n))
    ensures digits != "" && HexDigit(digits[|digits| - 1]) == Some(n % 16)
    ensures var front := digits[..|digits| - 1];
            if n < 16 then Spells(front, Zeros(k)) else Spells(front, Zeros(k) + Hex(n / 16))
    ensures n < 16 ==> forall i {:trigger digits[i]} :: 0 <= i < |digits| ==> HexDigit(digits[i]).Some?
  {
    hide HexDigit;
    var text := Zeros(k) + Hex(n);
    var last := |digits| - 1;
    assert text[last] == HexChar(n % 16);
    SameDigit(digits[last], text[last]);
    var rest := if n < 16 then Zeros(k) else Zeros(k) + Hex(n / 16);
    assert text == rest + [HexChar(n % 16)];
    assert NoCapitals(rest) by {
      forall i | 0 <= i < |rest|
        ensures !('A' <= rest[i] <= 'Z')
      {
        assert rest[i] == text[i];
      }
    }
    if n < 16 {
      forall i | 0 <= i < |digits|
        ensures HexDigit(digits[i]).Some?
      {
        ZeroIsDigit();
        SameDigit(digits[i], text[i]);
      }
    }
  }

  lemma ZeroIsDigit()
    ensures HexDigit('0') == Some(0)
  {}

  /** No white space, separator or line break is a hexadecimal digit. */
  lemma PlainDigits(digits: string)
    requires |digits| > 0
    requires forall i {:trigger digits[i]} :: 0 <= i < |digits| ==> HexDigit(digits[i]).Some?
    ensures Lacks(digits, ';') && Lacks(digits, '\n') && Trimmed(digits)
  {
    hide HexDigit;
    SeparatorsAreNotDigits();
    assert HexDigit(digits[0]).Some? && HexDigit(digits[|digits| - 1]).Some?;
  }

  lemma SeparatorsAreNotDigits()
    ensures HexDigit('\r').None? && HexDigit('\n').None? && HexDigit(';').None?
    ensures HexDigit(' ').None? && HexDigit('\t').None?
  {}

  /** What a size line is cut down to. */
  lemma DigitsOfLine(line: SizeLine)
    requires AllBlank(line.front) && AllBlank(line.back) && Lacks(line.digits, ';') && Trimmed(line.digits)
    requires line.extension == "" || line.extension[0] == ';'
    ensures var text := line.Text();
            var semicolon := Find(text, ";", 0);
            Trim(if semicolon.Some? then text[..semicolon.value] else text) == line.digits
  {
    hide Find, Trim;
    var plain := line.front + line.digits + line.back;
    assert Lacks(plain, ';') by {
      LacksConcat(line.front, line.digits, ';');
      LacksConcat(line.front + line.digits, line.back, ';');
    }
    assert line.Text() == plain + line.extension;
    assert Stripped(plain, line.digits);
    StrippedOnce(plain, line.digits);
    if line.extension == "" {
      assert line.Text() == plain;
      FindNoChar(plain, ';');
    } else {
      assert line.extension == ";" + line.extension[1..];
      FindChar(plain, ';', line.extension[1..]);
      assert line.Text()[..|plain|] == plain;
    }
  }

  lemma SizeAnnounced(line: SizeLine, n: nat)
    requires Announces(line, n)
    ensures ChunkSize(line.Text()) == if n <= SIZE_MAX then Ok(n) else Err(BODY_TOO_LARGE)
  {
    hide Find, Hex, HexValue, Spells, HexDigit, Lacks, AllBlank, Trim, Trimmed;
    var k: nat :| Spells(line.digits, Zeros(k) + Hex(n));
    HexRoundTrip(line.digits, k, n);
    PlainDigits(line.digits);
    DigitsOfLine(line);
  }

  lemma BreakAt(buf: string, j: nat)
    requires j + 2 <= |buf| && buf[j] == '\r' && buf[j + 1] == '\n'
    ensures Occurs(buf, CRLF, j)
  {
    assert buf[j..j + 2] == [buf[j], buf[j + 1]];
  }

  lemma NoBreakAt(buf: string, j: nat)
    requires j + 1 < |buf| && buf[j + 1] != '\n'
    ensures !Occurs(buf, CRLF, j)
  {
    assert j + 2 <= |buf| ==> buf[j..j + 2][1] == buf[j + 1];
  }

  /** The first line break is the one behind a line without line feeds. */
  lemma BreakBehind(line: string, rest: string)
    requires Lacks(line, '\n')
    ensures Find(line + (CRLF + rest), CRLF, 0) == Some(|line|)
  {
    hide Find, Occurs;
    var buf := line + (CRLF + rest);
    BreakAt(buf, |line|);
    forall j | 0 <= j < |line|
      ensures !Occurs(buf, CRLF, j)
    {
      assert buf[j + 1] == if j + 1 < |line| then line[j + 1] else '\r';
      NoBreakAt(buf, j);
    }
    FindAt(buf, CRLF, 0, |line|);
  }

  /** The size line of n announces n. */
  lemma SizeStep(lim: Limits, c: Control, line: SizeLine, n: nat, rest: string)
    requires c.Valid(lim) && c.state.ReadingChunkSize? && lim.maxBody <= SIZE_MAX && Announces(line, n)
    ensures var used := |line.Text()| + 2;
            var buf := line.Text() + (CRLF + rest);
            && Find(buf, CRLF, 0) == Some(|line.Text()|)
            && buf[used..] == rest
            && StepOf(lim, c, buf) ==
                 (if n == 0 then Advance(c.(state := ReadingChunkTrailer, chunkSize := 0), used)
                  else if |c.request.body| + n <= lim.maxBody then
                    Advance(c.(state := ReadingChunkData, chunkSize := n), used)
                  else Fail(BODY_TOO_LARGE, used))
  {
    BreakBehind(line.Text(), rest);
    SizeAnnounced(line, n);
    hide Find, Announces, ChunkSize;
    hide SizeLine.Text;
    var text := line.Text();
    var buf := text + (CRLF + rest);
    assert buf[..|text|] == text;
  }

  // ----- A whole chunk ----------------------------------------------------------------

  /** A chunk as a client may send it. */
  datatype Piece = Piece(size: SizeLine, data: string) {
    function Bytes(): string {
      size.Text() + (CRLF + (data + CRLF))
    }
  }

  ghost predicate Sound(p: Piece) {
    p.data != "" && Announces(p.size, |p.data|)
  }

  /** Reading one chunk appends its data to the body, or fails if it is too long. */
  lemma ReadChunk(lim: Limits, c: Control, p: Piece, rest: string)
    requires c.Valid(lim) && c.state.ReadingChunkSize? && lim.maxBody <= SIZE_MAX && Sound(p)
    ensures var grown := c.(request := c.request.(body := c.request.body + p.data), chunkSize := |p.data|);
            if |c.request.body| + |p.data| <= lim.maxBody then
              grown.Valid(lim) && NextOf(lim, c, p.Bytes() + rest) == NextOf(lim, grown, rest)
            else
              NextOf(lim, c, p.Bytes() + rest)
                == Called(Error(BODY_TOO_LARGE), START, (p.data + CRLF) + rest)
  {
    hide StepOf, Announces;
    hide SizeLine.Text;
    var n, after := |p.data|, (p.data + CRLF) + rest;
    assert p.Bytes() + rest == p.size.Text() + (CRLF + after);
    SizeStep(lim, c, p.size, n, after);
    if |c.request.body| + n <= lim.maxBody {
      var reading := c.(state := ReadingChunkData, chunkSize := n);
      DataStep(lim, reading, p.data, rest);
    }
  }

  lemma DataStep(lim: Limits, c: Control, data: string, rest: string)
    requires c.Valid(lim) && c.state.ReadingChunkData? && c.chunkSize == |data|
    ensures StepOf(lim, c, (data + CRLF) + rest)
         == Advance(c.(state := ReadingChunkSize, request := c.request.(body := c.request.body + data)), |data| + 2)
    ensures ((data + CRLF) + rest)[|data| + 2..] == rest
  {
    var buf := (data + CRLF) + rest;
    assert buf[..|data|] == data;
  }

  /** Data that is not followed by a line break is refused. */
  lemma DataUnbroken(lim: Limits, c: Control, data: string, rest: string)
    requires c.Valid(lim) && c.state.ReadingChunkData? && c.chunkSize == |data|
    requires |rest| >= 2 && rest[..2] != "\r\n"
    ensures NextOf(lim, c, data + rest).result.Error? && NextOf(lim, c, data + rest).result.error.code == 400
  {
    var buf := data + rest;
    assert buf[|data|] == rest[0] && buf[|data| + 1] == rest[1];
    assert rest[..2] == [rest[0], rest[1]];
  }

  // ----- The end of the body ------------------------------------------------------------

  /** Trailer lines and the blank line behind them; without trailers, an empty line. */
  function TrailerBytes(trailer: string): string {
    if trailer == "" then CRLF else trailer + BLANK_LINE
  }

  predicate Trailing(trailer: string) {
    LinesOpen(trailer) && (trailer != "" ==> trailer[0] != '\r')
  }

  lemma NoBreakAtStart(buf: string)
    requires buf != "" && buf[0] != '\r'
    ensures Find(buf, CRLF, 0) != Some(0)
  {
    hide Find;
    assert |buf| >= 2 ==> buf[0..2][0] == buf[0];
    assert !Occurs(buf, CRLF, 0);
  }

  /** A trailer completes the request, and what it says is dropped. */
  lemma TrailerRead(lim: Limits, c: Control, trailer: string, rest: string)
    requires c.Valid(lim) && c.state.ReadingChunkTrailer? && Trailing(trailer)
    ensures var buf := TrailerBytes(trailer) + rest;
            && StepOf(lim, c, buf) == Done(Finished(c), |TrailerBytes(trailer)|)
            && buf[|TrailerBytes(trailer)|..] == rest
            && (trailer == "" ==> Find(buf, CRLF, 0) == Some(0))
            && (trailer != "" ==> Find(buf, CRLF, 0) != Some(0) && Find(buf, BLANK_LINE, 0) == Some(|trailer|))
  {
    hide Find, LinesOpen;
    var buf := TrailerBytes(trailer) + rest;
    if trailer == "" {
      assert buf[0..2] == CRLF;
      FindAt(buf, CRLF, 0, 0);
    } else {
      assert buf == trailer + (BLANK_LINE + rest);
      BlankLineBehind(trailer, rest);
      var found := Find(buf, CRLF, 0);
      assert buf[|trailer|..|trailer| + 2] == CRLF;
      assert Occurs(buf, CRLF, |trailer|);
      assert buf[0] == trailer[0];
      NoBreakAtStart(buf);
    }
  }

  function LastBytes(size: SizeLine, trailer: string): string {
    size.Text() + (CRLF + TrailerBytes(trailer))
  }

  /** A last chunk completes the request and leaves what follows untouched. */
  lemma ReadLast(lim: Limits, c: Control, size: SizeLine, trailer: string, rest: string)
    requires c.Valid(lim) && c.state.ReadingChunkSize? && lim.maxBody <= SIZE_MAX
    requires Announces(size, 0) && Trailing(trailer)
    ensures NextOf(lim, c, LastBytes(size, trailer) + rest) == Called(Complete(Finished(c)), START, rest)
  {
    hide StepOf, Announces, Trailing, TrailerBytes;
    hide SizeLine.Text;
    var after := TrailerBytes(trailer) + rest;
    assert LastBytes(size, trailer) + rest == size.Text() + (CRLF + after);
    SizeStep(lim, c, size, 0, after);
    TrailerRead(lim, c.(state := ReadingChunkTrailer, chunkSize := 0), trailer, rest);
  }

  /** The size line the writer sends. */
  function Plain(n: nat): SizeLine {
    SizeLine("", Hex(n), "", "")
  }

  lemma PlainAnnounces(n: nat)
    ensures Announces(Plain(n), n) && Plain(n).Text() == Hex(n)
  {
    hide Hex, HexDigit;
    assert Zeros(0) + Hex(n) == Hex(n);
    assert Spells(Hex(n), Zeros(0) + Hex(n));
    PlainDigits(Hex(n));
    assert "" + (Hex(n) + ("" + "")) == Hex(n);
  }

  lemma ReadLastChunk(lim: Limits, c: Control, rest: string)
    requires c.Valid(lim) && c.state.ReadingChunkSize? && lim.maxBody <= SIZE_MAX
    ensures NextOf(lim, c, LAST_CHUNK + rest) == Called(Complete(Finished(c)), START, rest)
  {
    hide NextOf, Finished, Announces, Trailing;
    PlainAnnounces(0);
    PlainEnd();
    ReadLast(lim, c, Plain(0), "", rest);
  }

  lemma PlainEnd()
    ensures LAST_CHUNK == LastBytes(Plain(0), "") && Trailing("")
  {
    ZeroDigit();
    hide Hex;
    assert Plain(0).Text() == "" + ("0" + ("" + ""));
    assert LastBytes(Plain(0), "") == "0" + (CRLF + CRLF);
  }

  lemma ZeroDigit()
    ensures Hex(0) == "0"
  {}

  // ----- The round trip -----------------------------------------------------------------

  function Sent(ps: seq<Piece>): string {
    if ps == [] then "" else ps[0].Bytes() + Sent(ps[1..])
  }

  function Received(ps: seq<Piece>): string {
    if ps == [] then "" else ps[0].data + Received(ps[1..])
  }

  ghost predicate AllSound(ps: seq<Piece>) {
    forall i {:trigger ps[i]} :: 0 <= i < |ps| ==> Sound(ps[i])
  }

  /** The parser gives back the concatenation of the chunks exactly when it fits the
      body limit, and otherwise refuses the body. */
  lemma {:induction false} PiecesRoundTrip(lim: Limits, c: Control, ps: seq<Piece>, size: SizeLine, trailer: string,
                                           rest: string)
    requires c.Valid(lim) && c.state.ReadingChunkSize? && lim.maxBody <= SIZE_MAX
    requires AllSound(ps) && Announces(size, 0) && Trailing(trailer)
    ensures var body := c.request.body + Received(ps);
            var r := NextOf(lim, c, Sent(ps) + (LastBytes(size, trailer) + rest));
            if |body| <= lim.maxBody then
              r == Called(Complete(Parsed(c.request.(body := body, contentLength := AsInt32(|body|)), c.keepAlive)),
                          START, rest)
            else r.result.Error? && r.result.error.code == 413
    decreases |ps|
  {
    hide NextOf, AsInt32, Announces, Trailing, LastBytes, Sound;
    hide Piece.Bytes;
    var end := LastBytes(size, trailer) + rest;
    if ps == [] {
      assert Sent(ps) + end == end;
      assert c.request.body + Received(ps) == c.request.body;
      ReadLast(lim, c, size, trailer, rest);
    } else {
      var p, others := ps[0], ps[1..];
      assert Sent(ps) + end == p.Bytes() + (Sent(others) + end);
      ReadChunk(lim, c, p, Sent(others) + end);
      var body := c.request.body + p.data;
      assert body + Received(others) == c.request.body + Received(ps);
      if |body| <= lim.maxBody {
        PiecesRoundTrip(lim, c.(request := c.request.(body := body), chunkSize := |p.data|), others,
                        size, trailer, rest);
      }
    }
  }

  // ----- What the server writes ---------------------------------------------------------

  function Written(chunks: seq<string>): (ps: seq<Piece>)
    ensures |ps| == |chunks|
    ensures forall i {:trigger ps[i]} :: 0 <= i < |ps| ==> ps[i] == Piece(Plain(|chunks[i]|), chunks[i])
  {
    seq(|chunks|, i requires 0 <= i < |chunks| => Piece(Plain(|chunks[i]|), chunks[i]))
  }

  lemma {:induction false} WrittenBytes(chunks: seq<string>)
    requires forall i {:trigger chunks[i]} :: 0 <= i < |chunks| ==> chunks[i] != ""
    ensures AllSound(Written(chunks))
    ensures Sent(Written(chunks)) == Encoded(chunks) && Received(Written(chunks)) == Concat(chunks)
  {
    hide Announces, Plain;
    hide SizeLine.Text;
    forall i | 0 <= i < |chunks|
      ensures Sound(Written(chunks)[i])
    {
      PlainAnnounces(|chunks[i]|);
    }
    if chunks != [] {
      PlainAnnounces(|chunks[0]|);
      WrittenBytes(chunks[1..]);
      assert Written(chunks)[1..] == Written(chunks[1..]);
    }
  }

  /** What the server streams is read back. */
  lemma ChunksRoundTrip(lim: Limits, c: Control, chunks: seq<string>, rest: string)
    requires c.Valid(lim) && c.state.ReadingChunkSize? && lim.maxBody <= SIZE_MAX
    requires forall i {:trigger chunks[i]} :: 0 <= i < |chunks| ==> chunks[i] != ""
    ensures var body := c.request.body + Concat(chunks);
            var r := NextOf(lim, c, Encoded(chunks) + LAST_CHUNK + rest);
            if |body| <= lim.maxBody then
              r == Called(Complete(Parsed(c.request.(body := body, contentLength := AsInt32(|body|)), c.keepAlive)),
                          START, rest)
            else r.result.Error? && r.result.error.code == 413
  {
    hide NextOf, AsInt32, Hex, Sent, Received, Encoded, Concat;
    WrittenBytes(chunks);
    PlainAnnounces(0);
    PlainEnd();
    hide LastBytes, Announces, Trailing, Plain;
    assert Encoded(chunks) + LAST_CHUNK + rest == Encoded(chunks) + (LastBytes(Plain(0), "") + rest);
    PiecesRoundTrip(lim, c, Written(chunks), Plain(0), "", rest);
  }
}
