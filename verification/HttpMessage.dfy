/** What the bytes of a request mean. */
module HttpMessage {
  import opened Wrappers
  import opened HttpText

  const SIZE_MAX: nat := 0xFFFF_FFFF_FFFF_FFFF
  const MAX_HEADER_COUNT: nat := 100

  datatype HttpRequest = HttpRequest(
    verb: string, path: string, query: string, headers: map<string, string>, body: string, contentLength: int)

  const EMPTY_REQUEST := HttpRequest("", "", "", map[], "", -1)

  datatype HttpError = HttpError(code: nat, text: string, message: string)

  function BadRequest(message: string): HttpError {
    HttpError(400, "Bad Request", message)
  }

  function TooLarge(message: string): HttpError {
    HttpError(431, "Request Header Fields Too Large", message)
  }

  const BODY_TOO_LARGE := HttpError(413, "Payload Too Large", "Body too large")
  const UNSUPPORTED_CODING := HttpError(501, "Not Implemented", "Unsupported Transfer-Encoding")

  // ----- Request line ---------------------------------------------------------------

  datatype RequestLine = RequestLine(verb: string, path: string, query: string, version: string)

  /** verb SP target SP version, the target being everything between the first and
      the last space. */
  function ParseRequestLine(line: string): Option<RequestLine> {
    match (Find(line, " ", 0), FindLast(line, ' '))
    case (Some(space1), Some(space2)) =>
      if space1 == space2 then None
      else
        FirstBeforeLast(line, space1, space2);
        var verb, target, version := line[..space1], line[space1 + 1..space2], line[space2 + 1..];
        if verb == "" || target == "" || (version != "HTTP/1.0" && version != "HTTP/1.1") then None
        else
          var mark := Find(target, "?", 0);
          var path := if mark.Some? then target[..mark.value] else target;
          var query := if mark.Some? then target[mark.value + 1..] else "";
          if path != "" && path[0] == '/' then Some(RequestLine(verb, path, query, version)) else None
    case _ => None
  }

  lemma FirstBeforeLast(line: string, first: nat, last: nat)
    requires Find(line, " ", 0) == Some(first) && FindLast(line, ' ') == Some(last)
    ensures first <= last
  {
    assert line[first..first + 1] == " ";
    assert line[first] == ' ';
  }

  // ----- Header lines -----------------------------------------------------------------

  predicate IsTokenChar(c: char) {
    32 as char < c < 127 as char && c != ':'
  }

  /** One line, without the carriage return that may end it. */
  function Unterminated(line: string): string {
    if line != "" && line[|line| - 1] == '\r' then line[..|line| - 1] else line
  }

  /** Name and value of a header line. */
  function ParseHeaderLine(line: string): Result<(string, string), HttpError> {
    match Find(line, ":", 0)
    case None => Err(BadRequest("Malformed header"))
    case Some(colon) =>
      if colon == 0 then Err(BadRequest("Malformed header"))
      else
        var key := Lower(line[..colon]);
        if forall i :: 0 <= i < |key| ==> IsTokenChar(key[i]) then Ok((key, Trim(line[colon + 1..])))
        else Err(BadRequest("Malformed header name"))
  }

  /** The header lines from `pos` on, added to what earlier lines defined. */
  function HeadersFrom(block: string, pos: nat, count: nat, headers: map<string, string>)
    : Result<map<string, string>, HttpError>
    requires pos <= |block|
    decreases |block| - pos
  {
    if pos == |block| then Ok(headers)
    else
      var newline := Find(block, "\n", pos);
      var end := if newline.Some? then newline.value else |block|;
      var next := if newline.Some? then newline.value + 1 else |block|;
      var line := Unterminated(block[pos..end]);
      if line == "" then HeadersFrom(block, next, count, headers)
      else if count + 1 > MAX_HEADER_COUNT then Err(TooLarge("Too many headers"))
      else match ParseHeaderLine(line)
        case Err(e) => Err(e)
        case Ok(field) => HeadersFrom(block, next, count + 1, headers[field.0 := field.1])
  }

  // ----- Framing ------------------------------------------------------------------------

  datatype Framing = NoBody | FixedBody(length: nat) | Chunked

  datatype Head = Head(request: HttpRequest, keepAlive: bool, framing: Framing)

  function KeepAlive(version: string, headers: map<string, string>): bool {
    var present := "connection" in headers;
    var close := present && HasToken(headers["connection"], "close");
    var keep := present && HasToken(headers["connection"], "keep-alive");
    (version == "HTTP/1.1" && !close) || (version == "HTTP/1.0" && keep)
  }

  predicate IsSpace(c: char) {
    c == ' ' || 9 as char <= c <= 13 as char
  }

  function SkipSpace(s: string): string {
    if s != "" && IsSpace(s[0]) then SkipSpace(s[1..]) else s
  }

  predicate IsDigit(c: char) {
    '0' <= c <= '9'
  }

  /** Value of a run of decimal digits. */
  function Decimal(s: string): nat
    requires forall i :: 0 <= i < |s| ==> IsDigit(s[i])
  {
    if s == "" then 0
    else
      assert IsDigit(s[|s| - 1]);
      Decimal(s[..|s| - 1]) * 10 + (s[|s| - 1] - '0') as nat
  }

  /** The C string in a buffer: everything before the first zero byte. */
  function CString(s: string): string {
    match Find(s, [0 as char], 0)
    case None => s
    case Some(i) => s[..i]
  }

  /** strtoull in base ten, accepted only when it uses the whole C string:
      leading white space and a sign are allowed, a value past 64 bits saturates,
      and a minus sign negates modulo 2^64. */
  function ParseUnsigned(s: string): Option<nat> {
    var t := SkipSpace(CString(s));
    var digits := if t != "" && (t[0] == '+' || t[0] == '-') then t[1..] else t;
    if digits == "" || exists i :: 0 <= i < |digits| && !IsDigit(digits[i]) then None
    else
      var v := Decimal(digits);
      if v > SIZE_MAX then Some(SIZE_MAX)
      else if t[0] == '-' && v > 0 then Some(SIZE_MAX + 1 - v)
      else Some(v)
  }

  /** A 64-bit size cast to a 32-bit signed integer. */
  function AsInt32(n: nat): (r: int)
    ensures -0x8000_0000 <= r < 0x8000_0000 && (n - r) % 0x1_0000_0000 == 0
  {
    var low := n % 0x1_0000_0000;
    if low >= 0x8000_0000 then low - 0x1_0000_0000 else low
  }

  function ParseLength(field: string, maxBody: nat): Result<nat, HttpError> {
    var value := Trim(field);
    if value == "" || value[0] == '-' then Err(BadRequest("Invalid Content-Length"))
    else match ParseUnsigned(value)
      case None => Err(BadRequest("Invalid Content-Length"))
      case Some(n) => if n > maxBody then Err(BODY_TOO_LARGE) else Ok(n)
  }

  function ParseFraming(headers: map<string, string>, maxBody: nat): (r: Result<Framing, HttpError>)
    ensures r.Ok? && r.value.FixedBody? ==> r.value.length <= maxBody
  {
    if "content-length" in headers && "transfer-encoding" in headers then
      Err(BadRequest("Content-Length and Transfer-Encoding are mutually exclusive"))
    else if "transfer-encoding" in headers then
      var coding := headers["transfer-encoding"];
      if !HasToken(coding, "chunked") then Err(UNSUPPORTED_CODING)
      else if Trim(Lower(coding)) != "chunked" then Err(UNSUPPORTED_CODING)
      else Ok(Chunked)
    else if "content-length" in headers then
      match ParseLength(headers["content-length"], maxBody)
      case Err(e) => Err(e)
      case Ok(n) => Ok(FixedBody(n))
    else Ok(NoBody)
  }

  function FirstLineEnd(text: string): nat {
    match Find(text, CRLF, 0)
    case None => |text|
    case Some(i) => i
  }

  /** A request still without its body, from its first line and its headers. */
  function HeadOf(line: RequestLine, headers: map<string, string>, maxBody: nat): (r: Result<Head, HttpError>)
    ensures r.Ok? ==> r.value.request.body == ""
    ensures r.Ok? && r.value.framing.FixedBody? ==> r.value.framing.length <= maxBody
  {
    match ParseFraming(headers, maxBody)
    case Err(e) => Err(e)
    case Ok(framing) =>
      var length := if framing.FixedBody? then AsInt32(framing.length) else -1;
      Ok(Head(HttpRequest(line.verb, line.path, line.query, headers, "", length),
              KeepAlive(line.version, headers), framing))
  }

  /** Everything before the blank line. */
  function ParseHead(text: string, maxBody: nat): (r: Result<Head, HttpError>)
    ensures r.Ok? ==> r.value.request.body == ""
    ensures r.Ok? && r.value.framing.FixedBody? ==> r.value.framing.length <= maxBody
  {
    var end := FirstLineEnd(text);
    if text == "" || end == 0 then Err(BadRequest("Malformed request"))
    else match ParseRequestLine(text[..end])
      case None => Err(BadRequest("Malformed request line"))
      case Some(line) =>
        var block := if end < |text| then text[end + 2..] else "";
        match HeadersFrom(block, 0, 0, map[])
        case Err(e) => Err(e)
        case Ok(headers) => HeadOf(line, headers, maxBody)
  }

  // ----- Chunk sizes ----------------------------------------------------------------------

  function HexDigit(c: char): Option<nat> {
    if '0' <= c <= '9' then Some((c - '0') as nat)
    else if 'a' <= c <= 'f' then Some(10 + (c - 'a') as nat)
    else if 'A' <= c <= 'F' then Some(10 + (c - 'A') as nat)
    else None
  }

  /** Value of a run of hexadecimal digits that fits 64 bits. */
  function HexValue(line: string): (r: Result<nat, HttpError>)
    ensures r.Ok? ==> r.value <= SIZE_MAX
  {
    if line == "" then Ok(0)
    else match HexValue(line[..|line| - 1])
      case Err(e) => Err(e)
      case Ok(value) => HexAppend(value, line[|line| - 1])
  }

  /** One more digit, unless it would no longer fit. */
  function HexAppend(value: nat, c: char): (r: Result<nat, HttpError>)
    requires value <= SIZE_MAX
    ensures r.Ok? ==> r.value <= SIZE_MAX && HexDigit(c) == Some(r.value - 16 * value)
    ensures r == Err(BODY_TOO_LARGE) <==> HexDigit(c).Some? && 16 * value + HexDigit(c).value > SIZE_MAX
    ensures r == Err(BadRequest("Malformed chunk size")) <==> HexDigit(c).None?
    ensures r.Err? ==> r.error == BODY_TOO_LARGE || r.error == BadRequest("Malformed chunk size")
  {
    match HexDigit(c)
    case None => Err(BadRequest("Malformed chunk size"))
    case Some(digit) =>
      if value > (SIZE_MAX - digit) / 16 then Err(BODY_TOO_LARGE)
      else Ok(value * 16 + digit)
  }

  /** The size a chunk's first line announces; extensions after ';' are dropped. */
  function ChunkSize(line: string): Result<nat, HttpError> {
    var semicolon := Find(line, ";", 0);
    var digits := Trim(if semicolon.Some? then line[..semicolon.value] else line);
    if digits == "" then Err(BadRequest("Malformed chunk size")) else HexValue(digits)
  }
}
