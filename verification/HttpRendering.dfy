/** Rendered requests, and what the parser makes of them: request lines, header fields,
    framing and persistence, each read back as it was meant. */
module HttpRendering {
  import opened Wrappers
  import opened HttpText
  import opened HttpMessage

  predicate Lacks(s: string, c: char) {
    forall i {:trigger s[i]} :: 0 <= i < |s| ==> s[i] != c
  }

  lemma LacksConcat(a: string, b: string, c: char)
    requires Lacks(a, c) && Lacks(b, c)
    ensures Lacks(a + b, c)
  {}

  // ----- Searching in rendered text -----------------------------------------------------

  /** The first occurrence of a character is behind a part that lacks it. */
  lemma FindChar(a: string, c: char, b: string)
    requires Lacks(a, c)
    ensures Find(a + ([c] + b), [c], 0) == Some(|a|)
  {
    hide Find;
    var s := a + ([c] + b);
    forall j | 0 <= j < |a|
      ensures !Occurs(s, [c], j)
    {
      assert s[j..j + 1][0] == a[j];
    }
    assert s[|a|..|a| + 1] == [c];
    FindAt(s, [c], 0, |a|);
  }

  lemma FindNoChar(a: string, c: char)
    requires Lacks(a, c)
    ensures Find(a, [c], 0) == None
  {
    hide Find;
    forall j: nat
      ensures !Occurs(a, [c], j)
    {
      assert j < |a| ==> a[j..j + 1][0] == a[j];
    }
    var found := Find(a, [c], 0);
  }

  lemma {:induction false} FindLastChar(a: string, c: char, b: string)
    requires Lacks(b, c)
    ensures FindLast(a + ([c] + b), c) == Some(|a|)
    decreases |b|
  {
    var s := a + ([c] + b);
    if b == "" {
      assert s[|s| - 1] == c;
    } else {
      var shorter := b[..|b| - 1];
      FindLastChar(a, c, shorter);
      assert s[|s| - 1] == b[|b| - 1];
      assert s[..|s| - 1] == a + ([c] + shorter);
    }
  }

  // ----- The request line -----------------------------------------------------------------

  function Target(path: string, query: Option<string>): string {
    if query.Some? then path + ("?" + query.value) else path
  }

  function RenderLine(verb: string, target: string, version: string): string {
    verb + (" " + (target + (" " + version)))
  }

  predicate KnownVersion(version: string) {
    version == "HTTP/1.0" || version == "HTTP/1.1"
  }

  /** A rendered request line is read back, even with spaces inside the target. */
  lemma RequestLineRoundTrip(verb: string, path: string, query: Option<string>, version: string)
    requires verb != "" && Lacks(verb, ' ') && KnownVersion(version)
    requires path != "" && path[0] == '/' && Lacks(path, '?')
    ensures ParseRequestLine(RenderLine(verb, Target(path, query), version))
         == Some(RequestLine(verb, path, if query.Some? then query.value else "", version))
  {
    assert Lacks(version, ' ');
    hide Find, FindLast, Lacks, KnownVersion, Target, RenderLine, ParseRequestLine;
    var target := Target(path, query);
    LineSplits(verb, target, version);
    TargetSplits(path, query);
    ParsedParts(RenderLine(verb, target, version), |verb|, |verb| + 1 + |target|, target, path, query);
  }

  /** What the parts of a line mean. */
  lemma ParsedParts(line: string, first: nat, last: nat, target: string, path: string, query: Option<string>)
    requires 0 < first < last < |line| && path != "" && path[0] == '/'
    requires Find(line, " ", 0) == Some(first) && FindLast(line, ' ') == Some(last)
    requires KnownVersion(line[last + 1..]) && line[first + 1..last] == target != ""
    requires Find(target, "?", 0) == (if query.Some? then Some(|path|) else None)
    requires query.Some? ==> |path| < |target| && target[..|path|] == path && target[|path| + 1..] == query.value
    requires query.None? ==> target == path
    ensures ParseRequestLine(line)
         == Some(RequestLine(line[..first], path, if query.Some? then query.value else "", line[last + 1..]))
  {
    hide Find, FindLast;
    if query.Some? {
      assert ParseRequestLine(line)
          == Some(RequestLine(line[..first], target[..|path|], target[|path| + 1..], line[last + 1..]));
    }
  }

  /** The spaces around the target are the first and the last of the line. */
  lemma LineSplits(verb: string, target: string, version: string)
    requires Lacks(verb, ' ') && Lacks(version, ' ')
    ensures var line, end := RenderLine(verb, target, version), |verb| + 1 + |target|;
            && Find(line, " ", 0) == Some(|verb|) && FindLast(line, ' ') == Some(end)
            && end < |line|
            && line[..|verb|] == verb && line[|verb| + 1..end] == target && line[end + 1..] == version
  {
    hide Find, FindLast, Lacks;
    FindChar(verb, ' ', target + (" " + version));
    var front := verb + (" " + target);
    assert RenderLine(verb, target, version) == front + (" " + version);
    FindLastChar(front, ' ', version);
  }

  lemma TargetSplits(path: string, query: Option<string>)
    requires path != "" && Lacks(path, '?')
    ensures var target := Target(path, query);
            && target != "" && path <= target
            && Find(target, "?", 0) == (if query.Some? then Some(|path|) else None)
            && (query.Some? ==> |path| < |target| && target[..|path|] == path && target[|path| + 1..] == query.value)
            && (query.None? ==> target == path)
  {
    hide Find;
    if query.Some? {
      FindChar(path, '?', query.value);
    } else {
      FindNoChar(path, '?');
    }
  }

  /** The line is this request line, rendered. */
  ghost predicate Renders(line: string, l: RequestLine, query: Option<string>) {
    && line == RenderLine(l.verb, Target(l.path, query), l.version)
    && l.verb != "" && Lacks(l.verb, ' ') && KnownVersion(l.version)
    && l.path != "" && l.path[0] == '/' && Lacks(l.path, '?')
    && l.query == (if query.Some? then query.value else "")
  }

  lemma LacksBefore(s: string, c: char, end: nat)
    requires end <= |s| && (Find(s, [c], 0).Some? ==> end <= Find(s, [c], 0).value)
    ensures Lacks(s[..end], c)
  {
    hide Find;
    forall i | 0 <= i < end
      ensures s[..end][i] != c
    {
      assert !Occurs(s, [c], i);
      assert s[i..i + 1] == [s[i]];
    }
  }

  lemma SplitAt(s: string, i: nat)
    requires i < |s|
    ensures s == s[..i] + ([s[i]] + s[i + 1..])
  {}

  /** An accepted target is its path and, behind the first question mark, its query. */
  lemma TargetJoined(target: string) returns (query: Option<string>)
    ensures var mark := Find(target, "?", 0);
            var path := if mark.Some? then target[..mark.value] else target;
            && target == Target(path, query) && Lacks(path, '?')
            && (if query.Some? then query.value else "") == (if mark.Some? then target[mark.value + 1..] else "")
  {
    hide Find;
    var mark := Find(target, "?", 0);
    if mark.Some? {
      var at := mark.value;
      query := Some(target[at + 1..]);
      LacksBefore(target, '?', at);
      assert target[at..at + 1][0] == target[at];
      SplitAt(target, at);
    } else {
      query := None;
      LacksBefore(target, '?', |target|);
      assert target[..|target|] == target;
    }
  }

  lemma LineJoined(line: string, first: nat, last: nat)
    requires Find(line, " ", 0) == Some(first) && FindLast(line, ' ') == Some(last) && first < last
    ensures line == RenderLine(line[..first], line[first + 1..last], line[last + 1..])
    ensures Lacks(line[..first], ' ')
  {
    hide Find, FindLast;
    LacksBefore(line, ' ', first);
    assert line[first..first + 1][0] == line[first];
    SplitAt(line, first);
    var rest := line[first + 1..];
    SplitAt(rest, last - first - 1);
    assert rest[..last - first - 1] == line[first + 1..last] && rest[last - first..] == line[last + 1..];
  }

  lemma AcceptedLine(line: string) returns (query: Option<string>)
    requires ParseRequestLine(line).Some?
    ensures Renders(line, ParseRequestLine(line).value, query)
  {
    hide Find, FindLast, RenderLine, Target, Lacks;
    var first, last := Find(line, " ", 0).value, FindLast(line, ' ').value;
    FirstBeforeLast(line, first, last);
    LineJoined(line, first, last);
    query := TargetJoined(line[first + 1..last]);
  }

  /** A request line is accepted exactly when it is a rendered one. */
  lemma RequestLineExactly(line: string, l: RequestLine)
    ensures ParseRequestLine(line) == Some(l) <==> exists query: Option<string> :: Renders(line, l, query)
  {
    hide ParseRequestLine, RenderLine, Target;
    if ParseRequestLine(line) == Some(l) {
      var query := AcceptedLine(line);
    }
    if query: Option<string> :| Renders(line, l, query) {
      RequestLineRoundTrip(l.verb, l.path, query, l.version);
      assert RequestLine(l.verb, l.path, l.query, l.version) == l;
    }
  }

  // ----- Header lines ------------------------------------------------------------------------

  /** A header line: the name as it is sent and in lower case, what follows the colon,
      the value in it, and the line break behind it. */
  datatype Field = Field(name: string, key: string, rest: string, value: string, newline: string)

  /** A name of token characters, and a value without line feeds, between blanks. */
  ghost predicate Sendable(f: Field) {
    && f.name != ""
    && (forall i {:trigger f.name[i]} :: 0 <= i < |f.name| ==> '!' <= f.name[i] <= '~' && f.name[i] != ':')
    && Spells(f.name, f.key)
    && Stripped(f.rest, f.value) && Lacks(f.rest, '\n')
    && (f.newline == "\r\n" || f.newline == "\n")
  }

  function FieldLine(f: Field): string {
    f.name + (":" + f.rest)
  }

  /** Lines with their line breaks; the blank line behind the last is not part of the
      block. */
  function RenderFields(fields: seq<Field>): string {
    if fields == [] then ""
    else if |fields| == 1 then FieldLine(fields[0])
    else FieldLine(fields[0]) + (fields[0].newline + RenderFields(fields[1..]))
  }

  /** Later fields of the same name, whatever its case, replace earlier ones. */
  function FieldMap(fields: seq<Field>, headers: map<string, string>): map<string, string> {
    if fields == [] then headers
    else FieldMap(fields[1..], headers[fields[0].key := fields[0].value])
  }

  /** A name of token characters is accepted in any case, and blanks around the value are
      dropped. */
  lemma NamedLine(name: string, key: string, rest: string, value: string)
    requires name != "" && Spells(name, key) && Stripped(rest, value)
    requires forall i {:trigger name[i]} :: 0 <= i < |name| ==> '!' <= name[i] <= '~' && name[i] != ':'
    ensures ParseHeaderLine(name + (":" + rest)) == Ok((key, value))
  {
    hide Find, Stripped, Spells, Trim;
    var line := name + (":" + rest);
    FindChar(name, ':', rest);
    SpellsExactly(name, key);
    StrippedOnce(rest, value);
    assert line[..|name|] == name && line[|name| + 1..] == rest;
    forall i | 0 <= i < |key|
      ensures IsTokenChar(key[i])
    {
      assert key[i] == LowerChar(name[i]);
    }
  }

  lemma FieldLineShape(f: Field)
    requires Sendable(f)
    ensures Lacks(FieldLine(f), '\n') && FieldLine(f) != ""
    ensures ParseHeaderLine(FieldLine(f)) == Ok((f.key, f.value))
  {
    hide Stripped, Spells, ParseHeaderLine;
    NamedLine(f.name, f.key, f.rest, f.value);
    LacksConcat(f.name, ":" + f.rest, '\n');
  }

  lemma LastOfTwo(a: string, b: string)
    ensures b != "" ==> (a + b)[|a + b| - 1] == b[|b| - 1]
  {}

  /** One carriage return less at the end is one blank less. */
  lemma StrippedShorter(rest: string, value: string)
    requires Stripped(rest, value) && rest != "" && rest[|rest| - 1] == '\r'
    ensures Stripped(rest[..|rest| - 1], value)
  {
    var front, back: string :| rest == front + value + back && AllBlank(front) && AllBlank(back);
    var shorter := rest[..|rest| - 1];
    if back != "" {
      assert shorter == front + value + back[..|back| - 1];
      assert AllBlank(back[..|back| - 1]);
    } else {
      assert rest == front + value;
      LastOfTwo(front, value);
      assert rest == front;
      assert shorter == front[..|front| - 1] + value + back;
      assert AllBlank(front[..|front| - 1]);
    }
  }

  /** One carriage return is taken off the end of a line. */
  lemma Unreturned(name: string, rest: string)
    ensures var line := name + (":" + rest);
            && Unterminated(line + "\r") == line
            && (rest != "" && rest[|rest| - 1] == '\r' ==>
                  Unterminated(line) == name + (":" + rest[..|rest| - 1]))
            && (rest == "" || rest[|rest| - 1] != '\r' ==> Unterminated(line) == line)
  {
    var line := name + (":" + rest);
    assert (line + "\r")[..|line|] == line;
    assert line[|line| - 1] == if rest == "" then ':' else rest[|rest| - 1];
    if rest != "" {
      assert line[..|line| - 1] == name + (":" + rest[..|rest| - 1]);
    }
  }

  /** The line that is parsed, when one carriage return has been taken off the end. */
  lemma LineWithoutReturn(f: Field)
    requires Sendable(f)
    ensures Unterminated(FieldLine(f) + "\r") == FieldLine(f)
    ensures Unterminated(FieldLine(f)) != "" && ParseHeaderLine(Unterminated(FieldLine(f))) == Ok((f.key, f.value))
  {
    hide Stripped, Spells, ParseHeaderLine, Unterminated;
    Unreturned(f.name, f.rest);
    if f.rest != "" && f.rest[|f.rest| - 1] == '\r' {
      StrippedShorter(f.rest, f.value);
      NamedLine(f.name, f.key, f.rest[..|f.rest| - 1], f.value);
    } else {
      FieldLineShape(f);
    }
  }

  /** Reading from an offset is reading the rest. */
  lemma {:induction false} HeadersShift(block: string, pos: nat, count: nat, headers: map<string, string>)
    requires pos <= |block|
    ensures HeadersFrom(block, pos, count, headers) == HeadersFrom(block[pos..], 0, count, headers)
    decreases |block| - pos
  {
    hide Find, Unterminated, ParseHeaderLine, Lower;
    var rest := block[pos..];
    if pos < |block| {
      FindShift(block, "\n", pos, 0);
      var newline := Find(rest, "\n", 0);
      NewlineInside(rest);
      var end := if newline.Some? then newline.value else |rest|;
      var next := if newline.Some? then newline.value + 1 else |rest|;
      assert block[pos..pos + end] == rest[0..end];
      assert rest[next..] == block[pos + next..];
      var line := Unterminated(rest[0..end]);
      if line == "" {
        HeadersShift(block, pos + next, count, headers);
        HeadersShift(rest, next, count, headers);
      } else if count + 1 <= MAX_HEADER_COUNT && ParseHeaderLine(line).Ok? {
        var field := ParseHeaderLine(line).value;
        HeadersShift(block, pos + next, count + 1, headers[field.0 := field.1]);
        HeadersShift(rest, next, count + 1, headers[field.0 := field.1]);
      }
    }
  }

  lemma NewlineInside(s: string)
    ensures var newline := Find(s, "\n", 0); newline.Some? ==> newline.value < |s|
  {}

  ghost predicate AllSendable(fields: seq<Field>) {
    forall i {:trigger fields[i]} :: 0 <= i < |fields| ==> Sendable(fields[i])
  }

  /** The first line of a block, up to its line feed. */
  lemma FirstField(f: Field, after: string)
    requires Sendable(f)
    ensures var line := FieldLine(f) + (if f.newline == "\r\n" then "\r" else "");
            var block := FieldLine(f) + (f.newline + after);
            && Find(block, "\n", 0) == Some(|line|)
            && Unterminated(block[0..|line|]) != ""
            && ParseHeaderLine(Unterminated(block[0..|line|])) == Ok((f.key, f.value))
            && block[|line| + 1..] == after
  {
    hide Find, Unterminated, ParseHeaderLine, Stripped, Spells;
    FieldLineShape(f);
    LineWithoutReturn(f);
    var line := FieldLine(f) + (if f.newline == "\r\n" then "\r" else "");
    LacksConcat(FieldLine(f), "\r", '\n');
    assert FieldLine(f) + (f.newline + after) == line + ("\n" + after);
    FindChar(line, '\n', after);
    assert FieldLine(f) + "" == FieldLine(f);
  }

  /** What the parser does with the first line of a block. */
  lemma HeadersStep(block: string, end: nat, count: nat, headers: map<string, string>, field: (string, string))
    requires Find(block, "\n", 0) == Some(end) && end < |block|
    requires Unterminated(block[0..end]) != "" && ParseHeaderLine(Unterminated(block[0..end])) == Ok(field)
    ensures HeadersFrom(block, 0, count, headers)
         == if count + 1 > 100 then Err(TooLarge("Too many headers"))
            else HeadersFrom(block[end + 1..], 0, count + 1, headers[field.0 := field.1])
  {
    hide Find, Unterminated, ParseHeaderLine;
    if count + 1 <= 100 {
      HeadersShift(block, end + 1, count + 1, headers[field.0 := field.1]);
    }
  }

  lemma BreakInside(f: Field, after: string)
    requires Sendable(f)
    ensures |FieldLine(f)| + (if f.newline == "\r\n" then 1 else 0) < |FieldLine(f) + (f.newline + after)|
  {}

  /** The first field of a block is read, and then the rest. */
  lemma FirstFieldRead(f: Field, after: string, count: nat, headers: map<string, string>)
    requires Sendable(f)
    ensures HeadersFrom(FieldLine(f) + (f.newline + after), 0, count, headers)
         == if count + 1 > 100 then Err(TooLarge("Too many headers"))
            else HeadersFrom(after, 0, count + 1, headers[f.key := f.value])
  {
    hide Find, Unterminated, ParseHeaderLine, FieldLine, Sendable, HeadersFrom;
    var end := |FieldLine(f)| + if f.newline == "\r\n" then 1 else 0;
    FirstField(f, after);
    BreakInside(f, after);
    HeadersStep(FieldLine(f) + (f.newline + after), end, count, headers, (f.key, f.value));
  }

  /** Rendered fields are read back as a map when they are at most a hundred, and refused
      otherwise. */
  lemma {:induction false} FieldsRoundTrip(fields: seq<Field>, count: nat, headers: map<string, string>)
    requires AllSendable(fields)
    ensures HeadersFrom(RenderFields(fields), 0, count, headers)
         == if fields == [] || count + |fields| <= 100 then Ok(FieldMap(fields, headers))
            else Err(TooLarge("Too many headers"))
    decreases |fields|
  {
    hide Find, Unterminated, ParseHeaderLine, FieldLine, Sendable;
    if fields != [] {
      var f, rest := fields[0], fields[1..];
      var line := FieldLine(f);
      FieldLineShape(f);
      if |fields| == 1 {
        FindNoChar(line, '\n');
        LineWithoutReturn(f);
        assert line[0..|line|] == line;
        assert rest == [];
      } else {
        FirstFieldRead(f, RenderFields(rest), count, headers);
        FieldsRoundTrip(rest, count + 1, headers[f.key := f.value]);
      }
    }
  }

  /** A line that is no field, behind fields that are. */
  lemma {:induction false} BadFieldRefused(fields: seq<Field>, bad: string, count: nat, headers: map<string, string>)
    requires AllSendable(fields) && fields != [] && count + |fields| < 100 && Lacks(bad, '\n') && bad != ""
    requires bad[|bad| - 1] != '\r' && Malformed(bad)
    ensures var r := HeadersFrom(RenderFields(fields) + (fields[|fields| - 1].newline + bad), 0, count, headers);
            r.Err? && r.error.code == 400
    decreases |fields|
  {
    hide HeadersFrom, FieldLine, Sendable, Malformed, Lacks;
    var f, rest := fields[0], fields[1..];
    var headers' := headers[f.key := f.value];
    assert AllSendable(rest) && Sendable(f);
    hide AllSendable;
    if |fields| == 1 {
      FirstFieldRead(f, bad, count, headers);
      BadLine(bad, count + 1, headers');
    } else {
      var end := fields[|fields| - 1].newline + bad;
      assert rest[|rest| - 1] == fields[|fields| - 1];
      var after := RenderFields(rest) + end;
      assert RenderFields(fields) == FieldLine(f) + (f.newline + RenderFields(rest));
      hide RenderFields;
      assert RenderFields(fields) + end == FieldLine(f) + (f.newline + after);
      FirstFieldRead(f, after, count, headers);
      BadFieldRefused(rest, bad, count + 1, headers');
    }
  }

  /** No colon, none but at the start, or a name with something else than token
      characters. */
  predicate Malformed(line: string) {
    || Lacks(line, ':')
    || (line != "" && line[0] == ':')
    || exists i, j :: 0 <= i < j < |line| && line[j] == ':' && Lacks(line[..j], ':')
                      && !('!' <= line[i] <= '~')
  }

  lemma BadLine(bad: string, count: nat, headers: map<string, string>)
    requires count < 100 && Lacks(bad, '\n') && bad != "" && bad[|bad| - 1] != '\r' && Malformed(bad)
    ensures HeadersFrom(bad, 0, count, headers).Err? && HeadersFrom(bad, 0, count, headers).error.code == 400
  {
    MalformedRefused(bad);
    hide Find, ParseHeaderLine, Malformed;
    FindNoChar(bad, '\n');
    assert bad[0..|bad|] == bad;
  }

  lemma MalformedRefused(bad: string)
    requires Malformed(bad)
    ensures ParseHeaderLine(bad).Err? && ParseHeaderLine(bad).error.code == 400
  {
    hide Find, Lacks, ParseHeaderLine;
    if Lacks(bad, ':') {
      NoColon(bad);
    } else if bad != "" && bad[0] == ':' {
      assert Lacks(bad[..0], ':') by { LacksAll(':'); }
      ColonAt(bad, 0, 0);
    } else {
      var i, j :| 0 <= i < j < |bad| && bad[j] == ':' && Lacks(bad[..j], ':') && !('!' <= bad[i] <= '~');
      ColonAt(bad, j, i);
    }
  }

  lemma LacksAll(c: char)
    ensures Lacks("", c)
  {}

  lemma NoColon(bad: string)
    requires Lacks(bad, ':')
    ensures ParseHeaderLine(bad).Err? && ParseHeaderLine(bad).error.code == 400
  {
    hide Find;
    FindNoChar(bad, ':');
  }

  lemma NotToken(c: char)
    requires !('!' <= c <= '~')
    ensures !IsTokenChar(LowerChar(c))
  {}

  lemma ColonAt(bad: string, j: nat, i: nat)
    requires j < |bad| && bad[j] == ':' && Lacks(bad[..j], ':')
    requires j > 0 ==> i < j && !('!' <= bad[i] <= '~')
    ensures ParseHeaderLine(bad).Err? && ParseHeaderLine(bad).error.code == 400
  {
    hide Find, IsTokenChar, LowerChar;
    assert bad == bad[..j] + (":" + bad[j + 1..]);
    FindChar(bad[..j], ':', bad[j + 1..]);
    if j > 0 {
      NotToken(bad[i]);
      var key := Lower(bad[..j]);
      assert bad[..j][i] == bad[i];
      assert key[i] == LowerChar(bad[i]);
      assert !IsTokenChar(key[i]);
    }
  }

  // ----- A whole header block ------------------------------------------------------------------

  function RenderHead(line: string, fields: seq<Field>): string {
    if fields == [] then line else line + (CRLF + RenderFields(fields))
  }

  lemma FirstLine(line: string, fields: seq<Field>)
    requires Lacks(line, '\r')
    ensures FirstLineEnd(RenderHead(line, fields)) == |line|
  {
    hide Find, RenderFields;
    var text := RenderHead(line, fields);
    forall j | 0 <= j < |line|
      ensures !Occurs(text, CRLF, j)
    {
      assert j + 2 <= |text| ==> text[j..j + 2][0] == line[j];
    }
    if fields == [] {
      var found := Find(text, CRLF, 0);
      assert found.Some? ==> Occurs(text, CRLF, found.value);
    } else {
      assert text[|line|..|line| + 2] == CRLF;
      FindAt(text, CRLF, 0, |line|);
    }
  }

  lemma HeadFromParts(text: string, n: nat, line: RequestLine, headers: map<string, string>, maxBody: nat)
    requires 0 < n <= |text| && (n < |text| ==> n + 2 <= |text|) && FirstLineEnd(text) == n
    requires ParseRequestLine(text[..n]) == Some(line)
    requires HeadersFrom(if n < |text| then text[n + 2..] else "", 0, 0, map[]) == Ok(headers)
    ensures ParseHead(text, maxBody) == HeadOf(line, headers, maxBody)
  {
    hide FirstLineEnd, ParseRequestLine, HeadersFrom, HeadOf;
  }

  /** A rendered request is read back: its line, its fields, whether the connection
      may be reused, and how its body is framed. */
  lemma HeadRoundTrip(verb: string, path: string, query: Option<string>, version: string,
                      fields: seq<Field>, text: string, headers: map<string, string>, maxBody: nat)
    requires verb != "" && Lacks(verb, ' ') && Lacks(verb, '\r') && KnownVersion(version)
    requires path != "" && path[0] == '/' && Lacks(path, '?') && Lacks(path, '\r')
    requires query.Some? ==> Lacks(query.value, '\r')
    requires AllSendable(fields) && |fields| <= MAX_HEADER_COUNT
    requires text == RenderHead(RenderLine(verb, Target(path, query), version), fields)
    requires headers == FieldMap(fields, map[])
    ensures ParseHead(text, maxBody)
         == HeadOf(RequestLine(verb, path, if query.Some? then query.value else "", version), headers, maxBody)
  {
    hide FirstLineEnd, ParseRequestLine, HeadersFrom, HeadOf, FieldMap, RenderFields, Target, RenderLine, ParseHead;
    hide Lacks, AllSendable, KnownVersion;
    var line := RenderLine(verb, Target(path, query), version);
    LineLacksReturn(verb, path, query, version);
    FirstLine(line, fields);
    RequestLineRoundTrip(verb, path, query, version);
    FieldsRoundTrip(fields, 0, map[]);
    NoFields();
    assert text[..|line|] == line;
    if fields != [] {
      assert text[|line| + 2..] == RenderFields(fields);
    }
    HeadFromParts(text, |line|, RequestLine(verb, path, if query.Some? then query.value else "", version),
                  headers, maxBody);
  }

  lemma NoFields()
    ensures RenderFields([]) == ""
  {}

  lemma LineLacksReturn(verb: string, path: string, query: Option<string>, version: string)
    requires Lacks(verb, '\r') && Lacks(path, '\r') && (query.Some? ==> Lacks(query.value, '\r'))
    requires KnownVersion(version)
    ensures Lacks(RenderLine(verb, Target(path, query), version), '\r')
    ensures RenderLine(verb, Target(path, query), version) != ""
  {}

  // ----- Where a block of lines ends ------------------------------------------------------------

  /** Behind every line feed there is something other than a carriage return. */
  predicate LinesOpen(s: string) {
    forall k {:trigger s[k]} :: 0 <= k < |s| && s[k] == '\n' ==> k + 1 < |s| && s[k + 1] != '\r'
  }

  lemma OpenConcat(line: string, newline: string, rest: string)
    requires LinesOpen(line) && LinesOpen(rest) && rest != "" && rest[0] != '\r'
    requires newline == "\r\n" || newline == "\n"
    ensures LinesOpen(line + (newline + rest))
  {
    var s := line + (newline + rest);
    var n := |line| + |newline|;
    forall k | 0 <= k < |s| && s[k] == '\n'
      ensures k + 1 < |s| && s[k + 1] != '\r'
    {
      if k < |line| {
        assert s[k] == line[k] && s[k + 1] == line[k + 1];
      } else if k < n {
        assert s[k] == newline[k - |line|];
        assert k == n - 1 && s[k + 1] == rest[0];
      } else {
        assert s[k] == rest[k - n] && s[k + 1] == rest[k - n + 1];
      }
    }
  }

  /** The first blank line is the one behind such a block. */
  lemma BlankLineBehind(head: string, rest: string)
    requires LinesOpen(head)
    ensures Find(head + (BLANK_LINE + rest), BLANK_LINE, 0) == Some(|head|)
  {
    hide Find;
    var s := head + (BLANK_LINE + rest);
    forall j | 0 <= j < |head|
      ensures !Occurs(s, BLANK_LINE, j)
    {
      assert s[|head|] == '\r';
      assert j + 1 < |head| ==> s[j + 1] == head[j + 1];
      assert j + 2 < |head| ==> s[j + 2] == head[j + 2];
      assert s[j + 1] != '\n' || s[j + 2] != '\r';
      assert s[j..j + 4][1] == s[j + 1] && s[j..j + 4][2] == s[j + 2];
    }
    assert s[|head|..|head| + 4] == BLANK_LINE;
    FindAt(s, BLANK_LINE, 0, |head|);
  }

  // ----- Content-Length -------------------------------------------------------------------------

  const DIGITS := "0123456789"

  function DecimalText(n: nat): (s: string)
    ensures |s| > 0
    ensures forall i {:trigger s[i]} :: 0 <= i < |s| ==> IsDigit(s[i])
  {
    if n < 10 then [DIGITS[n]] else DecimalText(n / 10) + [DIGITS[n % 10]]
  }

  function Zeros(n: nat): (s: string)
    ensures |s| == n && forall i {:trigger s[i]} :: 0 <= i < n ==> s[i] == '0'
  {
    seq(n, i => '0')
  }

  /** n in decimal, perhaps behind a plus sign, and with leading zeros. */
  ghost predicate LengthText(value: string, n: nat) {
    exists k: nat :: value == Zeros(k) + DecimalText(n) || value == "+" + (Zeros(k) + DecimalText(n))
  }

  function Saturated(n: nat): nat {
    if n <= 0xFFFF_FFFF_FFFF_FFFF then n else 0xFFFF_FFFF_FFFF_FFFF
  }

  lemma {:induction false} DecimalRoundTrip(n: nat)
    ensures Decimal(DecimalText(n)) == n
  {
    if n < 10 {
      assert DecimalText(n)[..0] == "";
    } else {
      DecimalRoundTrip(n / 10);
      assert DecimalText(n)[..|DecimalText(n)| - 1] == DecimalText(n / 10);
    }
  }

  lemma {:induction false} ZerosAddNothing(k: nat, digits: string)
    requires forall i {:trigger digits[i]} :: 0 <= i < |digits| ==> IsDigit(digits[i])
    ensures forall i {:trigger (Zeros(k) + digits)[i]} :: 0 <= i < k + |digits| ==> IsDigit((Zeros(k) + digits)[i])
    ensures Decimal(Zeros(k) + digits) == Decimal(digits)
    decreases k + |digits|
  {
    var s := Zeros(k) + digits;
    if digits != "" {
      var front := digits[..|digits| - 1];
      ZerosAddNothing(k, front);
      assert s[..|s| - 1] == Zeros(k) + front;
    } else if k > 0 {
      ZerosAddNothing(k - 1, "");
      assert s[..|s| - 1] == Zeros(k - 1) + "";
    }
  }

  predicate AllDigits(s: string) {
    forall i {:trigger s[i]} :: 0 <= i < |s| ==> IsDigit(s[i])
  }

  /** Nothing is trimmed off a number, and it holds no zero byte. */
  lemma PlainNumber(s: string, digits: string)
    requires digits != "" && AllDigits(digits) && (s == digits || s == "+" + digits)
    ensures Trim(s) == s && CString(s) == s && SkipSpace(s) == s
    ensures s[0] == '+' ==> s[1..] == digits
    ensures s[0] != '+' ==> s == digits
    ensures s[0] != '-'
  {
    hide Find, Trim;
    assert s[|s| - 1] == digits[|digits| - 1];
    assert IsDigit(digits[0]) && IsDigit(digits[|digits| - 1]);
    TrimOfTrimmed(s);
    if s != digits { assert s[1..] == digits; }
    forall i | 0 <= i < |s|
      ensures s[i] != 0 as char
    {
      if s == digits {
        assert IsDigit(s[i]);
      } else {
        assert i > 0 ==> s[i] == digits[i - 1] && IsDigit(digits[i - 1]);
      }
    }
    FindNoChar(s, 0 as char);
  }

  /** Digits, perhaps behind a plus sign, are read as their value; past 64 bits they
      count as the largest 64-bit number. */
  lemma DigitsRead(s: string, digits: string, maxBody: nat)
    requires digits != "" && AllDigits(digits) && (s == digits || s == "+" + digits)
    ensures var length := Saturated(Decimal(digits));
            ParseLength(s, maxBody) == if length <= maxBody then Ok(length) else Err(BODY_TOO_LARGE)
  {
    hide Find, Decimal, Trim, CString, SkipSpace;
    PlainNumber(s, digits);
    assert ParseUnsigned(s) == Some(Saturated(Decimal(digits)));
  }

  /** A length is accepted exactly when it is within the body limit, saturated at 64
      bits. */
  lemma LengthForms(value: string, n: nat, maxBody: nat)
    requires LengthText(value, n)
    ensures ParseLength(value, maxBody)
         == if Saturated(n) <= maxBody then Ok(Saturated(n)) else Err(BODY_TOO_LARGE)
  {
    hide ParseLength, Decimal, DecimalText;
    var k: nat :| value == Zeros(k) + DecimalText(n) || value == "+" + (Zeros(k) + DecimalText(n));
    var digits := Zeros(k) + DecimalText(n);
    ZerosAddNothing(k, DecimalText(n));
    DecimalRoundTrip(n);
    DigitsRead(value, digits, maxBody);
  }

  // ----- What a request says about its connection and its body -----------------------------------

  predicate Named(f: Field, key: string) {
    f.key == key
  }

  /** Some field has this name, in whatever case. */
  predicate Has(fields: seq<Field>, key: string) {
    exists i {:trigger fields[i]} :: 0 <= i < |fields| && Named(fields[i], key)
  }

  /** All fields of this name spell this value, in whatever case. */
  predicate Always(fields: seq<Field>, key: string, value: string) {
    forall i {:trigger fields[i]} :: 0 <= i < |fields| && Named(fields[i], key) ==> Spells(fields[i].value, value)
  }

  /** All fields of this name mention the token, or none does. */
  ghost predicate Agree(fields: seq<Field>, key: string, token: string, mention: bool) {
    forall i {:trigger fields[i]} :: 0 <= i < |fields| && Named(fields[i], key) ==>
      (Mentions(fields[i].value, token) <==> mention)
  }

  /** The map has a value for a name exactly when some field does, and it is the value
      of such a field. */
  lemma {:induction false} Lookup(fields: seq<Field>, headers: map<string, string>, key: string)
    ensures key in FieldMap(fields, headers) <==> key in headers || Has(fields, key)
    ensures Has(fields, key) ==> exists i :: 0 <= i < |fields| && Named(fields[i], key)
                                             && FieldMap(fields, headers)[key] == fields[i].value
    ensures key in headers && !Has(fields, key) ==> FieldMap(fields, headers)[key] == headers[key]
    decreases |fields|
  {
    if fields != [] {
      var rest := fields[1..];
      var f := fields[0];
      Lookup(rest, headers[f.key := f.value], key);
      assert forall i :: 0 <= i < |rest| ==> rest[i] == fields[i + 1];
      if Has(rest, key) {
        var j :| 0 <= j < |rest| && Named(rest[j], key)
                 && FieldMap(fields, headers)[key] == rest[j].value;
        assert Named(fields[j + 1], key);
      }
      assert Has(fields, key) <==> Named(f, key) || Has(rest, key) by { HasFirst(fields, key); }
      if Named(f, key) && !Has(rest, key) {
        assert FieldMap(fields, headers)[key] == fields[0].value;
      }
    }
  }

  lemma HasFirst(fields: seq<Field>, key: string)
    requires fields != []
    ensures Has(fields, key) <==> Named(fields[0], key) || Has(fields[1..], key)
  {
    hide Named;
    var rest := fields[1..];
    if Has(fields, key) {
      var i :| 0 <= i < |fields| && Named(fields[i], key);
      assert i > 0 ==> Named(rest[i - 1], key);
    }
    if Has(rest, key) {
      var i :| 0 <= i < |rest| && Named(rest[i], key);
      assert Named(fields[i + 1], key);
    }
  }

  lemma AlwaysLookup(fields: seq<Field>, key: string, value: string)
    requires Has(fields, key) && Always(fields, key, value)
    ensures key in FieldMap(fields, map[]) && Spells(FieldMap(fields, map[])[key], value)
  {
    Lookup(fields, map[], key);
    hide Spells, FieldMap;
  }

  lemma AgreeLookup(fields: seq<Field>, key: string, token: string, mention: bool)
    requires Has(fields, key) && Agree(fields, key, token, mention)
    ensures key in FieldMap(fields, map[]) && (Mentions(FieldMap(fields, map[])[key], token) <==> mention)
  {
    Lookup(fields, map[], key);
    hide Mentions, FieldMap;
  }

  /** Which of its two tokens the connection field mentions. */
  datatype Persistence = Persistence(close: bool, keep: bool)

  const UNSAID := Persistence(false, false)

  /** What the fields say about the connection. */
  ghost predicate Says(fields: seq<Field>, p: Persistence) {
    && Agree(fields, "connection", "close", p.close)
    && Agree(fields, "connection", "keep-alive", p.keep)
    && (!Has(fields, "connection") ==> !p.close && !p.keep)
  }

  /** How the fields frame the body. A length may have a plus sign and leading zeros. */
  ghost predicate Frames(fields: seq<Field>, framing: Framing) {
    match framing
    case NoBody => !Has(fields, "content-length") && !Has(fields, "transfer-encoding")
    case FixedBody(n) =>
      && Has(fields, "content-length") && !Has(fields, "transfer-encoding")
      && forall i {:trigger fields[i]} :: 0 <= i < |fields| && Named(fields[i], "content-length") ==>
           LengthText(fields[i].value, n)
    case Chunked =>
      && Has(fields, "transfer-encoding") && Always(fields, "transfer-encoding", "chunked")
      && !Has(fields, "content-length")
  }

  lemma TokenInMap(value: string, token: string)
    requires PlainToken(token)
    ensures HasToken(value, token) <==> Mentions(value, token)
  {
    hide HasToken, Mentions, PlainToken;
    PlainSearch(value, token);
  }

  lemma PlainTokens()
    ensures PlainToken("close") && PlainToken("keep-alive") && PlainToken("chunked")
  {}

  lemma KeepAliveSaid(fields: seq<Field>, version: string, p: Persistence)
    requires Says(fields, p) && KnownVersion(version)
    ensures KeepAlive(version, FieldMap(fields, map[]))
       <==> if version == "HTTP/1.1" then !p.close else p.keep
  {
    hide Mentions, HasToken, FieldMap;
    Lookup(fields, map[], "connection");
    PlainTokens();
    if Has(fields, "connection") {
      AgreeLookup(fields, "connection", "close", p.close);
      AgreeLookup(fields, "connection", "keep-alive", p.keep);
      var value := FieldMap(fields, map[])["connection"];
      TokenInMap(value, "close");
      TokenInMap(value, "keep-alive");
    }
  }

  /** A text that spells one token mentions it. */
  lemma SpelledIsMentioned(value: string, token: string)
    requires Spells(value, token)
    ensures Mentions(value, token)
  {
    hide Spells;
    assert value[0..|value|] == value && value[0..0] == "" && value[|value|..|value|] == "";
    assert BlankFrom(value, 0, 0) && BlankTo(value, |value|, |value|);
  }

  lemma FramingRead(fields: seq<Field>, framing: Framing, maxBody: nat)
    requires Frames(fields, framing)
    ensures ParseFraming(FieldMap(fields, map[]), maxBody)
         == if framing.FixedBody? && Saturated(framing.length) > maxBody then Err(BODY_TOO_LARGE)
            else Ok(if framing.FixedBody? then FixedBody(Saturated(framing.length)) else framing)
  {
    hide Mentions, HasToken, FieldMap, ParseLength, Spells, LengthText, Trim;
    Lookup(fields, map[], "content-length");
    Lookup(fields, map[], "transfer-encoding");
    var headers := FieldMap(fields, map[]);
    match framing
    case NoBody =>
    case FixedBody(n) =>
      LengthForms(headers["content-length"], n, maxBody);
    case Chunked =>
      AlwaysLookup(fields, "transfer-encoding", "chunked");
      PlainTokens();
      var value := headers["transfer-encoding"];
      SpelledIsMentioned(value, "chunked");
      TokenInMap(value, "chunked");
      SpellsExactly(value, "chunked");
      TrimOfTrimmed("chunked");
  }

  lemma AloneIsMentioned(value: string, token: string)
    requires Alone(value, token)
    ensures Mentions(value, token)
  {
    hide Spells, AllBlank;
    var a, b :| 0 <= a <= b <= |value| && Spells(value[a..b], token) && AllBlank(value[..a]) && AllBlank(value[b..]);
    assert value[..a] == value[0..a] && value[b..] == value[b..|value|];
    assert BlankFrom(value, 0, a) && BlankTo(value, b, |value|);
  }

  /** A coding is accepted exactly when it is the chunked one alone, in whatever case;
      another is refused with 501, and one beside a length with 400. */
  lemma CodingExactly(headers: map<string, string>, maxBody: nat)
    requires "transfer-encoding" in headers
    ensures var r := ParseFraming(headers, maxBody);
            if "content-length" in headers then r.Err? && r.error.code == 400
            else if Alone(headers["transfer-encoding"], "chunked") then r == Ok(Chunked)
            else r.Err? && r.error.code == 501
  {
    hide Mentions, HasToken, Spells, Trim, Alone;
    var value := headers["transfer-encoding"];
    PlainTokens();
    AloneExactly(value, "chunked");
    if Alone(value, "chunked") {
      AloneIsMentioned(value, "chunked");
      TokenInMap(value, "chunked");
    }
  }

  /** A rendered request is read back whole: its line, its fields as a map, whether the
      connection may be reused, and how the body is framed; only a body longer than the
      limit is refused. */
  lemma RequestRoundTrip(line: RequestLine, query: Option<string>, fields: seq<Field>, text: string,
                         p: Persistence, framing: Framing, maxBody: nat)
    requires line.verb != "" && Lacks(line.verb, ' ') && Lacks(line.verb, '\r') && KnownVersion(line.version)
    requires line.path != "" && line.path[0] == '/' && Lacks(line.path, '?') && Lacks(line.path, '\r')
    requires line.query == (if query.Some? then query.value else "") && Lacks(line.query, '\r')
    requires AllSendable(fields) && |fields| <= MAX_HEADER_COUNT
    requires text == RenderHead(RenderLine(line.verb, Target(line.path, query), line.version), fields)
    requires Says(fields, p) && Frames(fields, framing) && (framing.FixedBody? ==> framing.length <= SIZE_MAX)
    ensures ParseHead(text, maxBody)
         == if framing.FixedBody? && framing.length > maxBody then Err(BODY_TOO_LARGE)
            else Ok(Head(HttpRequest(line.verb, line.path, line.query, FieldMap(fields, map[]), "",
                                     if framing.FixedBody? then AsInt32(framing.length) else -1),
                         if line.version == "HTTP/1.1" then !p.close else p.keep, framing))
  {
    hide ParseHead, RenderHead, RenderLine, Target, FieldMap, KeepAlive, ParseFraming, HeadOf, Says, Frames;
    hide Lacks, AllSendable, KnownVersion, AsInt32;
    var headers := FieldMap(fields, map[]);
    HeadRoundTrip(line.verb, line.path, query, line.version, fields, text, headers, maxBody);
    assert RequestLine(line.verb, line.path, line.query, line.version) == line;
    KeepAliveSaid(fields, line.version, p);
    FramingRead(fields, framing, maxBody);
    HeadParts(line, headers, maxBody, framing);
  }

  lemma HeadParts(line: RequestLine, headers: map<string, string>, maxBody: nat, framing: Framing)
    requires ParseFraming(headers, maxBody)
          == if framing.FixedBody? && framing.length > maxBody then Err(BODY_TOO_LARGE) else Ok(framing)
    ensures HeadOf(line, headers, maxBody)
         == if framing.FixedBody? && framing.length > maxBody then Err(BODY_TOO_LARGE)
            else Ok(Head(HttpRequest(line.verb, line.path, line.query, headers, "",
                                     if framing.FixedBody? then AsInt32(framing.length) else -1),
                         KeepAlive(line.version, headers), framing))
  {
    hide ParseFraming, KeepAlive, AsInt32;
  }
}
