/** Searching, trimming and token lists in header text. Bytes are characters. Searches
    are described by where the pattern occurs and where it does not, which is what the
    other modules use; the loops over them are methods. */
module HttpText {
  import opened Wrappers

  const CRLF := "\r\n"
  const BLANK_LINE := "\r\n\r\n"

  predicate Occurs(s: string, pat: string, j: nat) {
    j + |pat| <= |s| && s[j..j + |pat|] == pat
  }

  /** Index of the first occurrence at or after `from`. */
  function Find(s: string, pat: string, from: nat): (r: Option<nat>)
    requires |pat| > 0
    ensures r.Some? ==> from <= r.value && Occurs(s, pat, r.value)
    ensures r.Some? ==> forall j {:trigger Occurs(s, pat, j)} :: from <= j < r.value ==> !Occurs(s, pat, j)
    ensures r.None? ==> forall j {:trigger Occurs(s, pat, j)} :: from <= j ==> !Occurs(s, pat, j)
    decreases |s| - from
  {
    if from + |pat| > |s| then None
    else if Occurs(s, pat, from) then Some(from)
    else Find(s, pat, from + 1)
  }

  function FindLast(s: string, c: char): (r: Option<nat>)
    ensures r.Some? ==> r.value < |s| && s[r.value] == c
    ensures r.Some? ==> forall j :: r.value < j < |s| ==> s[j] != c
    ensures r.None? ==> forall j :: 0 <= j < |s| ==> s[j] != c
  {
    if s == "" then None
    else if s[|s| - 1] == c then Some(|s| - 1)
    else FindLast(s[..|s| - 1], c)
  }

  lemma OccursInPrefix(s: string, t: string, pat: string, j: nat)
    requires j + |pat| <= |s|
    ensures Occurs(s + t, pat, j) == Occurs(s, pat, j)
  {
    assert (s + t)[j..j + |pat|] == s[j..j + |pat|];
  }

  /** A search in a prefix finds what the search in the whole text finds, if that
      lies inside the prefix, and nothing otherwise. */
  lemma FindInPrefix(s: string, t: string, pat: string, from: nat)
    requires |pat| > 0
    ensures Find(s, pat, from) == match Find(s + t, pat, from)
                                  case None => None
                                  case Some(at) => if at + |pat| <= |s| then Some(at) else None
  {
    hide Find, Occurs;
    var a, b := Find(s, pat, from), Find(s + t, pat, from);
    if a.Some? {
      OccursFits(s, pat, a.value);
      OccursInPrefix(s, t, pat, a.value);
      assert Occurs(s + t, pat, a.value);
    }
    if b.Some? && b.value + |pat| <= |s| {
      OccursInPrefix(s, t, pat, b.value);
      assert Occurs(s, pat, b.value);
    }
  }

  lemma OccursFits(s: string, pat: string, j: nat)
    requires Occurs(s, pat, j)
    ensures j + |pat| <= |s|
  {}

  /** The first occurrence is where nothing before it matches. */
  lemma FindAt(s: string, pat: string, from: nat, at: nat)
    requires |pat| > 0 && from <= at && Occurs(s, pat, at)
    requires forall j {:trigger Occurs(s, pat, j)} :: from <= j < at ==> !Occurs(s, pat, j)
    ensures Find(s, pat, from) == Some(at)
  {
    hide Find;
    var r := Find(s, pat, from);
  }

  // ----- Letters and white space ------------------------------------------------

  function LowerChar(c: char): char {
    if 'A' <= c <= 'Z' then c - 'A' + 'a' else c
  }

  function Lower(s: string): (r: string)
    ensures |r| == |s|
    ensures forall i {:trigger r[i]} :: 0 <= i < |s| ==> r[i] == LowerChar(s[i])
  {
    seq(|s|, i requires 0 <= i < |s| => LowerChar(s[i]))
  }

  /** The same character, or the capital 32 places before a small letter. */
  predicate SameLetter(sent: char, small: char) {
    sent == small || ('a' <= small <= 'z' && sent as int + 32 == small as int)
  }

  predicate NoCapitals(s: string) {
    forall i {:trigger s[i]} :: 0 <= i < |s| ==> !('A' <= s[i] <= 'Z')
  }

  /** s spells r, which has no capitals, in any mixture of cases. */
  predicate Spells(s: string, r: string) {
    |s| == |r| && NoCapitals(r) && forall i {:trigger s[i]} :: 0 <= i < |s| ==> SameLetter(s[i], r[i])
  }

  /** Every text spells one text without capitals, its lower-case form. */
  lemma SpellsExactly(s: string, r: string)
    ensures Spells(s, r) <==> Lower(s) == r
  {
    if Spells(s, r) {
      forall i | 0 <= i < |s|
        ensures Lower(s)[i] == r[i]
      {
        assert SameLetter(s[i], r[i]) && !('A' <= r[i] <= 'Z');
      }
    }
  }

  predicate IsBlank(c: char) {
    c == ' ' || c == '\t' || c == '\r'
  }

  function TrimFront(s: string): string {
    if s != "" && IsBlank(s[0]) then TrimFront(s[1..]) else s
  }

  function TrimBack(s: string): string {
    if s != "" && IsBlank(s[|s| - 1]) then TrimBack(s[..|s| - 1]) else s
  }

  function Trim(s: string): string {
    TrimBack(TrimFront(s))
  }

  predicate Trimmed(s: string) {
    s != "" ==>
      && s[0] != ' ' && s[0] != '\t' && s[0] != '\r'
      && s[|s| - 1] != ' ' && s[|s| - 1] != '\t' && s[|s| - 1] != '\r'
  }

  lemma TrimOfTrimmed(s: string)
    requires Trimmed(s)
    ensures Trim(s) == s
  {}

  predicate AllBlank(s: string) {
    forall i {:trigger s[i]} :: 0 <= i < |s| ==> s[i] == ' ' || s[i] == '\t' || s[i] == '\r'
  }

  /** r is s without blanks around it. */
  ghost predicate Stripped(s: string, r: string) {
    Trimmed(r) && exists front, back: string :: s == front + r + back && AllBlank(front) && AllBlank(back)
  }

  lemma {:induction false} FrontStripped(s: string) returns (front: string)
    ensures s == front + TrimFront(s) && AllBlank(front)
    ensures TrimFront(s) != "" ==> !IsBlank(TrimFront(s)[0])
  {
    if s != "" && IsBlank(s[0]) {
      front := FrontStripped(s[1..]);
      front := [s[0]] + front;
    } else {
      front := "";
    }
  }

  lemma {:induction false} BackStripped(s: string) returns (back: string)
    ensures s == TrimBack(s) + back && AllBlank(back)
    ensures TrimBack(s) != "" ==> !IsBlank(TrimBack(s)[|TrimBack(s)| - 1]) && TrimBack(s)[0] == s[0]
  {
    if s != "" && IsBlank(s[|s| - 1]) {
      back := BackStripped(s[..|s| - 1]);
      back := back + [s[|s| - 1]];
    } else {
      back := "";
    }
  }

  /** Trimming takes the outer blanks and nothing else. */
  lemma TrimStrips(s: string)
    ensures Stripped(s, Trim(s))
  {
    var front := FrontStripped(s);
    var back := BackStripped(TrimFront(s));
    assert s == front + Trim(s) + back;
  }

  /** There is only one way to strip a text. */
  lemma StrippedOnce(s: string, r: string)
    requires Stripped(s, r)
    ensures r == Trim(s)
  {
    var front, back: string :| s == front + r + back && AllBlank(front) && AllBlank(back);
    assert front + r + back == front + (r + back);
    SkipsBlanks(front, r + back);
    if r == "" {
      assert r + back == back;
      SkipsBlanks(back, "");
      assert back + "" == back;
    } else {
      assert (r + back)[0] == r[0];
      DropsBlanks(r, back);
    }
  }

  lemma {:induction false} SkipsBlanks(front: string, rest: string)
    requires AllBlank(front)
    ensures TrimFront(front + rest) == TrimFront(rest)
  {
    if front == "" {
      assert front + rest == rest;
    } else {
      assert (front + rest)[1..] == front[1..] + rest;
      SkipsBlanks(front[1..], rest);
    }
  }

  lemma {:induction false} DropsBlanks(rest: string, back: string)
    requires AllBlank(back) && rest != "" && !IsBlank(rest[|rest| - 1])
    ensures TrimBack(rest + back) == rest
    decreases |back|
  {
    if back == "" {
      assert rest + back == rest;
    } else {
      assert (rest + back)[..|rest + back| - 1] == rest + back[..|back| - 1];
      DropsBlanks(rest, back[..|back| - 1]);
    }
  }

  /** Trims white space from both ends, one character at a time. */
  method TrimAscii(s: string) returns (r: string)
    ensures r == Trim(s) && Stripped(s, r)
  {
    TrimStrips(s);
    r := s;
    while r != "" && IsBlank(r[0])
      invariant TrimFront(r) == TrimFront(s)
      decreases |r|
    {
      r := r[1..];
    }
    while r != "" && IsBlank(r[|r| - 1])
      invariant TrimBack(r) == TrimBack(TrimFront(s))
      decreases |r|
    {
      r := r[..|r| - 1];
    }
  }

  method LowerAscii(s: string) returns (r: string)
    ensures r == Lower(s) && Spells(s, r)
  {
    SpellsExactly(s, Lower(s));
    r := "";
    for i := 0 to |s|
      invariant r == Lower(s)[..i]
    {
      r := r + [LowerChar(s[i])];
    }
  }

  // ----- Comma-separated token lists ----------------------------------------------

  /** The comma-separated parts of a header value. */
  function Parts(value: string): (ps: seq<string>)
    ensures |ps| > 0
    decreases |value|
  {
    match Find(value, ",", 0)
    case None => [value]
    case Some(comma) => [value[..comma]] + Parts(value[comma + 1..])
  }

  /** Some part equals the target once trimmed. */
  predicate AnyPart(parts: seq<string>, target: string) {
    exists i :: 0 <= i < |parts| && Trim(parts[i]) == target
  }

  /** Some part of the value equals the token, ignoring case and surrounding white
      space. */
  predicate HasToken(value: string, token: string) {
    AnyPart(Parts(Lower(value)), Lower(token))
  }

  /** Searching from an offset is searching the rest. */
  lemma {:induction false} FindShift(s: string, pat: string, start: nat, k: nat)
    requires |pat| > 0 && start <= |s|
    ensures Find(s, pat, start + k) == match Find(s[start..], pat, k)
                                       case None => None
                                       case Some(i) => Some(start + i)
    decreases |s| - k
  {
    if start + k + |pat| <= |s| {
      assert s[start..][k..k + |pat|] == s[start + k..start + k + |pat|];
      FindShift(s, pat, start, k + 1);
    }
  }

  lemma PartsStep(rest: string, target: string)
    ensures AnyPart(Parts(rest), target)
         == match Find(rest, ",", 0)
            case None => Trim(rest) == target
            case Some(comma) =>
              Trim(rest[..comma]) == target || AnyPart(Parts(rest[comma + 1..]), target)
  {
    hide Trim, Find;
    var ps := Parts(rest);
    match Find(rest, ",", 0)
    case None =>
      assert ps == [rest] && ps[0] == rest;
    case Some(comma) =>
      var tail := Parts(rest[comma + 1..]);
      assert ps[0] == rest[..comma] && ps[1..] == tail;
      if AnyPart(tail, target) {
        var i :| 0 <= i < |tail| && Trim(tail[i]) == target;
        assert ps[i + 1] == tail[i];
      }
      if AnyPart(ps, target) {
        var i :| 0 <= i < |ps| && Trim(ps[i]) == target;
        assert i > 0 ==> tail[i - 1] == ps[i];
      }
  }

  // ----- Tokens by where they stand ---------------------------------------------------

  /** A part begins at i, and nothing but blanks stands between that and a. */
  predicate BlankFrom(value: string, i: nat, a: nat) {
    i <= a <= |value| && (i == 0 || value[i - 1] == ',') && AllBlank(value[i..a])
  }

  /** A part ends at j, and nothing but blanks stands between b and that. */
  predicate BlankTo(value: string, b: nat, j: nat) {
    b <= j <= |value| && (j == |value| || value[j] == ',') && AllBlank(value[b..j])
  }

  ghost predicate FreeBefore(value: string, a: nat) {
    exists i: nat :: BlankFrom(value, i, a)
  }

  ghost predicate FreeAfter(value: string, b: nat) {
    exists j: nat :: BlankTo(value, b, j)
  }

  /** The token, in whatever case, stands alone between commas and blanks. */
  ghost predicate Mentions(value: string, token: string) {
    exists a, b :: 0 <= a <= b <= |value| && Spells(value[a..b], token) && FreeBefore(value, a) && FreeAfter(value, b)
  }

  predicate PlainToken(token: string) {
    token != "" && NoCapitals(token) && Trimmed(token) && ',' !in token
  }

  /** A text without commas that is the token between blanks. */
  ghost predicate Alone(part: string, token: string) {
    exists a, b :: 0 <= a <= b <= |part| && Spells(part[a..b], token) && AllBlank(part[..a]) && AllBlank(part[b..])
  }

  lemma BlankLower(s: string)
    ensures AllBlank(Lower(s)) <==> AllBlank(s)
  {
    var lower := Lower(s);
    forall i {:trigger s[i]} | 0 <= i < |s|
      ensures lower[i] == s[i] || ('a' <= lower[i] <= 'z' && 'A' <= s[i] <= 'Z')
    {
    }
  }

  lemma LowerSlice(s: string, a: nat, b: nat)
    requires a <= b <= |s|
    ensures Lower(s)[a..b] == Lower(s[a..b])
  {
    assert |Lower(s)[a..b]| == |Lower(s[a..b])|;
    forall i | 0 <= i < b - a
      ensures Lower(s)[a..b][i] == Lower(s[a..b])[i]
    {
      assert s[a..b][i] == s[a + i];
    }
  }

  lemma ThreeSlices(s: string, a: nat, b: nat)
    requires a <= b <= |s|
    ensures s == s[..a] + s[a..b] + s[b..]
  {}

  lemma SlicesOfThree(front: string, mid: string, back: string)
    ensures var s := front + mid + back;
            s[0..|front|] == front && s[|front|..|front| + |mid|] == mid && s[|front| + |mid|..|s|] == back
  {}

  /** The trimmed text, where it stands. */
  lemma AloneIfTrimmed(part: string, token: string)
    requires Trim(Lower(part)) == token
    ensures Alone(part, token)
  {
    hide AllBlank, Trim, Spells, Trimmed;
    var lower := Lower(part);
    TrimStrips(lower);
    var front, back: string :| lower == front + token + back && AllBlank(front) && AllBlank(back);
    SlicesOfThree(front, token, back);
    var a, b := |front|, |front| + |token|;
    LowerSlice(part, 0, a);
    LowerSlice(part, a, b);
    LowerSlice(part, b, |part|);
    BlankLower(part[0..a]);
    BlankLower(part[b..|part|]);
    SpellsExactly(part[a..b], token);
    assert part[0..a] == part[..a] && part[b..|part|] == part[b..];
  }

  lemma TrimmedIfAlone(part: string, token: string)
    requires Trimmed(token) && Alone(part, token)
    ensures Trim(Lower(part)) == token
  {
    hide AllBlank, Trim, Spells, Trimmed;
    var lower := Lower(part);
    var a, b :| 0 <= a <= b <= |part| && Spells(part[a..b], token) && AllBlank(part[..a]) && AllBlank(part[b..]);
    LowerSlice(part, 0, a);
    LowerSlice(part, a, b);
    LowerSlice(part, b, |part|);
    BlankLower(part[0..a]);
    BlankLower(part[b..|part|]);
    SpellsExactly(part[a..b], token);
    assert part[0..a] == part[..a] && part[b..|part|] == part[b..];
    assert lower[0..a] == lower[..a] && lower[b..|part|] == lower[b..];
    ThreeSlices(lower, a, b);
    assert lower == lower[..a] + token + lower[b..];
    StrippedOnce(lower, token);
  }

  lemma AloneExactly(part: string, token: string)
    requires Trimmed(token)
    ensures Trim(Lower(part)) == token <==> Alone(part, token)
  {
    if Trim(Lower(part)) == token { AloneIfTrimmed(part, token); }
    if Alone(part, token) { TrimmedIfAlone(part, token); }
    hide Trim, Alone;
  }

  lemma SlicesOfPart(value: string, end: nat, a: nat, b: nat)
    requires a <= b <= end <= |value|
    ensures var part := value[..end];
            part[a..b] == value[a..b] && part[..a] == value[0..a] && part[b..] == value[b..end]
  {}

  lemma FreeAround(value: string, i: nat, a: nat, b: nat, j: nat)
    requires BlankFrom(value, i, a) && BlankTo(value, b, j)
    ensures FreeBefore(value, a) && FreeAfter(value, b)
  {}

  lemma NoCommaBefore(value: string, end: nat)
    requires end <= |value| && ',' !in value[..end]
    ensures forall k {:trigger value[k]} :: 0 <= k < end ==> value[k] != ','
  {
    forall k {:trigger value[k]} | 0 <= k < end
      ensures value[k] != ','
    {
      assert value[..end][k] == value[k];
    }
  }

  /** The first part of a value, up to `end`, is the token alone exactly when the value
      mentions it there. */
  lemma MentionedFirst(value: string, token: string, end: nat)
    requires end <= |value| && (end == |value| || value[end] == ',') && ',' !in value[..end]
    ensures Alone(value[..end], token)
       <==> exists a, b :: 0 <= a <= b <= end && Spells(value[a..b], token)
                           && FreeBefore(value, a) && FreeAfter(value, b)
  {
    hide Spells, AllBlank, FreeBefore, FreeAfter;
    var part := value[..end];
    if Alone(part, token) {
      var a, b :| 0 <= a <= b <= |part| && Spells(part[a..b], token) && AllBlank(part[..a]) && AllBlank(part[b..]);
      SlicesOfPart(value, end, a, b);
      FreeAround(value, 0, a, b, end);
      assert Spells(value[a..b], token) && FreeBefore(value, a) && FreeAfter(value, b);
    }
    if a, b :| 0 <= a <= b <= end && Spells(value[a..b], token) && FreeBefore(value, a) && FreeAfter(value, b) {
      PartOfMention(value, end, a, b);
      SlicesOfPart(value, end, a, b);
    }
  }

  /** The room around a mention in the first part is the rest of that part. */
  lemma PartOfMention(value: string, end: nat, a: nat, b: nat)
    requires a <= b <= end <= |value| && (end == |value| || value[end] == ',') && ',' !in value[..end]
    requires FreeBefore(value, a) && FreeAfter(value, b)
    ensures AllBlank(value[..end][..a]) && AllBlank(value[..end][b..])
  {
    hide AllBlank;
    NoCommaBefore(value, end);
    var i: nat :| BlankFrom(value, i, a);
    var j: nat :| BlankTo(value, b, j);
    if j > end { CommaIsNotBlank(value, b, j, end); }
    assert value[..end][..a] == value[i..a] && value[..end][b..] == value[b..j];
  }

  lemma CommaIsNotBlank(value: string, b: nat, j: nat, at: nat)
    requires b <= at < j <= |value| && value[at] == ','
    ensures !AllBlank(value[b..j])
  {
    assert value[b..j][at - b] == ',';
  }

  lemma NoSpelledComma(value: string, a: nat, b: nat, token: string, at: nat)
    requires a <= at < b <= |value| && ',' !in token && Spells(value[a..b], token)
    ensures value[at] != ','
  {
    assert SameLetter(value[a..b][at - a], token[at - a]);
    assert token[at - a] in token;
  }

  lemma SliceOfRest(value: string, off: nat, i: nat, j: nat)
    requires off <= |value| && i <= j <= |value| - off
    ensures value[off..][i..j] == value[off + i..off + j]
  {}

  /** The free room before and behind a place stays when the text grows in front. */
  lemma FreeShifted(value: string, off: nat, a: nat, b: nat)
    requires 0 < off <= a <= b <= |value| && value[off - 1] == ','
    ensures FreeBefore(value[off..], a - off) <==> FreeBefore(value, a)
    ensures FreeAfter(value[off..], b - off) <==> FreeAfter(value, b)
  {
    FreeBeforeShifted(value, off, a);
    FreeAfterShifted(value, off, b);
  }

  lemma FreeBeforeShifted(value: string, off: nat, a: nat)
    requires 0 < off <= a <= |value| && value[off - 1] == ','
    ensures FreeBefore(value[off..], a - off) <==> FreeBefore(value, a)
  {
    hide AllBlank;
    var rest, c := value[off..], a - off;
    if i: nat :| BlankFrom(rest, i, c) {
      SliceOfRest(value, off, i, c);
      assert BlankFrom(value, off + i, a);
    }
    if i: nat :| BlankFrom(value, i, a) {
      if i < off { CommaIsNotBlank(value, i, a, off - 1); }
      SliceOfRest(value, off, i - off, c);
      assert BlankFrom(rest, i - off, c);
    }
  }

  lemma FreeAfterShifted(value: string, off: nat, b: nat)
    requires 0 < off <= b <= |value|
    ensures FreeAfter(value[off..], b - off) <==> FreeAfter(value, b)
  {
    hide AllBlank;
    var rest, d := value[off..], b - off;
    if j: nat :| BlankTo(rest, d, j) {
      SliceOfRest(value, off, d, j);
      assert BlankTo(value, b, off + j);
    }
    if j: nat :| BlankTo(value, b, j) {
      SliceOfRest(value, off, d, j - off);
      assert BlankTo(rest, d, j - off);
    }
  }

  /** What the value mentions behind a comma. */
  lemma MentionedBehind(value: string, token: string, comma: nat)
    requires comma < |value| && value[comma] == ','
    ensures Mentions(value[comma + 1..], token)
       <==> exists a, b :: comma < a <= b <= |value| && Spells(value[a..b], token)
                           && FreeBefore(value, a) && FreeAfter(value, b)
  {
    hide Spells, FreeBefore, FreeAfter;
    var rest, off := value[comma + 1..], comma + 1;
    if a, b :| 0 <= a <= b <= |rest| && Spells(rest[a..b], token) && FreeBefore(rest, a) && FreeAfter(rest, b) {
      FreeShifted(value, off, off + a, off + b);
      SliceOfRest(value, off, a, b);
    }
    if a, b :| comma < a <= b <= |value| && Spells(value[a..b], token) && FreeBefore(value, a) && FreeAfter(value, b) {
      FreeShifted(value, off, a, b);
      SliceOfRest(value, off, a - off, b - off);
    }
  }

  /** The search by parts finds a token exactly when the value mentions it. */
  lemma {:induction false} TokenFound(value: string, token: string)
    requires PlainToken(token)
    ensures AnyPart(Parts(Lower(value)), token) <==> Mentions(value, token)
    decreases |value|
  {
    hide Spells, Parts, AnyPart, Trim, Find, FreeBefore, FreeAfter, Alone, Trimmed;
    var lower := Lower(value);
    PartsStep(lower, token);
    match Find(lower, ",", 0)
    case None =>
      CommasOfLower(value);
      assert value[..|value|] == value;
      AloneExactly(value, token);
      MentionedFirst(value, token, |value|);
    case Some(comma) =>
      CommasOfLower(value);
      var rest := value[comma + 1..];
      assert Lower(rest) == lower[comma + 1..] && Lower(value[..comma]) == lower[..comma];
      AloneExactly(value[..comma], token);
      MentionedFirst(value, token, comma);
      TokenFound(rest, token);
      MentionedBehind(value, token, comma);
      MentionedSomewhere(value, token, comma);
  }

  lemma CommasOfLower(value: string)
    ensures match Find(Lower(value), ",", 0)
            case None => ',' !in value
            case Some(comma) => comma < |value| && value[comma] == ',' && ',' !in value[..comma]
  {
    hide Find;
    var lower := Lower(value);
    var found := Find(lower, ",", 0);
    forall i | 0 <= i < |value| && (found.None? || i < found.value)
      ensures value[i] != ','
    {
      assert !Occurs(lower, ",", i);
      assert lower[i..i + 1] == [lower[i]];
    }
    if found.Some? {
      assert lower[found.value..found.value + 1][0] == lower[found.value];
    }
  }

  /** No mention reaches across a comma. */
  lemma MentionedSomewhere(value: string, token: string, comma: nat)
    requires PlainToken(token) && comma < |value| && value[comma] == ','
    ensures Mentions(value, token)
       <==> || (exists a, b :: 0 <= a <= b <= comma && Spells(value[a..b], token)
                               && FreeBefore(value, a) && FreeAfter(value, b))
            || (exists a, b :: comma < a <= b <= |value| && Spells(value[a..b], token)
                               && FreeBefore(value, a) && FreeAfter(value, b))
  {
    hide FreeBefore, FreeAfter;
    if a, b :| 0 <= a <= b <= |value| && Spells(value[a..b], token) && FreeBefore(value, a) && FreeAfter(value, b) {
      assert a < b;
      if a <= comma < b { NoSpelledComma(value, a, b, token, comma); }
    }
  }

  lemma PlainSearch(value: string, token: string)
    ensures PlainToken(token) ==> (HasToken(value, token) <==> Mentions(value, token))
  {
    hide Mentions, AnyPart, Parts;
    if PlainToken(token) {
      SpellsExactly(token, token);
      TokenFound(value, token);
    }
  }

  method HeaderValueHasToken(value: string, token: string) returns (found: bool)
    ensures found == HasToken(value, token)
    ensures PlainToken(token) ==> (found <==> Mentions(value, token))
  {
    hide Parts, AnyPart, Trim, Find, Stripped, Lower, Spells, Mentions;
    PlainSearch(value, token);
    var target := LowerAscii(token);
    var lower := LowerAscii(value);
    var start := 0;
    assert lower[0..] == lower;
    while start <= |lower|
      invariant start <= |lower|
      invariant AnyPart(Parts(lower), target) == AnyPart(Parts(lower[start..]), target)
      decreases |lower| - start
    {
      var comma := Find(lower, ",", start);
      FindShift(lower, ",", start, 0);
      var rest := lower[start..];
      PartsStep(rest, target);
      if comma.Some? {
        assert rest[..comma.value - start] == lower[start..comma.value];
        assert rest[comma.value - start + 1..] == lower[comma.value + 1..];
      }
      var part := TrimAscii(if comma.Some? then lower[start..comma.value] else rest);
      if part == target { return true; }
      if comma.None? { return false; }
      start := comma.value + 1;
    }
    assert false;
  }
}
