/** Whether claimed ranges account for a whole blob. */
module BlobCoverage {
  import opened Wrappers
  import opened ByteCodec
  import opened GgufLayout

  /** The half-open range [start, end) of one array. A negative byte count in the header
      gives an end before the start, possibly a negative one. */
  datatype Claim = Claim(start: nat, end: int)

  predicate WellFormed(claims: seq<Claim>) {
    forall i {:trigger claims[i]} :: 0 <= i < |claims| ==> claims[i].start <= claims[i].end
  }

  // ----- Sorting ------------------------------------------------------------------------

  /** Ranges compare by start, then by end. */
  predicate Before(a: Claim, b: Claim) {
    a.start < b.start || (a.start == b.start && a.end <= b.end)
  }

  predicate Ordered(claims: seq<Claim>) {
    forall i, j {:trigger claims[i], claims[j]} :: 0 <= i < j < |claims| ==> Before(claims[i], claims[j])
  }

  function Insert(c: Claim, sorted: seq<Claim>): (r: seq<Claim>)
    ensures multiset(r) == multiset(sorted) + multiset{c}
  {
    if sorted == [] then [c]
    else if Before(c, sorted[0]) then
      [c] + sorted
    else
      assert sorted == [sorted[0]] + sorted[1..];
      [sorted[0]] + Insert(c, sorted[1..])
  }

  function Sorted(claims: seq<Claim>): (r: seq<Claim>)
    ensures multiset(r) == multiset(claims)
  {
    if claims == [] then []
    else
      assert claims == [claims[0]] + claims[1..];
      Insert(claims[0], Sorted(claims[1..]))
  }

  lemma InsertMembers(c: Claim, s: seq<Claim>)
    ensures forall x :: x in Insert(c, s) <==> x == c || x in s
  {
    forall x
      ensures x in Insert(c, s) <==> x == c || x in s
    {
      assert x in multiset(Insert(c, s)) <==> x in multiset(s) + multiset{c};
    }
  }

  lemma {:induction false} InsertOrdered(c: Claim, sorted: seq<Claim>)
    requires Ordered(sorted)
    ensures Ordered(Insert(c, sorted))
  {
    if sorted != [] && !Before(c, sorted[0]) {
      TailOrdered(sorted);
      InsertOrdered(c, sorted[1..]);
      assert Insert(c, sorted) == [sorted[0]] + Insert(c, sorted[1..]);
      InsertMembers(c, sorted[1..]);
      hide Insert;
      forall x | x in Insert(c, sorted[1..])
        ensures Before(sorted[0], x)
      {
        if x != c { FirstIsLeast(sorted, x); }
      }
      FirstInOrder(sorted[0], Insert(c, sorted[1..]));
    } else if sorted != [] {
      forall x | x in sorted
        ensures Before(c, x)
      {
        FirstIsLeast(sorted, x);
      }
      FirstInOrder(c, sorted);
    }
  }

  lemma FirstInOrder(first: Claim, rest: seq<Claim>)
    requires Ordered(rest) && forall x :: x in rest ==> Before(first, x)
    ensures Ordered([first] + rest)
  {
    var all := [first] + rest;
    forall i, j | 0 <= i < j < |all|
      ensures Before(all[i], all[j])
    {
      assert all[j] == rest[j - 1];
      if i > 0 { assert all[i] == rest[i - 1]; }
    }
  }

  lemma {:induction false} SortedIsOrdered(claims: seq<Claim>)
    ensures Ordered(Sorted(claims))
  {
    if claims != [] {
      SortedIsOrdered(claims[1..]);
      InsertOrdered(claims[0], Sorted(claims[1..]));
    }
  }

  /** An ordered list is determined by what is in it. */
  lemma {:induction false} OrderedIsUnique(a: seq<Claim>, b: seq<Claim>)
    requires Ordered(a) && Ordered(b) && multiset(a) == multiset(b)
    ensures a == b
    decreases |a|
  {
    hide Ordered;
    if a == [] {
      assert |multiset(b)| == 0;
    } else {
      assert a[0] in multiset(b);
      assert b != [] && b[0] in multiset(a);
      FirstIsLeast(a, b[0]);
      FirstIsLeast(b, a[0]);
      assert a == [a[0]] + a[1..] && b == [b[0]] + b[1..];
      assert multiset(a[1..]) == multiset(a) - multiset{a[0]};
      assert multiset(b[1..]) == multiset(b) - multiset{b[0]};
      TailOrdered(a);
      TailOrdered(b);
      OrderedIsUnique(a[1..], b[1..]);
    }
  }

  lemma FirstIsLeast(s: seq<Claim>, c: Claim)
    requires Ordered(s) && s != [] && c in s
    ensures Before(s[0], c)
  {
    var i :| 0 <= i < |s| && s[i] == c;
    if i > 0 { assert Before(s[0], s[i]); }
  }

  lemma TailOrdered(s: seq<Claim>)
    requires Ordered(s) && s != []
    ensures Ordered(s[1..])
  {
    forall i, j | 0 <= i < j < |s| - 1
      ensures Before(s[1..][i], s[1..][j])
    {
      assert Before(s[i + 1], s[j + 1]);
    }
  }

  // ----- The check ------------------------------------------------------------------------

  datatype Gap = Overlap | MissedArray | NonzeroGap | Trailing

  predicate AllZero(blob: Bytes, from: nat, to: nat)
    requires from <= to <= |blob|
  {
    forall k {:trigger blob[k]} :: from <= k < to ==> blob[k] == 0
  }

  /** No byte of the slice blob[from:to] differs from zero. A negative bound of a slice
      counts from the end, and bounds outside the blob are moved to its ends. */
  predicate GapZero(blob: Bytes, from: int, to: nat) {
    var lo := SliceBound(blob, from);
    var hi := SliceBound(blob, to);
    lo < hi ==> AllZero(blob, lo, hi)
  }

  function SliceBound(blob: Bytes, i: int): (k: nat)
    ensures k <= |blob|
  {
    if i > |blob| then |blob|
    else if i >= 0 then i
    else if i + |blob| >= 0 then i + |blob|
    else 0
  }

  /** Walks the ordered ranges; the position reached, or what is wrong. */
  function Walk(blob: Bytes, claims: seq<Claim>): Result<int, Gap> {
    if claims == [] then Ok(0)
    else match Walk(blob, claims[..|claims| - 1])
      case Err(e) => Err(e)
      case Ok(cursor) =>
        var c := claims[|claims| - 1];
        if c.start < cursor then Err(Overlap)
        else if c.start - cursor >= 16 then Err(MissedArray)
        else if !GapZero(blob, cursor, c.start) then Err(NonzeroGap)
        else Ok(c.end)
  }

  function Verdict(blob: Bytes, claims: seq<Claim>): Option<Gap> {
    match Walk(blob, Sorted(claims))
    case Err(e) => Some(e)
    case Ok(cursor) => if AlignUp(cursor, 16) < |blob| then Some(Trailing) else None
  }

  /** What the claiming test lets through. */
  predicate Claimable(blob: Bytes, claims: seq<Claim>) {
    forall i {:trigger claims[i]} :: 0 <= i < |claims| ==> claims[i].end <= |blob|
  }

  /** No byte count was negative. */
  predicate InBlob(blob: Bytes, claims: seq<Claim>) {
    && WellFormed(claims)
    && forall i {:trigger claims[i]} :: 0 <= i < |claims| ==> claims[i].end <= |blob|
  }

  lemma SortedInBlob(blob: Bytes, claims: seq<Claim>)
    requires InBlob(blob, claims)
    ensures InBlob(blob, Sorted(claims))
  {
    var s := Sorted(claims);
    forall i | 0 <= i < |s|
      ensures s[i].start <= s[i].end <= |blob|
    {
      assert s[i] in multiset(s);
      assert s[i] in claims;
    }
  }

  class BlobReader {
    const blob: Bytes
    var claimed: seq<Claim>

    ghost predicate Valid()
      reads this
    {
      Claimable(blob, claimed)
    }

    constructor (bytes: Bytes)
      ensures Valid() && blob == bytes && claimed == []
    {
      blob, claimed := bytes, [];
    }

    /** Records a range and returns its bytes, unless it starts before the blob or ends
        behind it. */
    method ClaimRange(offset: int, nbytes: int) returns (r: Option<Bytes>)
      requires Valid()
      modifies this`claimed
      ensures Valid()
      ensures r.Some? <==> 0 <= offset && offset + nbytes <= |blob|
      ensures r.Some? && nbytes >= 0 ==> r.value == blob[offset..offset + nbytes]
      ensures claimed == if r.Some? then old(claimed) + [Claim(offset, offset + nbytes)] else old(claimed)
    {
      if offset < 0 || offset + nbytes > |blob| {
        return None;
      }
      claimed := claimed + [Claim(offset, offset + nbytes)];
      var lo, hi := SliceBound(blob, offset), SliceBound(blob, offset + nbytes);
      return Some(if lo < hi then blob[lo..hi] else []);
    }

    method CheckCoverage() returns (gap: Option<Gap>)
      requires Valid()
      ensures gap == Verdict(blob, claimed)
    {
      hide Sorted, GapZero, AlignUp;
      var ordered := Sorted(claimed);
      var cursor := 0;
      for i := 0 to |ordered|
        invariant Walk(blob, ordered[..i]) == Ok(cursor)
      {
        assert ordered[..i + 1][..i] == ordered[..i];
        var c := ordered[i];
        if c.start < cursor {
          WalkFails(blob, ordered, i + 1);
          return Some(Overlap);
        }
        if c.start - cursor >= 16 {
          WalkFails(blob, ordered, i + 1);
          return Some(MissedArray);
        }
        var zero := GapIsZero(cursor, c.start);
        if !zero {
          WalkFails(blob, ordered, i + 1);
          return Some(NonzeroGap);
        }
        cursor := c.end;
      }
      assert ordered[..|ordered|] == ordered;
      if AlignUp(cursor, 16) < |blob| {
        return Some(Trailing);
      }
      return None;
    }

    method GapIsZero(from: int, to: nat) returns (zero: bool)
      ensures zero == GapZero(blob, from, to)
    {
      var lo, hi := SliceBound(blob, from), SliceBound(blob, to);
      var k := lo;
      while k < hi
        invariant lo <= k && (lo < hi ==> k <= hi && AllZero(blob, lo, k))
      {
        if blob[k] != 0 { return false; }
        k := k + 1;
      }
      return true;
    }
  }

  lemma {:induction false} WalkFails(blob: Bytes, claims: seq<Claim>, i: nat)
    requires i <= |claims| && Walk(blob, claims[..i]).Err?
    ensures Walk(blob, claims) == Walk(blob, claims[..i])
    decreases |claims| - i
  {
    if i < |claims| {
      assert claims[..i + 1][..i] == claims[..i];
      WalkFails(blob, claims, i + 1);
    } else {
      assert claims[..i] == claims;
    }
  }

  // ----- What acceptance means ---------------------------------------------------------------

  predicate Apart(a: Claim, b: Claim) {
    a.end <= b.start || b.end <= a.start
  }

  /** Some earlier-starting range, or the start of the blob, ends fewer than 16 bytes
      before c, with only zeros between. */
  predicate Anchored(blob: Bytes, claims: seq<Claim>, c: Claim)
    requires c.start <= |blob|
  {
    Close(blob, 0, c) || exists d :: d in claims && d.start < c.start && Close(blob, d.end, c)
  }

  predicate Close(blob: Bytes, e: int, c: Claim)
    requires c.start <= |blob|
  {
    0 <= e <= c.start < e + 16 && AllZero(blob, e, c.start)
  }

  function MaxEnd(claims: seq<Claim>): nat {
    if claims == [] then 0
    else
      var rest := MaxEnd(claims[1..]);
      if rest < claims[0].end then claims[0].end else rest
  }

  /** No two ranges overlap, every range follows another closely, and the last ends
      in the final 16-byte block. None of it depends on the order of the claims. */
  ghost predicate Covers(blob: Bytes, claims: seq<Claim>)
    requires InBlob(blob, claims)
  {
    && (forall i, j {:trigger claims[i], claims[j]} :: 0 <= i < j < |claims| ==> Apart(claims[i], claims[j]))
    && (forall i {:trigger claims[i]} :: 0 <= i < |claims| ==> Anchored(blob, claims, claims[i]))
    && AlignUp(MaxEnd(claims), 16) >= |blob|
  }

  // ----- On ordered ranges --------------------------------------------------------------------

  function LastEnd(s: seq<Claim>): int {
    if s == [] then 0 else s[|s| - 1].end
  }

  /** Each range ends before every later one starts. */
  predicate Chained(s: seq<Claim>) {
    forall i, j {:trigger s[i], s[j]} :: 0 <= i < j < |s| ==> s[i].end <= s[j].start
  }

  predicate AllAnchored(blob: Bytes, claims: seq<Claim>, cs: seq<Claim>)
    requires forall i {:trigger cs[i]} :: 0 <= i < |cs| ==> cs[i].start <= |blob|
  {
    forall i {:trigger cs[i]} :: 0 <= i < |cs| ==> Anchored(blob, claims, cs[i])
  }

  lemma {:induction false} WalkReaches(blob: Bytes, s: seq<Claim>)
    requires InBlob(blob, s) && Walk(blob, s).Ok?
    ensures Walk(blob, s).value == LastEnd(s)
  {}

  predicate AllBefore(cs: seq<Claim>, last: Claim) {
    forall c :: c in cs ==> Before(c, last)
  }

  lemma FrontOfOrdered(blob: Bytes, s: seq<Claim>)
    requires Ordered(s) && InBlob(blob, s) && s != []
    ensures Ordered(s[..|s| - 1]) && InBlob(blob, s[..|s| - 1])
    ensures AllBefore(s[..|s| - 1], s[|s| - 1])
  {
    var front := s[..|s| - 1];
    forall i, j | 0 <= i < j < |front|
      ensures Before(front[i], front[j])
    {
      assert Before(s[i], s[j]);
    }
    forall c | c in front
      ensures Before(c, s[|s| - 1])
    {
      var i :| 0 <= i < |front| && front[i] == c;
      assert Before(s[i], s[|s| - 1]);
    }
  }

  lemma ChainedUpTo(s: seq<Claim>, i: nat)
    requires Chained(s) && WellFormed(s) && i < |s|
    ensures s[i].end <= LastEnd(s)
  {
    if i < |s| - 1 { assert s[i].end <= s[|s| - 1].start; }
  }

  /** A walk that gets through has met ranges that are chained and anchored. */
  lemma {:induction false} WalkedIsChained(blob: Bytes, s: seq<Claim>)
    requires Ordered(s) && InBlob(blob, s) && Walk(blob, s).Ok?
    ensures Chained(s) && AllAnchored(blob, s, s)
    decreases |s|
  {
    hide Ordered, Close;
    if s != [] {
      var front, last := s[..|s| - 1], s[|s| - 1];
      FrontOfOrdered(blob, s);
      WalkedIsChained(blob, front);
      WalkReaches(blob, front);
      forall i, j | 0 <= i < j < |s|
        ensures s[i].end <= s[j].start
      {
        if j < |front| {
          assert front[i].end <= front[j].start;
        } else {
          ChainedUpTo(front, i);
          assert s[i] == front[i];
        }
      }
      LastAnchored(blob, front, last);
      forall i | 0 <= i < |s|
        ensures Anchored(blob, s, s[i])
      {
        if i < |front| {
          assert Anchored(blob, front, front[i]);
          AnchoredInMore(blob, front, s, front[i]);
        } else {
          AnchoredInMore(blob, front, s, last);
        }
      }
    }
  }

  lemma AnchoredInMore(blob: Bytes, few: seq<Claim>, many: seq<Claim>, c: Claim)
    requires c.start <= |blob| && Anchored(blob, few, c) && forall d :: d in few ==> d in many
    ensures Anchored(blob, many, c)
  {}

  lemma LastAnchored(blob: Bytes, front: seq<Claim>, last: Claim)
    requires InBlob(blob, front) && AllAnchored(blob, front, front)
    requires AllBefore(front, last)
    requires 0 <= LastEnd(front) <= last.start <= |blob| && Close(blob, LastEnd(front), last)
    ensures Anchored(blob, front, last)
  {
    if front != [] {
      var p := front[|front| - 1];
      assert p in front && Before(p, last);
      if p.start == last.start {
        assert Anchored(blob, front, p);
        SameStartSameAnchor(blob, front, p, last);
      }
    }
  }

  lemma SameStartSameAnchor(blob: Bytes, claims: seq<Claim>, c: Claim, d: Claim)
    requires c.start == d.start <= |blob| && Anchored(blob, claims, c)
    ensures Anchored(blob, claims, d)
  {}

  /** Chained and anchored ranges let the walk through. */
  lemma {:induction false} ChainedIsWalked(blob: Bytes, s: seq<Claim>)
    requires Ordered(s) && InBlob(blob, s) && Chained(s) && AllAnchored(blob, s, s)
    ensures Walk(blob, s).Ok?
    decreases |s|
  {
    hide Ordered, Anchored;
    if s != [] {
      var front, last := s[..|s| - 1], s[|s| - 1];
      FrontOfOrdered(blob, s);
      forall i, j | 0 <= i < j < |front|
        ensures front[i].end <= front[j].start
      {
        assert s[i].end <= s[j].start;
      }
      forall i | 0 <= i < |front|
        ensures Anchored(blob, front, front[i])
      {
        assert Anchored(blob, s, s[i]);
        assert front[i] in front;
        AnchoredInFront(blob, s, s[i]);
      }
      ChainedIsWalked(blob, front);
      WalkReaches(blob, front);
      assert Anchored(blob, s, last);
      AnchoredInFront(blob, s, last);
      AnchoredClose(blob, front, last);
    }
  }

  /** A range not after the last one is anchored by an earlier one. */
  lemma AnchoredInFront(blob: Bytes, s: seq<Claim>, c: Claim)
    requires s != [] && c.start <= |blob| && Anchored(blob, s, c)
    requires c.start <= s[|s| - 1].start
    ensures Anchored(blob, s[..|s| - 1], c)
  {
    if !Close(blob, 0, c) {
      var d :| d in s && d.start < c.start && Close(blob, d.end, c);
      var i :| 0 <= i < |s| && s[i] == d;
      assert s[..|s| - 1][i] == d;
    }
  }

  lemma AnchoredClose(blob: Bytes, front: seq<Claim>, last: Claim)
    requires Chained(front) && WellFormed(front) && last.start <= |blob| && Anchored(blob, front, last)
    requires LastEnd(front) <= last.start
    ensures Close(blob, LastEnd(front), last)
  {
    if !Close(blob, 0, last) {
      var d :| d in front && d.start < last.start && Close(blob, d.end, last);
      var i :| 0 <= i < |front| && front[i] == d;
      ChainedUpTo(front, i);
    }
  }

  /** For ordered ranges, being apart is being chained. */
  lemma ApartIsChained(s: seq<Claim>)
    requires Ordered(s) && WellFormed(s)
    ensures Chained(s) <==> forall i, j {:trigger s[i], s[j]} :: 0 <= i < j < |s| ==> Apart(s[i], s[j])
  {
    forall i, j | 0 <= i < j < |s|
      ensures Apart(s[i], s[j]) <==> s[i].end <= s[j].start
    {
      assert Before(s[i], s[j]);
    }
  }

  // ----- Independent of the order ---------------------------------------------------------------

  predicate AllApart(cs: seq<Claim>) {
    cs == [] || (ApartFrom(cs[0], cs[1..]) && AllApart(cs[1..]))
  }

  predicate ApartFrom(c: Claim, cs: seq<Claim>) {
    forall x :: x in cs ==> Apart(c, x)
  }

  lemma {:induction false} AllApartPairs(cs: seq<Claim>)
    ensures AllApart(cs) <==> forall i, j {:trigger cs[i], cs[j]} :: 0 <= i < j < |cs| ==> Apart(cs[i], cs[j])
  {
    if cs != [] {
      AllApartPairs(cs[1..]);
      FirstAndRest(cs);
    }
  }

  lemma FirstAndRest(cs: seq<Claim>)
    requires cs != []
    ensures (forall i, j {:trigger cs[i], cs[j]} :: 0 <= i < j < |cs| ==> Apart(cs[i], cs[j]))
       <==> ApartFrom(cs[0], cs[1..])
            && (forall i, j {:trigger cs[1..][i], cs[1..][j]} ::
                  0 <= i < j < |cs[1..]| ==> Apart(cs[1..][i], cs[1..][j]))
  {
    var rest := cs[1..];
    forall i | 0 <= i < |rest|
      ensures rest[i] == cs[i + 1] && rest[i] in rest
    {}
    if ApartFrom(cs[0], rest)
       && (forall i, j {:trigger rest[i], rest[j]} :: 0 <= i < j < |rest| ==> Apart(rest[i], rest[j])) {
      forall i, j | 0 <= i < j < |cs|
        ensures Apart(cs[i], cs[j])
      {
        assert cs[j] == rest[j - 1];
        if i > 0 { assert cs[i] == rest[i - 1]; }
      }
    }
    if forall i, j {:trigger cs[i], cs[j]} :: 0 <= i < j < |cs| ==> Apart(cs[i], cs[j]) {
      forall i, j | 0 <= i < j < |rest|
        ensures Apart(rest[i], rest[j])
      {
        assert Apart(cs[i + 1], cs[j + 1]);
      }
      forall x | x in rest
        ensures Apart(cs[0], x)
      {
        var j :| 0 <= j < |rest| && rest[j] == x;
        assert Apart(cs[0], cs[j + 1]);
      }
    }
  }

  lemma {:induction false} InsertApart(c: Claim, s: seq<Claim>)
    ensures AllApart(Insert(c, s)) <==> AllApart(s) && ApartFrom(c, s)
  {
    hide ApartFrom;
    if s != [] && !Before(c, s[0]) {
      InsertApart(c, s[1..]);
      ApartFromInsert(s[0], c, s[1..]);
      ApartFromCons(c, s[0], s[1..]);
      assert Insert(c, s)[1..] == Insert(c, s[1..]);
      assert s == [s[0]] + s[1..];
    } else {
      assert Insert(c, s)[1..] == s;
      if s == [] { ApartFromNone(c); }
    }
  }

  lemma ApartFromNone(c: Claim)
    ensures ApartFrom(c, [])
  {}

  lemma ApartFromInsert(a: Claim, c: Claim, cs: seq<Claim>)
    ensures ApartFrom(a, Insert(c, cs)) <==> Apart(c, a) && ApartFrom(a, cs)
  {
    hide Insert;
    InsertMembers(c, cs);
    assert c in Insert(c, cs);
  }

  lemma ApartFromCons(c: Claim, a: Claim, cs: seq<Claim>)
    ensures ApartFrom(c, [a] + cs) <==> Apart(c, a) && ApartFrom(c, cs)
  {
    assert a in [a] + cs;
    forall x | x in cs ensures x in [a] + cs {}
  }

  lemma SortedMembers(claims: seq<Claim>)
    ensures forall x :: x in Sorted(claims) <==> x in claims
  {
    forall x
      ensures x in Sorted(claims) <==> x in claims
    {
      assert x in multiset(Sorted(claims)) <==> x in multiset(claims);
    }
  }

  lemma {:induction false} SortedApart(claims: seq<Claim>)
    ensures AllApart(Sorted(claims)) <==> AllApart(claims)
  {
    if claims != [] {
      SortedApart(claims[1..]);
      InsertApart(claims[0], Sorted(claims[1..]));
      SortedMembers(claims[1..]);
      assert ApartFrom(claims[0], Sorted(claims[1..])) <==> ApartFrom(claims[0], claims[1..]);
    }
  }

  lemma SortedAnchored(blob: Bytes, claims: seq<Claim>)
    requires InBlob(blob, claims) && InBlob(blob, Sorted(claims))
    ensures AllAnchored(blob, Sorted(claims), Sorted(claims)) <==> AllAnchored(blob, claims, claims)
  {
    hide Sorted, Anchored;
    var s := Sorted(claims);
    SortedMembers(claims);
    forall c | c in claims
      ensures c.start <= |blob| && (Anchored(blob, s, c) <==> Anchored(blob, claims, c))
    {
      SameAnchors(blob, claims, s, c);
    }
    assert forall i {:trigger s[i]} :: 0 <= i < |s| ==> s[i] in claims;
    assert forall i {:trigger claims[i]} :: 0 <= i < |claims| ==> claims[i] in claims && claims[i] in s;
    if AllAnchored(blob, s, s) {
      forall i | 0 <= i < |claims| ensures Anchored(blob, claims, claims[i]) {
        var k :| 0 <= k < |s| && s[k] == claims[i];
        assert Anchored(blob, s, s[k]);
      }
    }
    if AllAnchored(blob, claims, claims) {
      forall i | 0 <= i < |s| ensures Anchored(blob, s, s[i]) {
        var k :| 0 <= k < |claims| && claims[k] == s[i];
        assert Anchored(blob, claims, claims[k]);
      }
    }
  }

  lemma SameAnchors(blob: Bytes, a: seq<Claim>, b: seq<Claim>, c: Claim)
    requires InBlob(blob, a) && c in a && forall x :: x in a <==> x in b
    ensures c.start <= |blob| && (Anchored(blob, a, c) <==> Anchored(blob, b, c))
  {
    var i :| 0 <= i < |a| && a[i] == c;
  }

  lemma {:induction false} MaxEndMembers(claims: seq<Claim>)
    ensures forall c :: c in claims ==> c.end <= MaxEnd(claims)
    ensures MaxEnd(claims) == 0 || exists c :: c in claims && c.end == MaxEnd(claims)
  {
    if claims != [] {
      MaxEndMembers(claims[1..]);
      assert claims == [claims[0]] + claims[1..];
    }
  }

  lemma SortedMaxEnd(claims: seq<Claim>)
    ensures MaxEnd(Sorted(claims)) == MaxEnd(claims)
  {
    hide Sorted, MaxEnd;
    SortedMembers(claims);
    MaxEndMembers(claims);
    MaxEndMembers(Sorted(claims));
  }

  lemma ChainedMaxEnd(s: seq<Claim>)
    requires Chained(s) && WellFormed(s)
    ensures MaxEnd(s) == LastEnd(s)
  {
    hide MaxEnd;
    MaxEndMembers(s);
    if s != [] {
      assert s[|s| - 1] in s;
      forall c | c in s
        ensures c.end <= LastEnd(s)
      {
        var i :| 0 <= i < |s| && s[i] == c;
        ChainedUpTo(s, i);
      }
    }
  }

  // ----- The results ---------------------------------------------------------------------------

  /** The check accepts exactly when the ranges cover the blob. */
  lemma AcceptsExactly(blob: Bytes, claims: seq<Claim>)
    requires InBlob(blob, claims)
    ensures Verdict(blob, claims).None? <==> Covers(blob, claims)
  {
    hide Sorted, Walk, Ordered, AllApart, Anchored, MaxEnd, AlignUp;
    var s := Sorted(claims);
    SortedInBlob(blob, claims);
    SortedIsOrdered(claims);
    ApartIsChained(s);
    AllApartPairs(s);
    AllApartPairs(claims);
    SortedApart(claims);
    SortedAnchored(blob, claims);
    SortedMaxEnd(claims);
    if Walk(blob, s).Ok? {
      WalkedIsChained(blob, s);
      WalkReaches(blob, s);
      ChainedMaxEnd(s);
    } else if Chained(s) && AllAnchored(blob, s, s) {
      ChainedIsWalked(blob, s);
    }
  }

  /** The same ranges claimed in another order get the same verdict. */
  lemma OrderOfClaimsIsIrrelevant(blob: Bytes, a: seq<Claim>, b: seq<Claim>)
    requires multiset(a) == multiset(b)
    ensures Verdict(blob, a) == Verdict(blob, b)
  {
    SortedIsOrdered(a);
    SortedIsOrdered(b);
    OrderedIsUnique(Sorted(a), Sorted(b));
  }

  predicate InRange(c: Claim, b: nat) {
    c.start <= b < c.end
  }

  /** Between some position and the start of some range there are only zeros, fewer
      than 16, and b is among them. */
  ghost predicate InShortGap(blob: Bytes, claims: seq<Claim>, b: nat) {
    exists e: nat, i :: 0 <= i < |claims| && e <= b < claims[i].start < e + 16
                        && claims[i].start <= |blob| && AllZero(blob, e, claims[i].start)
  }

  /** Byte b is in exactly one range, or a zero in a gap shorter than 16 bytes, or in a
      tail shorter than 16 bytes. */
  ghost predicate Accounted(blob: Bytes, claims: seq<Claim>, b: nat)
    requires b < |blob|
  {
    && (forall i, j :: 0 <= i < j < |claims| ==> !(InRange(claims[i], b) && InRange(claims[j], b)))
    && (|| (exists i :: 0 <= i < |claims| && InRange(claims[i], b))
        || (b < MaxEnd(claims) && blob[b] == 0 && InShortGap(blob, claims, b))
        || (MaxEnd(claims) <= b && |blob| - MaxEnd(claims) < 16))
  }

  /** If the check accepts ranges without negative counts, every byte is accounted for. */
  lemma EveryByteAccountedFor(blob: Bytes, claims: seq<Claim>, b: nat)
    requires InBlob(blob, claims) && Verdict(blob, claims).None? && b < |blob|
    ensures Accounted(blob, claims, b)
  {
    AcceptsExactly(blob, claims);
    hide Verdict, Anchored, AlignUp, MaxEnd;
    forall i, j | 0 <= i < j < |claims|
      ensures !(InRange(claims[i], b) && InRange(claims[j], b))
    {
      assert Apart(claims[i], claims[j]);
    }
    AlignUpBounds(MaxEnd(claims), 16);
    if b < MaxEnd(claims) && !exists i :: 0 <= i < |claims| && InRange(claims[i], b) {
      NextRange(blob, claims, b);
    }
  }

  /** Some range starts after b, and the first such is close to what ends before b. */
  lemma NextRange(blob: Bytes, claims: seq<Claim>, b: nat)
    requires InBlob(blob, claims) && b < |blob| && b < MaxEnd(claims)
    requires !exists i :: 0 <= i < |claims| && InRange(claims[i], b)
    requires forall i {:trigger claims[i]} :: 0 <= i < |claims| ==> Anchored(blob, claims, claims[i])
    ensures blob[b] == 0
    ensures InShortGap(blob, claims, b)
  {
    MaxEndMembers(claims);
    hide MaxEnd;
    var c :| c in claims && c.end == MaxEnd(claims);
    var i :| 0 <= i < |claims| && claims[i] == c;
    assert !InRange(claims[i], b);
    FirstAfter(blob, claims, b, i);
  }

  lemma {:induction false} FirstAfter(blob: Bytes, claims: seq<Claim>, b: nat, i: nat)
    requires InBlob(blob, claims) && i < |claims| && b < claims[i].start
    requires !exists k :: 0 <= k < |claims| && InRange(claims[k], b)
    requires forall k {:trigger claims[k]} :: 0 <= k < |claims| ==> Anchored(blob, claims, claims[k])
    ensures b < |blob| && blob[b] == 0
    ensures InShortGap(blob, claims, b)
    decreases claims[i].start
  {
    var c := claims[i];
    assert Anchored(blob, claims, c);
    if Close(blob, 0, c) {
      assert 0 <= b < claims[i].start < 0 + 16 && AllZero(blob, 0, claims[i].start);
    } else {
      var d :| d in claims && d.start < c.start && Close(blob, d.end, c);
      var j :| 0 <= j < |claims| && claims[j] == d;
      assert !InRange(claims[j], b);
      if d.end <= b {
        assert d.end <= b < claims[i].start < d.end + 16 && AllZero(blob, d.end, claims[i].start);
      } else {
        FirstAfter(blob, claims, b, j);
      }
    }
  }

  predicate CountsAtLeast(claims: seq<Claim>, least: int) {
    forall i {:trigger claims[i]} :: 0 <= i < |claims| ==> claims[i].end - claims[i].start >= least
  }

  /** Acceptance accounts for every byte, whatever ranges with such counts were claimed. */
  ghost predicate Sound(least: int) {
    forall blob: Bytes, claims: seq<Claim>, b: nat ::
      Claimable(blob, claims) && CountsAtLeast(claims, least) && Verdict(blob, claims).None? && b < |blob| ==>
        Accounted(blob, claims, b)
  }

  /** The check is sound exactly for counts that are not negative: the claiming test
      does not refuse the others. */
  lemma SoundExactly(least: int)
    ensures Sound(least) <==> least >= 0
  {
    hide Verdict, Accounted;
    if least >= 0 {
      forall blob: Bytes, claims: seq<Claim>, b: nat
        | Claimable(blob, claims) && CountsAtLeast(claims, least) && Verdict(blob, claims).None? && b < |blob|
        ensures Accounted(blob, claims, b)
      {
        EveryByteAccountedFor(blob, claims, b);
      }
    } else {
      var blob, claims := NegativeCount();
      assert CountsAtLeast(claims, least);
    }
  }

  lemma SortedPair(a: Claim, b: Claim)
    requires Before(a, b)
    ensures Sorted([a, b]) == [a, b]
    ensures MaxEnd([a, b]) == if a.end > b.end && a.end > 0 then a.end else if b.end > 0 then b.end else 0
  {
    assert [a, b][1..] == [b] && [b][1..] == [];
    assert Sorted([b]) == [b] && MaxEnd([b]) == if b.end > 0 then b.end else 0;
  }

  lemma WalkPair(blob: Bytes, a: Claim, b: Claim)
    requires a.start < 16 && GapZero(blob, 0, a.start)
    requires a.end <= b.start < a.end + 16 && GapZero(blob, a.end, b.start)
    ensures Walk(blob, [a, b]) == Ok(b.end)
  {
    hide GapZero;
    assert [a, b][..1] == [a] && [a][..0] == [];
    assert Walk(blob, [a]) == Ok(a.end);
  }

  /** A range of -1 bytes at the start lets a nonzero byte in front of the next range
      pass: the slice between them, from the last byte to that range, is empty. */
  lemma NegativeCount() returns (blob: Bytes, claims: seq<Claim>)
    ensures Claimable(blob, claims) && CountsAtLeast(claims, -1)
    ensures |blob| > 0 && Verdict(blob, claims).None? && !Accounted(blob, claims, 0)
  {
    blob := [7] + seq(31, i => 0);
    var a, b := Claim(0, -1), Claim(14, 32);
    claims := [a, b];
    SortedPair(a, b);
    WalkPair(blob, a, b);
    hide Sorted, Walk, MaxEnd;
    assert AlignUp(32, 16) == 32;
  }

  // ----- Bytes outside the ranges ---------------------------------------------------------------

  function Zeros(n: nat): (z: Bytes)
    ensures |z| == n && forall k {:trigger z[k]} :: 0 <= k < n ==> z[k] == 0
  {
    seq(n, k => 0)
  }

  predicate Unclaimed(claims: seq<Claim>, b: nat) {
    forall i {:trigger claims[i]} :: 0 <= i < |claims| ==> !InRange(claims[i], b)
  }

  /** Acceptance only asks that bytes before the end of the last range are zero. */
  lemma AcceptedToo(blob: Bytes, other: Bytes, claims: seq<Claim>)
    requires |blob| == |other| && InBlob(blob, claims) && Verdict(blob, claims).None?
    requires forall k {:trigger other[k]} :: 0 <= k < |blob| && k < MaxEnd(claims) && blob[k] == 0 ==> other[k] == 0
    ensures InBlob(other, claims) && Verdict(other, claims).None?
  {
    AcceptsExactly(blob, claims);
    AcceptsExactly(other, claims);
    MaxEndMembers(claims);
    hide Verdict, Anchored, AlignUp, MaxEnd;
    forall i | 0 <= i < |claims|
      ensures Anchored(other, claims, claims[i])
    {
      assert Anchored(blob, claims, claims[i]) && claims[i] in claims;
      AnchoredToo(blob, other, claims, claims[i]);
    }
  }

  lemma AnchoredToo(blob: Bytes, other: Bytes, claims: seq<Claim>, c: Claim)
    requires |blob| == |other| && c.start <= |blob| && Anchored(blob, claims, c)
    requires forall k {:trigger other[k]} :: 0 <= k < c.start && blob[k] == 0 ==> other[k] == 0
    ensures Anchored(other, claims, c)
  {
    if Close(blob, 0, c) {
      assert Close(other, 0, c);
    } else {
      var d :| d in claims && d.start < c.start && Close(blob, d.end, c);
      assert Close(other, d.end, c);
    }
  }

  /** In every accepted blob of this size, all bytes outside the ranges are zero. */
  ghost predicate ZeroOutside(n: nat, claims: seq<Claim>) {
    forall blob: Bytes, b: nat ::
      |blob| == n && b < n && Verdict(blob, claims).None? && Unclaimed(claims, b) ==> blob[b] == 0
  }

  /** Acceptance means zeros outside the ranges exactly when the last range reaches the
      end of the blob, or when these ranges are never accepted: the tail is not checked. */
  lemma ZeroOutsideExactly(n: nat, claims: seq<Claim>)
    requires InBlob(Zeros(n), claims)
    ensures ZeroOutside(n, claims) <==> MaxEnd(claims) == n || Verdict(Zeros(n), claims).Some?
  {
    MaxEndMembers(claims);
    hide Verdict, MaxEnd;
    if MaxEnd(claims) == n || Verdict(Zeros(n), claims).Some? {
      forall blob: Bytes, b: nat | |blob| == n && b < n && Verdict(blob, claims).None? && Unclaimed(claims, b)
        ensures blob[b] == 0
      {
        AcceptedToo(blob, Zeros(n), claims);
        EveryByteAccountedFor(blob, claims, b);
      }
    } else {
      var blob := Zeros(n)[n - 1 := 7];
      AcceptedToo(Zeros(n), blob, claims);
      assert Unclaimed(claims, n - 1);
      assert blob[n - 1] != 0;
    }
  }
}
