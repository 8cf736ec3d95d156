/** Round-robin fairness, over whole runs of both threads. */
module Fairness {
  import opened RequestContext
  import opened StreamProtocol
  import opened StreamInvariant
  import opened StreamDelivery

  /** Every event in turn is enabled. */
  predicate Possible(env: Env, s: System, es: seq<Event>)
    decreases |es|
  {
    es == [] || (Enabled(s, es[0]) && Possible(env, Apply(env, s, es[0]), es[1..]))
  }

  function After(env: Env, s: System, es: seq<Event>): System
    requires Possible(env, s, es)
    decreases |es|
  {
    if es == [] then s else After(env, Apply(env, s, es[0]), es[1..])
  }

  /** The requests taken by the worker, in order. */
  function Turns(env: Env, s: System, es: seq<Event>): seq<nat>
    requires Possible(env, s, es)
    decreases |es|
  {
    if es == [] then []
    else (if es[0].Take? then [s.queue[0]] else []) + Turns(env, Apply(env, s, es[0]), es[1..])
  }

  /** What one event appends to the queue: a new request, or the one put back. */
  function Arrival(s: System, e: Event): seq<nat> {
    if e.Submit? then [|s.requests|]
    else if e.WorkerStep? && s.worker.Hand? && s.worker.at.Requeue? then [s.worker.r]
    else []
  }

  function Arrivals(env: Env, s: System, es: seq<Event>): seq<nat>
    requires Possible(env, s, es)
    decreases |es|
  {
    if es == [] then []
    else Arrival(s, es[0]) + Arrivals(env, Apply(env, s, es[0]), es[1..])
  }

  lemma QueueStep(env: Env, s: System, e: Event)
    requires Enabled(s, e)
    ensures (if e.Take? then [s.queue[0]] else []) + Apply(env, s, e).queue == s.queue + Arrival(s, e)
  {}

  /** One more step in front of a run that keeps the order. */
  lemma Prepend(taken: seq<nat>, turns: seq<nat>, left: seq<nat>, queue: seq<nat>, arrivals: seq<nat>,
                first: seq<nat>, arrival: seq<nat>)
    requires turns + left == queue + arrivals
    requires taken + queue == first + arrival
    ensures (taken + turns) + left == first + (arrival + arrivals)
  {
    assert (taken + turns) + left == taken + (turns + left);
    assert taken + (queue + arrivals) == (taken + queue) + arrivals;
    assert (first + arrival) + arrivals == first + (arrival + arrivals);
  }

  /** First in, first out: what was taken and what still waits is what waited and what
      arrived, in that order. */
  lemma {:induction false} FirstInFirstOut(env: Env, s: System, es: seq<Event>)
    requires Possible(env, s, es)
    ensures Turns(env, s, es) + After(env, s, es).queue == s.queue + Arrivals(env, s, es)
    decreases |es|
  {
    hide Apply;
    if es != [] {
      var t, rest := Apply(env, s, es[0]), es[1..];
      QueueStep(env, s, es[0]);
      FirstInFirstOut(env, t, rest);
      Prepend(if es[0].Take? then [s.queue[0]] else [], Turns(env, t, rest), After(env, t, rest).queue,
              t.queue, Arrivals(env, t, rest), s.queue, Arrival(s, es[0]));
    }
  }

  /** A request at position p is the (p+1)-th to be taken, whatever is submitted
      meanwhile. */
  lemma TakenInPosition(env: Env, s: System, es: seq<Event>, p: nat)
    requires Possible(env, s, es) && p < |s.queue|
    ensures p < |Turns(env, s, es)| ==> Turns(env, s, es)[p] == s.queue[p]
  {
    FirstInFirstOut(env, s, es);
    var turns, queue := Turns(env, s, es), After(env, s, es).queue;
    if p < |turns| {
      assert (turns + queue)[p] == turns[p];
      assert (s.queue + Arrivals(env, s, es))[p] == s.queue[p];
    }
  }

  // ----- Between two turns ------------------------------------------------------------------

  function Count(first: nat, n: nat): (ids: seq<nat>)
    ensures |ids| == n && forall i {:trigger ids[i]} :: 0 <= i < n ==> ids[i] == first + i
  {
    seq(n, i => first + i)
  }

  /** While the worker keeps a request in hand, only new requests arrive; the first
      arrival of an old one is the request put back. */
  lemma {:induction false} ArrivalsWhileHeld(env: Env, s: System, es: seq<Event>) returns (n: nat)
    requires Inv(env, s) && s.worker.Hand? && Possible(env, s, es)
    requires s.worker.r in Arrivals(env, s, es)
    ensures n < |Arrivals(env, s, es)|
    ensures Arrivals(env, s, es)[..n] == Count(|s.requests|, n)
    ensures Arrivals(env, s, es)[n] == s.worker.r
    decreases |es|
  {
    hide Inv, Apply, Count, Arrival;
    var r, e := s.worker.r, es[0];
    HeldStep(env, s, e);
    StepKeeps(env, s, e);
    var t := Apply(env, s, e);
    var rest := Arrivals(env, t, es[1..]);
    assert Arrivals(env, s, es) == Arrival(s, e) + rest;
    n := 0;
    if Arrival(s, e) == [r] {
      assert ([r] + rest)[..0] == Count(|s.requests|, 0);
    } else if t.worker.Idle? {
      NeverBack(env, t, es[1..], r);
      assert false;
    } else {
      assert r in rest;
      var m := ArrivalsWhileHeld(env, t, es[1..]);
      n := |Arrival(s, e)| + m;
      hide Arrivals, Possible;
      CountOn(Arrival(s, e), rest, |s.requests|, |t.requests|, m);
    }
  }

  /** One arrival more, or none, in front of m new ones. */
  lemma CountOn(arrival: seq<nat>, rest: seq<nat>, first: nat, next: nat, m: nat)
    requires (arrival == [first] && next == first + 1) || (arrival == [] && next == first)
    requires m < |rest| && rest[..m] == Count(next, m)
    ensures (arrival + rest)[..|arrival| + m] == Count(first, |arrival| + m)
    ensures (arrival + rest)[|arrival| + m] == rest[m]
  {
    var all := arrival + rest;
    forall i | 0 <= i < |arrival| + m
      ensures all[i] == first + i
    {
      assert i >= |arrival| ==> all[i] == rest[..m][i - |arrival|];
    }
  }

  /** What one step leaves of a request in hand. */
  ghost predicate HeldAfter(s: System, e: Event, t: System)
    requires s.worker.Hand?
  {
    var r := s.worker.r;
    && r < |s.requests| && r < |t.requests|
    && (e.Submit? ==> Arrival(s, e) == [|s.requests|] && |t.requests| == |s.requests| + 1)
    && (!e.Submit? ==> |t.requests| == |s.requests| && (Arrival(s, e) == [] || Arrival(s, e) == [r]))
    && (t.worker.Hand? ==> t.worker.r == r)
    && (t.worker.Idle? ==> Arrival(s, e) == [r] || Terminal(t.requests[r].life))
  }

  lemma HeldStep(env: Env, s: System, e: Event)
    requires Inv(env, s) && s.worker.Hand? && Enabled(s, e)
    ensures HeldAfter(s, e, Apply(env, s, e))
  {
    if WorkerEnabled(s, e) {
      WorkerHeld(env, s, e);
    } else {
      LoopHeld(env, s, e);
    }
  }

  lemma WorkerHeld(env: Env, s: System, e: Event)
    requires Inv(env, s) && s.worker.Hand? && WorkerEnabled(s, e)
    ensures HeldAfter(s, e, WorkerApply(s, e))
  {
    assert LocalAt(env, s, s.worker.r);
    hide Inv, BytesOk, LoopOk, QueueOk;
  }

  lemma LoopHeld(env: Env, s: System, e: Event)
    requires Inv(env, s) && s.worker.Hand? && LoopEnabled(s, e)
    ensures HeldAfter(s, e, LoopApply(env, s, e))
  {
    hide LocalAt, Put, ChunkBytes, EndBytes;
  }

  /** A finished request never arrives again. */
  lemma {:induction false} NeverBack(env: Env, s: System, es: seq<Event>, r: nat)
    requires Inv(env, s) && Possible(env, s, es) && r < |s.requests| && Terminal(s.requests[r].life)
    ensures r !in Arrivals(env, s, es)
    decreases |es|
  {
    hide Inv, Apply;
    if es != [] {
      FinishedStep(env, s, es[0], r);
      StepKeeps(env, s, es[0]);
      NeverBack(env, Apply(env, s, es[0]), es[1..], r);
    }
  }

  lemma FinishedStep(env: Env, s: System, e: Event, r: nat)
    requires Inv(env, s) && Enabled(s, e) && r < |s.requests| && Terminal(s.requests[r].life)
    ensures r !in Arrival(s, e)
    ensures r < |Apply(env, s, e).requests| && Terminal(Apply(env, s, e).requests[r].life)
  {
    assert LocalAt(env, s, r);
    LifeOnlyAdvances(env, s, e, r);
    hide Inv, BytesOk, LoopOk, QueueOk, WorkerApply, LoopApply;
  }

  lemma NotBefore(a: seq<nat>, r: nat, c: seq<nat>, k: nat)
    requires r !in a && k < |a + [r] + c| && (a + [r] + c)[k] == r
    ensures |a| <= k
  {
    forall i | 0 <= i < |a|
      ensures (a + [r] + c)[i] != r
    {
      assert (a + [r] + c)[i] == a[i];
    }
  }

  lemma FirstOccurrence(a: seq<nat>, b: seq<nat>, c: seq<nat>, d: seq<nat>, r: nat)
    requires a + [r] + c == b + [r] + d && r !in a && r !in b
    ensures a == b
  {
    var s := a + [r] + c;
    assert s[|a|] == r && s[|b|] == r;
    NotBefore(a, r, c, |b|);
    NotBefore(b, r, d, |a|);
    assert s[..|a|] == a;
    assert (b + [r] + d)[..|b|] == b;
  }

  /** From one turn of r to its next: the requests that waited when the first turn
      began each get exactly one turn, in order; then the requests submitted during
      that turn, in order; and nothing else. */
  lemma BetweenTurns(env: Env, s: System, es: seq<Event>, between: seq<nat>) returns (n: nat)
    requires Inv(env, s) && s.queue != [] && Possible(env, s, es) && es != [] && es[0].Take?
    requires Turns(env, s, es) == [s.queue[0]] + between + [s.queue[0]]
    requires s.queue[0] !in between
    ensures between == s.queue[1..] + Count(|s.requests|, n)
  {
    hide Inv, Apply, Turns, Arrivals, After, Count;
    var r := s.queue[0];
    var t, rest := Apply(env, s, es[0]), es[1..];
    TakenState(env, s);
    StepKeeps(env, s, es[0]);
    FirstTurn(env, s, es, between);
    FirstInFirstOut(env, t, rest);
    var arrived := Arrivals(env, t, rest);
    var left := After(env, t, rest).queue;
    ComesBack(between, left, t.queue, arrived, r);
    n := ArrivalsWhileHeld(env, t, rest);
    var newer := Count(|t.requests|, n);
    assert arrived == newer + [r] + arrived[n + 1..];
    assert t.queue + arrived == (t.queue + newer) + [r] + arrived[n + 1..];
    FirstOccurrence(between, t.queue + newer, left, arrived[n + 1..], r);
  }

  lemma FirstTurn(env: Env, s: System, es: seq<Event>, between: seq<nat>)
    requires s.queue != [] && Possible(env, s, es) && es != [] && es[0].Take?
    requires Turns(env, s, es) == [s.queue[0]] + between + [s.queue[0]]
    ensures Turns(env, Apply(env, s, es[0]), es[1..]) == between + [s.queue[0]]
  {
    hide Apply;
    var later := Turns(env, Apply(env, s, es[0]), es[1..]);
    assert Turns(env, s, es)[1..] == later;
  }

  lemma TakenState(env: Env, s: System)
    requires Inv(env, s) && s.queue != [] && Enabled(s, Take)
    ensures var t := Apply(env, s, Take);
            && t.worker == Hand(s.queue[0], CheckCancelled) && t.queue == s.queue[1..]
            && t.requests == s.requests && s.queue[0] < |s.requests| && s.queue[0] !in t.queue
  {
    TakeFirst(s.queue);
    assert s.queue[0] in s.queue;
  }

  lemma ComesBack(between: seq<nat>, left: seq<nat>, queue: seq<nat>, arrived: seq<nat>, r: nat)
    requires between + [r] + left == queue + arrived && r !in queue
    ensures r in arrived
  {
    assert (between + [r] + left)[|between|] == r;
    assert r in queue + arrived;
  }

  /** No request gets two turns between two turns of another. */
  lemma AtMostOneTurn(env: Env, s: System, es: seq<Event>, between: seq<nat>)
    requires Inv(env, s) && s.queue != [] && Possible(env, s, es) && es != [] && es[0].Take?
    requires Turns(env, s, es) == [s.queue[0]] + between + [s.queue[0]]
    requires s.queue[0] !in between
    ensures forall i, j :: 0 <= i < j < |between| ==> between[i] != between[j]
  {
    var n := BetweenTurns(env, s, es, between);
    var waiting, newer := s.queue[1..], Count(|s.requests|, n);
    TakeFirst(s.queue);
    forall i, j | 0 <= i < j < |between|
      ensures between[i] != between[j]
    {
      assert i < |waiting| ==> between[i] == waiting[i] && waiting[i] in s.queue;
      assert j < |waiting| ==> between[j] == waiting[j];
      assert i >= |waiting| ==> between[i] == newer[i - |waiting|];
      assert j >= |waiting| ==> between[j] == newer[j - |waiting|];
    }
  }
}
