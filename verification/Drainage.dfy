/** How often the event loop must look at a finished request. */
module Drainage {
  import opened Wrappers
  import opened RequestContext
  import opened StreamProtocol
  import opened StreamInvariant
  import opened StreamDelivery
  import opened Fairness
  import opened Progress

  /** The loop begins to drain r when everything put into its buffer has been sent. */
  predicate EmptyPass(s: System, e: Event, r: nat) {
    e == BeginDrain(r) && r < |s.connections| && s.connections[r].buffer == ""
  }

  function EmptyPasses(env: Env, s: System, es: seq<Event>, r: nat): nat
    requires Possible(env, s, es)
    decreases |es|
  {
    if es == [] then 0
    else (if EmptyPass(s, es[0], r) then 1 else 0) + EmptyPasses(env, Apply(env, s, es[0]), es[1..], r)
  }

  /** The loop is draining r, has seen or will see that it is finished, and has put
      nothing into the buffer yet. */
  predicate Fresh(s: System, r: nat, c: Connection) {
    c.buffer == "" &&
    match s.loop
    case LoadCancelled(x) => x == r
    case LoadState(x) => x == r
    case Popping(x, seen) => x == r && Terminal(seen)
    case Deciding(x, seen) => x == r && Terminal(seen)
    case _ => false
  }

  /** Empty passes that a finished request may still need. */
  function Needed(s: System, r: nat): nat
    requires r < |s.requests| && r < |s.connections|
  {
    var q, c := s.requests[r], s.connections[r];
    if !c.phase.Streaming? then 0
    else if Fresh(s, r, c) then |q.output|
    else |q.output| + 1
  }

  /** A stream that is no longer streaming has been ended or closed. */
  predicate Settled(c: Connection) {
    c.phase.Streaming? || c.phase.Closed? || c.ended.Some?
  }

  predicate Drains(s: System, r: nat) {
    r < |s.requests| && r < |s.connections| && Terminal(s.requests[r].life) && Settled(s.connections[r])
  }

  /** No step needs more passes than before, and an empty pass needs one fewer. */
  lemma StepDrains(env: Env, s: System, e: Event, r: nat)
    requires Inv(env, s) && Enabled(s, e) && Drains(s, r)
    ensures Drains(Apply(env, s, e), r)
    ensures Needed(Apply(env, s, e), r) + (if EmptyPass(s, e, r) then 1 else 0) <= Needed(s, r)
  {
    assert LocalAt(env, s, r);
    LifeOnlyAdvances(env, s, e, r);
    if WorkerEnabled(s, e) {
      WorkerSide(env, s, e, r);
      WorkerLeavesLoop(s, e);
      hide Inv, WorkerApply, LoopEnabled, QueueOk, BytesOk, LoopOk;
    } else if !e.Submit? && Touched(s, e) == r {
      hide Inv;
      LoopDrains(env, s, e, r);
    } else {
      LoopElsewhere(env, s, e, r);
      hide Inv, LoopApply, LocalAt;
    }
  }

  lemma WorkerLeavesLoop(s: System, e: Event)
    requires WorkerEnabled(s, e)
    ensures WorkerApply(s, e).loop == s.loop && WorkerApply(s, e).connections == s.connections
    ensures |WorkerApply(s, e).requests| == |s.requests|
    ensures !e.BeginDrain?
  {}

  lemma LoopElsewhere(env: Env, s: System, e: Event, r: nat)
    requires Inv(env, s) && LoopEnabled(s, e) && r < |s.requests| && (e.Submit? || Touched(s, e) != r)
    ensures var t := LoopApply(env, s, e);
            && r < |t.requests| && r < |t.connections|
            && t.requests[r] == s.requests[r] && t.connections[r] == s.connections[r]
            && (s.loop.Polling? || s.loop.r != r) && (t.loop.Polling? || t.loop.r != r)
    ensures e != BeginDrain(r)
  {
    hide Put, EndBytes, ChunkBytes, ErrorResponse, StreamHead, LocalAt;
  }

  lemma LoopDrains(env: Env, s: System, e: Event, r: nat)
    requires |s.requests| == |s.connections| && LoopEnabled(s, e) && !e.Submit?
    requires Drains(s, r) && LocalAt(env, s, r) && Touched(s, e) == r
    ensures Drains(LoopApply(env, s, e), r)
    ensures Needed(LoopApply(env, s, e), r) + (if EmptyPass(s, e, r) then 1 else 0) <= Needed(s, r)
  {
    LoopSettles(env, s, e, r);
    LoopNeedsLess(env, s, e, r);
  }

  lemma LoopSettles(env: Env, s: System, e: Event, r: nat)
    requires |s.requests| == |s.connections| && LoopEnabled(s, e) && !e.Submit?
    requires Drains(s, r) && LocalAt(env, s, r) && Touched(s, e) == r
    ensures Drains(LoopApply(env, s, e), r)
  {
    hide BytesOk, PointOk, EndBytes, ChunkBytes, ErrorResponse, StreamHead;
  }

  lemma LoopNeedsLess(env: Env, s: System, e: Event, r: nat)
    requires |s.requests| == |s.connections| && LoopEnabled(s, e) && !e.Submit?
    requires Drains(s, r) && LocalAt(env, s, r) && Touched(s, e) == r
    requires Drains(LoopApply(env, s, e), r)
    ensures Needed(LoopApply(env, s, e), r) + (if EmptyPass(s, e, r) then 1 else 0) <= Needed(s, r)
  {
    hide BytesOk, PointOk, EndBytes, ChunkBytes, ErrorResponse, StreamHead;
  }

  lemma {:induction false} EveryPassCounts(env: Env, s: System, es: seq<Event>, r: nat)
    requires Inv(env, s) && Possible(env, s, es) && Drains(s, r)
    ensures Drains(After(env, s, es), r)
    ensures EmptyPasses(env, s, es, r) + Needed(After(env, s, es), r) <= Needed(s, r)
    decreases |es|
  {
    hide Inv, Apply, Needed, Drains, EmptyPass;
    if es != [] {
      StepKeeps(env, s, es[0]);
      StepDrains(env, s, es[0], r);
      EveryPassCounts(env, Apply(env, s, es[0]), es[1..], r);
    }
  }

  /** Once a request is finished, as many passes with an emptied buffer as it has chunks
      waiting, and one more, end its stream, unless it is closed before. */
  lemma EndedInPasses(env: Env, s: System, es: seq<Event>, r: nat)
    requires Inv(env, s) && Possible(env, s, es)
    requires r < |s.requests| && r < |s.connections| && Terminal(s.requests[r].life)
    requires s.connections[r].phase.Streaming?
    ensures |s.requests[r].output| <= MAX_PENDING
    ensures EmptyPasses(env, s, es, r) <= |s.requests[r].output| + 1
    ensures r < |After(env, s, es).connections|
    ensures EmptyPasses(env, s, es, r) == |s.requests[r].output| + 1 && After(env, s, es).loop.Polling? ==>
              var c := After(env, s, es).connections[r]; c.phase.Closed? || c.ended.Some?
  {
    assert LocalAt(env, s, r);
    EveryPassCounts(env, s, es, r);
  }
}
