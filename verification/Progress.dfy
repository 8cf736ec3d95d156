/** How many turns of the worker a request needs. */
module Progress {
  import opened Wrappers
  import opened RequestContext
  import opened StreamProtocol
  import opened StreamInvariant

  /** The worker takes request r. */
  predicate Turn(s: System, e: Event, r: nat) {
    e.Take? && WorkerEnabled(s, e) && s.queue[0] == r
  }

  /** The worker finds the output queue of r full and puts the request back. */
  predicate Refusal(s: System, e: Event, r: nat) {
    e.WorkerStep? && s.worker == Hand(r, CheckRoom) && r < |s.requests| && !HasRoom(s.requests[r])
  }

  /** Turns of r in a run. */
  function Turns(env: Env, es: seq<Event>, r: nat): nat {
    if es == [] then 0
    else
      var n := |es| - 1;
      Turns(env, es[..n], r) + match Run(env, es[..n])
                               case None => 0
                               case Some(s) => if Turn(s, es[n], r) then 1 else 0
  }

  /** Turns of r that back-pressure spoilt. */
  function Refusals(env: Env, es: seq<Event>, r: nat): nat {
    if es == [] then 0
    else
      var n := |es| - 1;
      Refusals(env, es[..n], r) + match Run(env, es[..n])
                                  case None => 0
                                  case Some(s) => if Refusal(s, es[n], r) then 1 else 0
  }

  /** The session of r yields k chunks and says so: the k-th comes as the last. */
  predicate Yields(s: System, e: Event, r: nat, k: nat) {
    e.Inferred? && e.yielded.Produced? && s.worker.Hand? && s.worker.r == r && r < |s.requests| ==>
      (e.yielded.last <==> |s.requests[r].pushed| + 1 == k)
  }

  predicate SessionOf(env: Env, es: seq<Event>, r: nat, k: nat) {
    es == [] ||
    var n := |es| - 1;
    SessionOf(env, es[..n], r, k) && (Run(env, es[..n]).Some? ==> Yields(Run(env, es[..n]).value, es[n], r, k))
  }

  // ----- Every turn pushes, is refused, or is the last ---------------------------------------

  /** Turns that have neither pushed nor been refused. */
  ghost predicate Accounted(s: System, r: nat, turns: nat, refusals: nat) {
    if r >= |s.requests| then turns == 0 && refusals == 0
    else
      var spent := |s.requests[r].pushed| + refusals;
      match HandOf(s, r)
      case None => if Terminal(s.requests[r].life) then spent <= turns <= spent + 1 else turns == spent
      case Some(at) =>
        if at.Requeue? then turns == spent
        else if at.StoreDone? then spent <= turns <= spent + 1
        else turns == spent + 1
  }

  /** A session of k chunks that is not at its end has chunks left. */
  ghost predicate Unfinished(s: System, r: nat, k: nat)
    requires r < |s.requests|
  {
    var pushed := |s.requests[r].pushed|;
    match HandOf(s, r)
    case None => Terminal(s.requests[r].life) || pushed < k
    case Some(at) => at.StoreDone? || (pushed < k && (at.Push? ==> (at.last <==> pushed + 1 == k)))
  }

  /** The event loop leaves the worker alone, and every request's life and history. */
  lemma LoopAside(env: Env, s: System, e: Event)
    requires Inv(env, s) && LoopEnabled(s, e)
    ensures var t := LoopApply(env, s, e);
            && t.worker == s.worker
            && |s.requests| <= |t.requests| <= |s.requests| + 1
            && (forall r {:trigger t.requests[r]} :: 0 <= r < |s.requests| ==>
                  t.requests[r].life == s.requests[r].life && t.requests[r].pushed == s.requests[r].pushed)
            && (!s.worker.Hand? || s.worker.r < |s.requests|)
            && (forall r {:trigger t.requests[r]} :: |s.requests| <= r < |t.requests| ==>
                  t.requests[r].life.Preparing? && t.requests[r].pushed == [])
  {
    hide LocalAt, Put, ChunkBytes, EndBytes;
  }

  /** Points at which a turn has not come to a chunk. */
  predicate Before(hand: Option<Point>) {
    hand.Some? && !hand.value.Requeue? && !hand.value.StoreDone? && !hand.value.Push?
  }

  /** What a step of the worker does to request r. */
  ghost predicate Moved(s: System, e: Event, t: System, r: nat)
    requires r < |s.requests| && r < |t.requests|
  {
    var q, p := s.requests[r], t.requests[r];
    match HandOf(s, r)
    case None => p == q && (HandOf(t, r).Some? <==> Turn(s, e, r))
              && (HandOf(t, r).Some? ==> HandOf(t, r) == Some(CheckCancelled) && !Terminal(q.life))
    case Some(at) =>
      var next := HandOf(t, r);
      if at.Push? then
        p == Pushed(q, at.chunk) && next == Some(if at.last then StoreDone else Requeue)
      else
        && p.pushed == q.pushed
        && match at
           case Requeue => next.None? && p == q && !Terminal(q.life)
           case CheckRoom => next == Some(if HasRoom(q) then CheckInfer else Requeue)
           case Infer =>
             && e.Inferred?
             && next == Some(match e.yielded
                             case Failure => StoreFailed
                             case Nothing => StoreDone
                             case Produced(chunk, last) => Push(chunk, last))
           case StoreDone => next.None? && Terminal(p.life)
           case _ => if next.None? then Terminal(p.life) else Before(next)
  }

  lemma WorkerSide(env: Env, s: System, e: Event, r: nat)
    requires Inv(env, s) && WorkerEnabled(s, e)
    ensures |WorkerApply(s, e).requests| == |s.requests|
    ensures r < |s.requests| ==> Moved(s, e, WorkerApply(s, e), r)
    ensures Turn(s, e, r) || Refusal(s, e, r) ==> r < |s.requests|
    ensures e.Inferred? ==> s.worker.Hand? && s.worker.at.Infer?
  {
    if e.Take? { assert s.queue[0] in s.queue; }
    if r < |s.requests| {
      assert LocalAt(env, s, r);
      hide Inv, BytesOk, LoopOk, QueueOk;
      if HandOf(s, r).Some? {
        HeldMoved(env, s, e, r);
      } else {
        OtherMoved(env, s, e, r);
      }
    }
  }

  lemma HeldMoved(env: Env, s: System, e: Event, r: nat)
    requires WorkerEnabled(s, e) && r < |s.requests| && r < |s.connections| && LocalAt(env, s, r) && HandOf(s, r).Some?
    ensures |WorkerApply(s, e).requests| == |s.requests| && Moved(s, e, WorkerApply(s, e), r)
  {
    hide BytesOk, LoopOk, QueueOk;
  }

  lemma OtherMoved(env: Env, s: System, e: Event, r: nat)
    requires WorkerEnabled(s, e) && r < |s.requests| && r < |s.connections| && LocalAt(env, s, r) && HandOf(s, r).None?
    ensures |WorkerApply(s, e).requests| == |s.requests| && Moved(s, e, WorkerApply(s, e), r)
  {
    hide BytesOk, LoopOk, QueueOk;
    if e.Take? && s.queue[0] == r { assert r in s.queue; }
  }

  lemma AccountedKept(env: Env, s: System, e: Event, r: nat, turns: nat, refusals: nat)
    requires Inv(env, s) && Enabled(s, e) && Accounted(s, r, turns, refusals)
    ensures Accounted(Apply(env, s, e), r, turns + if Turn(s, e, r) then 1 else 0,
                      refusals + if Refusal(s, e, r) then 1 else 0)
  {
    if WorkerEnabled(s, e) {
      WorkerSide(env, s, e, r);
      hide Inv, WorkerApply;
    } else {
      LoopAside(env, s, e);
      hide Inv, LoopApply;
    }
  }

  lemma UnfinishedKept(env: Env, s: System, e: Event, r: nat, k: nat)
    requires Inv(env, s) && Enabled(s, e) && k > 0 && Yields(s, e, r, k)
    requires r < |s.requests| ==> Unfinished(s, r, k)
    ensures r < |Apply(env, s, e).requests| ==> Unfinished(Apply(env, s, e), r, k)
  {
    if WorkerEnabled(s, e) {
      WorkerSide(env, s, e, r);
      hide Inv, WorkerApply;
    } else {
      LoopAside(env, s, e);
      hide Inv, LoopApply;
    }
  }

  lemma {:induction false} EveryTurnAccounted(env: Env, es: seq<Event>, s: System, r: nat)
    requires Run(env, es) == Some(s)
    ensures Accounted(s, r, Turns(env, es, r), Refusals(env, es, r))
    decreases |es|
  {
    hide Accounted, Inv, Turn, Refusal, Apply;
    if es == [] {
      StartAccounted(r);
    } else {
      var n := |es| - 1;
      var before := Run(env, es[..n]).value;
      EveryTurnAccounted(env, es[..n], before, r);
      EveryRun(env, es[..n]);
      AccountedKept(env, before, es[n], r, Turns(env, es[..n], r), Refusals(env, es[..n], r));
    }
  }

  lemma StartAccounted(r: nat)
    ensures Accounted(START, r, 0, 0)
  {}

  lemma {:induction false} EverySession(env: Env, es: seq<Event>, s: System, r: nat, k: nat)
    requires Run(env, es) == Some(s) && k > 0 && SessionOf(env, es, r, k)
    ensures r < |s.requests| ==> Unfinished(s, r, k)
    decreases |es|
  {
    hide Unfinished, Inv, Yields, Apply;
    if es != [] {
      var n := |es| - 1;
      var before := Run(env, es[..n]).value;
      EverySession(env, es[..n], before, r, k);
      EveryRun(env, es[..n]);
      UnfinishedKept(env, before, es[n], r, k);
    }
  }

  /** A session of k chunks is finished after k turns that back-pressure did not spoil,
      whatever else the two threads do. */
  lemma FinishedInTurns(env: Env, es: seq<Event>, s: System, r: nat, k: nat)
    requires Run(env, es) == Some(s) && r < |s.requests| && k > 0 && SessionOf(env, es, r, k)
    requires HandOf(s, r).None? && Turns(env, es, r) >= k + Refusals(env, es, r)
    ensures Terminal(s.requests[r].life)
  {
    EveryTurnAccounted(env, es, s, r);
    EverySession(env, es, s, r, k);
  }

  /** A turn is spoilt only while the event loop leaves MAX_PENDING chunks waiting. */
  lemma RefusedOnlyWhenFull(env: Env, s: System, e: Event, r: nat)
    requires Inv(env, s) && Refusal(s, e, r)
    ensures |s.requests[r].output| == MAX_PENDING
  {
    assert LocalAt(env, s, r);
  }

  /** The worker is never stuck: while a request is unfinished, one of its steps is
      enabled, whatever the session yields. */
  lemma WorkerGoesOn(env: Env, es: seq<Event>, s: System, r: nat)
    requires Run(env, es) == Some(s) && r < |s.requests| && !Terminal(s.requests[r].life)
    ensures WorkerEnabled(s, Take) || WorkerEnabled(s, WorkerStep)
         || (forall ok: bool :: WorkerEnabled(s, Prepared(ok)))
         || (forall y: Yield :: WorkerEnabled(s, Inferred(y)))
  {
    EveryRun(env, es);
    assert LocalAt(env, s, r);
  }
}
