/** When a request is cancelled, and what happens to it then. */
module Cancellation {
  import opened Wrappers
  import opened RequestContext
  import opened StreamProtocol
  import opened StreamInvariant
  import opened Fairness

  // ----- What cancels ------------------------------------------------------------------

  /** The client of request r leaves, or its stream cannot be started. */
  predicate Cancels(s: System, e: Event, r: nat) {
    e == Disconnect(r) || (e == Attached(false) && s.loop == Attach(r))
  }

  lemma CancelStep(env: Env, s: System, e: Event, r: nat)
    requires Inv(env, s) && Enabled(s, e)
    ensures var t := Apply(env, s, e);
            r < |t.requests| ==>
              (t.requests[r].cancelled <==> Cancels(s, e, r) || (r < |s.requests| && s.requests[r].cancelled))
    ensures Cancels(s, e, r) ==> r < |Apply(env, s, e).requests|
  {
    hide Put, EndBytes, ChunkBytes, ErrorResponse, StreamHead, LocalAt;
  }

  /** Some event of the run cancels request r. */
  ghost predicate CancelledIn(env: Env, es: seq<Event>, r: nat) {
    exists i {:trigger es[i]} :: 0 <= i < |es| && CancelsAt(env, es, i, r)
  }

  predicate CancelsAt(env: Env, es: seq<Event>, i: nat, r: nat)
    requires i < |es|
  {
    Run(env, es[..i]).Some? && Cancels(Run(env, es[..i]).value, es[i], r)
  }

  lemma CancelledInStep(env: Env, es: seq<Event>, r: nat)
    requires es != []
    ensures CancelledIn(env, es, r)
       <==> CancelledIn(env, es[..|es| - 1], r) || CancelsAt(env, es, |es| - 1, r)
  {
    hide Cancels, Run;
    var front := es[..|es| - 1];
    forall i | 0 <= i < |front|
      ensures CancelsAt(env, es, i, r) == CancelsAt(env, front, i, r)
    {
      assert front[..i] == es[..i];
    }
    if CancelledIn(env, front, r) {
      var i :| 0 <= i < |front| && CancelsAt(env, front, i, r);
      assert es[i] == front[i];
    }
    if CancelledIn(env, es, r) {
      var i :| 0 <= i < |es| && CancelsAt(env, es, i, r);
      if i < |front| { assert front[i] == es[i]; }
    }
  }

  /** A request is cancelled exactly when its client has disconnected or its stream could
      not be started; a failed write and an encoder failure do not cancel it. */
  lemma {:induction false} CancelledExactly(env: Env, es: seq<Event>, s: System, r: nat)
    requires Run(env, es) == Some(s)
    ensures r < |s.requests| && s.requests[r].cancelled <==> CancelledIn(env, es, r)
    decreases |es|
  {
    hide Apply, Inv, Cancels, CancelledIn, CancelsAt;
    if es == [] {
      NothingCancelled(env, r);
    } else {
      var front := Run(env, es[..|es| - 1]).value;
      CancelledExactly(env, es[..|es| - 1], front, r);
      EveryRun(env, es[..|es| - 1]);
      CancelStep(env, front, es[|es| - 1], r);
      CancelledInStep(env, es, r);
      RequestsStay(env, front, es[|es| - 1]);
      LastCancels(env, es, front, r);
    }
  }

  lemma LastCancels(env: Env, es: seq<Event>, front: System, r: nat)
    requires es != [] && Run(env, es[..|es| - 1]) == Some(front)
    ensures CancelsAt(env, es, |es| - 1, r) <==> Cancels(front, es[|es| - 1], r)
  {
    hide Run, Cancels;
  }

  lemma NothingCancelled(env: Env, r: nat)
    ensures !CancelledIn(env, [], r)
  {}

  lemma RequestsStay(env: Env, s: System, e: Event)
    requires Inv(env, s) && Enabled(s, e)
    ensures |s.requests| <= |Apply(env, s, e).requests|
  {
    hide Put, EndBytes, ChunkBytes, ErrorResponse, StreamHead, LocalAt;
  }

  // ----- What a cancelled request still gets ----------------------------------------------

  /** The worker is past its last look at the flag and may push one chunk. */
  predicate Committed(s: System, r: nat) {
    s.worker.Hand? && s.worker.r == r && (s.worker.at.Infer? || s.worker.at.Push?)
  }

  function StillToCome(s: System, r: nat): nat {
    if Committed(s, r) then 1 else 0
  }

  lemma CancelledStep(env: Env, s: System, e: Event, r: nat)
    requires Inv(env, s) && Enabled(s, e) && r < |s.requests| && s.requests[r].cancelled
    ensures var t := Apply(env, s, e);
            && r < |t.requests| && t.requests[r].cancelled
            && |t.requests[r].pushed| + StillToCome(t, r) <= |s.requests[r].pushed| + StillToCome(s, r)
  {
    if WorkerEnabled(s, e) {
      hide LocalAt;
    } else {
      LoopPushesNothing(env, s, e, r);
      hide LocalAt, LoopApply, Inv;
    }
  }

  lemma LoopPushesNothing(env: Env, s: System, e: Event, r: nat)
    requires LoopEnabled(s, e) && r < |s.requests|
    ensures var t := LoopApply(env, s, e);
            && t.worker == s.worker && r < |t.requests|
            && t.requests[r].pushed == s.requests[r].pushed
            && (s.requests[r].cancelled ==> t.requests[r].cancelled)
  {
    hide Put, EndBytes, ChunkBytes, ErrorResponse, StreamHead;
  }

  /** Once cancelled, a request gets one more chunk if the worker is already inferring or
      pushing it, and no other. */
  lemma {:induction false} StopsAfterCancel(env: Env, s: System, es: seq<Event>, r: nat)
    requires Inv(env, s) && Possible(env, s, es) && r < |s.requests| && s.requests[r].cancelled
    ensures var t := After(env, s, es);
            && r < |t.requests| && t.requests[r].cancelled
            && |t.requests[r].pushed| <= |s.requests[r].pushed| + (if Committed(s, r) then 1 else 0)
    ensures var t := After(env, s, es);
            |t.requests[r].pushed| + StillToCome(t, r) <= |s.requests[r].pushed| + StillToCome(s, r)
    decreases |es|
  {
    hide Inv, Apply, Committed;
    if es != [] {
      StepKeeps(env, s, es[0]);
      CancelledStep(env, s, es[0], r);
      StopsAfterCancel(env, Apply(env, s, es[0]), es[1..], r);
    }
  }

  /** The worker has the request before it, or has seen that it is cancelled. */
  predicate Doomed(s: System, r: nat)
    requires r < |s.requests|
  {
    && s.requests[r].cancelled && !Terminal(s.requests[r].life)
    && (s.worker.Hand? && s.worker.r == r ==> s.worker.at.CheckCancelled? || s.worker.at.StoreCancelled?)
  }

  /** Ended, as cancelled. */
  predicate Dropped(s: System, r: nat, pushed: seq<AudioChunk>)
    requires r < |s.requests|
  {
    s.requests[r].life.Cancelled? && s.requests[r].pushed == pushed
  }

  lemma DoomedStep(env: Env, s: System, e: Event, r: nat)
    requires Inv(env, s) && Enabled(s, e) && r < |s.requests|
    requires Doomed(s, r) || Dropped(s, r, s.requests[r].pushed)
    ensures var t := Apply(env, s, e);
            && r < |t.requests| && t.requests[r].pushed == s.requests[r].pushed
            && (Doomed(t, r) || Dropped(t, r, t.requests[r].pushed))
            && (Dropped(s, r, s.requests[r].pushed) ==> Dropped(t, r, t.requests[r].pushed))
  {
    assert LocalAt(env, s, r);
    if WorkerEnabled(s, e) {
      DoomedWorker(env, s, e, r);
    } else {
      LoopLeavesLife(env, s, e, r);
      hide LocalAt, LoopApply, Inv;
    }
  }

  lemma DoomedWorker(env: Env, s: System, e: Event, r: nat)
    requires Inv(env, s) && WorkerEnabled(s, e) && r < |s.requests| && LocalAt(env, s, r)
    requires Doomed(s, r) || Dropped(s, r, s.requests[r].pushed)
    ensures var t := WorkerApply(s, e);
            && r < |t.requests| && t.requests[r].pushed == s.requests[r].pushed
            && (Doomed(t, r) || Dropped(t, r, t.requests[r].pushed))
            && (Dropped(s, r, s.requests[r].pushed) ==> Dropped(t, r, t.requests[r].pushed))
  {
    hide BytesOk, LoopOk, QueueOk;
  }

  lemma LoopLeavesLife(env: Env, s: System, e: Event, r: nat)
    requires LoopEnabled(s, e) && r < |s.requests|
    ensures var t := LoopApply(env, s, e);
            && t.worker == s.worker && r < |t.requests|
            && t.requests[r].pushed == s.requests[r].pushed && t.requests[r].life == s.requests[r].life
            && (s.requests[r].cancelled ==> t.requests[r].cancelled)
  {
    hide Put, EndBytes, ChunkBytes, ErrorResponse, StreamHead;
  }

  /** A cancelled request that waits for its turn is never worked on again: it gets no
      further chunk, and when it ends, it ends as cancelled. */
  lemma {:induction false} NeverWorkedOnAgain(env: Env, s: System, es: seq<Event>, r: nat)
    requires Inv(env, s) && Possible(env, s, es) && r < |s.requests|
    requires Doomed(s, r) || Dropped(s, r, s.requests[r].pushed)
    ensures var t := After(env, s, es);
            && r < |t.requests| && t.requests[r].pushed == s.requests[r].pushed
            && (Terminal(t.requests[r].life) ==> t.requests[r].life == Life.Cancelled)
    decreases |es|
  {
    hide Inv, Apply;
    if es != [] {
      StepKeeps(env, s, es[0]);
      DoomedStep(env, s, es[0], r);
      NeverWorkedOnAgain(env, Apply(env, s, es[0]), es[1..], r);
    }
  }

  // ----- What an abandoned request still gets ----------------------------------------------

  /** The connection was closed by a failed write or a failing encoder. */
  predicate Abandoned(s: System, r: nat) {
    && r < |s.requests| && r < |s.connections| && s.connections[r].phase.Closed?
    && !s.requests[r].cancelled && (s.loop.Polling? || s.loop.r != r)
  }

  lemma AbandonedStep(env: Env, s: System, e: Event, r: nat)
    requires Inv(env, s) && Enabled(s, e) && Abandoned(s, r)
    ensures var t := Apply(env, s, e);
            && Abandoned(t, r)
            && |t.requests[r].pushed| - |t.requests[r].output| == |s.requests[r].pushed| - |s.requests[r].output|
  {
    if WorkerEnabled(s, e) {
      hide LocalAt;
    } else {
      LoopForgets(env, s, e, r);
      hide LocalAt, LoopApply, Inv;
    }
  }

  lemma LoopForgets(env: Env, s: System, e: Event, r: nat)
    requires Inv(env, s) && LoopEnabled(s, e) && Abandoned(s, r)
    ensures Abandoned(LoopApply(env, s, e), r)
    ensures LoopApply(env, s, e).requests[r] == s.requests[r]
  {
    hide Put, EndBytes, ChunkBytes, ErrorResponse, StreamHead, LocalAt;
  }

  lemma {:induction false} AbandonedCounts(env: Env, s: System, es: seq<Event>, r: nat)
    requires Inv(env, s) && Possible(env, s, es) && Abandoned(s, r)
    ensures var t := After(env, s, es);
            && Inv(env, t) && Abandoned(t, r)
            && |t.requests[r].pushed| - |t.requests[r].output| == |s.requests[r].pushed| - |s.requests[r].output|
    decreases |es|
  {
    hide Apply, Inv;
    if es != [] {
      StepKeeps(env, s, es[0]);
      AbandonedStep(env, s, es[0], r);
      AbandonedCounts(env, Apply(env, s, es[0]), es[1..], r);
    }
  }

  /** A request whose connection is closed without cancelling it is never cancelled and
      never drained: it gets at most as many chunks as fill its queue of three, however
      long the server runs, and a session with more of them never finishes. */
  lemma AbandonedStalls(env: Env, s: System, es: seq<Event>, r: nat)
    requires Inv(env, s) && Possible(env, s, es) && Abandoned(s, r)
    ensures var t := After(env, s, es);
            && Abandoned(t, r)
            && |t.requests[r].pushed| <= |s.requests[r].pushed| + (3 - |s.requests[r].output|)
  {
    hide Apply, Inv;
    AbandonedCounts(env, s, es, r);
    QueueOfThree(env, After(env, s, es), r);
  }

  lemma QueueOfThree(env: Env, s: System, r: nat)
    requires Inv(env, s) && r < |s.requests|
    ensures |s.requests[r].output| <= 3
  {
    assert LocalAt(env, s, r);
  }
}
