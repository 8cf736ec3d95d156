/** Client and worker together: which promises settle, and how. */
module WebProtocol {
  import opened Wrappers
  import opened WebWorker

  /** Messages travel in order to the worker, which works them off one at a time, and
      replies travel in order back. `answered` lists the ids of delivered replies;
      `faulty` says that the worker failed or loading was aborted. */
  datatype System = System(
    client: Client, inbox: seq<Message>, jobs: seq<Message>, replies: seq<Reply>, answered: seq<nat>,
    alive: bool, faulty: bool)

  datatype Event =
    | CallLoad(posts: bool) | CallSynthesize(posts: bool) | CallDispose
    | Arrive | Finish(error: Option<string>) | Deliver
    | Fault | AfterDispose

  const START := System(NEW_CLIENT, [], [], [], [], true, false)

  /** The promise of the disposal has settled. */
  predicate Disposed(c: Client) {
    c.closing.Some? && c.closing.value < |c.promises| && c.promises[c.closing.value].outcome.Some?
  }

  ghost predicate Enabled(s: System, e: Event) {
    match e
    case Arrive => s.alive && s.inbox != []
    case Finish(_) => s.alive && s.jobs != []
    case Deliver => s.replies != [] && Consistent(s.client)
    case AfterDispose => Disposed(s.client)
    case _ => true
  }

  function Post(s: System, step: (Client, Option<Message>)): System {
    s.(client := step.0, inbox := s.inbox + if step.1.Some? && s.alive then [step.1.value] else [])
  }

  /** The worker is gone, and with it everything it had not finished. */
  function Stop(s: System): System {
    s.(client := Terminate(s.client), alive := false, inbox := [], jobs := [])
  }

  ghost function Apply(s: System, e: Event): System
    requires Enabled(s, e)
  {
    match e
    case CallLoad(posts) => Post(s, Request(s.client, Load, posts))
    case CallSynthesize(posts) => Post(s, SynthesizeCall(s.client, posts))
    case CallDispose => Post(s, DisposeCall(s.client))
    case Arrive => s.(inbox := s.inbox[1..], jobs := s.jobs + [s.inbox[0]])
    case Finish(error) => s.(jobs := s.jobs[1..], replies := s.replies + [Reply(s.jobs[0].id, error)])
    case Deliver =>
      s.(client := Receive(s.client, s.replies[0]), replies := s.replies[1..],
         answered := s.answered + [s.replies[0].id])
    case Fault => Stop(s).(faulty := true)
    case AfterDispose => Stop(s)
  }

  /** Loading happens before the application has the client, so before any disposal. */
  predicate Allowed(s: System, e: Event) {
    e.CallLoad? ==> s.client.closing.None?
  }

  ghost function Run(es: seq<Event>): Option<System> {
    if es == [] then Some(START)
    else match Run(es[..|es| - 1])
      case None => None
      case Some(s) =>
        var e := es[|es| - 1];
        if Enabled(s, e) && Allowed(s, e) then Some(Apply(s, e)) else None
  }

  // ----- The client stays consistent --------------------------------------------------------

  lemma RefuseKeeps(c: Client, kind: Kind, outcome: Outcome)
    requires Consistent(c)
    ensures Consistent(Refuse(c, kind, outcome))
  {
    var d := Refuse(c, kind, outcome);
    forall k: nat | k < |d.promises|
      ensures PromiseOk(d, k)
    {
      if k < |c.promises| {
        assert PromiseOk(c, k);
      } else {
        NotPending(c, k);
      }
    }
  }

  lemma NotPending(c: Client, k: nat)
    requires Consistent(c) && k >= |c.promises|
    ensures k !in c.pending.Values
  {
    forall id | id in c.pending
      ensures c.pending[id] != k
    {
      assert c.pending[id] < |c.promises|;
    }
  }

  lemma RequestKeeps(c: Client, kind: Kind, posts: bool)
    requires Consistent(c)
    ensures Consistent(Request(c, kind, posts).0)
  {
    if c.closed {
      RefuseKeeps(c, kind, Refused);
    } else if posts {
      PostedKeeps(c, kind);
    } else {
      var d := c.(lastId := c.lastId + 1);
      assert Consistent(d) by {
        forall k: nat | k < |d.promises|
          ensures PromiseOk(d, k)
        {
          assert PromiseOk(c, k);
        }
      }
      RefuseKeeps(d, kind, NotPosted);
    }
  }

  lemma PostedKeeps(c: Client, kind: Kind)
    requires Consistent(c) && !c.closed
    ensures Consistent(Request(c, kind, true).0)
  {
    var d := Request(c, kind, true).0;
    var id, n := c.lastId + 1, |c.promises|;
    NewId(c);
    NotPending(c, n);
    forall k
      ensures k in d.pending.Values <==> k in c.pending.Values || k == n
    {
      if k in c.pending.Values {
        var j :| j in c.pending && c.pending[j] == k;
        assert d.pending[j] == k;
      }
      assert d.pending[id] == n;
    }
    forall k: nat | k < |d.promises|
      ensures PromiseOk(d, k)
    {
      if k < n { assert PromiseOk(c, k); }
    }
    forall a | a in c.pending
      ensures c.pending[a] != n
    {
      assert c.pending[a] < |c.promises|;
    }
  }

  lemma ReceiveKeeps(c: Client, reply: Reply)
    requires Consistent(c)
    ensures Consistent(Receive(c, reply))
  {
    var d := Receive(c, reply);
    if reply.id in c.pending {
      var n := c.pending[reply.id];
      forall k
        ensures k in d.pending.Values <==> k in c.pending.Values && k != n
      {
        if k in c.pending.Values && k != n {
          var j :| j in c.pending && c.pending[j] == k;
          assert d.pending[j] == k;
        }
        if k in d.pending.Values {
          var j :| j in d.pending && d.pending[j] == k;
          assert c.pending[j] == k && j != reply.id;
        }
      }
      assert n in c.pending.Values;
      forall k: nat | k < |d.promises|
        ensures PromiseOk(d, k)
      {
        assert PromiseOk(c, k);
      }
    }
  }

  lemma TerminateKeeps(c: Client)
    requires Consistent(c)
    ensures Consistent(Terminate(c))
  {
    var d := Terminate(c);
    forall k: nat | k < |d.promises|
      ensures PromiseOk(d, k)
    {
      assert PromiseOk(c, k);
    }
  }

  lemma DisposeKeeps(c: Client)
    requires Consistent(c)
    ensures Consistent(DisposeCall(c).0)
  {
    if !(c.closing.Some? || c.closed) {
      RequestKeeps(c, Dispose, true);
      var r, d := Request(c, Dispose, true).0, DisposeCall(c).0;
      forall k: nat | k < |d.promises|
        ensures PromiseOk(d, k)
      {
        assert PromiseOk(r, k);
      }
    }
  }

  // ----- Order --------------------------------------------------------------------------------

  /** The ids under way, oldest first. */
  function Line(s: System): seq<nat> {
    ReplyIds(s.replies) + MessageIds(s.jobs) + MessageIds(s.inbox)
  }

  function ReplyIds(rs: seq<Reply>): (ids: seq<nat>)
    ensures |ids| == |rs| && forall i {:trigger ids[i]} :: 0 <= i < |rs| ==> ids[i] == rs[i].id
  {
    seq(|rs|, i requires 0 <= i < |rs| => rs[i].id)
  }

  function MessageIds(ms: seq<Message>): (ids: seq<nat>)
    ensures |ids| == |ms| && forall i {:trigger ids[i]} :: 0 <= i < |ms| ==> ids[i] == ms[i].id
  {
    seq(|ms|, i requires 0 <= i < |ms| => ms[i].id)
  }

  predicate Increasing(ids: seq<nat>) {
    forall i, j {:trigger ids[i], ids[j]} :: 0 <= i < j < |ids| ==> ids[i] < ids[j]
  }

  /** All ids ever posted, in the order in which they are answered. */
  function History(s: System): seq<nat> {
    s.answered + Line(s)
  }

  /** Requests are answered in the order in which they were made. */
  ghost predicate Ordered(s: System) {
    && Increasing(History(s))
    && (forall i {:trigger History(s)[i]} :: 0 <= i < |History(s)| ==> History(s)[i] <= s.client.lastId)
  }

  /** While the client is open every pending request is on its way. */
  ghost predicate UnderWay(s: System) {
    !s.client.closed ==> s.alive && forall id :: id in s.client.pending ==> id in Line(s)
  }

  /** A disposal is the last request. */
  ghost predicate DisposalLast(s: System) {
    !s.client.closed && s.client.closing.Some? && !Disposed(s.client) ==>
      s.client.lastId in s.client.pending && s.client.pending[s.client.lastId] == s.client.closing.value
  }

  /** Nothing is terminated unless something failed. */
  ghost predicate Orderly(s: System) {
    && (!s.faulty && Disposed(s.client) ==> s.client.pending == map[])
    && (!s.faulty ==> forall k {:trigger s.client.promises[k]} :: 0 <= k < |s.client.promises| ==>
          s.client.promises[k].outcome != Some(Terminated))
    && (!s.faulty && s.client.closed ==> Disposed(s.client))
  }

  ghost predicate Inv(s: System) {
    Consistent(s.client) && Ordered(s) && UnderWay(s) && DisposalLast(s) && Orderly(s)
  }

  lemma {:induction false} EveryRun(es: seq<Event>)
    ensures Run(es).Some? ==> Inv(Run(es).value)
    decreases |es|
  {
    hide Inv;
    if es == [] {
      StartOk();
    } else {
      EveryRun(es[..|es| - 1]);
      match Run(es[..|es| - 1])
      case None =>
      case Some(s) =>
        var e := es[|es| - 1];
        if Enabled(s, e) && Allowed(s, e) { StepKeeps(s, e); }
    }
  }

  lemma StartOk()
    ensures Inv(START)
  {}

  lemma StepKeeps(s: System, e: Event)
    requires Inv(s) && Enabled(s, e) && Allowed(s, e)
    ensures Inv(Apply(s, e))
  {
    hide Inv;
    match e
    case CallLoad(posts) => CallKeeps(s, Load, posts);
    case CallSynthesize(posts) =>
      if s.client.closing.Some? { RefusedKeeps(s, Synthesize); } else { CallKeeps(s, Synthesize, posts); }
    case CallDispose => DisposalKeeps(s);
    case Arrive => MoveKeeps(s, e);
    case Finish(_) => MoveKeeps(s, e);
    case Deliver => DeliverKeeps(s);
    case Fault => StopKeeps(s, e);
    case AfterDispose => StopKeeps(s, e);
  }

  lemma RefusedKeeps(s: System, kind: Kind)
    requires Inv(s)
    ensures Inv(Post(s, (Refuse(s.client, kind, Refused), None)))
  {
    RefuseKeeps(s.client, kind, Refused);
    var t := Post(s, (Refuse(s.client, kind, Refused), None));
    assert t.inbox == s.inbox;
    assert History(t) == History(s);
  }

  lemma CallKeeps(s: System, kind: Kind, posts: bool)
    requires Inv(s) && s.client.closing.None?
    ensures Inv(Post(s, Request(s.client, kind, posts)))
  {
    if s.client.closed {
      RefusedKeeps(s, kind);
    } else {
      RequestKeeps(s.client, kind, posts);
      var t := Post(s, Request(s.client, kind, posts));
      if posts { LineGrows(s, t, kind); } else { assert t.inbox == s.inbox; assert History(t) == History(s); }
    }
  }

  /** A posted message goes to the end of the line. */
  lemma LineGrows(s: System, t: System, kind: Kind)
    requires Inv(s) && !s.client.closed
    requires t.inbox == s.inbox + [Message(s.client.lastId + 1, kind)]
    requires t.jobs == s.jobs && t.replies == s.replies && t.answered == s.answered
    ensures Line(t) == Line(s) + [s.client.lastId + 1]
    ensures Increasing(History(t))
    ensures forall i {:trigger History(t)[i]} :: 0 <= i < |History(t)| ==> History(t)[i] <= s.client.lastId + 1
    ensures forall id :: id in Line(s) ==> id in Line(t)
    ensures s.client.lastId + 1 in Line(t)
  {
    var id := s.client.lastId + 1;
    assert MessageIds(t.inbox) == MessageIds(s.inbox) + [id];
    assert Line(t) == Line(s) + [id];
    assert History(t) == History(s) + [id];
    assert Line(t)[|Line(s)|] == id;
  }

  lemma DisposalKeeps(s: System)
    requires Inv(s)
    ensures Inv(Post(s, DisposeCall(s.client)))
  {
    var c := s.client;
    if c.closing.Some? || c.closed {
      assert Post(s, DisposeCall(c)) == s by { assert s.inbox + [] == s.inbox; }
    } else {
      DisposeKeeps(c);
      CallKeeps(s, Dispose, true);
      var t := Post(s, DisposeCall(c));
      LineGrows(s, t, Dispose);
    }
  }

  lemma MoveKeeps(s: System, e: Event)
    requires Inv(s) && Enabled(s, e) && (e.Arrive? || e.Finish?)
    ensures Inv(Apply(s, e))
  {
    var t := Apply(s, e);
    if e.Arrive? {
      assert MessageIds(t.jobs) + MessageIds(t.inbox) == MessageIds(s.jobs) + MessageIds(s.inbox);
    } else {
      assert ReplyIds(t.replies) + MessageIds(t.jobs) == ReplyIds(s.replies) + MessageIds(s.jobs);
    }
    assert Line(t) == Line(s);
    assert History(t) == History(s);
  }

  lemma DeliverKeeps(s: System)
    requires Inv(s) && Enabled(s, Deliver)
    ensures Inv(Apply(s, Deliver))
  {
    ReceiveKeeps(s.client, s.replies[0]);
    PendingOnTheWay(s);
    DeliverDisposal(s);
    DeliverOrderly(s);
    DeliverOrdered(s);
    hide Consistent, Ordered, DisposalLast, Orderly, Line, Receive;
  }

  lemma DeliverOrdered(s: System)
    requires Ordered(s) && Enabled(s, Deliver)
    ensures Ordered(Apply(s, Deliver))
  {
    DeliveredLine(s);
    hide History, Increasing, Line;
  }

  /** The reply is not the disposal's, or the disposal is settled by it. */
  lemma DeliverDisposal(s: System)
    requires Inv(s) && Enabled(s, Deliver)
    ensures DisposalLast(Apply(s, Deliver))
  {
    hide Ordered, UnderWay, Orderly;
  }

  /** When the disposal is answered, nothing is left behind it; no reply terminates. */
  lemma DeliverOrderly(s: System)
    requires Inv(s) && Enabled(s, Deliver)
    ensures Orderly(Apply(s, Deliver))
  {
    var c, reply := s.client, s.replies[0];
    if !c.closed && c.closing.Some? && !Disposed(c) && reply.id == c.lastId {
      LastInLine(s, Apply(s, Deliver));
    }
    if reply.id in c.pending {
      OnlyOneSettled(c, reply);
      SettledApart(c, reply);
    }
    hide Ordered, UnderWay, Consistent;
  }

  /** A reply to another request does not settle the disposal. */
  lemma SettledApart(c: Client, reply: Reply)
    requires Consistent(c) && reply.id in c.pending
    ensures forall id :: id in c.pending && id != reply.id ==> c.pending[id] != c.pending[reply.id]
  {}

  lemma DeliveredLine(s: System)
    requires Enabled(s, Deliver)
    ensures Line(s) == [s.replies[0].id] + Line(Apply(s, Deliver))
    ensures History(Apply(s, Deliver)) == History(s)
  {}

  lemma PendingOnTheWay(s: System)
    requires Inv(s) && Enabled(s, Deliver)
    ensures var t := Apply(s, Deliver);
            !t.client.closed ==> forall id :: id in t.client.pending ==> id in Line(t)
  {
    var t, reply := Apply(s, Deliver), s.replies[0];
    DeliveredLine(s);
    forall id | id in t.client.pending && !t.client.closed
      ensures id in Line(t)
    {
      assert id in s.client.pending && id in Line(s) && id != reply.id;
    }
  }

  lemma OnlyOneSettled(c: Client, reply: Reply)
    requires Consistent(c) && reply.id in c.pending
    ensures c.pending[reply.id] < |c.promises|
    ensures forall k {:trigger Receive(c, reply).promises[k]} :: 0 <= k < |c.promises| && k != c.pending[reply.id] ==>
              Receive(c, reply).promises[k] == c.promises[k]
  {}

  /** Behind the last request there is nothing. */
  lemma LastInLine(s: System, t: System)
    requires Inv(s) && s.replies != [] && t == Apply(s, Deliver)
    requires !s.client.closed && s.replies[0].id == s.client.lastId
    ensures t.client.pending == map[]
  {
    var id := s.client.lastId;
    assert Line(s) == [id] + Line(t);
    assert History(s) == s.answered + [id] + Line(t);
    var h := History(s);
    assert h[|s.answered|] == id;
    assert h[|h| - 1] <= h[|s.answered|];
    assert |Line(t)| == |h| - |s.answered| - 1;
    forall x | x in s.client.pending
      ensures x == id
    {
      assert x in Line(s);
    }
  }

  lemma StopKeeps(s: System, e: Event)
    requires Inv(s) && Enabled(s, e) && (e.Fault? || e.AfterDispose?)
    ensures Inv(Apply(s, e))
  {
    var t := Apply(s, e);
    TerminateKeeps(s.client);
    assert Line(t) == ReplyIds(s.replies);
    var n := |History(t)|;
    assert n <= |History(s)| && History(t) == History(s)[..n];
    if !t.faulty {
      assert s.client.pending == map[];
    }
  }

  // ----- The results ------------------------------------------------------------------------------

  /** Every promise handed out is settled once, or is pending and not yet settled; it
      is never settled twice. */
  lemma SettledOnce(es: seq<Event>, k: nat)
    requires Run(es).Some? && k < |Run(es).value.client.promises|
    ensures var c := Run(es).value.client;
            var p := c.promises[k];
            p.settlements <= 1 && (p.settlements == 1 <==> p.outcome.Some?)
            && (p.outcome.None? <==> k in c.pending.Values)
  {
    EveryRun(es);
    assert PromiseOk(Run(es).value.client, k);
  }

  /** Replies are delivered in the order in which their requests were made. */
  lemma AnswersInOrder(es: seq<Event>)
    requires Run(es).Some?
    ensures Increasing(Run(es).value.answered)
  {
    EveryRun(es);
    var s := Run(es).value;
    forall i, j | 0 <= i < j < |s.answered|
      ensures s.answered[i] < s.answered[j]
    {
      assert History(s)[i] == s.answered[i] && History(s)[j] == s.answered[j];
    }
  }

  /** If the worker never fails, a settled disposal means that every promise has
      settled, and that disposing terminated none of them. */
  lemma OrderlyDisposal(es: seq<Event>, k: nat)
    requires Run(es).Some? && !Run(es).value.faulty && Disposed(Run(es).value.client)
    requires k < |Run(es).value.client.promises|
    ensures var p := Run(es).value.client.promises[k];
            p.outcome.Some? && p.outcome != Some(Terminated)
  {
    EveryRun(es);
    assert PromiseOk(Run(es).value.client, k);
  }

  /** A failure reported by the worker reaches the caller exactly when its message is
      not empty. */
  lemma FailureSeen(c: Client, id: nat, message: string)
    requires Consistent(c) && id in c.pending
    ensures var d := Receive(c, Reply(id, Some(message)));
            var k := c.pending[id];
            k < |d.promises| && d.promises[k].outcome.Some?
            && (d.promises[k].outcome.value.Rejected? <==> message != "")
  {}
}
