/** The browser client and its worker: promises, message queues, and an orderly
    disposal. Every handler runs to completion, so each is one step. The client is
    described twice, as functions on its state and as an object whose methods change
    its fields; every method is proved to do what its function says. */
module WebWorker {
  import opened Wrappers

  datatype Kind = Load | Synthesize | Dispose

  /** How a promise ended. */
  datatype Outcome = Resolved | Rejected(message: string) | Terminated | Refused | NotPosted

  /** A promise handed out, and how often the code has settled it. */
  datatype Promise = Promise(kind: Kind, outcome: Option<Outcome>, settlements: nat)

  datatype Message = Message(id: nat, kind: Kind)

  datatype Reply = Reply(id: nat, error: Option<string>)

  /** The client object: `pending` maps request ids to promises, `closing` is the
      promise of the first disposal. */
  datatype Client = Client(
    promises: seq<Promise>, pending: map<nat, nat>, lastId: nat, closed: bool, closing: Option<nat>)

  const NEW_CLIENT := Client([], map[], 0, false, None)

  function Settled(p: Promise, outcome: Outcome): Promise {
    p.(outcome := Some(outcome), settlements := p.settlements + 1)
  }

  // ----- What the client does --------------------------------------------------------

  /** A promise rejected at once. */
  function Refuse(c: Client, kind: Kind, outcome: Outcome): Client {
    c.(promises := c.promises + [Settled(Promise(kind, None, 0), outcome)])
  }

  /** A request: a promise, and the message that was posted for it, if it was. */
  function Request(c: Client, kind: Kind, posts: bool): (Client, Option<Message>) {
    if c.closed then (Refuse(c, kind, Refused), None)
    else
      var id := c.lastId + 1;
      if posts then
        (c.(lastId := id, promises := c.promises + [Promise(kind, None, 0)], pending := c.pending[id := |c.promises|]),
         Some(Message(id, kind)))
      else (Refuse(c.(lastId := id), kind, NotPosted), None)
  }

  function SynthesizeCall(c: Client, posts: bool): (Client, Option<Message>) {
    if c.closing.Some? then (Refuse(c, Synthesize, Refused), None) else Request(c, Synthesize, posts)
  }

  /** A second disposal returns the promise of the first. */
  function DisposeCall(c: Client): (Client, Option<Message>) {
    if c.closing.Some? || c.closed then (c, None)
    else
      var (next, message) := Request(c, Dispose, true);
      (next.(closing := Some(|c.promises|)), message)
  }

  /** An error with an empty message counts as none. */
  function OutcomeOf(reply: Reply): Outcome {
    match reply.error
    case Some(message) => if message != "" then Rejected(message) else Resolved
    case None => Resolved
  }

  function Receive(c: Client, reply: Reply): Client
    requires Consistent(c)
  {
    if reply.id !in c.pending then c
    else
      var k := c.pending[reply.id];
      c.(pending := c.pending - {reply.id}, promises := c.promises[k := Settled(c.promises[k], OutcomeOf(reply))])
  }

  function Terminate(c: Client): Client {
    c.(closed := true, pending := map[],
       promises := seq(|c.promises|, k requires 0 <= k < |c.promises| =>
         if k in c.pending.Values then Settled(c.promises[k], Terminated) else c.promises[k]))
  }

  /** Every promise is waiting under exactly one id or has been settled exactly once. */
  ghost predicate Consistent(c: Client) {
    && (forall id {:trigger c.pending[id]} :: id in c.pending ==> c.pending[id] < |c.promises| && 0 < id <= c.lastId)
    && (forall a, b {:trigger c.pending[a], c.pending[b]} ::
          a in c.pending && b in c.pending && a != b ==> c.pending[a] != c.pending[b])
    && (forall k: nat {:trigger PromiseOk(c, k)} :: k < |c.promises| ==> PromiseOk(c, k))
    && (c.closed ==> c.pending == map[])
    && (c.closing.Some? ==> c.closing.value < |c.promises|)
  }

  predicate PromiseOk(c: Client, k: nat)
    requires k < |c.promises|
  {
    && c.promises[k].settlements == (if k in c.pending.Values then 0 else 1)
    && (c.promises[k].outcome.None? <==> k in c.pending.Values)
  }

  // ----- The object ---------------------------------------------------------------------

  class Kokopop {
    var promises: seq<Promise>
    var pending: map<nat, nat>
    var lastId: nat
    var closed: bool
    var closing: Option<nat>

    function View(): Client
      reads this
    {
      Client(promises, pending, lastId, closed, closing)
    }

    constructor ()
      ensures View() == NEW_CLIENT
    {
      promises, pending, lastId, closed, closing := [], map[], 0, false, None;
    }

    method SettleAt(k: nat, outcome: Outcome)
      requires k < |promises|
      modifies this`promises
      ensures promises == old(promises)[k := Settled(old(promises)[k], outcome)]
    {
      promises := promises[k := Settled(promises[k], outcome)];
    }

    method OnMessage(reply: Reply)
      requires Consistent(View())
      modifies this
      ensures View() == Receive(old(View()), reply)
    {
      if reply.id !in pending { return; }
      var k := pending[reply.id];
      pending := pending - {reply.id};
      SettleAt(k, OutcomeOf(reply));
    }

    /** Rejects every pending request, one after another. */
    method TerminateWorker()
      requires Consistent(View())
      modifies this
      ensures View() == Terminate(old(View()))
    {
      hide Settled;
      ghost var before := View();
      closed := true;
      var left := pending.Keys;
      while left != {}
        invariant left <= pending.Keys && pending == before.pending && closed && lastId == before.lastId
        invariant closing == before.closing && |promises| == |before.promises|
        invariant forall k {:trigger promises[k]} :: 0 <= k < |promises| ==>
                    promises[k] == if Done(pending, left, k) then Settled(before.promises[k], Terminated)
                                   else before.promises[k]
        decreases |left|
      {
        var id :| id in left;
        assert pending[id] < |promises|;
        StillWaiting(before, left, id);
        SettleAt(pending[id], Terminated);
        OneMoreDone(before, left, id);
        left := left - {id};
      }
      pending := map[];
      assert promises == Terminate(before).promises;
    }

    method MakeRequest(kind: Kind, posts: bool) returns (message: Option<Message>)
      requires Consistent(View())
      modifies this
      ensures (View(), message) == Request(old(View()), kind, posts)
    {
      if closed {
        promises := promises + [Settled(Promise(kind, None, 0), Refused)];
        return None;
      }
      lastId := lastId + 1;
      var k := |promises|;
      promises := promises + [Promise(kind, None, 0)];
      pending := pending[lastId := k];
      if posts {
        return Some(Message(lastId, kind));
      }
      NewId(old(View()));
      pending := pending - {lastId};
      assert pending == old(pending);
      SettleAt(k, NotPosted);
      assert promises == old(promises) + [Settled(Promise(kind, None, 0), NotPosted)];
      return None;
    }

    method SynthesizeText(posts: bool) returns (message: Option<Message>)
      requires Consistent(View())
      modifies this
      ensures (View(), message) == SynthesizeCall(old(View()), posts)
    {
      if closing.Some? {
        promises := promises + [Settled(Promise(Synthesize, None, 0), Refused)];
        return None;
      }
      message := MakeRequest(Synthesize, posts);
    }

    method DisposeAll() returns (message: Option<Message>)
      requires Consistent(View())
      modifies this
      ensures (View(), message) == DisposeCall(old(View()))
    {
      if closing.Some? || closed { return None; }
      var k := |promises|;
      message := MakeRequest(Dispose, true);
      closing := Some(k);
    }
  }

  lemma NewId(c: Client)
    requires Consistent(c)
    ensures c.lastId + 1 !in c.pending
  {
    forall id | id in c.pending
      ensures id <= c.lastId
    {
      assert c.pending[id] < |c.promises|;
    }
  }

  /** Promise k belongs to a request the loop has already rejected. */
  predicate Done(pending: map<nat, nat>, left: set<nat>, k: nat) {
    exists id :: id in pending && id !in left && pending[id] == k
  }

  lemma StillWaiting(c: Client, left: set<nat>, id: nat)
    requires Consistent(c) && left <= c.pending.Keys && id in left
    ensures !Done(c.pending, left, c.pending[id])
  {}

  lemma OneMoreDone(c: Client, left: set<nat>, id: nat)
    requires Consistent(c) && left <= c.pending.Keys && id in left
    ensures forall k :: Done(c.pending, left - {id}, k) <==> Done(c.pending, left, k) || k == c.pending[id]
  {
    assert id in c.pending && id !in left - {id};
  }
}
