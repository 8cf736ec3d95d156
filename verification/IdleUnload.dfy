/** When an idle model may be freed. */
module IdleUnload {
  import opened Wrappers

  /** Where the event loop is with a /tts request. Reloading and stamping happen with
      the lifecycle lock held; `Dispatching` is the window between the activity
      stamp and the registration of the stream, without it. */
  datatype LoopAt =
    | Polling | CheckLoaded | Reloading | StoreLoaded | Stamping | Dispatching(stamp: int) | CloseStamping

  /** Where the idle monitor is. The clock and the last activity are read in either
      order; `since` is when the streams were counted. From `Recheck` on it holds
      the lifecycle lock. */
  datatype IdleAt =
    | Asleep | ProbeLoaded | ProbeStreams | ProbeTime(last: Option<int>, time: Option<int>) | TryLock
    | Recheck | RecheckStreams | RecheckTime(since: int, last: Option<int>, time: Option<int>)
    | StoreUnloaded | ClearPointers | StopWorker | JoinWorker | FreeModel | Unlock

  datatype WorkerAt = NoWorker | Running | Stopping | Exited

  datatype System = System(
    now: int, lastActivity: int, activeStreams: int, modelLoaded: bool,
    loop: LoopAt, idle: IdleAt, worker: WorkerAt,
    resident: bool, pointers: bool, streams: set<nat>)

  datatype Event =
    | Tick(ms: nat)
    // event loop
    | Lock | LoopStep | Reload(ok: bool) | Reject | Register(c: nat) | Close(c: nat)
    // idle monitor
    | IdleStep | ReadLast | ReadClock
    // worker
    | WorkerExits

  predicate LoopHolds(at: LoopAt) {
    at.CheckLoaded? || at.Reloading? || at.StoreLoaded? || at.Stamping?
  }

  predicate IdleHolds(at: IdleAt) {
    at.Recheck? || at.RecheckStreams? || at.RecheckTime? || Unloading(at) || at.Unlock?
  }

  /** The monitor has decided to unload, and has not finished. */
  predicate Unloading(at: IdleAt) {
    at.StoreUnloaded? || at.ClearPointers? || at.StopWorker? || at.JoinWorker? || at.FreeModel?
  }

  predicate Enabled(s: System, e: Event) {
    match e
    case Tick(_) => true
    case Lock => s.loop.Polling? && !IdleHolds(s.idle)
    case LoopStep => s.loop.CheckLoaded? || s.loop.StoreLoaded? || s.loop.Stamping? || s.loop.CloseStamping?
    case Reload(_) => s.loop.Reloading?
    case Reject => s.loop.Dispatching?
    case Register(c) => s.loop.Dispatching? && c !in s.streams
    case Close(c) => s.loop.Polling? && c in s.streams
    case IdleStep => !TimeMissing(s.idle) && !(s.idle.JoinWorker? && s.worker != Exited)
    case ReadLast => TimeMissing(s.idle) && s.idle.last.None?
    case ReadClock => TimeMissing(s.idle) && s.idle.time.None?
    case WorkerExits => s.worker.Stopping?
  }

  predicate TimeMissing(at: IdleAt) {
    (at.ProbeTime? || at.RecheckTime?) && (at.last.None? || at.time.None?)
  }

  /** Too little time has passed to unload. */
  predicate Recent(timeout: int, at: IdleAt)
    requires (at.ProbeTime? || at.RecheckTime?) && at.last.Some? && at.time.Some?
  {
    at.time.value - at.last.value < timeout
  }

  function IdleApply(timeout: int, s: System): System
    requires Enabled(s, IdleStep)
  {
    match s.idle
    case Asleep => s.(idle := ProbeLoaded)
    case ProbeLoaded => s.(idle := if s.modelLoaded then ProbeStreams else Asleep)
    case ProbeStreams => s.(idle := if s.activeStreams > 0 then Asleep else ProbeTime(None, None))
    case ProbeTime(_, _) => s.(idle := if Recent(timeout, s.idle) then Asleep else TryLock)
    case TryLock => s.(idle := if LoopHolds(s.loop) then Asleep else Recheck)
    case Recheck => s.(idle := if s.modelLoaded then RecheckStreams else Unlock)
    case RecheckStreams => s.(idle := if s.activeStreams > 0 then Unlock else RecheckTime(s.now, None, None))
    case RecheckTime(_, _, _) => s.(idle := if Recent(timeout, s.idle) then Unlock else StoreUnloaded)
    case StoreUnloaded => s.(idle := ClearPointers, modelLoaded := false)
    case ClearPointers => s.(idle := StopWorker, pointers := false)
    case StopWorker => s.(idle := JoinWorker, worker := if s.worker.Running? then Stopping else s.worker)
    case JoinWorker => s.(idle := FreeModel, worker := NoWorker)
    case FreeModel => s.(idle := Unlock, resident := false)
    case Unlock => s.(idle := Asleep)
  }

  function Apply(timeout: int, s: System, e: Event): System
    requires Enabled(s, e)
  {
    match e
    case Tick(ms) => s.(now := s.now + ms)
    case Lock => s.(loop := CheckLoaded)
    case LoopStep =>
      (match s.loop
       case CheckLoaded => s.(loop := if s.modelLoaded then Stamping else Reloading)
       case StoreLoaded => s.(loop := Stamping, modelLoaded := true)
       case Stamping => s.(loop := Dispatching(s.now), lastActivity := s.now)
       case CloseStamping => s.(loop := Polling, lastActivity := s.now)
       case _ => s)
    case Reload(ok) =>
      if ok then s.(loop := StoreLoaded, resident := true, pointers := true, worker := Running)
      else s.(loop := Polling)
    case Reject => s.(loop := Polling)
    case Register(c) => s.(loop := Polling, activeStreams := s.activeStreams + 1, streams := s.streams + {c})
    case Close(c) =>
      s.(loop := CloseStamping, streams := s.streams - {c},
         activeStreams := if s.activeStreams > 0 then s.activeStreams - 1 else s.activeStreams)
    case IdleStep => IdleApply(timeout, s)
    case ReadLast => s.(idle := s.idle.(last := Some(s.lastActivity)))
    case ReadClock => s.(idle := s.idle.(time := Some(s.now)))
    case WorkerExits => s.(worker := Exited)
  }

  function Start(now: int): System {
    System(now, now, 0, true, Polling, Asleep, Running, true, true, {})
  }

  // ----- Runs that keep to time bounds ---------------------------------------------------

  /** How long, in ms, a dispatch may last from its stamp, a re-check from its count
      of the streams, and how old the last activity may be while a stream is closed. */
  datatype Bounds = Bounds(dispatch: nat, recheck: nat, age: nat)

  predicate Timely(b: Bounds, s: System) {
    && (s.loop.Dispatching? ==> s.now - s.loop.stamp <= b.dispatch)
    && (s.idle.RecheckTime? ==> s.now - s.idle.since <= b.recheck)
    && (s.loop.CloseStamping? ==> s.now - s.lastActivity <= b.age)
  }

  /** The state after a sequence of events, None where one was not enabled or a bound
      was not kept. */
  function Run(timeout: int, b: Bounds, now: int, es: seq<Event>): (r: Option<System>)
    ensures r.Some? ==> Timely(b, r.value)
  {
    if es == [] then Some(Start(now))
    else match Run(timeout, b, now, es[..|es| - 1])
      case None => None
      case Some(s) => Then(timeout, b, s, es[|es| - 1])
  }

  function Then(timeout: int, b: Bounds, s: System, e: Event): (r: Option<System>)
    ensures r.Some? ==> Timely(b, r.value)
  {
    if Enabled(s, e) && Timely(b, Apply(timeout, s, e)) then Some(Apply(timeout, s, e)) else None
  }

  // ----- What holds whatever the timing ----------------------------------------------------

  /** The lock has one holder, the count is right, the clock runs forward, and memory
      goes away only after the worker. */
  ghost predicate Basic(s: System) {
    && !(LoopHolds(s.loop) && IdleHolds(s.idle))
    && s.activeStreams == |s.streams|
    && s.lastActivity <= s.now
    && (s.loop.Dispatching? ==> s.loop.stamp <= s.lastActivity)
    && (s.idle.RecheckTime? && s.idle.time.Some? ==> s.idle.time.value <= s.now)
    && (s.modelLoaded ==> s.resident && s.pointers && s.worker.Running?)
    && (s.loop.StoreLoaded? ==> s.resident && s.pointers && s.worker.Running?)
    && (!s.resident ==> s.worker.NoWorker? && !s.pointers)
    && (s.idle.RecheckStreams? || s.idle.RecheckTime? || s.idle.StoreUnloaded? ==> s.modelLoaded)
    && (Unloading(s.idle) && !s.idle.StoreUnloaded? ==> !s.modelLoaded)
    && (s.loop.Stamping? ==> s.modelLoaded)
    && (s.loop.Reloading? ==> !s.modelLoaded)
    && (!s.modelLoaded && !s.loop.StoreLoaded? && !Unloading(s.idle) ==> !s.resident)
    && (s.idle.FreeModel? ==> s.worker.NoWorker?)
    && (s.idle.StopWorker? || s.idle.JoinWorker? || s.idle.FreeModel? ==> !s.pointers)
    && (s.idle.ClearPointers? || s.idle.StopWorker? ==> s.worker.Running?)
    && (s.idle.JoinWorker? ==> s.worker.Stopping? || s.worker.Exited?)
  }

  lemma BasicKept(timeout: int, s: System, e: Event)
    requires Basic(s) && Enabled(s, e)
    ensures Basic(Apply(timeout, s, e))
  {
    hide IdleApply, Recent;
    if e.IdleStep? {
      IdleBasicKept(timeout, s);
    } else if e.LoopStep? {
      LoopBasicKept(timeout, s);
    } else if e.Close? || e.Register? {
      StreamBasicKept(timeout, s, e);
    }
  }

  lemma StreamBasicKept(timeout: int, s: System, e: Event)
    requires Basic(s) && Enabled(s, e) && (e.Close? || e.Register?)
    ensures Basic(Apply(timeout, s, e))
  {
    var t := Apply(timeout, s, e);
    if e.Close? {
      assert s.streams == t.streams + {e.c} && e.c !in t.streams;
    }
  }

  lemma IdleBasicKept(timeout: int, s: System)
    requires Basic(s) && Enabled(s, IdleStep)
    ensures Basic(IdleApply(timeout, s))
  {}

  lemma LoopBasicKept(timeout: int, s: System)
    requires Basic(s) && Enabled(s, LoopStep)
    ensures Basic(Apply(timeout, s, LoopStep))
  {}

  lemma {:induction false} EveryRunBasic(timeout: int, b: Bounds, now: int, es: seq<Event>)
    ensures var r := Run(timeout, b, now, es);
            r.Some? ==> Basic(r.value)
  {
    hide Basic;
    if es == [] {
      StartBasic(now);
    } else {
      EveryRunBasic(timeout, b, now, es[..|es| - 1]);
      match Run(timeout, b, now, es[..|es| - 1])
      case None =>
      case Some(s) =>
        if Enabled(s, es[|es| - 1]) { BasicKept(timeout, s, es[|es| - 1]); }
    }
  }

  lemma StartBasic(now: int)
    ensures Basic(Start(now))
  {}

  /** The counter is the number of open streams, and the model is never freed under a
      worker that has not been joined. */
  lemma CountedAndJoined(timeout: int, b: Bounds, now: int, es: seq<Event>)
    requires Run(timeout, b, now, es).Some?
    ensures var s := Run(timeout, b, now, es).value;
            && s.activeStreams == |s.streams|
            && (!s.resident ==> s.worker.NoWorker?)
  {
    EveryRunBasic(timeout, b, now, es);
  }

  /** The life of the worker thread: it stops only when asked, is joined only after it has
      left, and is started only where there is none. */
  lemma WorkerLifecycle(timeout: int, b: Bounds, now: int, es: seq<Event>, s: System, e: Event)
    requires Run(timeout, b, now, es) == Some(s) && Enabled(s, e)
    ensures var t := Apply(timeout, s, e);
            && (t.worker == NoWorker ==> s.worker == NoWorker || s.worker == Exited)
            && (t.worker == Exited ==> s.worker == Exited || s.worker == Stopping)
            && (t.worker == Stopping ==> s.worker == Stopping || s.worker == Running)
            && (t.worker == Running ==> s.worker == Running || s.worker == NoWorker)
            && (s.resident && !t.resident ==> s.worker == NoWorker)
  {
    EveryRunBasic(timeout, b, now, es);
    if e.IdleStep? {
      WorkerUnderMonitor(timeout, s);
    } else {
      WorkerElsewhere(timeout, s, e);
    }
    hide Apply, Run, Basic, Enabled;
  }

  lemma WorkerUnderMonitor(timeout: int, s: System)
    requires Basic(s) && Enabled(s, IdleStep)
    ensures var t := IdleApply(timeout, s);
            && (t.worker == NoWorker ==> s.worker == NoWorker || s.worker == Exited)
            && (t.worker == Exited ==> s.worker == Exited)
            && (t.worker == Stopping ==> s.worker == Stopping || s.worker == Running)
            && (t.worker == Running ==> s.worker == Running)
            && (s.resident && !t.resident ==> s.worker == NoWorker)
  {
    hide Recent;
  }

  lemma WorkerElsewhere(timeout: int, s: System, e: Event)
    requires Basic(s) && Enabled(s, e) && !e.IdleStep?
    ensures var t := Apply(timeout, s, e);
            && (t.worker == NoWorker ==> s.worker == NoWorker)
            && (t.worker == Exited ==> s.worker == Exited || s.worker == Stopping)
            && (t.worker == Stopping ==> s.worker == Stopping)
            && (t.worker == Running ==> s.worker == Running || s.worker == NoWorker)
            && (s.resident ==> t.resident)
  {
    hide IdleApply;
  }

  // ----- The monitor always comes to rest ---------------------------------------------------

  predicate OfMonitor(e: Event) {
    e.IdleStep? || e.ReadLast? || e.ReadClock?
  }

  /** Whether every event is enabled in turn and the monitor does not come to rest before
      the last. */
  predicate Awake(timeout: int, s: System, es: seq<Event>)
    decreases |es|
  {
    es == [] || (!s.idle.Asleep? && Enabled(s, es[0]) && Awake(timeout, Apply(timeout, s, es[0]), es[1..]))
  }

  function Final(timeout: int, s: System, es: seq<Event>): System
    requires Awake(timeout, s, es)
    decreases |es|
  {
    if es == [] then s else Final(timeout, Apply(timeout, s, es[0]), es[1..])
  }

  function MonitorEvents(es: seq<Event>): nat {
    if es == [] then 0 else (if OfMonitor(es[0]) then 1 else 0) + MonitorEvents(es[1..])
  }

  function Missing(t: Option<int>): nat {
    if t.None? then 1 else 0
  }

  /** What the monitor has yet to do, at most. */
  function Left(at: IdleAt): nat {
    match at
    case Asleep => 0
    case Unlock => 1
    case FreeModel => 2
    case JoinWorker => 3
    case StopWorker => 4
    case ClearPointers => 5
    case StoreUnloaded => 6
    case RecheckTime(_, last, time) => 7 + Missing(last) + Missing(time)
    case RecheckStreams => 10
    case Recheck => 11
    case TryLock => 12
    case ProbeTime(last, time) => 13 + Missing(last) + Missing(time)
    case ProbeStreams => 16
    case ProbeLoaded => 17
  }

  lemma LeftShrinks(timeout: int, s: System, e: Event)
    requires Enabled(s, e) && !s.idle.Asleep?
    ensures var t := Apply(timeout, s, e);
            Left(t.idle) + (if OfMonitor(e) then 1 else 0) <= Left(s.idle)
  {
    if e.IdleStep? {
      StepShrinks(timeout, s);
      hide IdleApply;
    } else if !OfMonitor(e) {
      MonitorUntouched(timeout, s, e);
      hide Apply;
    }
    hide IdleApply, Recent;
  }

  lemma StepShrinks(timeout: int, s: System)
    requires Enabled(s, IdleStep) && !s.idle.Asleep?
    ensures Left(IdleApply(timeout, s).idle) < Left(s.idle)
  {
    hide Recent;
  }

  lemma MonitorUntouched(timeout: int, s: System, e: Event)
    requires Enabled(s, e) && !OfMonitor(e)
    ensures Apply(timeout, s, e).idle == s.idle
  {
    hide IdleApply;
  }

  /** After at most seventeen of its own events the monitor is at rest again, and so no
      longer holds the lifecycle lock; it waits for nothing but the worker to leave, which
      the worker always can. */
  lemma {:induction false} MonitorRests(timeout: int, s: System, es: seq<Event>)
    requires Awake(timeout, s, es)
    ensures MonitorEvents(es) <= 17
    ensures MonitorEvents(es) + Left(Final(timeout, s, es).idle) <= Left(s.idle)
    ensures s.idle != JoinWorker || s.worker == Exited ==>
              Enabled(s, IdleStep) || Enabled(s, ReadLast) || Enabled(s, ReadClock)
    decreases |es|
  {
    hide Apply, Left, OfMonitor;
    if es != [] {
      LeftShrinks(timeout, s, es[0]);
      MonitorRests(timeout, Apply(timeout, s, es[0]), es[1..]);
    }
    AtMostSeventeen(s.idle);
  }

  lemma AtMostSeventeen(at: IdleAt)
    ensures Left(at) <= 17
  {}

  // ----- When unloading is safe ---------------------------------------------------------------

  /** Someone needs the model: a request being dispatched, or an open stream. */
  predicate InUse(s: System) {
    s.loop.Dispatching? || s.streams != {}
  }

  /** A model in use stays loaded with its worker running, and no unloading goes on. */
  ghost predicate Usable(s: System) {
    InUse(s) ==> s.modelLoaded && s.resident && s.pointers && s.worker.Running? && !Unloading(s.idle)
  }

  /** While a re-check is under way in spite of a user, the last activity is recent. */
  ghost predicate Watched(b: Bounds, s: System) {
    && Usable(s)
    && (InUse(s) && s.idle.RecheckTime? ==>
          && s.lastActivity >= s.idle.since - b.dispatch
          && (s.idle.last.Some? ==> s.idle.last.value >= s.idle.since - b.dispatch))
  }

  lemma WatchedKept(timeout: int, b: Bounds, s: System, e: Event)
    requires b.dispatch + b.recheck < timeout
    requires Basic(s) && Watched(b, s) && Timely(b, s)
    requires Enabled(s, e)
    ensures Watched(b, Apply(timeout, s, e))
  {
    if e.IdleStep? {
      IdleWatchedKept(timeout, b, s);
    } else if e.LoopStep? {
      LoopWatchedKept(timeout, b, s);
    }
  }

  lemma IdleWatchedKept(timeout: int, b: Bounds, s: System)
    requires b.dispatch + b.recheck < timeout
    requires Basic(s) && Watched(b, s) && Timely(b, s) && Enabled(s, IdleStep)
    ensures Watched(b, IdleApply(timeout, s))
  {
    if s.idle.RecheckStreams? && s.activeStreams == 0 { assert s.streams == {}; }
  }

  lemma LoopWatchedKept(timeout: int, b: Bounds, s: System)
    requires Basic(s) && Watched(b, s) && Enabled(s, LoopStep)
    ensures Watched(b, Apply(timeout, s, LoopStep))
  {}

  lemma {:induction false} EveryRunWatched(timeout: int, b: Bounds, now: int, es: seq<Event>)
    requires b.dispatch + b.recheck < timeout
    ensures var r := Run(timeout, b, now, es);
            r.Some? ==> Watched(b, r.value)
  {
    hide Basic, Watched;
    if es == [] {
      StartWatched(b, now);
    } else {
      EveryRunWatched(timeout, b, now, es[..|es| - 1]);
      EveryRunBasic(timeout, b, now, es[..|es| - 1]);
      match Run(timeout, b, now, es[..|es| - 1])
      case None =>
      case Some(s) =>
        if Enabled(s, es[|es| - 1]) { WatchedKept(timeout, b, s, es[|es| - 1]); }
    }
  }

  lemma StartWatched(b: Bounds, now: int)
    ensures Watched(b, Start(now))
  {}

  /** In every run that keeps to the bounds, a model in use is usable. */
  ghost predicate UnloadIsSafe(timeout: int, b: Bounds) {
    forall now: int, es: seq<Event> {:trigger Run(timeout, b, now, es)} ::
      Run(timeout, b, now, es).Some? ==> Usable(Run(timeout, b, now, es).value)
  }

  /** Idle unload is safe exactly when a dispatch and a re-check together take less
      than the idle timeout. A short dispatch alone is not enough. */
  lemma SafeExactly(timeout: int, b: Bounds)
    ensures UnloadIsSafe(timeout, b) <==> b.dispatch + b.recheck < timeout
  {
    hide Run, Usable;
    if b.dispatch + b.recheck < timeout {
      forall now: int, es: seq<Event> | Run(timeout, b, now, es).Some?
        ensures Usable(Run(timeout, b, now, es).value)
      {
        EveryRunWatched(timeout, b, now, es);
      }
    } else {
      var es, s := UnloadsUnderAStream(timeout, b);
      assert !Usable(s) by { UnusableUnderAStream(s); }
    }
  }

  // ----- The run that unloads under an open stream -------------------------------------------

  /** One more event of a run. */
  lemma More(timeout: int, b: Bounds, es: seq<Event>, s: System, e: Event)
    returns (longer: seq<Event>, t: System)
    requires Run(timeout, b, 0, es) == Some(s)
    requires Enabled(s, e) && Timely(b, Apply(timeout, s, e))
    ensures t == Apply(timeout, s, e) && Run(timeout, b, 0, longer) == Some(t)
  {
    longer, t := es + [e], Apply(timeout, s, e);
    assert longer[..|es|] == es;
  }

  /** The monitor finds the server idle. */
  lemma IdleProbed(timeout: int, b: Bounds, wait: nat) returns (es: seq<Event>, s: System)
    requires wait >= timeout
    ensures Run(timeout, b, 0, es) == Some(s)
    ensures s == Start(0).(now := wait, idle := TryLock)
  {
    hide Run;
    es, s := [], Start(0);
    assert Run(timeout, b, 0, es) == Some(s) by { EmptyRun(timeout, b); }
    es, s := More(timeout, b, es, s, Tick(wait));
    es, s := More(timeout, b, es, s, IdleStep);
    es, s := More(timeout, b, es, s, IdleStep);
    es, s := More(timeout, b, es, s, IdleStep);
    es, s := More(timeout, b, es, s, ReadLast);
    es, s := More(timeout, b, es, s, ReadClock);
    es, s := More(timeout, b, es, s, IdleStep);
  }

  /** Then a request takes the lock, stamps its activity and starts to dispatch; then the
      monitor takes the lock. */
  lemma StampedWhileProbed(timeout: int, b: Bounds, wait: nat) returns (es: seq<Event>, s: System)
    requires wait >= timeout
    ensures Run(timeout, b, 0, es) == Some(s)
    ensures s == Start(0).(now := wait, lastActivity := wait, loop := Dispatching(wait), idle := RecheckStreams)
  {
    hide Run;
    es, s := IdleProbed(timeout, b, wait);
    es, s := More(timeout, b, es, s, Lock);
    es, s := More(timeout, b, es, s, LoopStep);
    es, s := More(timeout, b, es, s, LoopStep);
    es, s := More(timeout, b, es, s, IdleStep);
    es, s := More(timeout, b, es, s, IdleStep);
  }

  lemma EmptyRun(timeout: int, b: Bounds)
    ensures Run(timeout, b, 0, []) == Some(Start(0))
  {}

  /** The streams are counted in the last moment of the dispatch; the stream opens,
      the monitor is slow to read the clock, and unloads. */
  lemma UnloadsUnderAStream(timeout: int, b: Bounds) returns (es: seq<Event>, s: System)
    requires b.dispatch + b.recheck >= timeout
    ensures Run(timeout, b, 0, es) == Some(s)
    ensures s.streams == {0} && Unloading(s.idle)
  {
    hide Run;
    es, s := StampedWhileProbed(timeout, b, if timeout > 0 then timeout else 0);
    es, s := More(timeout, b, es, s, Tick(b.dispatch));
    es, s := More(timeout, b, es, s, IdleStep);
    es, s := More(timeout, b, es, s, Register(0));
    es, s := More(timeout, b, es, s, Tick(b.recheck));
    es, s := More(timeout, b, es, s, ReadLast);
    es, s := More(timeout, b, es, s, ReadClock);
    es, s := More(timeout, b, es, s, IdleStep);
  }

  lemma UnusableUnderAStream(s: System)
    requires 0 in s.streams && Unloading(s.idle)
    ensures !Usable(s)
  {}

  // ----- Unloading while a stream closes ------------------------------------------------------

  /** At most one stream is under way: being dispatched, open, or being closed. */
  ghost predicate AtMostOne(s: System) {
    && |s.streams| <= 1
    && (s.loop.Dispatching? || s.loop.CloseStamping? ==> s.streams == {})
  }

  /** Once the re-check has counted no streams, it sees at most one, which it did not
      count; until that one is stamped as closed, the activity does not change, and it
      was too old when the monitor decided to unload. */
  ghost predicate Outlived(timeout: int, s: System) {
    && (s.idle.RecheckTime? || Unloading(s.idle) ==> AtMostOne(s))
    && (InUse(s) || s.loop.CloseStamping? ==>
          && (s.idle.RecheckTime? && s.idle.last.Some? ==> s.idle.last.value == s.lastActivity)
          && (Unloading(s.idle) ==> s.now - s.lastActivity >= timeout))
  }

  lemma OutlivedKept(timeout: int, s: System, e: Event)
    requires Basic(s) && Outlived(timeout, s) && Enabled(s, e)
    ensures Outlived(timeout, Apply(timeout, s, e))
  {
    if e.IdleStep? {
      IdleOutlivedKept(timeout, s);
    } else if e.Register? || e.Close? {
      StreamOutlivedKept(timeout, s, e);
    }
  }

  lemma IdleOutlivedKept(timeout: int, s: System)
    requires Basic(s) && Outlived(timeout, s) && Enabled(s, IdleStep)
    ensures Outlived(timeout, IdleApply(timeout, s))
  {
    if s.idle.RecheckStreams? && s.activeStreams == 0 { assert s.streams == {}; }
  }

  lemma StreamOutlivedKept(timeout: int, s: System, e: Event)
    requires Basic(s) && Outlived(timeout, s) && Enabled(s, e) && (e.Register? || e.Close?)
    ensures Outlived(timeout, Apply(timeout, s, e))
  {
    if e.Close? && AtMostOne(s) {
      assert s.streams == Apply(timeout, s, e).streams + {e.c};
      assert |Apply(timeout, s, e).streams| == 0;
    }
  }

  lemma {:induction false} EveryRunOutlived(timeout: int, b: Bounds, now: int, es: seq<Event>)
    ensures var r := Run(timeout, b, now, es);
            r.Some? ==> Outlived(timeout, r.value)
  {
    hide Basic, Outlived;
    if es == [] {
      StartOutlived(timeout, now);
    } else {
      EveryRunOutlived(timeout, b, now, es[..|es| - 1]);
      EveryRunBasic(timeout, b, now, es[..|es| - 1]);
      match Run(timeout, b, now, es[..|es| - 1])
      case None =>
      case Some(s) =>
        if Enabled(s, es[|es| - 1]) { OutlivedKept(timeout, s, es[|es| - 1]); }
    }
  }

  lemma StartOutlived(timeout: int, now: int)
    ensures Outlived(timeout, Start(now))
  {}

  /** In every run that keeps to the bounds, no unloading goes on between a stream's
      end and the stamp of that end. */
  ghost predicate CloseIsSafe(timeout: int, b: Bounds) {
    forall now: int, es: seq<Event> {:trigger Run(timeout, b, now, es)} ::
      var r := Run(timeout, b, now, es);
      r.Some? && r.value.loop.CloseStamping? ==> !Unloading(r.value.idle)
  }

  /** The end of a stream is safe exactly when the last activity before it is always
      younger than the idle timeout, however long dispatches and re-checks take. */
  lemma CloseSafeExactly(timeout: int, b: Bounds)
    ensures CloseIsSafe(timeout, b) <==> b.age < timeout
  {
    hide Run;
    if b.age < timeout {
      forall now: int, es: seq<Event> | Run(timeout, b, now, es).Some?
        ensures var s := Run(timeout, b, now, es).value;
                s.loop.CloseStamping? ==> !Unloading(s.idle)
      {
        EveryRunOutlived(timeout, b, now, es);
      }
    } else {
      var es, s := UnloadsAsAStreamCloses(timeout, b);
    }
  }

  /** A stream is counted out before its end is stamped as activity, so the monitor
      can unload in the very moment a stream closes, if nothing else was stamped for
      the length of the timeout. */
  lemma UnloadsAsAStreamCloses(timeout: int, b: Bounds) returns (es: seq<Event>, s: System)
    requires b.age >= timeout
    ensures Run(timeout, b, 0, es) == Some(s)
    ensures Unloading(s.idle) && s.loop.CloseStamping?
  {
    hide Run;
    es, s := ProbedWhileClosing(timeout, b, if timeout > 0 then timeout else 0);
    es, s := More(timeout, b, es, s, IdleStep);
    es, s := More(timeout, b, es, s, IdleStep);
    es, s := More(timeout, b, es, s, IdleStep);
    es, s := More(timeout, b, es, s, ReadLast);
    es, s := More(timeout, b, es, s, ReadClock);
    es, s := More(timeout, b, es, s, IdleStep);
  }

  lemma ProbedWhileClosing(timeout: int, b: Bounds, wait: nat) returns (es: seq<Event>, s: System)
    requires timeout <= wait <= b.age
    ensures Run(timeout, b, 0, es) == Some(s)
    ensures s == Start(0).(now := wait, loop := CloseStamping, idle := TryLock)
  {
    hide Run;
    es, s := StreamClosing(timeout, b, wait);
    es, s := More(timeout, b, es, s, IdleStep);
    es, s := More(timeout, b, es, s, IdleStep);
    es, s := More(timeout, b, es, s, IdleStep);
    es, s := More(timeout, b, es, s, ReadLast);
    es, s := More(timeout, b, es, s, ReadClock);
    es, s := More(timeout, b, es, s, IdleStep);
  }

  lemma StreamClosing(timeout: int, b: Bounds, wait: nat) returns (es: seq<Event>, s: System)
    requires wait <= b.age
    ensures Run(timeout, b, 0, es) == Some(s)
    ensures s == Start(0).(now := wait, loop := CloseStamping)
  {
    hide Run;
    es, s := [], Start(0);
    assert Run(timeout, b, 0, es) == Some(s) by { EmptyRun(timeout, b); }
    es, s := More(timeout, b, es, s, Lock);
    es, s := More(timeout, b, es, s, LoopStep);
    es, s := More(timeout, b, es, s, LoopStep);
    es, s := More(timeout, b, es, s, Register(0));
    es, s := More(timeout, b, es, s, Tick(wait));
    es, s := More(timeout, b, es, s, Close(0));
    assert {0} - {0} == {};
  }
}
