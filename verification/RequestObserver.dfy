/**
 The request observer of scripts/measure-artist-detail-local-timing.js: event handlers that settle the promises of
 waiting callers. A handler runs without interruption up to an await; events come in any order.
 */
module RequestObserver {
  import opened Common
  import opened TimingEvidence

  /** How a promise was settled. */
  datatype Settlement = Began | Observed(observation: Request) | RejectedWait

  datatype Kind = StartWait | CompletionWait

  /** A promise handed to a caller, with every settlement that was ever attempted on it. */
  datatype Promise = Promise(kind: Kind, endpoint: Endpoint, settlements: seq<Settlement>)

  type PromiseId = nat

  /** The closure variables of createArtistDetailTimingObserver, and the promises made so far. */
  datatype Observer = Observer(
    completed: map<Endpoint, Request>,
    started: set<Endpoint>,
    completionWaiters: map<Endpoint, PromiseId>,
    startWaiters: map<Endpoint, PromiseId>,
    failures: set<Endpoint>,
    captureStart: Option<Duration>,
    promises: seq<Promise>)

  /** A start time may be missing altogether. */
  datatype Response = Response(status: int, startTime: Option<Duration>, responseEnd: Duration)

  /** What awaiting the response of a finished request yields; Missing also stands for an error. */
  datatype Reply = Missing | Received(response: Response)

  // ----- Timing of one response -----

  function StatusFamilyOf(status: int): Option<StatusFamily> {
    if !(200 <= status <= 599) then None
    else if status < 300 then Some(Family2)
    else if status < 400 then Some(Family3)
    else if status < 500 then Some(Family4)
    else Some(Family5)
  }

  /** A missing time is not a finite number. */
  function TimeOf(t: Option<Duration>): Duration {
    if t.Some? then t.value else NotFinite
  }

  /** normalizeArtistDetailRequestTiming: times relative to the start of the capture. */
  function RelativeTiming(r: Response, captureStart: Option<Duration>): Result<RawTiming> {
    var begin, origin := TimeOf(r.startTime), TimeOf(captureStart);
    if begin.NotFinite? || r.responseEnd.NotFinite? || r.responseEnd.ms < 0.0 || origin.NotFinite?
      || begin.ms < origin.ms
    then Rejected
    else
      var start := begin.ms - origin.ms;
      Ok(RawTiming(r.responseEnd, Finite(start + r.responseEnd.ms), Finite(start)))
  }

  /** The observation that a response yields, if it is a usable one. */
  function Observation(endpoint: Endpoint, r: Response, captureStart: Option<Duration>): Result<Request> {
    var raw :- RelativeTiming(r, captureStart);
    if StatusFamilyOf(r.status).None? then Rejected
    else NormalizeRequest(RawRequest(endpoint, StatusFamilyOf(r.status).value, raw))
  }

  // ----- The handlers -----

  function Settle(o: Observer, id: PromiseId, s: Settlement): Observer {
    if id < |o.promises|
    then o.(promises := o.promises[id := o.promises[id].(settlements := o.promises[id].settlements + [s])])
    else o
  }

  function ResolveStartWaiter(o: Observer, e: Endpoint): Observer {
    if e in o.startWaiters then Settle(o.(startWaiters := o.startWaiters - {e}), o.startWaiters[e], Began) else o
  }

  function SettleCompletionWaiter(o: Observer, e: Endpoint, s: Settlement): Observer {
    if e in o.completionWaiters
    then Settle(o.(completionWaiters := o.completionWaiters - {e}), o.completionWaiters[e], s)
    else o
  }

  function HandleRequest(o: Observer, e: Endpoint): Observer {
    if e in o.started then o else ResolveStartWaiter(o.(started := o.started + {e}), e)
  }

  function Fail(o: Observer, e: Endpoint): Observer {
    SettleCompletionWaiter(o.(failures := o.failures + {e}), e, RejectedWait)
  }

  /** `captureStartTimeMs ??= requestTiming.startTime`. */
  function Origin(captureStart: Option<Duration>, r: Response): Option<Duration> {
    if captureStart.Some? then captureStart else r.startTime
  }

  /** What follows the await on the response. */
  function FinishRecording(o: Observer, e: Endpoint, reply: Reply): Observer {
    if reply.Missing? then Fail(o, e)
    else
      var capture := Origin(o.captureStart, reply.response);
      var o' := o.(captureStart := capture);
      match Observation(e, reply.response, capture)
      case Rejected => Fail(o', e)
      case Ok(observation) =>
        SettleCompletionWaiter(o'.(completed := o'.completed[e := observation]), e, Observed(observation))
  }

  function NewPromise(o: Observer, kind: Kind, e: Endpoint, settlements: seq<Settlement>): Observer {
    o.(promises := o.promises + [Promise(kind, e, settlements)])
  }

  function WaitForStart(o: Observer, e: Endpoint): Observer {
    if e in o.started then NewPromise(o, StartWait, e, [Began])
    else NewPromise(o, StartWait, e, []).(startWaiters := o.startWaiters[e := |o.promises|])
  }

  /** The timer of a start wait; it only acts on a waiter that is still the registered one. */
  function StartTimeout(o: Observer, e: Endpoint, id: PromiseId): Observer {
    if e in o.startWaiters && o.startWaiters[e] == id
    then Settle(o.(startWaiters := o.startWaiters - {e}), id, RejectedWait)
    else o
  }

  function WaitForCompletion(o: Observer, e: Endpoint): Observer {
    if e in o.completed then NewPromise(o, CompletionWait, e, [Observed(o.completed[e])])
    else if e in o.failures then NewPromise(o, CompletionWait, e, [RejectedWait])
    else NewPromise(o, CompletionWait, e, []).(completionWaiters := o.completionWaiters[e := |o.promises|])
  }

  /** The observer object: the same handlers on its variables. */
  class ArtistDetailTimingObserver {
    var completed: map<Endpoint, Request>
    var started: set<Endpoint>
    var completionWaiters: map<Endpoint, PromiseId>
    var startWaiters: map<Endpoint, PromiseId>
    var failures: set<Endpoint>
    var captureStart: Option<Duration>
    var promises: seq<Promise>

    function State(): Observer
      reads this
    {
      Observer(completed, started, completionWaiters, startWaiters, failures, captureStart, promises)
    }

    constructor ()
      ensures State() == Observer(map[], {}, map[], map[], {}, None, [])
    {
      completed, started, completionWaiters, startWaiters := map[], {}, map[], map[];
      failures, captureStart, promises := {}, None, [];
    }

    method SettlePromise(id: PromiseId, s: Settlement)
      modifies `promises
      ensures State() == Settle(old(State()), id, s)
    {
      if id < |promises| {
        promises := promises[id := promises[id].(settlements := promises[id].settlements + [s])];
      }
    }

    method OnRequest(e: Endpoint)
      modifies this
      ensures State() == HandleRequest(old(State()), e)
    {
      if e in started {
        return;
      }
      started := started + {e};
      if e in startWaiters {
        var waiter := startWaiters[e];
        startWaiters := startWaiters - {e};
        SettlePromise(waiter, Began);
      }
    }

    method SettleCompletion(e: Endpoint, s: Settlement)
      modifies `completionWaiters, `promises
      ensures State() == SettleCompletionWaiter(old(State()), e, s)
    {
      if e in completionWaiters {
        var waiter := completionWaiters[e];
        completionWaiters := completionWaiters - {e};
        SettlePromise(waiter, s);
      }
    }

    method OnRequestFailed(e: Endpoint)
      modifies this
      ensures State() == Fail(old(State()), e)
    {
      failures := failures + {e};
      SettleCompletion(e, RejectedWait);
    }

    /** The part of recordFinishedRequest in front of the await: is there anything to wait for? */
    method OnRequestFinished(e: Endpoint) returns (awaits: bool)
      ensures awaits <==> e !in State().completed
    {
      awaits := e !in completed;
    }

    method OnResponse(e: Endpoint, reply: Reply)
      modifies this
      ensures State() == FinishRecording(old(State()), e, reply)
    {
      if reply.Missing? {
        OnRequestFailed(e);
        return;
      }
      if captureStart.None? {
        captureStart := reply.response.startTime;
      }
      var observation := Observation(e, reply.response, captureStart);
      if observation.Rejected? {
        OnRequestFailed(e);
      } else {
        completed := completed[e := observation.value];
        SettleCompletion(e, Observed(observation.value));
      }
    }

    method AwaitStart(e: Endpoint) returns (id: PromiseId)
      modifies this
      ensures State() == WaitForStart(old(State()), e) && id == |old(promises)|
    {
      id := |promises|;
      if e in started {
        promises := promises + [Promise(StartWait, e, [Began])];
      } else {
        promises := promises + [Promise(StartWait, e, [])];
        startWaiters := startWaiters[e := id];
      }
    }

    method OnStartTimeout(e: Endpoint, id: PromiseId)
      modifies this
      ensures State() == StartTimeout(old(State()), e, id)
    {
      if e in startWaiters && startWaiters[e] == id {
        startWaiters := startWaiters - {e};
        SettlePromise(id, RejectedWait);
      }
    }

    method AwaitCompletion(e: Endpoint) returns (id: PromiseId)
      modifies this
      ensures State() == WaitForCompletion(old(State()), e) && id == |old(promises)|
    {
      id := |promises|;
      if e in completed {
        promises := promises + [Promise(CompletionWait, e, [Observed(completed[e])])];
      } else if e in failures {
        promises := promises + [Promise(CompletionWait, e, [RejectedWait])];
      } else {
        promises := promises + [Promise(CompletionWait, e, [])];
        completionWaiters := completionWaiters[e := id];
      }
    }
  }

  // ----- Any order of events -----

  /** `recording` names the finished requests whose response is being awaited. */
  datatype System = System(observer: Observer, recording: map<int, Endpoint>)

  datatype Event =
    | Requested(endpoint: Endpoint)
    | Finished(recordingId: int, endpoint: Endpoint)
    | Responded(recordingId: int, reply: Reply)
    | RequestFailed(endpoint: Endpoint)
    | StartAwaited(endpoint: Endpoint)
    | TimerFired(endpoint: Endpoint, promise: PromiseId)
    | CompletionAwaited(endpoint: Endpoint)

  function Step(s: System, event: Event): System {
    var o := s.observer;
    match event
    case Requested(e) => s.(observer := HandleRequest(o, e))
    case Finished(id, e) => if e in o.completed || id in s.recording then s else s.(recording := s.recording[id := e])
    case Responded(id, reply) =>
      if id !in s.recording then s else System(FinishRecording(o, s.recording[id], reply), s.recording - {id})
    case RequestFailed(e) => s.(observer := Fail(o, e))
    case StartAwaited(e) => s.(observer := WaitForStart(o, e))
    case TimerFired(e, id) => s.(observer := StartTimeout(o, e, id))
    case CompletionAwaited(e) => s.(observer := WaitForCompletion(o, e))
  }

  const NEW_OBSERVER := Observer(map[], {}, map[], map[], {}, None, [])

  function Run(events: seq<Event>): System {
    if events == [] then System(NEW_OBSERVER, map[]) else Step(Run(events[..|events| - 1]), events[|events| - 1])
  }

  // ----- The invariant -----

  /** The promise is the one its endpoint's next event will settle. */
  predicate Registered(o: Observer, id: PromiseId)
    requires id < |o.promises|
  {
    var p := o.promises[id];
    match p.kind
    case StartWait => p.endpoint in o.startWaiters && o.startWaiters[p.endpoint] == id
    case CompletionWait => p.endpoint in o.completionWaiters && o.completionWaiters[p.endpoint] == id
  }

  /** Registered waiters are unsettled promises of their kind and endpoint. */
  predicate WaitersSound(o: Observer) {
    && (forall e | e in o.startWaiters ::
         o.startWaiters[e] < |o.promises| && o.promises[o.startWaiters[e]] == Promise(StartWait, e, []))
    && (forall e | e in o.completionWaiters ::
          o.completionWaiters[e] < |o.promises| && o.promises[o.completionWaiters[e]] == Promise(CompletionWait, e, []))
  }

  /** Nobody is registered for what has already happened. */
  predicate WaitersTimely(o: Observer) {
    && (forall e | e in o.startWaiters :: e !in o.started)
    && (forall e | e in o.completionWaiters :: e !in o.completed && e !in o.failures)
  }

  /** A promise is settled at most once, and truthfully. */
  predicate PromiseGood(o: Observer, p: Promise) {
    && |p.settlements| <= 1
    && forall s | s in p.settlements ::
         match s
         case Began => p.kind == StartWait && p.endpoint in o.started
         case Observed(_) => p.kind == CompletionWait && p.endpoint in o.completed
         case RejectedWait => p.kind == CompletionWait ==> p.endpoint in o.failures
  }

  predicate Inv(o: Observer) {
    WaitersSound(o) && WaitersTimely(o) && forall p | p in o.promises :: PromiseGood(o, p)
  }

  // Whatever has happened stays so, and the same promises have been made.
  predicate Progressed(o: Observer, o': Observer) {
    && o.started <= o'.started && o.failures <= o'.failures && (forall e | e in o.completed :: e in o'.completed)
    && o.promises == o'.promises
  }

  lemma StillGood(o: Observer, o': Observer)
    requires (forall p | p in o.promises :: PromiseGood(o, p)) && Progressed(o, o')
    ensures forall p | p in o'.promises :: PromiseGood(o', p)
  {
  }

  predicate NotRegistered(o: Observer, id: PromiseId) {
    && (forall e | e in o.startWaiters :: o.startWaiters[e] != id)
    && (forall e | e in o.completionWaiters :: o.completionWaiters[e] != id)
  }

  // Settling a promise that has just been taken off the register.
  lemma SettleKeeps(o: Observer, id: PromiseId, s: Settlement)
    requires Inv(o) && NotRegistered(o, id)
    requires id < |o.promises| && o.promises[id].settlements == []
    requires PromiseGood(o, o.promises[id].(settlements := [s]))
    ensures Inv(Settle(o, id, s))
  {
    var o' := Settle(o, id, s);
    assert [] + [s] == [s];
    forall p | p in o'.promises
      ensures PromiseGood(o', p)
    {
      var i :| 0 <= i < |o'.promises| && o'.promises[i] == p;
      if i != id {
        assert o.promises[i] in o.promises && PromiseGood(o, o.promises[i]);
      }
    }
  }

  lemma PromiseKeeps(o: Observer, kind: Kind, e: Endpoint, settlements: seq<Settlement>)
    requires Inv(o) && PromiseGood(o, Promise(kind, e, settlements))
    ensures Inv(NewPromise(o, kind, e, settlements))
  {
  }

  lemma HandleRequestKeeps(o: Observer, e: Endpoint)
    requires Inv(o)
    ensures Inv(HandleRequest(o, e))
  {
    hide PromiseGood;
    if e !in o.started {
      var o1 := o.(started := o.started + {e}, startWaiters := o.startWaiters - {e});
      StillGood(o, o1);
      assert Inv(o1);
      if e in o.startWaiters {
        BeganIsGood(o1, o.promises[o.startWaiters[e]]);
        SettleKeeps(o1, o.startWaiters[e], Began);
      } else {
        assert o.startWaiters - {e} == o.startWaiters;
      }
    }
  }

  lemma BeganIsGood(o: Observer, p: Promise)
    requires p.kind == StartWait && p.endpoint in o.started
    ensures PromiseGood(o, p.(settlements := [Began]))
  {
  }

  lemma TimeoutKeeps(o: Observer, e: Endpoint, id: PromiseId)
    requires Inv(o)
    ensures Inv(StartTimeout(o, e, id))
  {
    hide PromiseGood;
    if e in o.startWaiters && o.startWaiters[e] == id {
      var o1 := o.(startWaiters := o.startWaiters - {e});
      StillGood(o, o1);
      TimedOutIsGood(o1, o.promises[id]);
      SettleKeeps(o1, id, RejectedWait);
    }
  }

  lemma TimedOutIsGood(o: Observer, p: Promise)
    requires p.kind == StartWait
    ensures PromiseGood(o, p.(settlements := [RejectedWait]))
  {
  }

  // A completion or a failure is recorded, and its waiter is told.
  lemma CompletionKeeps(o: Observer, o1: Observer, e: Endpoint, s: Settlement)
    requires Inv(o) && Progressed(o, o1) && o1.startWaiters == o.startWaiters
      && o1.completionWaiters == o.completionWaiters
    requires o1.started == o.started
      && (forall x | x != e :: (x in o1.completed <==> x in o.completed) && (x in o1.failures <==> x in o.failures))
    requires (s.Observed? && e in o1.completed) || (s.RejectedWait? && e in o1.failures)
    ensures Inv(SettleCompletionWaiter(o1, e, s))
  {
    var o2 := o1.(completionWaiters := o1.completionWaiters - {e});
    OffRegister(o, o1, e);
    if e in o.completionWaiters {
      ToldIsGood(o2, o.promises[o.completionWaiters[e]], s);
      hide PromiseGood, WaitersTimely;
      SettleKeeps(o2, o.completionWaiters[e], s);
    } else {
      assert o1.completionWaiters - {e} == o1.completionWaiters;
    }
  }

  // With its waiter off the register, the endpoint may be recorded as completed or failed.
  lemma OffRegister(o: Observer, o1: Observer, e: Endpoint)
    requires Inv(o) && Progressed(o, o1) && o1.startWaiters == o.startWaiters
      && o1.completionWaiters == o.completionWaiters
    requires o1.started == o.started
      && (forall x | x != e :: (x in o1.completed <==> x in o.completed) && (x in o1.failures <==> x in o.failures))
    ensures Inv(o1.(completionWaiters := o1.completionWaiters - {e}))
  {
    hide PromiseGood;
    StillGood(o, o1.(completionWaiters := o1.completionWaiters - {e}));
  }

  lemma ToldIsGood(o: Observer, p: Promise, s: Settlement)
    requires p.kind == CompletionWait
    requires (s.Observed? && p.endpoint in o.completed) || (s.RejectedWait? && p.endpoint in o.failures)
    ensures PromiseGood(o, p.(settlements := [s]))
  {
  }

  lemma FinishKeeps(o: Observer, e: Endpoint, reply: Reply)
    requires Inv(o)
    ensures Inv(FinishRecording(o, e, reply))
  {
    hide PromiseGood, Inv, Observation;
    if reply.Missing? {
      CompletionKeeps(o, o.(failures := o.failures + {e}), e, RejectedWait);
    } else {
      var capture := Origin(o.captureStart, reply.response);
      var o1 := o.(captureStart := capture);
      var observation := Observation(e, reply.response, capture);
      if observation.Rejected? {
        CompletionKeeps(o, o1.(failures := o.failures + {e}), e, RejectedWait);
      } else {
        CompletionKeeps(o, o1.(completed := o.completed[e := observation.value]), e, Observed(observation.value));
      }
    }
  }

  lemma StartWaitKeeps(o: Observer, e: Endpoint)
    requires Inv(o)
    ensures Inv(WaitForStart(o, e))
  {
    hide PromiseGood;
    BeganOrPending(o, e);
    if e in o.started {
      PromiseKeeps(o, StartWait, e, [Began]);
    } else {
      PromiseKeeps(o, StartWait, e, []);
      StillGood(NewPromise(o, StartWait, e, []), WaitForStart(o, e));
    }
  }

  lemma BeganOrPending(o: Observer, e: Endpoint)
    ensures e in o.started ==> PromiseGood(o, Promise(StartWait, e, [Began]))
    ensures PromiseGood(o, Promise(StartWait, e, [])) && PromiseGood(o, Promise(CompletionWait, e, []))
    ensures e in o.completed ==> PromiseGood(o, Promise(CompletionWait, e, [Observed(o.completed[e])]))
    ensures e in o.failures ==> PromiseGood(o, Promise(CompletionWait, e, [RejectedWait]))
  {
  }

  lemma CompletionWaitKeeps(o: Observer, e: Endpoint)
    requires Inv(o)
    ensures Inv(WaitForCompletion(o, e))
  {
    hide PromiseGood;
    BeganOrPending(o, e);
    if e in o.completed {
      PromiseKeeps(o, CompletionWait, e, [Observed(o.completed[e])]);
    } else if e in o.failures {
      PromiseKeeps(o, CompletionWait, e, [RejectedWait]);
    } else {
      PromiseKeeps(o, CompletionWait, e, []);
      StillGood(NewPromise(o, CompletionWait, e, []), WaitForCompletion(o, e));
    }
  }

  lemma StepKeeps(s: System, event: Event)
    requires Inv(s.observer)
    ensures Inv(Step(s, event).observer)
  {
    hide Inv, HandleRequest, FinishRecording, Fail, WaitForStart, WaitForCompletion, StartTimeout;
    var o := s.observer;
    match event
    case Requested(e) => HandleRequestKeeps(o, e);
    case Finished(id, e) =>
    case Responded(id, reply) =>
      if id in s.recording {
        FinishKeeps(o, s.recording[id], reply);
      }
    case RequestFailed(e) => FailKeeps(o, e);
    case StartAwaited(e) => StartWaitKeeps(o, e);
    case TimerFired(e, id) => TimeoutKeeps(o, e, id);
    case CompletionAwaited(e) => CompletionWaitKeeps(o, e);
  }

  lemma FailKeeps(o: Observer, e: Endpoint)
    requires Inv(o)
    ensures Inv(Fail(o, e))
  {
    CompletionKeeps(o, o.(failures := o.failures + {e}), e, RejectedWait);
  }

  /**
   Whatever the order of events: a registered start waiter's endpoint has not started, a registered completion
   waiter's has neither completed nor failed, and every promise is settled at most once, with what really happened.
   */
  lemma {:induction false} ObserverInv(events: seq<Event>)
    ensures Inv(Run(events).observer)
  {
    hide Step;
    if events != [] {
      ObserverInv(events[..|events| - 1]);
      StepKeeps(Run(events[..|events| - 1]), events[|events| - 1]);
    }
  }

  // ----- Wakeups -----

  /** The event that a registered waiter waits for, or that ends its wait. */
  predicate Concerns(s: System, event: Event, id: PromiseId)
    requires id < |s.observer.promises|
  {
    var p := s.observer.promises[id];
    match event
    case Requested(e) => p.kind == StartWait && p.endpoint == e
    case TimerFired(e, waiter) => p.kind == StartWait && p.endpoint == e && waiter == id
    case RequestFailed(e) => p.kind == CompletionWait && p.endpoint == e
    case Responded(r, _) => p.kind == CompletionWait && r in s.recording && s.recording[r] == p.endpoint
    case _ => false
  }

  /**
   A registered waiter is told at once, and told the truth: begun, timed out, failed, or completed with the recorded
   observation.
   */
  lemma RegisteredIsTold(s: System, event: Event, id: PromiseId)
    requires Inv(s.observer) && id < |s.observer.promises| && Registered(s.observer, id) && Concerns(s, event, id)
    ensures var o' := Step(s, event).observer;
      && id < |o'.promises| && !Registered(o', id)
      && var p := o'.promises[id];
      && |p.settlements| == 1
      && match event
         case Requested(_) => p.settlements == [Began]
         case Responded(_, Received(_)) =>
           if p.settlements[0].Observed?
           then p.endpoint in o'.completed && o'.completed[p.endpoint] == p.settlements[0].observation
           else p.settlements == [RejectedWait] && p.endpoint !in o'.completed
         case _ => p.settlements == [RejectedWait]
  {
    hide PromiseGood, Observation;
    assert [] + [Began] == [Began] && [] + [RejectedWait] == [RejectedWait];
  }

  // ----- Lost wakeups -----

  predicate Unsettled(o: Observer, id: PromiseId) {
    id < |o.promises| && o.promises[id].settlements == []
  }

  /** A waiting caller that nothing will ever settle. */
  predicate Orphan(o: Observer, id: PromiseId) {
    Unsettled(o, id) && !Registered(o, id)
  }

  /** A wait that takes the place of a waiter still registered for the same endpoint. */
  predicate Replaces(o: Observer, event: Event) {
    (event.StartAwaited? && event.endpoint in o.startWaiters)
      || (event.CompletionAwaited? && event.endpoint in o.completionWaiters)
  }

  /** Somebody begins to wait although an earlier wait of the same kind, for the same endpoint, is still pending. */
  ghost predicate Overlaps(o: Observer, event: Event) {
    && (event.StartAwaited? || event.CompletionAwaited?)
    && exists id: nat | Unsettled(o, id) ::
         o.promises[id].endpoint == event.endpoint && (o.promises[id].kind == StartWait <==> event.StartAwaited?)
  }

  ghost predicate NoOverlap(events: seq<Event>) {
    forall i | 0 <= i < |events| :: !Overlaps(Run(events[..i]).observer, events[i])
  }

  // While there are no orphans, pending waits are the registered ones.
  lemma OverlapReplaces(o: Observer, event: Event)
    requires Inv(o) && forall id :: !Orphan(o, id)
    ensures Overlaps(o, event) <==> Replaces(o, event)
  {
    hide PromiseGood;
    if Replaces(o, event) {
      var id := if event.StartAwaited? then o.startWaiters[event.endpoint] else o.completionWaiters[event.endpoint];
      assert Unsettled(o, id);
    }
    if Overlaps(o, event) {
      var id: nat :| Unsettled(o, id) && o.promises[id].endpoint == event.endpoint
        && (o.promises[id].kind == StartWait <==> event.StartAwaited?);
      assert !Orphan(o, id);
    }
  }

  /**
   What becomes of an earlier promise: only a registered one changes, and it leaves the register settled or
   replaced.
   */
  predicate Follows(o: Observer, o': Observer, id: PromiseId, replaced: bool)
    requires id < |o.promises|
  {
    && id < |o'.promises| && o'.promises[id].kind == o.promises[id].kind
       && o'.promises[id].endpoint == o.promises[id].endpoint
    && (!Registered(o, id) ==> o'.promises[id] == o.promises[id] && !Registered(o', id))
    && (Registered(o, id) && Unsettled(o', id) && !Registered(o', id) ==> replaced)
  }

  lemma RequestOnPromise(o: Observer, e: Endpoint, id: PromiseId)
    requires WaitersSound(o) && id < |o.promises|
    ensures Follows(o, HandleRequest(o, e), id, false)
  {
    if e !in o.started && e in o.startWaiters {
      TakenOff(o, o.(started := o.started + {e}, startWaiters := o.startWaiters - {e}), o.startWaiters[e], Began, id);
    }
  }

  // Settling the waiter that was taken off the register touches no other promise.
  lemma TakenOff(o: Observer, o1: Observer, waiter: PromiseId, s: Settlement, id: PromiseId)
    requires WaitersSound(o) && id < |o.promises| && waiter < |o.promises| && Registered(o, waiter)
      && o1.promises == o.promises
    requires var e := o.promises[waiter].endpoint;
      if o.promises[waiter].kind == StartWait
      then o1.startWaiters == o.startWaiters - {e} && o1.completionWaiters == o.completionWaiters
      else o1.startWaiters == o.startWaiters && o1.completionWaiters == o.completionWaiters - {e}
    ensures Follows(o, Settle(o1, waiter, s), id, false)
  {
    hide WaitersSound;
    var o' := Settle(o1, waiter, s);
    if id == waiter {
      assert o'.promises[id].settlements != [];
    } else {
      assert o'.promises[id] == o.promises[id];
    }
  }

  lemma TimeoutOnPromise(o: Observer, e: Endpoint, waiter: PromiseId, id: PromiseId)
    requires WaitersSound(o) && id < |o.promises|
    ensures Follows(o, StartTimeout(o, e, waiter), id, false)
  {
    if e in o.startWaiters && o.startWaiters[e] == waiter {
      TakenOff(o, o.(startWaiters := o.startWaiters - {e}), waiter, RejectedWait, id);
    }
  }

  lemma CompletionOnPromise(o: Observer, o1: Observer, e: Endpoint, s: Settlement, id: PromiseId)
    requires WaitersSound(o) && id < |o.promises|
    requires o1.promises == o.promises && o1.startWaiters == o.startWaiters
      && o1.completionWaiters == o.completionWaiters
    ensures Follows(o, SettleCompletionWaiter(o1, e, s), id, false)
  {
    if e in o.completionWaiters {
      TakenOff(o, o1.(completionWaiters := o1.completionWaiters - {e}), o.completionWaiters[e], s, id);
    }
  }

  // A new promise leaves the earlier ones alone, and on the register it can only take the place of one of its endpoint.
  lemma NewOnPromise(o: Observer, kind: Kind, e: Endpoint, settlements: seq<Settlement>, id: PromiseId)
    requires id < |o.promises|
    ensures var o' := NewPromise(o, kind, e, settlements);
      && Follows(o, o', id, false)
      && Follows(o, o'.(startWaiters := o.startWaiters[e := |o.promises|]), id, e in o.startWaiters)
      && Follows(o, o'.(completionWaiters := o.completionWaiters[e := |o.promises|]), id, e in o.completionWaiters)
  {
    assert NewPromise(o, kind, e, settlements).promises[id] == o.promises[id];
  }

  lemma StartWaitOnPromise(o: Observer, e: Endpoint, id: PromiseId)
    requires id < |o.promises|
    ensures Follows(o, WaitForStart(o, e), id, e in o.startWaiters)
  {
    NewOnPromise(o, StartWait, e, if e in o.started then [Began] else [], id);
    hide Registered, Unsettled, NewPromise;
  }

  lemma CompletionWaitOnPromise(o: Observer, e: Endpoint, id: PromiseId)
    requires id < |o.promises|
    ensures Follows(o, WaitForCompletion(o, e), id, e in o.completionWaiters)
  {
    var settlements :=
      if e in o.completed then [Observed(o.completed[e])] else if e in o.failures then [RejectedWait] else [];
    NewOnPromise(o, CompletionWait, e, settlements, id);
    hide Registered, Unsettled, NewPromise;
  }

  // What one event does to a promise made before it.
  lemma StepOnPromise(s: System, event: Event, id: PromiseId)
    requires Inv(s.observer) && id < |s.observer.promises|
    ensures Follows(s.observer, Step(s, event).observer, id, Replaces(s.observer, event))
  {
    hide Observation, WaitersSound, WaitersTimely, PromiseGood, Registered;
    hide Unsettled, SettleCompletionWaiter, WaitForStart, WaitForCompletion, HandleRequest, StartTimeout;
    var o := s.observer;
    match event
    case Requested(e) => RequestOnPromise(o, e, id);
    case Finished(_, _) =>
    case Responded(r, reply) =>
      if r in s.recording {
        FinishOnPromise(o, s.recording[r], reply, id);
      }
    case RequestFailed(e) => CompletionOnPromise(o, o.(failures := o.failures + {e}), e, RejectedWait, id);
    case StartAwaited(e) => StartWaitOnPromise(o, e, id);
    case TimerFired(e, waiter) => TimeoutOnPromise(o, e, waiter, id);
    case CompletionAwaited(e) => CompletionWaitOnPromise(o, e, id);
  }

  lemma FinishOnPromise(o: Observer, e: Endpoint, reply: Reply, id: PromiseId)
    requires WaitersSound(o) && id < |o.promises|
    ensures Follows(o, FinishRecording(o, e, reply), id, false)
  {
    hide Observation, WaitersSound, Follows, SettleCompletionWaiter;
    if reply.Missing? {
      CompletionOnPromise(o, o.(failures := o.failures + {e}), e, RejectedWait, id);
    } else {
      var capture := Origin(o.captureStart, reply.response);
      var o1 := o.(captureStart := capture);
      var observation := Observation(e, reply.response, capture);
      if observation.Rejected? {
        CompletionOnPromise(o, o1.(failures := o.failures + {e}), e, RejectedWait, id);
      } else {
        var o2 := o1.(completed := o.completed[e := observation.value]);
        CompletionOnPromise(o, o2, e, Observed(observation.value), id);
      }
    }
  }

  // A new promise is settled at once or registered.
  lemma StepMakesPromise(s: System, event: Event)
    ensures var o, o' := s.observer, Step(s, event).observer;
      && |o.promises| <= |o'.promises| <= |o.promises| + 1
      && (|o'.promises| > |o.promises| && Unsettled(o', |o.promises|) ==> Registered(o', |o.promises|))
  {
    hide Observation;
    if event.StartAwaited? {
      assert Unsettled(WaitForStart(s.observer, event.endpoint), |s.observer.promises|) ==>
        event.endpoint !in s.observer.started;
    } else if event.CompletionAwaited? {
      assert |WaitForCompletion(s.observer, event.endpoint).promises| == |s.observer.promises| + 1;
    } else {
      assert |Step(s, event).observer.promises| == |s.observer.promises|;
    }
  }

  // A waiter that is replaced is off the register, and unsettled.
  lemma ReplacementOrphans(s: System, event: Event) returns (id: PromiseId)
    requires Inv(s.observer) && Replaces(s.observer, event)
    ensures Orphan(Step(s, event).observer, id)
  {
    hide PromiseGood;
    var o, e := s.observer, event.endpoint;
    if event.StartAwaited? {
      id := o.startWaiters[e];
      assert WaitForStart(o, e).promises[id] == Promise(StartWait, e, []);
    } else {
      id := o.completionWaiters[e];
      assert WaitForCompletion(o, e).promises[id] == Promise(CompletionWait, e, []);
    }
  }

  /** An orphan stays one: no later event settles it. */
  lemma {:induction false} OrphansNeverSettle(events: seq<Event>, more: seq<Event>, id: PromiseId)
    requires Orphan(Run(events).observer, id)
    ensures Orphan(Run(events + more).observer, id)
  {
    hide Step;
    if more == [] {
      assert events + more == events;
    } else {
      var init := more[..|more| - 1];
      OrphansNeverSettle(events, init, id);
      ObserverInv(events + init);
      assert (events + more)[..|events + more| - 1] == events + init;
      StepOnPromise(Run(events + init), more[|more| - 1], id);
    }
  }

  /** No caller waits in vain if and only if nobody began to wait while an earlier such wait was pending. */
  lemma {:induction false} NoWakeupLostExact(events: seq<Event>)
    ensures (forall id :: !Orphan(Run(events).observer, id)) <==> NoOverlap(events)
  {
    hide Step, Orphan, Registered, Inv, Replaces, NoOverlap, Overlaps;
    if events == [] {
      NoOrphansAtFirst();
    } else {
      var n := |events| - 1;
      var init, last := events[..n], events[n];
      NoWakeupLostExact(init);
      ObserverInv(init);
      LastStep(events);
      if NoOverlap(init) {
        OverlapReplaces(Run(init).observer, last);
        if Overlaps(Run(init).observer, last) {
          var id := ReplacementOrphans(Run(init), last);
          assert Orphan(Run(events).observer, id);
        } else {
          NoNewOrphans(Run(init), last);
        }
      } else {
        var id :| Orphan(Run(init).observer, id);
        OrphansNeverSettle(init, [last], id);
        assert init + [last] == events;
      }
    }
  }

  lemma NoOrphansAtFirst()
    ensures NoOverlap([]) && forall id :: !Orphan(NEW_OBSERVER, id)
  {
  }

  lemma LastStep(events: seq<Event>)
    requires events != []
    ensures var n := |events| - 1;
      NoOverlap(events) <==> NoOverlap(events[..n]) && !Overlaps(Run(events[..n]).observer, events[n])
  {
    hide Run, Overlaps;
    var n := |events| - 1;
    assert forall i | 0 <= i < n :: events[..n][..i] == events[..i] && events[..n][i] == events[i];
  }

  lemma NoNewOrphans(s: System, event: Event)
    requires Inv(s.observer) && (forall id :: !Orphan(s.observer, id)) && !Replaces(s.observer, event)
    ensures forall id :: !Orphan(Step(s, event).observer, id)
  {
    hide Inv, Orphan, Replaces, Step;
    forall id
      ensures !Orphan(Step(s, event).observer, id)
    {
      NoNewOrphan(s, event, id);
    }
  }

  lemma NoNewOrphan(s: System, event: Event, id: PromiseId)
    requires Inv(s.observer) && !Orphan(s.observer, id) && !Replaces(s.observer, event)
    ensures !Orphan(Step(s, event).observer, id)
  {
    hide Step, Inv, Registered, Replaces;
    StepMakesPromise(s, event);
    if id < |s.observer.promises| {
      StepOnPromise(s, event, id);
    }
  }

  /** As long as waits do not overlap, whoever is still waiting waits for something that has not happened. */
  lemma PendingWaitsAreTimely(events: seq<Event>, id: PromiseId)
    requires NoOverlap(events) && Unsettled(Run(events).observer, id)
    ensures var o := Run(events).observer;
      match o.promises[id].kind
      case StartWait => o.promises[id].endpoint !in o.started
      case CompletionWait => o.promises[id].endpoint !in o.completed && o.promises[id].endpoint !in o.failures
  {
    hide Run;
    NoWakeupLostExact(events);
    ObserverInv(events);
    assert !Orphan(Run(events).observer, id);
  }

  /** Two waits for the same start: the first caller is never told, though the request begins. */
  lemma OverlappingWaitsLose(e: Endpoint)
    ensures var o := Run([StartAwaited(e), StartAwaited(e), Requested(e)]).observer;
      e in o.started && Orphan(o, 0) && |o.promises| == 2 && o.promises[1].settlements == [Began]
  {
    var events := [StartAwaited(e), StartAwaited(e), Requested(e)];
    assert events[..2] == [StartAwaited(e), StartAwaited(e)] && events[..2][..1] == [StartAwaited(e)]
      && events[..2][..1][..0] == [];
    assert events[..2][1] == StartAwaited(e);
    var o1 := WaitForStart(NEW_OBSERVER, e);
    assert Run([StartAwaited(e)]).observer == o1;
    var o2 := WaitForStart(o1, e);
    assert Run(events[..2]).observer == o2;
    assert Run(events).observer == HandleRequest(o2, e);
  }

  // ----- The origin of the capture -----

  // An origin that is set never moves, and is set by a response that is received and carries a start time.
  lemma OriginSetOnce(s: System, event: Event)
    ensures var o, o' := s.observer, Step(s, event).observer;
      o'.captureStart ==
        if o.captureStart.Some? || !event.Responded? || event.recordingId !in s.recording || event.reply.Missing?
        then o.captureStart else event.reply.response.startTime
  {
    hide Observation;
  }

  /** This event brings the response of a recorded request, with the time at which that request started. */
  ghost predicate BringsStart(events: seq<Event>, i: int) {
    && 0 <= i < |events| && events[i].Responded? && events[i].recordingId in Run(events[..i]).recording
    && events[i].reply.Received? && events[i].reply.response.startTime.Some?
  }

  /**
   Over any run of events, the origin is the start time that the first such response brings, and unset without one.
   */
  lemma {:induction false} OriginIsFirst(events: seq<Event>)
    ensures var origin := Run(events).observer.captureStart;
      && (origin.None? <==> forall i :: !BringsStart(events, i))
      && forall i | BringsStart(events, i) && (forall j | 0 <= j < i :: !BringsStart(events, j)) ::
           origin == events[i].reply.response.startTime
  {
    hide Step;
    if events != [] {
      var n := |events| - 1;
      OriginIsFirst(events[..n]);
      OriginSetOnce(Run(events[..n]), events[n]);
      forall i | 0 <= i < n
        ensures BringsStart(events, i) <==> BringsStart(events[..n], i)
      {
        assert events[..n][..i] == events[..i];
      }
      var before, origin := Run(events[..n]).observer.captureStart, Run(events).observer.captureStart;
      assert BringsStart(events, n) && before.None? ==> origin == events[n].reply.response.startTime;
      assert !BringsStart(events, n) || before.Some? ==> origin == before;
      hide BringsStart, Run;
      assert forall i :: BringsStart(events, i) ==> 0 <= i <= n by {
        StartsInRange(events);
      }
      StartsInRange(events[..n]);
    }
  }

  lemma StartsInRange(events: seq<Event>)
    ensures forall i :: BringsStart(events, i) ==> 0 <= i < |events|
  {
  }

  /** Status and times of the response are usable, and the request began no earlier than the origin. */
  predicate Usable(captureStart: Option<Duration>, r: Response) {
    var begin, origin := TimeOf(r.startTime), if captureStart.Some? then captureStart.value else TimeOf(r.startTime);
    && 200 <= r.status <= 599 && origin.Finite? && begin.Finite? && r.responseEnd.Finite?
    && origin.ms <= begin.ms && 0.0 <= r.responseEnd.ms
    && begin.ms - origin.ms + r.responseEnd.ms <= 3_600_000.0
  }

  /** A response counts exactly when it is usable. */
  lemma RecordedExact(o: Observer, e: Endpoint, r: Response)
    requires e !in o.completed
    ensures e in FinishRecording(o, e, Received(r)).completed <==> Usable(o.captureStart, r)
  {
    hide Observation;
    ObservationExact(e, r, Origin(o.captureStart, r));
  }

  lemma ObservationExact(e: Endpoint, r: Response, captureStart: Option<Duration>)
    ensures var begin, origin := TimeOf(r.startTime), TimeOf(captureStart);
      Observation(e, r, captureStart).Ok? <==>
        && 200 <= r.status <= 599 && origin.Finite? && begin.Finite? && r.responseEnd.Finite?
        && origin.ms <= begin.ms && 0.0 <= r.responseEnd.ms
        && begin.ms - origin.ms + r.responseEnd.ms <= 3_600_000.0
  {
  }

  lemma NextRun(events: seq<Event>, e: Event)
    ensures Run(events + [e]) == Step(Run(events), e)
  {
    assert (events + [e])[..|events|] == events;
  }

  lemma StillRecording(s: System, x: Event, id: int)
    requires id in s.recording && !(x.Responded? && x.recordingId == id)
    ensures id in Step(s, x).recording && Step(s, x).recording[id] == s.recording[id]
  {
    hide HandleRequest, FinishRecording, Fail, WaitForStart, StartTimeout, WaitForCompletion;
  }

  // A recording waits for its own response, whatever else happens.
  lemma {:induction false} RecordingWaits(events: seq<Event>, id: int, more: seq<Event>)
    requires id in Run(events).recording && forall x | x in more :: !(x.Responded? && x.recordingId == id)
    ensures id in Run(events + more).recording && Run(events + more).recording[id] == Run(events).recording[id]
  {
    hide Run, Step;
    if more == [] {
      assert events + more == events;
    } else {
      var init, last := more[..|more| - 1], more[|more| - 1];
      assert more == init + [last] && last in more;
      RecordingWaits(events, id, init);
      NextRun(events + init, last);
      StillRecording(Run(events + init), last, id);
      assert events + more == events + init + [last];
    }
  }

  /**
   Over any run: a finished request of an endpoint that is not completed is recorded when its response comes, whatever
   happens in between. It is completed if the response is usable and has failed otherwise, and nobody waits for it.
   */
  lemma FinishedIsRecorded(events: seq<Event>, id: int, e: Endpoint, more: seq<Event>, reply: Reply)
    requires e !in Run(events).observer.completed && id !in Run(events).recording
    requires forall x | x in more :: !(x.Responded? && x.recordingId == id)
    ensures var before := Run(events + [Finished(id, e)] + more).observer;
      var after := Run(events + [Finished(id, e)] + more + [Responded(id, reply)]).observer;
      && e !in after.completionWaiters
      && if reply.Received? && Usable(before.captureStart, reply.response) then e in after.completed
         else e in after.failures
  {
    NextRun(events, Finished(id, e));
    RecordingWaits(events + [Finished(id, e)], id, more);
    NextRun(events + [Finished(id, e)] + more, Responded(id, reply));
    var before := Run(events + [Finished(id, e)] + more).observer;
    hide Run, FinishRecording, Usable;
    RecordingEnds(before, e, reply);
  }

  lemma RecordingEnds(o: Observer, e: Endpoint, reply: Reply)
    ensures var after := FinishRecording(o, e, reply);
      && e !in after.completionWaiters
      && if reply.Received? && Usable(o.captureStart, reply.response) then e in after.completed else e in after.failures
  {
    hide Observation;
    if reply.Received? {
      ObservationExact(e, reply.response, Origin(o.captureStart, reply.response));
    }
  }

  /** A request of an endpoint that is completed is not recorded again. */
  lemma CompletedStays(events: seq<Event>, id: int, e: Endpoint)
    requires e in Run(events).observer.completed
    ensures Run(events + [Finished(id, e)]) == Run(events)
  {
    NextRun(events, Finished(id, e));
  }

  /** The whole number nearest to a time, the upper one of two. */
  predicate Nearest(n: int, x: real) {
    n as real - 0.5 <= x < n as real + 0.5
  }

  /**
   What an observation says: the endpoint, the hundreds of the status, and in whole milliseconds how long the request
   took, when it began and when its response ended, the latter two since the origin.
   */
  lemma ObservationShown(e: Endpoint, r: Response, captureStart: Option<Duration>)
    requires Observation(e, r, captureStart).Ok?
    ensures var q := Observation(e, r, captureStart).value;
      var since := r.startTime.value.ms - captureStart.value.ms;
      && q.endpoint == e && r.startTime.Some? && captureStart.Some?
      && (q.statusFamily == Family2 <==> 200 <= r.status <= 299)
      && (q.statusFamily == Family3 <==> 300 <= r.status <= 399)
      && (q.statusFamily == Family4 <==> 400 <= r.status <= 499)
      && (q.statusFamily == Family5 <==> 500 <= r.status <= 599)
      && Nearest(q.timing.clientRequestDurationMs, r.responseEnd.ms)
      && Nearest(q.timing.startTimeMs, since) && Nearest(q.timing.responseEndMs, since + r.responseEnd.ms)
  {
  }
}
