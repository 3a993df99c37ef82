// The shared state of a promise and its future, as steps of any number of threads: __state_base
// of std::future with its mutex, its condition variable and its reference count.
//
// A step is what one thread does between two points where another thread can come between.
// Each write to the outcome, each read of it outside the mutex, the unlock, the notification
// and the release of a reference is a step of its own.

module FutureProtocol {
  import opened Wrappers

  type Thread = nat
  type Exception = nat

  // ----- Shared state.

  // error_ == broken_promise, and exception_.  A value leaves both as they were.
  datatype Channel = Channel(error: bool, exception: Option<Exception>)

  const CLEAN := Channel(false, None)

  // What a promise is asked to do: set_value, set_exception, or abandon when it goes away.
  datatype Request = SetValue | SetException(exception: Option<Exception>) | Abandon

  datatype Outcome = Value | Threw(exception: Exception) | Broken

  // Closing: one thread has taken the handle over to end it.  Coming: get_future has claimed
  // the one future and is about to retain the state for it.
  datatype Handle = NotYet | Coming(owner: Thread) | Open | Closing(owner: Thread) | Gone

  datatype Shared = Shared(
    ready: bool,
    channel: Channel,
    retrieved: bool,            // future_retrieved
    holder: Option<Thread>,     // who holds mutex_
    refs: int,                  // references
    freed: nat,                 // how often the state was deleted
    satisfiedBy: Option<Request>,
    satisfied: nat              // how often `ready` was set
  )

  datatype Pc =
    | Idle
    | SetLock(request: Request)
    | SetLocked(request: Request)
    | SetChecked(request: Request)
    | SetWritten(request: Request)
    | SetReadied(request: Request)
    | SetNotify(request: Request)
    | PromiseRelease
    | RetrieveLock
    | RetrieveLocked
    | Retain
    | WaitLock(getting: bool)
    | WaitLocked(getting: bool)
    | WaitBlocked(getting: bool)
    | WaitWoken(getting: bool)
    | GetReadError
    | GetReadException
    | GetRelease(outcome: Outcome)
    | FutureRelease

  datatype World = World(shared: Shared, promise: Handle, future: Handle, threads: map<Thread, Pc>)
  {
    function Goto(t: Thread, pc: Pc): World {
      this.(threads := threads[t := pc])
    }

    function Lock(t: Thread): World {
      this.(shared := shared.(holder := Some(t)))
    }

    function Unlock(): World {
      this.(shared := shared.(holder := None))
    }

    // release_reference, and delete for the last one
    function Release(): World {
      this.(shared := shared.(refs := shared.refs - 1, freed := shared.freed + (if shared.refs == 1 then 1 else 0)))
    }
  }

  datatype Step =
    | StartSet(request: Request)
    | StartDestroyPromise
    | StartGetFuture
    | StartWait
    | StartGet
    | StartDestroyFuture
    | TakeLock
    | Proceed
    | SpuriousWake

  // ----- The parts of the operations.

  function Written(request: Request, channel: Channel): Channel {
    match request
    case SetValue => channel
    case SetException(e) => channel.(exception := e)
    case Abandon => channel.(error := true)
  }

  // What get() makes of the outcome it reads.
  function OutcomeOf(channel: Channel): Outcome {
    if channel.error then Broken
    else if channel.exception.Some? then Threw(channel.exception.value)
    else Value
  }

  // What a request means to whoever calls get().
  function Meaning(request: Request): Outcome {
    match request
    case SetValue => Value
    case SetException(e) => if e.Some? then Threw(e.value) else Value
    case Abandon => Broken
  }

  predicate UsesPromise(pc: Pc) {
    pc.SetLock? || pc.SetLocked? || pc.SetChecked? || pc.SetWritten? || pc.SetReadied? || pc.SetNotify?
    || pc.PromiseRelease? || pc.RetrieveLock? || pc.RetrieveLocked? || pc.Retain?
  }

  predicate UsesFuture(pc: Pc) {
    pc.WaitLock? || pc.WaitLocked? || pc.WaitBlocked? || pc.WaitWoken?
    || pc.GetReadError? || pc.GetReadException? || pc.GetRelease? || pc.FutureRelease?
  }

  predicate HoldsMutex(pc: Pc) {
    pc.SetLocked? || pc.SetChecked? || pc.SetWritten? || pc.SetReadied? || pc.RetrieveLocked? || pc.WaitLocked?
  }

  // Made the state ready, and has not yet notified.
  predicate Announces(pc: Pc) {
    pc.SetReadied? || pc.SetNotify?
  }

  function WakeOne(pc: Pc): Pc {
    if pc.WaitBlocked? then WaitWoken(pc.getting) else pc
  }

  function Broadcast(threads: map<Thread, Pc>): map<Thread, Pc> {
    map t | t in threads :: WakeOne(threads[t])
  }

  // ----- The steps.

  // The users of the handles keep to this: a handle is ended, or consumed by get(), by one
  // thread and while no other thread is using it.
  predicate Enabled(w: World, t: Thread, step: Step) {
    t in w.threads &&
    var pc := w.threads[t];
    match step
    case StartSet(request) => pc.Idle? && w.promise.Open? && !request.Abandon?
    case StartDestroyPromise => pc.Idle? && w.promise.Open? && PromiseUnused(w)
    case StartGetFuture => pc.Idle? && w.promise.Open?
    case StartWait => pc.Idle? && w.future.Open?
    case StartGet => pc.Idle? && w.future.Open? && FutureUnused(w)
    case StartDestroyFuture => pc.Idle? && w.future.Open? && FutureUnused(w)
    case TakeLock => w.shared.holder.None? && (pc.SetLock? || pc.RetrieveLock? || pc.WaitLock? || pc.WaitWoken?)
    case Proceed =>
      HoldsMutex(pc) || pc.SetNotify? || pc.PromiseRelease? || pc.Retain?
      || pc.GetReadError? || pc.GetReadException? || pc.GetRelease? || pc.FutureRelease?
    case SpuriousWake => pc.WaitBlocked?
  }

  predicate PromiseUnused(w: World) {
    forall u :: u in w.threads ==> !UsesPromise(w.threads[u])
  }

  predicate FutureUnused(w: World) {
    forall u :: u in w.threads ==> !UsesFuture(w.threads[u])
  }

  function Do(w: World, t: Thread, step: Step): World
    requires Enabled(w, t, step)
  {
    match step
    case StartSet(request) => w.Goto(t, SetLock(request))
    case StartDestroyPromise => w.(promise := Closing(t)).Goto(t, SetLock(Abandon))
    case StartGetFuture => w.Goto(t, RetrieveLock)
    case StartWait => w.Goto(t, WaitLock(false))
    case StartGet => w.(future := Closing(t)).Goto(t, WaitLock(true))
    case StartDestroyFuture => w.(future := Closing(t)).Goto(t, FutureRelease)
    case TakeLock =>
      (match w.threads[t]
       case SetLock(request) => w.Lock(t).Goto(t, SetLocked(request))
       case RetrieveLock => w.Lock(t).Goto(t, RetrieveLocked)
       case WaitLock(getting) => w.Lock(t).Goto(t, WaitLocked(getting))
       case WaitWoken(getting) => w.Lock(t).Goto(t, WaitLocked(getting)))
    case SpuriousWake => w.Goto(t, WaitWoken(w.threads[t].getting))
    case Proceed => Go(w, t)
  }

  function Go(w: World, t: Thread): World
    requires Enabled(w, t, Proceed)
  {
    var shared := w.shared;
    match w.threads[t]
    // set_value, set_exception and abandon
    case SetLocked(request) =>
      if shared.ready then w.Unlock().Goto(t, AfterSet(request)) else w.Goto(t, SetChecked(request))
    case SetChecked(request) =>
      w.(shared := shared.(channel := Written(request, shared.channel))).Goto(t, SetWritten(request))
    case SetWritten(request) =>
      w.(shared := shared.(ready := true, satisfied := shared.satisfied + 1, satisfiedBy := Some(request)))
       .Goto(t, SetReadied(request))
    case SetReadied(request) => w.Unlock().Goto(t, SetNotify(request))
    case SetNotify(request) => w.(threads := Broadcast(w.threads)).Goto(t, AfterSet(request))
    case PromiseRelease => w.(promise := Gone).Release().Goto(t, Idle)
    // get_future
    case RetrieveLocked =>
      if shared.retrieved then w.Unlock().Goto(t, Idle)
      else w.(shared := shared.(retrieved := true, holder := None), future := Coming(t)).Goto(t, Retain)
    case Retain => w.(shared := shared.(refs := shared.refs + 1), future := Open).Goto(t, Idle)
    // wait, and the rest of get
    case WaitLocked(getting) =>
      w.Unlock().Goto(t, if !shared.ready then WaitBlocked(getting) else if getting then GetReadError else Idle)
    case GetReadError => w.Goto(t, if shared.channel.error then GetRelease(Broken) else GetReadException)
    case GetReadException =>
      w.Goto(t, GetRelease(if shared.channel.exception.Some? then Threw(shared.channel.exception.value) else Value))
    case GetRelease(_) => w.(future := Gone).Release().Goto(t, Idle)
    case FutureRelease => w.(future := Gone).Release().Goto(t, Idle)
  }

  // A destructor goes on to release the state; a set that came too late has thrown.
  function AfterSet(request: Request): Pc {
    if request.Abandon? then PromiseRelease else Idle
  }

  // ----- The invariant.

  predicate IsInitial(w: World) {
    && w.shared == Shared(false, CLEAN, false, None, 1, 0, None, 0)
    && w.promise == Open && w.future == NotYet
    && forall t :: t in w.threads ==> w.threads[t] == Idle
  }

  predicate MayUsePromise(w: World, t: Thread, request: Request) {
    if request.Abandon? then w.promise == Closing(t) else w.promise == Open
  }

  predicate MayUseFuture(w: World, t: Thread, getting: bool) {
    if getting then w.future == Closing(t) else w.future == Open
  }

  predicate ThreadOk(w: World, t: Thread)
    requires t in w.threads
  {
    var pc := w.threads[t];
    && (HoldsMutex(pc) <==> w.shared.holder == Some(t))
    && match pc
       case Idle => true
       case SetLock(request) => MayUsePromise(w, t, request)
       case SetLocked(request) => MayUsePromise(w, t, request)
       case SetChecked(request) => MayUsePromise(w, t, request) && !w.shared.ready && w.shared.channel == CLEAN
       case SetWritten(request) =>
         MayUsePromise(w, t, request) && !w.shared.ready && w.shared.channel == Written(request, CLEAN)
       case SetReadied(request) => MayUsePromise(w, t, request) && w.shared.ready
       case SetNotify(request) => MayUsePromise(w, t, request) && w.shared.ready
       case PromiseRelease => w.promise == Closing(t) && w.shared.ready
       case RetrieveLock => w.promise == Open
       case RetrieveLocked => w.promise == Open
       case Retain => w.promise == Open && w.future == Coming(t)
       case WaitLock(getting) => MayUseFuture(w, t, getting)
       case WaitLocked(getting) => MayUseFuture(w, t, getting)
       case WaitBlocked(getting) => MayUseFuture(w, t, getting)
       case WaitWoken(getting) => MayUseFuture(w, t, getting)
       case GetReadError => w.future == Closing(t) && w.shared.ready
       case GetReadException => w.future == Closing(t) && w.shared.ready && !w.shared.channel.error
       case GetRelease(outcome) => w.future == Closing(t) && w.shared.ready && outcome == OutcomeOf(w.shared.channel)
       case FutureRelease => w.future == Closing(t)
  }

  function Held(handle: Handle): nat {
    if handle.Open? || handle.Closing? then 1 else 0
  }

  predicate HandlesOk(w: World) {
    && (w.promise.Open? || w.promise.Closing? || w.promise.Gone?)
    && (w.promise.Closing? ==> w.promise.owner in w.threads && UsesPromise(w.threads[w.promise.owner]))
    && (w.promise.Gone? ==> w.shared.ready && !w.future.Coming?)
    && (w.future.Coming? ==> w.future.owner in w.threads && w.threads[w.future.owner].Retain?)
    && (w.future.Closing? ==> w.future.owner in w.threads && UsesFuture(w.threads[w.future.owner]))
    && w.shared.retrieved == !w.future.NotYet?
    && w.shared.refs == Held(w.promise) + Held(w.future)
    && w.shared.freed == (if w.shared.refs == 0 then 1 else 0)
  }

  predicate OutcomeOk(w: World) {
    var shared := w.shared;
    && shared.satisfied == (if shared.ready then 1 else 0)
    && (shared.holder.Some? ==> shared.holder.value in w.threads)
    && (if shared.ready then
          shared.satisfiedBy.Some? && shared.channel == Written(shared.satisfiedBy.value, CLEAN)
        else
          shared.satisfiedBy.None? && (shared.channel == CLEAN || Writing(w)))
  }

  predicate SharedOk(w: World) {
    HandlesOk(w) && OutcomeOk(w)
  }

  predicate Writing(w: World) {
    w.shared.holder.Some? && w.shared.holder.value in w.threads && w.threads[w.shared.holder.value].SetWritten?
  }

  predicate SomeoneAnnounces(w: World) {
    exists u :: u in w.threads && Announces(w.threads[u])
  }

  predicate Blocked(w: World, t: Thread) {
    t in w.threads && w.threads[t].WaitBlocked?
  }

  // Nobody is left blocked on a ready state without somebody on the way to wake them.
  predicate WakeOk(w: World) {
    w.shared.ready && !SomeoneAnnounces(w) ==> forall t :: t in w.threads ==> !Blocked(w, t)
  }

  predicate ThreadsOk(w: World) {
    forall t :: t in w.threads ==> ThreadOk(w, t)
  }

  predicate Inv(w: World) {
    SharedOk(w) && ThreadsOk(w) && WakeOk(w)
  }

  // ----- Every step keeps it.

  lemma InitialInv(w: World)
    requires IsInitial(w)
    ensures Inv(w)
  {
  }

  lemma StartKeepsShared(w: World, t: Thread, step: Step)
    requires Inv(w) && Enabled(w, t, step) && !step.Proceed?
    ensures SharedOk(Do(w, t, step))
  {
    assert ThreadOk(w, t);
  }

  lemma GoKeepsHandlesOfPromise(w: World, t: Thread)
    requires Inv(w) && Enabled(w, t, Proceed) && UsesPromise(w.threads[t])
    ensures HandlesOk(Go(w, t))
  {
    assert ThreadOk(w, t);
  }

  lemma GoKeepsHandlesOfFuture(w: World, t: Thread)
    requires Inv(w) && Enabled(w, t, Proceed) && UsesFuture(w.threads[t])
    ensures HandlesOk(Go(w, t))
  {
    assert ThreadOk(w, t);
  }

  lemma GoKeepsHandles(w: World, t: Thread)
    requires Inv(w) && Enabled(w, t, Proceed)
    ensures HandlesOk(Go(w, t))
  {
    hide Inv, Go, HandlesOk, OutcomeOk, ThreadOk;
    if UsesPromise(w.threads[t]) {
      GoKeepsHandlesOfPromise(w, t);
    } else {
      GoKeepsHandlesOfFuture(w, t);
    }
  }

  lemma GoKeepsOutcome(w: World, t: Thread)
    requires Inv(w) && Enabled(w, t, Proceed)
    ensures OutcomeOk(Go(w, t))
  {
    assert ThreadOk(w, t);
  }

  lemma StartKeepsThread(w: World, t: Thread, step: Step, u: Thread)
    requires Inv(w) && Enabled(w, t, step) && !step.Proceed? && u in w.threads
    ensures ThreadOk(Do(w, t, step), u)
  {
    if t == u {
      StartKeepsOwn(w, t, step);
    } else if step.TakeLock? || step.SpuriousWake? {
      WaitKeepsOther(w, t, step, u);
    } else {
      StartKeepsOther(w, t, step, u);
    }
  }

  lemma StartKeepsOwn(w: World, t: Thread, step: Step)
    requires Inv(w) && Enabled(w, t, step) && !step.Proceed?
    ensures ThreadOk(Do(w, t, step), t)
  {
    assert ThreadOk(w, t);
  }

  lemma WaitKeepsOther(w: World, t: Thread, step: Step, u: Thread)
    requires Inv(w) && Enabled(w, t, step) && (step.TakeLock? || step.SpuriousWake?) && u in w.threads && u != t
    ensures ThreadOk(Do(w, t, step), u)
  {
    assert ThreadOk(w, t) && ThreadOk(w, u);
  }

  lemma StartKeepsOther(w: World, t: Thread, step: Step, u: Thread)
    requires Inv(w) && Enabled(w, t, step) && !step.TakeLock? && !step.SpuriousWake? && !step.Proceed?
    requires u in w.threads && u != t
    ensures ThreadOk(Do(w, t, step), u)
  {
    assert ThreadOk(w, t) && ThreadOk(w, u);
  }

  lemma GoKeepsOwnOfPromise(w: World, t: Thread)
    requires Inv(w) && Enabled(w, t, Proceed) && UsesPromise(w.threads[t])
    ensures t in Go(w, t).threads && ThreadOk(Go(w, t), t)
  {
    assert ThreadOk(w, t);
  }

  lemma GoKeepsOwnOfFuture(w: World, t: Thread)
    requires Inv(w) && Enabled(w, t, Proceed) && UsesFuture(w.threads[t])
    ensures t in Go(w, t).threads && ThreadOk(Go(w, t), t)
  {
    assert ThreadOk(w, t);
  }

  lemma GoKeepsOwn(w: World, t: Thread)
    requires Inv(w) && Enabled(w, t, Proceed)
    ensures t in Go(w, t).threads && ThreadOk(Go(w, t), t)
  {
    hide Inv, Go, HandlesOk, OutcomeOk, ThreadOk;
    if UsesPromise(w.threads[t]) {
      GoKeepsOwnOfPromise(w, t);
    } else {
      GoKeepsOwnOfFuture(w, t);
    }
  }

  lemma GoKeepsOtherOfPromise(w: World, t: Thread, u: Thread)
    requires Inv(w) && Enabled(w, t, Proceed) && u in w.threads && u != t && UsesPromise(w.threads[t])
    ensures u in Go(w, t).threads && ThreadOk(Go(w, t), u)
  {
    assert ThreadOk(w, t) && ThreadOk(w, u);
  }

  lemma GoKeepsOtherOfFuture(w: World, t: Thread, u: Thread)
    requires Inv(w) && Enabled(w, t, Proceed) && u in w.threads && u != t && UsesFuture(w.threads[t])
    ensures u in Go(w, t).threads && ThreadOk(Go(w, t), u)
  {
    assert ThreadOk(w, t) && ThreadOk(w, u);
  }

  lemma GoKeepsOther(w: World, t: Thread, u: Thread)
    requires Inv(w) && Enabled(w, t, Proceed) && u in w.threads && u != t
    ensures u in Go(w, t).threads && ThreadOk(Go(w, t), u)
  {
    hide Inv, Go, HandlesOk, OutcomeOk, ThreadOk;
    if UsesPromise(w.threads[t]) {
      GoKeepsOtherOfPromise(w, t, u);
    } else {
      GoKeepsOtherOfFuture(w, t, u);
    }
  }

  // An announcing thread stays one until it has woken everybody.
  lemma StepKeepsAnnouncer(w: World, t: Thread, step: Step, u: Thread)
    requires Enabled(w, t, step) && u in w.threads && Announces(w.threads[u])
    requires !(u == t && w.threads[t].SetNotify?)
    ensures u in Do(w, t, step).threads && Announces(Do(w, t, step).threads[u])
  {
  }

  lemma StepKeepsWake(w: World, t: Thread, step: Step)
    requires Inv(w) && Enabled(w, t, step)
    ensures WakeOk(Do(w, t, step))
  {
    var w' := Do(w, t, step);
    assert ThreadOk(w, t);
    if step.Proceed? && w.threads[t].SetNotify? {
      assert forall u :: u in w'.threads ==> !Blocked(w', u);
    } else if w.shared.ready && SomeoneAnnounces(w) {
      var u :| u in w.threads && Announces(w.threads[u]);
      StepKeepsAnnouncer(w, t, step, u);
    } else if !w.shared.ready && w'.shared.ready {
      assert Announces(w'.threads[t]);
    } else {
      assert forall u :: u in w'.threads && Blocked(w', u) && w'.shared.ready ==> Blocked(w, u);
    }
  }

  lemma StepKeepsInv(w: World, t: Thread, step: Step)
    requires Inv(w) && Enabled(w, t, step)
    ensures Inv(Do(w, t, step))
  {
    StepKeepsWake(w, t, step);
    if step.Proceed? {
      GoKeepsHandles(w, t);
      GoKeepsOutcome(w, t);
    } else {
      StartKeepsShared(w, t, step);
    }
    StepKeepsThreads(w, t, step);
  }

  lemma StepKeepsThreads(w: World, t: Thread, step: Step)
    requires Inv(w) && Enabled(w, t, step)
    ensures ThreadsOk(Do(w, t, step))
  {
    ThreadsStay(w, t, step);
    forall u | u in Do(w, t, step).threads
      ensures ThreadOk(Do(w, t, step), u)
    {
      if !step.Proceed? {
        StartKeepsThread(w, t, step, u);
      } else if u == t {
        GoKeepsOwn(w, t);
      } else {
        GoKeepsOther(w, t, u);
      }
    }
  }

  lemma ThreadsStay(w: World, t: Thread, step: Step)
    requires Enabled(w, t, step)
    ensures Do(w, t, step).threads.Keys == w.threads.Keys
  {
  }
}
