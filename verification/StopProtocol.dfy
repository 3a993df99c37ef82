// The stop-callback protocol: stop_state::request_stop, the registration and destruction of
// stop_callback, and the per-thread frame stack, as steps of any number of threads on any
// number of stop states.
//
// A step is what one thread does between two points where another thread can come between:
// taking a mutex, a stretch of code under the mutex that ends by giving it up or not, and the
// start and end of user code.  Fields that only a mutex holder touches change under the mutex.

module StopProtocol {
  import opened Wrappers

  type Thread = nat
  type State = nat
  type Callback = nat
  type Address = nat

  // ----- Shared state.

  // Whether request_stop has flipped the flag, and which thread's call did.
  datatype Phase = Idle | Draining(winner: Thread) | Drained

  datatype StopState = StopState(
    requested: bool,                // stop_requested_
    callbacks: seq<Callback>,       // callbacks_, head first
    holder: Option<Thread>,         // who holds mutex_
    phase: Phase,
    successes: nat,                 // calls of request_stop that returned true
    atFlip: set<Callback>           // what was registered when the flag was flipped
  )

  // Inert: constructed after the stop, so state_ stayed null.  Dead: destroyed.
  datatype Status = Constructing(owner: Thread) | Live | Inert | Destroying(owner: Thread) | Dead

  // Two callbacks are never the same, but one can be built in the storage of a dead one.
  datatype CallbackState = CallbackState(
    state: State,
    address: Address,
    status: Status,
    registered: bool,               // registered_
    running: bool,                  // running_
    invoked: nat,                   // times the user's callable was started
    removed: bool                   // unlinked by its destructor
  )

  // ----- What a thread is doing.

  // Calls under which user code runs.  The Invoking ones are the callback_frame stack.
  datatype Host =
    | Invoking(state: State, callback: Callback, destroyed: bool)
    | Inline(callback: Callback)

  datatype Pc =
    | User
    | RequestLock(state: State)
    | RequestLocked(state: State)
    | Loop(state: State)
    | Relock(state: State, callback: Callback, destroyed: bool)
    | Finish(state: State, callback: Callback, destroyed: bool)
    | RegisterLock(callback: Callback)
    | RegisterLocked(callback: Callback)
    | DestroyLock(callback: Callback)
    | DestroyLocked(callback: Callback)
    | DestroyCheck(callback: Callback)
    | DestroyWait(callback: Callback)
    | DestroyWoken(callback: Callback)
    | DestroyUnlock(callback: Callback)

  datatype ThreadState = ThreadState(hosts: seq<Host>, pc: Pc)

  datatype World = World(
    states: map<State, StopState>,
    callbacks: map<Callback, CallbackState>,
    threads: map<Thread, ThreadState>
  )
  {
    // The state whose mutex a thread at this point holds.
    function Locked(pc: Pc): Option<State> {
      match pc
      case RequestLocked(s) => Some(s)
      case Loop(s) => Some(s)
      case Finish(s, _, _) => Some(s)
      case RegisterLocked(c) => StateOf(c)
      case DestroyLocked(c) => StateOf(c)
      case DestroyCheck(c) => StateOf(c)
      case DestroyUnlock(c) => StateOf(c)
      case _ => None
    }

    // The callbacks that are, or were, where c is: a pointer does not tell them apart.
    function Sharing(c: Callback): set<Callback>
      requires c in callbacks
    {
      set d | d in callbacks && callbacks[d].address == callbacks[c].address
    }

    // The storage holds no callback.
    predicate IsFree(a: Address) {
      forall c :: c in callbacks && callbacks[c].address == a ==> callbacks[c].status.Dead?
    }

    predicate IsDead(c: Callback) {
      c in callbacks && callbacks[c].status.Dead?
    }

    function StateOf(c: Callback): Option<State> {
      if c in callbacks then Some(callbacks[c].state) else None
    }

    // Updates used by the steps.
    function Goto(t: Thread, pc: Pc): World
      requires t in threads
    {
      this.(threads := threads[t := threads[t].(pc := pc)])
    }

    function Become(t: Thread, thread: ThreadState): World {
      this.(threads := threads[t := thread])
    }

    function SetState(s: State, state: StopState): World {
      this.(states := states[s := state])
    }

    function SetCallback(c: Callback, callback: CallbackState): World {
      this.(callbacks := callbacks[c := callback])
    }
  }

  datatype Step =
    | StartRequest(s: State)
    | StartRegister(s: State, c: Callback, a: Address)
    | StartDestroy(c: Callback)
    | Lock
    | Proceed
    | SpuriousWake

  // ----- Helpers.

  function Without(list: seq<Callback>, c: Callback): seq<Callback> {
    if list == [] then []
    else if list[0] == c then list[1..]
    else [list[0]] + Without(list[1..], c)
  }

  // mark_destroyed_if_current: the innermost frame of any of the callbacks, if this thread has one.
  predicate HasFrame(hosts: seq<Host>, ids: set<Callback>) {
    exists i :: 0 <= i < |hosts| && IsFrame(hosts[i], ids)
  }

  predicate IsFrame(host: Host, ids: set<Callback>) {
    host.Invoking? && host.callback in ids
  }

  function Mark(hosts: seq<Host>, ids: set<Callback>): (marked: seq<Host>)
    ensures |marked| == |hosts|
  {
    if hosts == [] then []
    else
      var last := |hosts| - 1;
      if IsFrame(hosts[last], ids) then hosts[last := hosts[last].(destroyed := true)]
      else Mark(hosts[..last], ids) + [hosts[last]]
  }

  // pthread_cond_broadcast on the callback's condition.
  function WakeOne(c: Callback, thread: ThreadState): ThreadState {
    if thread.pc == DestroyWait(c) then thread.(pc := DestroyWoken(c)) else thread
  }

  function Broadcast(c: Callback, threads: map<Thread, ThreadState>): map<Thread, ThreadState> {
    map t | t in threads :: WakeOne(c, threads[t])
  }

  // ----- The steps.

  predicate Enabled(w: World, t: Thread, step: Step) {
    t in w.threads &&
    var pc := w.threads[t].pc;
    match step
    case StartRequest(s) => pc.User? && s in w.states
    case StartRegister(s, c, a) => pc.User? && s in w.states && c !in w.callbacks && w.IsFree(a)
    // the owner of a callback destroys it once, after its construction
    case StartDestroy(c) =>
      pc.User? && c in w.callbacks && (w.callbacks[c].status.Live? || w.callbacks[c].status.Inert?)
    case Lock =>
      (match pc
       case RequestLock(s) => s in w.states && w.states[s].holder.None?
       case Relock(s, _, _) => s in w.states && w.states[s].holder.None?
       case RegisterLock(c) => MutexFree(w, c)
       case DestroyLock(c) => MutexFree(w, c)
       case DestroyWoken(c) => MutexFree(w, c)
       case _ => false)
    case Proceed =>
      (match pc
       case User => w.threads[t].hosts != []
       case RequestLocked(s) => s in w.states
       case Loop(s) => s in w.states && (w.states[s].callbacks != [] ==> w.states[s].callbacks[0] in w.callbacks)
       // what the source does with a callback that is gone is not defined
       case Finish(s, c, destroyed) => c in w.callbacks && (destroyed || !w.IsDead(c))
       case RegisterLocked(c) => c in w.callbacks && w.callbacks[c].state in w.states
       case DestroyLocked(c) => c in w.callbacks && w.callbacks[c].state in w.states
       case DestroyCheck(c) => c in w.callbacks && w.callbacks[c].state in w.states
       case DestroyUnlock(c) => c in w.callbacks && w.callbacks[c].state in w.states
       case _ => false)
    case SpuriousWake => pc.DestroyWait?
  }

  predicate MutexFree(w: World, c: Callback) {
    c in w.callbacks && w.callbacks[c].state in w.states && w.states[w.callbacks[c].state].holder.None?
  }

  function Do(w: World, t: Thread, step: Step): World
    requires Enabled(w, t, step)
  {
    var thread := w.threads[t];
    match step
    case StartRequest(s) => w.Goto(t, RequestLock(s))
    case StartRegister(s, c, a) =>
      w.SetCallback(c, CallbackState(s, a, Constructing(t), false, false, 0, false)).Goto(t, RegisterLock(c))
    case StartDestroy(c) =>
      var callback := w.callbacks[c];
      if callback.status.Inert? then w.SetCallback(c, callback.(status := Dead))
      else w.SetCallback(c, callback.(status := Destroying(t))).Goto(t, DestroyLock(c))
    case Lock => TakeLock(w, t)
    case SpuriousWake => w.Goto(t, DestroyWoken(thread.pc.callback))
    case Proceed =>
      match thread.pc
      case User => EndUserCode(w, t)
      case RequestLocked(s) => TestAndFlip(w, t, s)
      case Loop(s) => if w.states[s].callbacks == [] then LeaveLoop(w, t, s) else PopAndInvoke(w, t, s)
      case Finish(s, c, destroyed) => FinishCallback(w, t, s, c, destroyed)
      case RegisterLocked(c) => FinishRegister(w, t, c)
      case DestroyLocked(c) => UnlinkAndMark(w, t, c)
      case DestroyCheck(c) => CheckRunning(w, t, c)
      case DestroyUnlock(c) => LeaveDestructor(w, t, c)
  }

  function TakeLock(w: World, t: Thread): World
    requires Enabled(w, t, Lock)
  {
    match w.threads[t].pc
    case RequestLock(s) => w.SetState(s, w.states[s].(holder := Some(t))).Goto(t, RequestLocked(s))
    case Relock(s, c, d) => w.SetState(s, w.states[s].(holder := Some(t))).Goto(t, Finish(s, c, d))
    case RegisterLock(c) => LockOf(w, t, c).Goto(t, RegisterLocked(c))
    case DestroyLock(c) => LockOf(w, t, c).Goto(t, DestroyLocked(c))
    case DestroyWoken(c) => LockOf(w, t, c).Goto(t, DestroyCheck(c))
  }

  function LockOf(w: World, t: Thread, c: Callback): World
    requires MutexFree(w, c)
  {
    var s := w.callbacks[c].state;
    w.SetState(s, w.states[s].(holder := Some(t)))
  }

  // The user's callable returns, to `invoke` or to the constructor that called it inline.
  function EndUserCode(w: World, t: Thread): World
    requires t in w.threads && w.threads[t].hosts != []
  {
    var hosts := w.threads[t].hosts;
    var outer := hosts[..|hosts| - 1];
    match hosts[|hosts| - 1]
    case Invoking(s, c, destroyed) => w.Become(t, ThreadState(outer, Relock(s, c, destroyed)))
    case Inline(c) =>
      var ended := w.Become(t, ThreadState(outer, User));
      if c in w.callbacks then ended.SetCallback(c, w.callbacks[c].(status := Inert)) else ended
  }

  function TestAndFlip(w: World, t: Thread, s: State): World
    requires t in w.threads && s in w.states
  {
    var state := w.states[s];
    if state.requested then
      w.SetState(s, state.(holder := None)).Goto(t, User)
    else
      w.SetState(s, state.(requested := true, phase := Draining(t), atFlip := set c | c in state.callbacks))
       .Goto(t, Loop(s))
  }

  function PopAndInvoke(w: World, t: Thread, s: State): World
    requires t in w.threads && s in w.states && w.states[s].callbacks != []
    requires w.states[s].callbacks[0] in w.callbacks
  {
    var state := w.states[s];
    var c := state.callbacks[0];
    var callback := w.callbacks[c];
    w.SetState(s, state.(callbacks := state.callbacks[1..], holder := None))
     .SetCallback(c, callback.(registered := false, running := true, invoked := callback.invoked + 1))
     .Become(t, ThreadState(w.threads[t].hosts + [Invoking(s, c, false)], User))
  }

  function LeaveLoop(w: World, t: Thread, s: State): World
    requires t in w.threads && s in w.states
  {
    var state := w.states[s];
    w.SetState(s, state.(holder := None, phase := Drained, successes := state.successes + 1)).Goto(t, User)
  }

  function FinishCallback(w: World, t: Thread, s: State, c: Callback, destroyed: bool): World
    requires t in w.threads && c in w.callbacks
  {
    if destroyed then w.Goto(t, Loop(s))
    else
      w.SetCallback(c, w.callbacks[c].(running := false)).(threads := Broadcast(c, w.threads)).Goto(t, Loop(s))
  }

  function FinishRegister(w: World, t: Thread, c: Callback): World
    requires t in w.threads && c in w.callbacks && w.callbacks[c].state in w.states
  {
    var callback := w.callbacks[c];
    var state := w.states[callback.state];
    if state.requested then
      w.SetState(callback.state, state.(holder := None))
       .SetCallback(c, callback.(invoked := callback.invoked + 1))
       .Become(t, ThreadState(w.threads[t].hosts + [Inline(c)], User))
    else
      w.SetState(callback.state, state.(holder := None, callbacks := [c] + state.callbacks))
       .SetCallback(c, callback.(status := Live, registered := true))
       .Goto(t, User)
  }

  function UnlinkAndMark(w: World, t: Thread, c: Callback): World
    requires t in w.threads && c in w.callbacks && w.callbacks[c].state in w.states
  {
    MarkOrCheck(if w.callbacks[c].registered then Unlink(w, c) else w, t, c)
  }

  // The links of the list lead to callbacks that are not dead, so pointers tell those apart.
  function Unlink(w: World, c: Callback): World
    requires c in w.callbacks && w.callbacks[c].state in w.states
  {
    var callback := w.callbacks[c];
    var state := w.states[callback.state];
    w.SetState(callback.state, state.(callbacks := Without(state.callbacks, c)))
     .SetCallback(c, callback.(registered := false, removed := true))
  }

  function MarkOrCheck(w: World, t: Thread, c: Callback): World
    requires t in w.threads && c in w.callbacks
  {
    var hosts := w.threads[t].hosts;
    if HasFrame(hosts, w.Sharing(c)) then w.Become(t, ThreadState(Mark(hosts, w.Sharing(c)), DestroyUnlock(c)))
    else w.Goto(t, DestroyCheck(c))
  }

  function CheckRunning(w: World, t: Thread, c: Callback): World
    requires t in w.threads && c in w.callbacks && w.callbacks[c].state in w.states
  {
    var s := w.callbacks[c].state;
    if w.callbacks[c].running then w.SetState(s, w.states[s].(holder := None)).Goto(t, DestroyWait(c))
    else w.Goto(t, DestroyUnlock(c))
  }

  function LeaveDestructor(w: World, t: Thread, c: Callback): World
    requires t in w.threads && c in w.callbacks && w.callbacks[c].state in w.states
  {
    var callback := w.callbacks[c];
    w.SetState(callback.state, w.states[callback.state].(holder := None))
     .SetCallback(c, callback.(status := Dead))
     .Goto(t, User)
  }
}
