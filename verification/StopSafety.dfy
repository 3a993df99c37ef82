// What every interleaving of the stop-callback protocol keeps.

module StopSafety {
  import opened StopProtocol
  import opened Wrappers

  // ----- The invariant.

  // A thread is inside the invocation of `c`, or about to note its end.
  predicate Runs(thread: ThreadState, s: State, c: Callback, destroyed: bool) {
    || Invoking(s, c, destroyed) in thread.hosts
    || thread.pc == Relock(s, c, destroyed)
    || thread.pc == Finish(s, c, destroyed)
  }

  predicate HostsState(hosts: seq<Host>, s: State) {
    exists i :: 0 <= i < |hosts| && hosts[i].Invoking? && hosts[i].state == s
  }

  // A thread is inside a request_stop of `s` that flipped the flag.
  predicate Drains(thread: ThreadState, s: State) {
    || HostsState(thread.hosts, s)
    || thread.pc == Loop(s)
    || (thread.pc.Relock? && thread.pc.state == s)
    || (thread.pc.Finish? && thread.pc.state == s)
  }

  predicate Destroys(pc: Pc, c: Callback) {
    || pc == DestroyLock(c) || pc == DestroyLocked(c) || pc == DestroyCheck(c)
    || pc == DestroyWait(c) || pc == DestroyWoken(c) || pc == DestroyUnlock(c)
  }

  predicate Distinct(list: seq<Callback>) {
    forall i, j :: 0 <= i < j < |list| ==> list[i] != list[j]
  }

  predicate StateOk(w: World, s: State)
    requires s in w.states
  {
    ListOk(w, s) && HolderOk(w, s) && PhaseOk(w, s)
  }

  predicate ListOk(w: World, s: State)
    requires s in w.states
  {
    && Distinct(w.states[s].callbacks)
    && (forall c :: c in w.states[s].callbacks ==>
          c in w.callbacks && w.callbacks[c].registered && w.callbacks[c].state == s)
  }

  predicate HolderOk(w: World, s: State)
    requires s in w.states
  {
    var holder := w.states[s].holder;
    holder.Some? ==> holder.value in w.threads && w.Locked(w.threads[holder.value].pc) == Some(s)
  }

  predicate PhaseOk(w: World, s: State)
    requires s in w.states
  {
    var state := w.states[s];
    && state.requested == !state.phase.Idle?
    && state.successes == (if state.phase.Drained? then 1 else 0)
    && (state.phase.Drained? ==> state.callbacks == [])
    && (state.phase.Draining? ==>
          state.phase.winner in w.threads && Drains(w.threads[state.phase.winner], s))
    && (!state.phase.Idle? ==> forall c :: c in state.atFlip ==> Accounted(w, s, c))
  }

  // Still waiting its turn, invoked once, or unlinked before its turn came.
  predicate Accounted(w: World, s: State, c: Callback) {
    && c in w.callbacks && w.callbacks[c].state == s
    && (w.callbacks[c].registered || w.callbacks[c].invoked == 1 || w.callbacks[c].removed)
  }

  predicate CallbackOk(w: World, c: Callback)
    requires c in w.callbacks
  {
    var callback := w.callbacks[c];
    var s := callback.state;
    && s in w.states
    && callback.invoked <= 1
    && (callback.registered ==>
          && c in w.states[s].callbacks && callback.invoked == 0 && !callback.running && !callback.removed
          && (callback.status.Live? || callback.status.Destroying?))
    && (callback.status.Constructing? || callback.status.Inert? ==>
          !callback.registered && !callback.running && !callback.removed)
    && (callback.status.Dead? ==> !callback.registered)
    && (callback.status.Destroying? ==>
          callback.status.owner in w.threads && Destroys(w.threads[callback.status.owner].pc, c))
    && (callback.running && !callback.status.Dead? ==>
          && w.states[s].phase.Draining?
          && w.states[s].phase.winner in w.threads
          && (Runs(w.threads[w.states[s].phase.winner], s, c, false)
              || (callback.status == Destroying(w.states[s].phase.winner)
                  && Runs(w.threads[w.states[s].phase.winner], s, c, true))))
  }

  predicate RunOk(w: World, t: Thread, s: State, c: Callback, destroyed: bool)
    requires t in w.threads
  {
    && s in w.states && w.states[s].phase == Draining(t)
    && c in w.callbacks
    && var callback := w.callbacks[c];
    && callback.state == s && callback.invoked == 1 && !callback.registered && callback.running
    && if destroyed then
         callback.status.Dead? || (callback.status == Destroying(t) && w.threads[t].pc == DestroyUnlock(c))
       else
         callback.status.Live? || callback.status.Dead?
         || (callback.status.Destroying?
             && (callback.status.owner == t ==>
                   w.threads[t].pc == DestroyLock(c) || w.threads[t].pc == DestroyLocked(c)))
  }

  predicate HostOk(w: World, t: Thread, host: Host)
    requires t in w.threads
  {
    match host
    case Invoking(s, c, destroyed) => RunOk(w, t, s, c, destroyed)
    case Inline(c) =>
      c in w.callbacks && w.callbacks[c].status == Constructing(t) && w.callbacks[c].invoked == 1
  }

  predicate HostsDiffer(hosts: seq<Host>) {
    forall i, j :: 0 <= i < j < |hosts| ==>
      && (hosts[i].Invoking? && hosts[j].Invoking? ==> hosts[i].state != hosts[j].state)
      && (hosts[i].Inline? && hosts[j].Inline? ==> hosts[i].callback != hosts[j].callback)
  }

  predicate Holds(w: World, t: Thread, s: State) {
    s in w.states && w.states[s].holder == Some(t)
  }

  predicate BeingDestroyed(w: World, t: Thread, c: Callback) {
    c in w.callbacks && w.callbacks[c].status == Destroying(t) && w.callbacks[c].state in w.states
  }

  predicate PcOk(w: World, t: Thread)
    requires t in w.threads
  {
    var thread := w.threads[t];
    match thread.pc
    case User => true
    case RequestLock(s) => s in w.states
    case RequestLocked(s) => Holds(w, t, s)
    case Loop(s) => Holds(w, t, s) && w.states[s].phase == Draining(t) && !HostsState(thread.hosts, s)
    case Relock(s, c, d) => RunOk(w, t, s, c, d) && !HostsState(thread.hosts, s)
    case Finish(s, c, d) => RunOk(w, t, s, c, d) && !HostsState(thread.hosts, s) && Holds(w, t, s)
    case RegisterLock(c) => BeingConstructed(w, t, c)
    case RegisterLocked(c) => BeingConstructed(w, t, c) && Holds(w, t, w.callbacks[c].state)
    case DestroyLock(c) => BeingDestroyed(w, t, c)
    case DestroyLocked(c) => BeingDestroyed(w, t, c) && Holds(w, t, w.callbacks[c].state)
    case DestroyCheck(c) =>
      && BeingDestroyed(w, t, c) && Holds(w, t, w.callbacks[c].state)
      && !w.callbacks[c].registered && !HasFrame(thread.hosts, {c})
    case DestroyWait(c) =>
      && BeingDestroyed(w, t, c) && w.callbacks[c].running
      && !w.callbacks[c].registered && !HasFrame(thread.hosts, {c})
    case DestroyWoken(c) =>
      BeingDestroyed(w, t, c) && !w.callbacks[c].registered && !HasFrame(thread.hosts, {c})
    case DestroyUnlock(c) =>
      && BeingDestroyed(w, t, c) && Holds(w, t, w.callbacks[c].state)
      && !w.callbacks[c].registered
      && (w.callbacks[c].running ==>
            Invoking(w.callbacks[c].state, c, true) in thread.hosts || HasStaleFrame(w, thread.hosts, c))
  }

  // A frame of a callback that was where c is now.
  predicate IsStale(w: World, host: Host, c: Callback) {
    && host.Invoking? && host.callback != c && c in w.callbacks && w.IsDead(host.callback)
    && w.callbacks[host.callback].address == w.callbacks[c].address
  }

  predicate HasStaleFrame(w: World, hosts: seq<Host>, c: Callback) {
    exists i :: 0 <= i < |hosts| && IsStale(w, hosts[i], c) && hosts[i].destroyed
  }

  predicate BeingConstructed(w: World, t: Thread, c: Callback) {
    && c in w.callbacks && w.callbacks[c].state in w.states
    && w.callbacks[c].status == Constructing(t) && w.callbacks[c].invoked == 0
  }

  predicate ThreadOk(w: World, t: Thread)
    requires t in w.threads
  {
    && (forall i :: 0 <= i < |w.threads[t].hosts| ==> HostOk(w, t, w.threads[t].hosts[i]))
    && HostsDiffer(w.threads[t].hosts)
    && PcOk(w, t)
  }

  predicate Inv(w: World) {
    && (forall s :: s in w.states ==> StateOk(w, s))
    && (forall c :: c in w.callbacks ==> CallbackOk(w, c))
    && (forall t :: t in w.threads ==> ThreadOk(w, t))
  }

  // What a pointer still tells apart: no two callbacks that are not dead share their storage, and
  // above a frame of a callback that is not dead there is none of another one in its storage.
  predicate Apart(w: World) {
    AddressesDiffer(w) && forall t :: t in w.threads ==> FramesApart(w, w.threads[t].hosts)
  }

  predicate AddressesDiffer(w: World) {
    forall c, d :: c in w.callbacks && d in w.callbacks && c != d && !w.IsDead(c) && !w.IsDead(d) ==>
      w.callbacks[c].address != w.callbacks[d].address
  }

  predicate FramesApart(w: World, hosts: seq<Host>) {
    forall i, j :: 0 <= i < j < |hosts| ==> PairApart(w, hosts[i], hosts[j])
  }

  predicate PairApart(w: World, lower: Host, upper: Host) {
    lower.Invoking? && upper.Invoking? && lower.callback != upper.callback
    && lower.callback in w.callbacks && upper.callback in w.callbacks && !w.IsDead(lower.callback) ==>
      w.callbacks[lower.callback].address != w.callbacks[upper.callback].address
  }

  // ----- Frames: what a state, a callback or a thread needs of a step that is not about it.

  lemma StateFrame(w: World, w': World, s: State)
    requires s in w.states && StateOk(w, s)
    requires s in w'.states && w'.states[s] == w.states[s]
    requires forall c :: c in w.callbacks && w.callbacks[c].state == s ==> CallbackGrows(w, w', c)
    requires forall u :: u in w.threads ==> u in w'.threads && ThreadServes(w, w', u, s)
    ensures StateOk(w', s)
  {
    ListAndPhaseFrame(w, w', s);
  }

  // The same when the mutex changes hands.
  lemma ListAndPhaseFrame(w: World, w': World, s: State)
    requires s in w.states && ListOk(w, s) && PhaseOk(w, s)
    requires s in w'.states && w'.states[s] == w.states[s].(holder := w'.states[s].holder)
    requires forall c :: c in w.callbacks && w.callbacks[c].state == s ==> CallbackGrows(w, w', c)
    requires forall u :: u in w.threads ==> u in w'.threads && (Drains(w.threads[u], s) ==> Drains(w'.threads[u], s))
    ensures ListOk(w', s) && PhaseOk(w', s)
  {
  }

  // A callback stays registered, and stays accounted for.
  predicate CallbackGrows(w: World, w': World, c: Callback)
    requires c in w.callbacks
  {
    && c in w'.callbacks
    && var a, b := w.callbacks[c], w'.callbacks[c];
    && b.state == a.state
    && (a.registered ==> b.registered)
    && (a.registered || a.invoked == 1 || a.removed ==> b.registered || b.invoked == 1 || b.removed)
  }

  predicate ThreadServes(w: World, w': World, u: Thread, s: State)
    requires u in w.threads && u in w'.threads
  {
    && (w.Locked(w.threads[u].pc) == Some(s) ==> w'.Locked(w'.threads[u].pc) == Some(s))
    && (Drains(w.threads[u], s) ==> Drains(w'.threads[u], s))
  }

  lemma CallbackFrame(w: World, w': World, c: Callback)
    requires c in w.callbacks && CallbackOk(w, c)
    requires c in w'.callbacks && w'.callbacks[c] == w.callbacks[c]
    requires StateKeeps(w, w', c)
    requires forall u :: u in w.threads ==> u in w'.threads && ThreadTends(w, w', u, c)
    ensures CallbackOk(w', c)
  {
  }

  predicate StateKeeps(w: World, w': World, c: Callback)
    requires c in w.callbacks
  {
    var s := w.callbacks[c].state;
    && s in w.states && s in w'.states
    && (c in w.states[s].callbacks ==> c in w'.states[s].callbacks)
    && (w.callbacks[c].running && !w.callbacks[c].status.Dead? ==> w'.states[s].phase == w.states[s].phase)
  }

  predicate ThreadTends(w: World, w': World, u: Thread, c: Callback)
    requires u in w.threads && u in w'.threads && c in w.callbacks
  {
    var s := w.callbacks[c].state;
    && (Destroys(w.threads[u].pc, c) ==> Destroys(w'.threads[u].pc, c))
    && (!w.IsDead(c) && Runs(w.threads[u], s, c, false) ==> Runs(w'.threads[u], s, c, false))
    && (!w.IsDead(c) && Runs(w.threads[u], s, c, true) ==> Runs(w'.threads[u], s, c, true))
  }

  lemma ThreadFrame(w: World, w': World, u: Thread)
    requires u in w.threads && ThreadOk(w, u)
    requires u in w'.threads && w'.threads[u] == w.threads[u]
    requires forall s :: s in w.states ==> StateAllows(w, w', u, s)
    requires forall c :: c in w.callbacks ==> CallbackAllows(w, w', u, c)
    ensures ThreadOk(w', u)
  {
    forall i | 0 <= i < |w.threads[u].hosts|
      ensures HostOk(w', u, w'.threads[u].hosts[i])
    {
      assert HostOk(w, u, w.threads[u].hosts[i]);
    }
  }

  predicate StateAllows(w: World, w': World, u: Thread, s: State)
    requires s in w.states
  {
    && s in w'.states
    && (w.states[s].phase == Draining(u) ==> w'.states[s].phase == Draining(u))
    && (w.states[s].holder == Some(u) ==> w'.states[s].holder == Some(u))
  }

  predicate CallbackAllows(w: World, w': World, u: Thread, c: Callback)
    requires u in w.threads && c in w.callbacks
  {
    && c in w'.callbacks
    && var a, b := w.callbacks[c], w'.callbacks[c];
    && b.state == a.state && b.address == a.address
    && (a.status == Constructing(u) ==> b.status == a.status && b.invoked == a.invoked)
    && (a.status == Destroying(u) ==> b.status == a.status)
    && (a.status == Destroying(u) && !a.registered ==> !b.registered && (b.running ==> a.running))
    && (w.threads[u].pc == DestroyWait(c) && a.running ==> b.running)
    && (a.state in w.states && w.states[a.state].phase == Draining(u)
        && a.invoked == 1 && !a.registered && a.running ==>
          && b.invoked == 1 && !b.registered && b.running
          && (a.status.Live? ==> b.status.Live? || (b.status.Destroying? && b.status.owner != u))
          && (a.status.Destroying? && a.status.owner != u ==>
                b.status.Dead? || (b.status.Destroying? && b.status.owner != u)))
    && (a.status.Dead? ==> b.status.Dead?)
  }

  // What a step of `t` owes to the rest when it changes at most state `s` and callback `c`.

  ghost predicate OthersServed(w: World, w': World, t: Thread, s: State)
    requires t in w.threads && t in w'.threads
  {
    && (forall r :: r != s ==> ThreadServes(w, w', t, r))
    && (forall u :: u in w.threads && u != t && s in w.states ==> StateAllows(w, w', u, s))
  }

  ghost predicate OthersTended(w: World, w': World, t: Thread, s: State, c: Option<Callback>)
    requires t in w.threads && t in w'.threads
  {
    && (forall b :: b in w.callbacks && Some(b) != c ==> ThreadTends(w, w', t, b))
    && (forall b :: b in w.callbacks && Some(b) != c && w.callbacks[b].state == s ==> StateKeeps(w, w', b))
  }

  // The step changes only `t`, state `s`, and callbacks of that state.
  ghost predicate StepsIn(w: World, w': World, t: Thread, s: State) {
    && t in w.threads && s in w.states && t in w'.threads && s in w'.states
    && w'.threads == w.threads[t := w'.threads[t]]
    && w'.states == w.states[s := w'.states[s]]
    && (forall c :: c in w.callbacks ==> c in w'.callbacks && w'.callbacks[c].state == w.callbacks[c].state)
    && (forall c :: c in w.callbacks && w.callbacks[c].state != s ==> w'.callbacks[c] == w.callbacks[c])
  }

  lemma StatesKept(w: World, w': World, t: Thread, s: State)
    requires Inv(w) && StepsIn(w, w', t, s)
    requires StateOk(w', s) && OthersServed(w, w', t, s)
    ensures forall r :: r in w'.states ==> StateOk(w', r)
  {
    forall r | r in w.states && r != s
      ensures StateOk(w', r)
    {
      forall u | u in w.threads
        ensures ThreadServes(w, w', u, r)
      {
        if u != t {
          LockedIsStable(w, w', u);
        }
      }
      StateFrame(w, w', r);
    }
  }

  lemma LockedIsStable(w: World, w': World, u: Thread)
    requires u in w.threads
    requires forall c :: c in w.callbacks ==> c in w'.callbacks && w'.callbacks[c].state == w.callbacks[c].state
    ensures w.Locked(w.threads[u].pc).Some? ==> w'.Locked(w.threads[u].pc) == w.Locked(w.threads[u].pc)
  {
  }

  lemma CallbackKept(w: World, w': World, t: Thread, s: State, c: Callback)
    requires Inv(w) && StepsIn(w, w', t, s)
    requires c in w.callbacks && w'.callbacks[c] == w.callbacks[c]
    requires ThreadTends(w, w', t, c)
    requires w.callbacks[c].state == s ==> StateKeeps(w, w', c)
    ensures CallbackOk(w', c)
  {
    assert CallbackOk(w, c);
    assert StateKeeps(w, w', c);
    forall u | u in w.threads
      ensures ThreadTends(w, w', u, c)
    {
    }
    CallbackFrame(w, w', c);
  }

  lemma ThreadKept(w: World, w': World, t: Thread, s: State, u: Thread)
    requires Inv(w) && StepsIn(w, w', t, s)
    requires u in w.threads && u != t && StateAllows(w, w', u, s)
    requires forall c :: c in w.callbacks && w'.callbacks[c] != w.callbacks[c] ==> CallbackAllows(w, w', u, c)
    ensures ThreadOk(w', u)
  {
    assert ThreadOk(w, u);
    ThreadFrame(w, w', u);
  }

  // The step changes no callback.
  lemma StateStepKeeps(w: World, w': World, t: Thread, s: State)
    requires Inv(w) && t in w.threads && s in w.states && t in w'.threads && s in w'.states
    requires w' == World(w.states[s := w'.states[s]], w.callbacks, w.threads[t := w'.threads[t]])
    requires StateOk(w', s) && ThreadOk(w', t)
    requires OthersServed(w, w', t, s) && OthersTended(w, w', t, s, None)
    ensures Inv(w')
  {
    StatesKept(w, w', t, s);
    forall b | b in w.callbacks
      ensures CallbackOk(w', b)
    {
      CallbackKept(w, w', t, s, b);
    }
    forall u | u in w.threads && u != t
      ensures ThreadOk(w', u)
    {
      ThreadKept(w, w', t, s, u);
    }
  }

  // The step changes a callback that belongs to the state.
  lemma CallbackStepKeeps(w: World, w': World, t: Thread, s: State, c: Callback)
    requires Inv(w) && t in w.threads && s in w.states && t in w'.threads && s in w'.states
    requires c in w'.callbacks && w'.callbacks[c].state == s
    requires c in w.callbacks ==> w.callbacks[c].state == s
    requires w' == World(w.states[s := w'.states[s]], w.callbacks[c := w'.callbacks[c]], w.threads[t := w'.threads[t]])
    requires StateOk(w', s) && ThreadOk(w', t) && CallbackOk(w', c)
    requires OthersServed(w, w', t, s) && OthersTended(w, w', t, s, Some(c))
    requires forall u :: u in w.threads && u != t && c in w.callbacks ==> CallbackAllows(w, w', u, c)
    ensures Inv(w')
  {
    hide StateOk, CallbackOk, ThreadOk, ThreadServes, ThreadTends, CallbackAllows, StateAllows;
    StatesKept(w, w', t, s);
    forall b | b in w.callbacks && b != c
      ensures CallbackOk(w', b)
    {
      CallbackKept(w, w', t, s, b);
    }
    forall u | u in w.threads && u != t
      ensures ThreadOk(w', u)
    {
      ThreadKept(w, w', t, s, u);
    }
  }

  lemma ListsStay(w: World, w': World)
    requires Inv(w)
    requires forall s :: s in w.states ==>
               s in w'.states && w.states[s].phase == w'.states[s].phase
               && forall c :: c in w.states[s].callbacks ==> c in w'.states[s].callbacks
    ensures forall c :: c in w.callbacks ==> StateKeeps(w, w', c)
  {
    forall c | c in w.callbacks
      ensures StateKeeps(w, w', c)
    {
      assert CallbackOk(w, c);
    }
  }

  // The step changes no state.
  lemma QuietStepKeeps(w: World, w': World, t: Thread, c: Callback)
    requires Inv(w) && t in w.threads && t in w'.threads && c in w.callbacks && c in w'.callbacks
    requires w.callbacks[c].state in w.states
    requires w' == World(w.states, w.callbacks[c := w'.callbacks[c]], w.threads[t := w'.threads[t]])
    requires ThreadOk(w', t) && CallbackOk(w', c) && CallbackGrows(w, w', c)
    requires forall r :: ThreadServes(w, w', t, r)
    requires forall b :: b in w.callbacks && b != c ==> ThreadTends(w, w', t, b)
    requires forall u :: u in w.threads && u != t ==> CallbackAllows(w, w', u, c)
    ensures Inv(w')
  {
    var s := w.callbacks[c].state;
    assert w.states == w.states[s := w'.states[s]];
    QuietState(w, w', t, s);
    ListsStay(w, w');
    CallbackStepKeeps(w, w', t, s, c);
  }

  lemma QuietState(w: World, w': World, t: Thread, s: State)
    requires Inv(w) && t in w.threads && s in w.states && w'.states == w.states
    requires t in w'.threads && w'.threads == w.threads[t := w'.threads[t]]
    requires forall c :: c in w.callbacks ==> c in w'.callbacks && w'.callbacks[c].state == w.callbacks[c].state
    requires forall c :: c in w.callbacks && w.callbacks[c].state == s ==> CallbackGrows(w, w', c)
    requires ThreadServes(w, w', t, s)
    ensures StateOk(w', s)
  {
    assert StateOk(w, s);
    forall u | u in w.threads
      ensures ThreadServes(w, w', u, s)
    {
      if u != t {
        LockedIsStable(w, w', u);
      }
    }
    StateFrame(w, w', s);
  }

  // The step changes only its thread; `s` is any state.
  lemma ThreadStepKeeps(w: World, w': World, t: Thread, s: State)
    requires Inv(w) && t in w.threads && t in w'.threads && s in w.states
    requires w' == World(w.states, w.callbacks, w.threads[t := w'.threads[t]])
    requires ThreadOk(w', t)
    requires forall r :: ThreadServes(w, w', t, r)
    requires forall b :: b in w.callbacks ==> ThreadTends(w, w', t, b)
    ensures Inv(w')
  {
    assert w.states == w.states[s := w'.states[s]];
    QuietState(w, w', t, s);
    ListsStay(w, w');
    StateStepKeeps(w, w', t, s);
  }

  // ----- Each step keeps the invariant.

  // Steps that move only one thread's program counter.
  predicate SimpleMove(w: World, t: Thread, pc: Pc)
    requires t in w.threads
  {
    || (w.threads[t].pc.User? && pc.RequestLock? && pc.state in w.states)
    || (w.threads[t].pc.DestroyWait? && pc == DestroyWoken(w.threads[t].pc.callback))
  }

  lemma MoveOwn(w: World, t: Thread, pc: Pc)
    requires t in w.threads && ThreadOk(w, t) && SimpleMove(w, t, pc)
    ensures ThreadOk(w.Goto(t, pc), t)
  {
    var w' := w.Goto(t, pc);
    forall i | 0 <= i < |w.threads[t].hosts|
      ensures HostOk(w', t, w'.threads[t].hosts[i])
    {
      assert HostOk(w, t, w.threads[t].hosts[i]);
    }
  }

  lemma MoveServes(w: World, t: Thread, pc: Pc)
    requires t in w.threads && SimpleMove(w, t, pc)
    ensures forall s :: ThreadServes(w, w.Goto(t, pc), t, s)
    ensures forall c :: c in w.callbacks ==> ThreadTends(w, w.Goto(t, pc), t, c)
  {
  }

  lemma MoveKeeps(w: World, t: Thread, pc: Pc)
    requires Inv(w) && t in w.threads && SimpleMove(w, t, pc)
    ensures Inv(w.Goto(t, pc))
  {
    var w' := w.Goto(t, pc);
    var s := if pc.RequestLock? then pc.state else w.callbacks[w.threads[t].pc.callback].state;
    assert ThreadOk(w, t);
    MoveServes(w, t, pc);
    MoveOwn(w, t, pc);
    ThreadStepKeeps(w, w', t, s);
  }

  // Taking a free mutex.
  predicate LockMove(w: World, t: Thread, s: State, pc: Pc)
    requires t in w.threads
  {
    && s in w.states && w.states[s].holder.None?
    && match w.threads[t].pc
       case RequestLock(r) => r == s && pc == RequestLocked(s)
       case Relock(r, c, d) => r == s && pc == Finish(s, c, d)
       case RegisterLock(c) => c in w.callbacks && w.callbacks[c].state == s && pc == RegisterLocked(c)
       case DestroyLock(c) => c in w.callbacks && w.callbacks[c].state == s && pc == DestroyLocked(c)
       case DestroyWoken(c) => c in w.callbacks && w.callbacks[c].state == s && pc == DestroyCheck(c)
       case _ => false
  }

  function Locking(w: World, t: Thread, s: State, pc: Pc): World
    requires t in w.threads && LockMove(w, t, s, pc)
  {
    w.SetState(s, w.states[s].(holder := Some(t))).Goto(t, pc)
  }

  lemma LockOwn(w: World, t: Thread, s: State, pc: Pc)
    requires t in w.threads && ThreadOk(w, t) && LockMove(w, t, s, pc)
    ensures ThreadOk(Locking(w, t, s, pc), t)
  {
    var w' := Locking(w, t, s, pc);
    forall i | 0 <= i < |w.threads[t].hosts|
      ensures HostOk(w', t, w'.threads[t].hosts[i])
    {
      assert HostOk(w, t, w.threads[t].hosts[i]);
    }
  }

  lemma LockServes(w: World, t: Thread, s: State, pc: Pc)
    requires t in w.threads && LockMove(w, t, s, pc)
    ensures forall r :: r != s ==> ThreadServes(w, Locking(w, t, s, pc), t, r)
    ensures forall c :: c in w.callbacks ==> ThreadTends(w, Locking(w, t, s, pc), t, c)
    ensures Drains(w.threads[t], s) ==> Drains(Locking(w, t, s, pc).threads[t], s)
    ensures HolderOk(Locking(w, t, s, pc), s)
  {
  }

  lemma LockState(w: World, t: Thread, s: State, pc: Pc)
    requires Inv(w) && t in w.threads && LockMove(w, t, s, pc)
    ensures StateOk(Locking(w, t, s, pc), s)
  {
    LockServes(w, t, s, pc);
    assert StateOk(w, s);
    ListAndPhaseFrame(w, Locking(w, t, s, pc), s);
  }

  lemma LockKeeps(w: World, t: Thread, s: State, pc: Pc)
    requires Inv(w) && t in w.threads && LockMove(w, t, s, pc)
    ensures Inv(Locking(w, t, s, pc))
  {
    hide StateOk, CallbackOk, ThreadOk, ThreadServes, ThreadTends, StateKeeps;
    var w' := Locking(w, t, s, pc);
    assert ThreadOk(w, t);
    LockServes(w, t, s, pc);
    LockOwn(w, t, s, pc);
    LockState(w, t, s, pc);
    ListsStay(w, w');
    StateStepKeeps(w, w', t, s);
  }

  // request_stop finds the flag set and gives up.
  lemma FailKeeps(w: World, t: Thread, s: State)
    requires Inv(w) && t in w.threads && w.threads[t].pc == RequestLocked(s) && s in w.states
    requires w.states[s].requested
    ensures Inv(TestAndFlip(w, t, s))
  {
    var w' := TestAndFlip(w, t, s);
    assert ThreadOk(w, t);
    ReleaseServes(w, t, s);
    ListAndPhaseFrame(w, w', s);
    ReleaseOwn(w, t, s);
    StateStepKeeps(w, w', t, s);
  }

  function Releasing(w: World, t: Thread, s: State): World
    requires t in w.threads && s in w.states
  {
    w.SetState(s, w.states[s].(holder := None)).Goto(t, User)
  }

  lemma ReleaseServes(w: World, t: Thread, s: State)
    requires t in w.threads && s in w.states && w.threads[t].pc == RequestLocked(s)
    ensures var w' := Releasing(w, t, s);
            && (forall r :: r != s ==> ThreadServes(w, w', t, r))
            && (forall c :: c in w.callbacks ==> ThreadTends(w, w', t, c))
            && (Drains(w.threads[t], s) ==> Drains(w'.threads[t], s))
  {
  }

  lemma ReleaseOwn(w: World, t: Thread, s: State)
    requires t in w.threads && s in w.states && w.threads[t].pc == RequestLocked(s) && ThreadOk(w, t)
    ensures ThreadOk(Releasing(w, t, s), t)
  {
    var w' := Releasing(w, t, s);
    forall i | 0 <= i < |w.threads[t].hosts|
      ensures HostOk(w', t, w'.threads[t].hosts[i])
    {
      assert HostOk(w, t, w.threads[t].hosts[i]);
    }
  }

  // request_stop flips the flag.
  lemma FlipKeeps(w: World, t: Thread, s: State)
    requires Inv(w) && t in w.threads && w.threads[t].pc == RequestLocked(s) && s in w.states
    requires !w.states[s].requested
    ensures Inv(TestAndFlip(w, t, s))
  {
    var w' := TestAndFlip(w, t, s);
    assert ThreadOk(w, t) && StateOk(w, s);
    FlipServes(w, t, s);
    FlipOwn(w, t, s);
    forall c | c in w.callbacks && w.callbacks[c].state == s
      ensures StateKeeps(w, w', c)
    {
      assert CallbackOk(w, c);
    }
    StateStepKeeps(w, w', t, s);
  }

  lemma FlipServes(w: World, t: Thread, s: State)
    requires Inv(w) && t in w.threads && s in w.states && w.threads[t].pc == RequestLocked(s)
    requires !w.states[s].requested
    ensures var w' := TestAndFlip(w, t, s);
            && (forall r :: r != s ==> ThreadServes(w, w', t, r))
            && (forall c :: c in w.callbacks ==> ThreadTends(w, w', t, c))
            && StateOk(w', s)
  {
    assert StateOk(w, s) && ThreadOk(w, t);
  }

  lemma FlipOwn(w: World, t: Thread, s: State)
    requires t in w.threads && s in w.states && w.threads[t].pc == RequestLocked(s)
    requires !w.states[s].requested && StateOk(w, s) && ThreadOk(w, t)
    ensures ThreadOk(TestAndFlip(w, t, s), t)
  {
    var w' := TestAndFlip(w, t, s);
    forall i | 0 <= i < |w.threads[t].hosts|
      ensures HostOk(w', t, w'.threads[t].hosts[i])
      ensures w.threads[t].hosts[i].Invoking? ==> w.threads[t].hosts[i].state != s
    {
      assert HostOk(w, t, w.threads[t].hosts[i]);
    }
  }

  // The loop takes the first callback off the list and drops the mutex to invoke it.
  lemma PopKeeps(w: World, t: Thread, s: State)
    requires Inv(w) && t in w.threads && w.threads[t].pc == Loop(s) && s in w.states
    requires w.states[s].callbacks != [] && w.states[s].callbacks[0] in w.callbacks
    ensures Inv(PopAndInvoke(w, t, s))
  {
    var w' := PopAndInvoke(w, t, s);
    var c := w.states[s].callbacks[0];
    assert ThreadOk(w, t) && StateOk(w, s) && CallbackOk(w, c);
    PopServes(w, t, s);
    PopState(w, t, s);
    PopCallback(w, t, s);
    PopOwn(w, t, s);
    forall u | u in w.threads && u != t
      ensures CallbackAllows(w, w', u, c)
    {
    }
    CallbackStepKeeps(w, w', t, s, c);
  }

  lemma PopServes(w: World, t: Thread, s: State)
    requires Inv(w) && t in w.threads && w.threads[t].pc == Loop(s) && s in w.states
    requires w.states[s].callbacks != [] && w.states[s].callbacks[0] in w.callbacks
    ensures var w' := PopAndInvoke(w, t, s);
            && (forall r :: r != s ==> ThreadServes(w, w', t, r))
            && (forall c :: c in w.callbacks ==> ThreadTends(w, w', t, c))
            && Drains(w'.threads[t], s)
            && Runs(w'.threads[t], s, w.states[s].callbacks[0], false)
  {
    var hosts := w.threads[t].hosts;
    var hosts' := PopAndInvoke(w, t, s).threads[t].hosts;
    assert forall i :: 0 <= i < |hosts| ==> hosts'[i] == hosts[i];
    assert hosts'[|hosts|] == Invoking(s, w.states[s].callbacks[0], false);
  }

  lemma PopState(w: World, t: Thread, s: State)
    requires Inv(w) && t in w.threads && w.threads[t].pc == Loop(s) && s in w.states
    requires w.states[s].callbacks != [] && w.states[s].callbacks[0] in w.callbacks
    ensures StateOk(PopAndInvoke(w, t, s), s)
    ensures forall c :: c in w.callbacks && c != w.states[s].callbacks[0] ==> StateKeeps(w, PopAndInvoke(w, t, s), c)
  {
    PopServes(w, t, s);
    assert StateOk(w, s) && ThreadOk(w, t);
    var list := w.states[s].callbacks;
    assert list == [list[0]] + list[1..];
    forall c | c in w.callbacks && c != list[0]
      ensures StateKeeps(w, PopAndInvoke(w, t, s), c)
    {
      assert CallbackOk(w, c);
    }
  }

  lemma PopCallback(w: World, t: Thread, s: State)
    requires Inv(w) && t in w.threads && w.threads[t].pc == Loop(s) && s in w.states
    requires w.states[s].callbacks != [] && w.states[s].callbacks[0] in w.callbacks
    ensures CallbackOk(PopAndInvoke(w, t, s), w.states[s].callbacks[0])
  {
    PopServes(w, t, s);
    assert StateOk(w, s) && ThreadOk(w, t) && CallbackOk(w, w.states[s].callbacks[0]);
  }

  lemma PopOwn(w: World, t: Thread, s: State)
    requires Inv(w) && t in w.threads && w.threads[t].pc == Loop(s) && s in w.states
    requires w.states[s].callbacks != [] && w.states[s].callbacks[0] in w.callbacks
    ensures ThreadOk(PopAndInvoke(w, t, s), t)
  {
    var w' := PopAndInvoke(w, t, s);
    var c := w.states[s].callbacks[0];
    var hosts := w.threads[t].hosts;
    assert StateOk(w, s) && ThreadOk(w, t) && CallbackOk(w, c);
    forall i | 0 <= i < |w'.threads[t].hosts|
      ensures HostOk(w', t, w'.threads[t].hosts[i])
    {
      if i < |hosts| {
        assert HostOk(w, t, hosts[i]);
      }
    }
  }

  // The winning call finds the list empty and returns true.
  lemma LeaveLoopKeeps(w: World, t: Thread, s: State)
    requires Inv(w) && t in w.threads && w.threads[t].pc == Loop(s) && s in w.states
    requires w.states[s].callbacks == []
    ensures Inv(LeaveLoop(w, t, s))
  {
    var w' := LeaveLoop(w, t, s);
    assert ThreadOk(w, t) && StateOk(w, s);
    LeaveLoopServes(w, t, s);
    LeaveLoopOwn(w, t, s);
    LeaveLoopCallbacks(w, t, s);
    StateStepKeeps(w, w', t, s);
  }

  lemma LeaveLoopServes(w: World, t: Thread, s: State)
    requires Inv(w) && t in w.threads && w.threads[t].pc == Loop(s) && s in w.states
    requires w.states[s].callbacks == []
    ensures var w' := LeaveLoop(w, t, s);
            && (forall r :: r != s ==> ThreadServes(w, w', t, r))
            && (forall c :: c in w.callbacks ==> ThreadTends(w, w', t, c))
            && StateOk(w', s)
  {
    assert StateOk(w, s) && ThreadOk(w, t);
  }

  // No callback of the state is running any more, unless it destroyed itself.
  lemma LeaveLoopCallbacks(w: World, t: Thread, s: State)
    requires Inv(w) && t in w.threads && w.threads[t].pc == Loop(s) && s in w.states
    requires w.states[s].callbacks == []
    ensures forall c :: c in w.callbacks && w.callbacks[c].state == s ==> StateKeeps(w, LeaveLoop(w, t, s), c)
  {
    assert ThreadOk(w, t);
    forall c | c in w.callbacks && w.callbacks[c].state == s
      ensures StateKeeps(w, LeaveLoop(w, t, s), c)
    {
      assert CallbackOk(w, c);
      if w.callbacks[c].running && !w.callbacks[c].status.Dead? {
        var hosts := w.threads[t].hosts;
        assert forall d :: Invoking(s, c, d) !in hosts by {
          assert !HostsState(hosts, s);
        }
      }
    }
  }

  lemma LeaveLoopOwn(w: World, t: Thread, s: State)
    requires t in w.threads && w.threads[t].pc == Loop(s) && s in w.states && ThreadOk(w, t)
    ensures ThreadOk(LeaveLoop(w, t, s), t)
  {
    var w' := LeaveLoop(w, t, s);
    var hosts := w.threads[t].hosts;
    assert !HostsState(hosts, s);
    forall i | 0 <= i < |hosts|
      ensures HostOk(w', t, hosts[i])
    {
      assert HostOk(w, t, hosts[i]);
    }
  }

  // Back in the loop after a callback that destroyed itself: nothing of it is touched.
  lemma FinishDestroyedKeeps(w: World, t: Thread, s: State, c: Callback)
    requires Inv(w) && t in w.threads && w.threads[t].pc == Finish(s, c, true) && c in w.callbacks
    ensures Inv(w.Goto(t, Loop(s)))
  {
    var w' := w.Goto(t, Loop(s));
    assert ThreadOk(w, t);
    BackInLoopServes(w, w', t, s, c, true);
    BackInLoopOwn(w, w', t, s, c, true);
    assert w.callbacks[c].status.Dead?;
    DeadIsFree(w, w', t, c);
    QuietStepKeeps(w, w', t, c);
  }

  lemma DeadIsFree(w: World, w': World, t: Thread, c: Callback)
    requires Inv(w) && c in w.callbacks && w.callbacks[c].status.Dead?
    requires c in w'.callbacks && w'.callbacks[c] == w.callbacks[c]
    requires w.callbacks[c].state in w'.states
    ensures CallbackOk(w', c)
  {
    assert CallbackOk(w, c);
  }

  lemma BackInLoopServes(w: World, w': World, t: Thread, s: State, c: Callback, destroyed: bool)
    requires t in w.threads && w.threads[t].pc == Finish(s, c, destroyed) && c in w.callbacks
    requires t in w'.threads && w'.threads[t] == w.threads[t].(pc := Loop(s))
    ensures forall r :: ThreadServes(w, w', t, r)
    ensures forall b :: b in w.callbacks && b != c ==> ThreadTends(w, w', t, b)
  {
  }

  lemma BackInLoopOwn(w: World, w': World, t: Thread, s: State, c: Callback, destroyed: bool)
    requires t in w.threads && w.threads[t].pc == Finish(s, c, destroyed) && c in w.callbacks && ThreadOk(w, t)
    requires t in w'.threads && w'.threads[t] == w.threads[t].(pc := Loop(s))
    requires w'.states == w.states
    requires forall b :: b in w.callbacks && b != c ==> b in w'.callbacks && w'.callbacks[b] == w.callbacks[b]
    ensures ThreadOk(w', t)
  {
    var hosts := w.threads[t].hosts;
    assert !HostsState(hosts, s);
    forall i | 0 <= i < |hosts|
      ensures HostOk(w', t, hosts[i])
    {
      assert HostOk(w, t, hosts[i]);
      assert hosts[i].callback != c;
    }
  }

  // The broadcast wakes at most one thread: the one that is destroying the callback.
  lemma BroadcastKeeps(w: World, c: Callback)
    requires Inv(w) && c in w.callbacks
    ensures var w' := w.(threads := Broadcast(c, w.threads));
            Inv(w') && forall u :: u in w'.threads ==> w'.threads[u].pc != DestroyWait(c)
  {
    var w' := w.(threads := Broadcast(c, w.threads));
    if u :| u in w.threads && w.threads[u].pc == DestroyWait(c) {
      forall v | v in w.threads && v != u
        ensures w.threads[v].pc != DestroyWait(c)
      {
        assert ThreadOk(w, u) && ThreadOk(w, v);
      }
      assert w'.threads == w.threads[u := w.threads[u].(pc := DestroyWoken(c))];
      MoveKeeps(w, u, DestroyWoken(c));
      assert w' == w.Goto(u, DestroyWoken(c));
    } else {
      assert w'.threads == w.threads;
      assert w' == w;
    }
  }

  // Back in the loop after a callback that is still there: running_ is cleared.
  lemma FinishKeeps(w: World, t: Thread, s: State, c: Callback)
    requires Inv(w) && t in w.threads && w.threads[t].pc == Finish(s, c, false) && c in w.callbacks
    ensures Inv(FinishCallback(w, t, s, c, false))
  {
    var w1 := w.(threads := Broadcast(c, w.threads));
    BroadcastKeeps(w, c);
    assert w1.threads[t] == w.threads[t];
    ClearRunningKeeps(w1, t, s, c);
    assert FinishCallback(w, t, s, c, false) == ClearRunning(w1, t, s, c);
  }

  function ClearRunning(w: World, t: Thread, s: State, c: Callback): World
    requires t in w.threads && c in w.callbacks
  {
    w.SetCallback(c, w.callbacks[c].(running := false)).Goto(t, Loop(s))
  }

  lemma ClearRunningKeeps(w: World, t: Thread, s: State, c: Callback)
    requires Inv(w) && t in w.threads && w.threads[t].pc == Finish(s, c, false) && c in w.callbacks
    requires forall u :: u in w.threads ==> w.threads[u].pc != DestroyWait(c)
    ensures Inv(ClearRunning(w, t, s, c))
  {
    var w' := ClearRunning(w, t, s, c);
    assert ThreadOk(w, t) && CallbackOk(w, c);
    BackInLoopServes(w, w', t, s, c, false);
    BackInLoopOwn(w, w', t, s, c, false);
    ClearedCallback(w, t, s, c);
    forall u | u in w.threads && u != t
      ensures CallbackAllows(w, w', u, c)
    {
      assert w.states[s].phase == Draining(t);
    }
    QuietStepKeeps(w, w', t, c);
  }

  lemma ClearedCallback(w: World, t: Thread, s: State, c: Callback)
    requires Inv(w) && t in w.threads && w.threads[t].pc == Finish(s, c, false) && c in w.callbacks
    ensures CallbackOk(ClearRunning(w, t, s, c), c)
  {
    assert ThreadOk(w, t) && CallbackOk(w, c);
  }

  // The user's callable returns into request_stop.
  lemma EndInvokeKeeps(w: World, t: Thread)
    requires Inv(w) && t in w.threads && w.threads[t].pc.User? && w.threads[t].hosts != []
    requires w.threads[t].hosts[|w.threads[t].hosts| - 1].Invoking?
    ensures Inv(EndUserCode(w, t))
  {
    var w' := EndUserCode(w, t);
    var hosts := w.threads[t].hosts;
    var last := hosts[|hosts| - 1];
    assert ThreadOk(w, t) && HostOk(w, t, last);
    EndInvokeServes(w, t);
    EndInvokeOwn(w, t);
    ThreadStepKeeps(w, w', t, last.state);
  }

  lemma EndInvokeServes(w: World, t: Thread)
    requires t in w.threads && w.threads[t].pc.User? && w.threads[t].hosts != []
    requires w.threads[t].hosts[|w.threads[t].hosts| - 1].Invoking?
    ensures forall r :: ThreadServes(w, EndUserCode(w, t), t, r)
    ensures forall b :: b in w.callbacks ==> ThreadTends(w, EndUserCode(w, t), t, b)
  {
    var hosts := w.threads[t].hosts;
    var outer := hosts[..|hosts| - 1];
    assert hosts == outer + [hosts[|hosts| - 1]];
    assert forall i :: 0 <= i < |outer| ==> outer[i] == hosts[i];
    forall r | HostsState(hosts, r)
      ensures Drains(EndUserCode(w, t).threads[t], r)
    {
      var i :| 0 <= i < |hosts| && hosts[i].Invoking? && hosts[i].state == r;
      if i < |outer| {
        assert outer[i].Invoking? && outer[i].state == r;
      }
    }
  }

  lemma EndInvokeOwn(w: World, t: Thread)
    requires t in w.threads && w.threads[t].pc.User? && w.threads[t].hosts != [] && ThreadOk(w, t)
    requires w.threads[t].hosts[|w.threads[t].hosts| - 1].Invoking?
    ensures ThreadOk(EndUserCode(w, t), t)
  {
    var w' := EndUserCode(w, t);
    var hosts := w.threads[t].hosts;
    var outer := w'.threads[t].hosts;
    assert HostOk(w, t, hosts[|hosts| - 1]);
    forall i | 0 <= i < |outer|
      ensures HostOk(w', t, outer[i])
    {
      assert HostOk(w, t, hosts[i]);
    }
  }

  // The user's callable returns into the constructor.
  lemma EndInlineKeeps(w: World, t: Thread)
    requires Inv(w) && t in w.threads && w.threads[t].pc.User? && w.threads[t].hosts != []
    requires w.threads[t].hosts[|w.threads[t].hosts| - 1].Inline?
    ensures Inv(EndUserCode(w, t))
  {
    var w' := EndUserCode(w, t);
    var hosts := w.threads[t].hosts;
    var c := hosts[|hosts| - 1].callback;
    assert ThreadOk(w, t) && HostOk(w, t, hosts[|hosts| - 1]) && CallbackOk(w, c);
    EndInlineServes(w, t, c);
    EndInlineCallback(w, t, c);
    EndInlineOwn(w, t, c);
    QuietStepKeeps(w, w', t, c);
  }

  lemma EndInlineServes(w: World, t: Thread, c: Callback)
    requires t in w.threads && w.threads[t].pc.User? && w.threads[t].hosts != [] && c in w.callbacks
    requires w.threads[t].hosts[|w.threads[t].hosts| - 1] == Inline(c)
    ensures forall r :: ThreadServes(w, EndUserCode(w, t), t, r)
    ensures forall b :: b in w.callbacks ==> ThreadTends(w, EndUserCode(w, t), t, b)
  {
    var hosts := w.threads[t].hosts;
    var outer := hosts[..|hosts| - 1];
    assert hosts == outer + [Inline(c)];
    assert forall i :: 0 <= i < |outer| ==> outer[i] == hosts[i];
    forall r | HostsState(hosts, r)
      ensures HostsState(outer, r)
    {
      var i :| 0 <= i < |hosts| && hosts[i].Invoking? && hosts[i].state == r;
      assert outer[i].Invoking? && outer[i].state == r;
    }
  }

  lemma EndInlineCallback(w: World, t: Thread, c: Callback)
    requires Inv(w) && t in w.threads && w.threads[t].pc.User? && w.threads[t].hosts != [] && c in w.callbacks
    requires w.threads[t].hosts[|w.threads[t].hosts| - 1] == Inline(c)
    ensures CallbackOk(EndUserCode(w, t), c)
    ensures forall u :: u in w.threads && u != t ==> CallbackAllows(w, EndUserCode(w, t), u, c)
  {
    assert ThreadOk(w, t) && HostOk(w, t, Inline(c)) && CallbackOk(w, c);
  }

  lemma EndInlineOwn(w: World, t: Thread, c: Callback)
    requires t in w.threads && w.threads[t].pc.User? && w.threads[t].hosts != [] && c in w.callbacks && ThreadOk(w, t)
    requires w.threads[t].hosts[|w.threads[t].hosts| - 1] == Inline(c)
    ensures ThreadOk(EndUserCode(w, t), t)
  {
    var w' := EndUserCode(w, t);
    var hosts := w.threads[t].hosts;
    var outer := w'.threads[t].hosts;
    assert HostOk(w, t, hosts[|hosts| - 1]);
    forall i | 0 <= i < |outer|
      ensures HostOk(w', t, outer[i])
    {
      assert HostOk(w, t, hosts[i]);
    }
  }

  // Construction of a callback begins.
  lemma StartRegisterKeeps(w: World, t: Thread, s: State, c: Callback, a: Address)
    requires Inv(w) && Enabled(w, t, StartRegister(s, c, a))
    ensures Inv(Do(w, t, StartRegister(s, c, a)))
  {
    var w' := Do(w, t, StartRegister(s, c, a));
    assert ThreadOk(w, t) && StateOk(w, s);
    StartRegisterOwn(w, t, s, c, a);
    StartRegisterServes(w, t, s, c, a);
    ListAndPhaseFrame(w, w', s);
    ListsStay(w, w');
    CallbackStepKeeps(w, w', t, s, c);
  }

  lemma StartRegisterServes(w: World, t: Thread, s: State, c: Callback, a: Address)
    requires Enabled(w, t, StartRegister(s, c, a))
    ensures var w' := Do(w, t, StartRegister(s, c, a));
            && (forall r :: ThreadServes(w, w', t, r))
            && (forall b :: b in w.callbacks ==> ThreadTends(w, w', t, b))
            && (forall u :: u in w.threads && u != t && w.Locked(w.threads[u].pc) == Some(s) ==>
                  w'.Locked(w.threads[u].pc) == Some(s))
            && CallbackOk(w', c)
  {
  }

  lemma StartRegisterOwn(w: World, t: Thread, s: State, c: Callback, a: Address)
    requires Enabled(w, t, StartRegister(s, c, a)) && ThreadOk(w, t)
    ensures ThreadOk(Do(w, t, StartRegister(s, c, a)), t)
  {
    var w' := Do(w, t, StartRegister(s, c, a));
    forall i | 0 <= i < |w.threads[t].hosts|
      ensures HostOk(w', t, w.threads[t].hosts[i])
    {
      assert HostOk(w, t, w.threads[t].hosts[i]);
    }
  }

  // The constructor finds the flag set and runs the callable itself.
  lemma RegisterLateKeeps(w: World, t: Thread, c: Callback)
    requires Inv(w) && t in w.threads && w.threads[t].pc == RegisterLocked(c)
    requires c in w.callbacks && w.callbacks[c].state in w.states && w.states[w.callbacks[c].state].requested
    ensures Inv(FinishRegister(w, t, c))
  {
    hide StateOk, ThreadServes, ThreadTends;
    var w' := FinishRegister(w, t, c);
    assert ThreadOk(w, t) && CallbackOk(w, c);
    RegisterLateServes(w, t, c);
    RegisterLateOwn(w, t, c);
    RegisterLateState(w, t, c);
    ListsStay(w, w');
    CallbackStepKeeps(w, w', t, w.callbacks[c].state, c);
  }

  lemma RegisterLateState(w: World, t: Thread, c: Callback)
    requires Inv(w) && t in w.threads && w.threads[t].pc == RegisterLocked(c)
    requires c in w.callbacks && w.callbacks[c].state in w.states && w.states[w.callbacks[c].state].requested
    ensures StateOk(FinishRegister(w, t, c), w.callbacks[c].state)
  {
    var s := w.callbacks[c].state;
    assert ThreadOk(w, t) && CallbackOk(w, c) && StateOk(w, s);
    RegisterLateServes(w, t, c);
    ListAndPhaseFrame(w, FinishRegister(w, t, c), s);
  }

  lemma RegisterLateServes(w: World, t: Thread, c: Callback)
    requires t in w.threads && w.threads[t].pc == RegisterLocked(c)
    requires c in w.callbacks && w.callbacks[c].state in w.states && w.states[w.callbacks[c].state].requested
    ensures forall r :: r != w.callbacks[c].state ==> ThreadServes(w, FinishRegister(w, t, c), t, r)
    ensures forall b :: b in w.callbacks ==> ThreadTends(w, FinishRegister(w, t, c), t, b)
    ensures forall r :: Drains(w.threads[t], r) ==> Drains(FinishRegister(w, t, c).threads[t], r)
  {
    var hosts := w.threads[t].hosts;
    var more := hosts + [Inline(c)];
    assert forall i :: 0 <= i < |hosts| ==> more[i] == hosts[i];
  }

  lemma RegisterLateOwn(w: World, t: Thread, c: Callback)
    requires t in w.threads && w.threads[t].pc == RegisterLocked(c) && ThreadOk(w, t)
    requires c in w.callbacks && w.callbacks[c].state in w.states && w.states[w.callbacks[c].state].requested
    ensures ThreadOk(FinishRegister(w, t, c), t)
  {
    var w' := FinishRegister(w, t, c);
    var hosts := w.threads[t].hosts;
    forall i | 0 <= i < |w'.threads[t].hosts|
      ensures HostOk(w', t, w'.threads[t].hosts[i])
    {
      if i < |hosts| {
        assert HostOk(w, t, hosts[i]);
      }
    }
    forall i | 0 <= i < |hosts|
      ensures hosts[i] != Inline(c)
    {
      assert HostOk(w, t, hosts[i]);
    }
  }

  // The constructor links the callback in.
  lemma RegisterKeeps(w: World, t: Thread, c: Callback)
    requires Inv(w) && t in w.threads && w.threads[t].pc == RegisterLocked(c)
    requires c in w.callbacks && w.callbacks[c].state in w.states && !w.states[w.callbacks[c].state].requested
    ensures Inv(FinishRegister(w, t, c))
  {
    var w' := FinishRegister(w, t, c);
    var s := w.callbacks[c].state;
    assert ThreadOk(w, t) && CallbackOk(w, c);
    RegisterOwn(w, t, c);
    RegisterServes(w, t, c);
    RegisterState(w, t, c);
    ListsStay(w, w');
    CallbackStepKeeps(w, w', t, s, c);
  }

  lemma RegisterServes(w: World, t: Thread, c: Callback)
    requires Inv(w) && t in w.threads && w.threads[t].pc == RegisterLocked(c)
    requires c in w.callbacks && w.callbacks[c].state in w.states && !w.states[w.callbacks[c].state].requested
    ensures var w' := FinishRegister(w, t, c);
            && OthersServed(w, w', t, w.callbacks[c].state)
            && (forall b :: b in w.callbacks ==> ThreadTends(w, w', t, b))
            && (forall u :: u in w.threads && u != t ==> CallbackAllows(w, w', u, c))
  {
    assert ThreadOk(w, t) && CallbackOk(w, c);
  }

  lemma RegisterState(w: World, t: Thread, c: Callback)
    requires Inv(w) && t in w.threads && w.threads[t].pc == RegisterLocked(c)
    requires c in w.callbacks && w.callbacks[c].state in w.states && !w.states[w.callbacks[c].state].requested
    ensures StateOk(FinishRegister(w, t, c), w.callbacks[c].state)
    ensures CallbackOk(FinishRegister(w, t, c), c)
  {
    var s := w.callbacks[c].state;
    assert ThreadOk(w, t) && CallbackOk(w, c) && StateOk(w, s);
    var list := w.states[s].callbacks;
    assert c !in list;
    assert forall b :: b in [c] + list ==> b == c || b in list;
  }

  lemma RegisterOwn(w: World, t: Thread, c: Callback)
    requires t in w.threads && w.threads[t].pc == RegisterLocked(c) && ThreadOk(w, t)
    requires c in w.callbacks && w.callbacks[c].state in w.states && !w.states[w.callbacks[c].state].requested
    ensures ThreadOk(FinishRegister(w, t, c), t)
  {
    var w' := FinishRegister(w, t, c);
    forall i | 0 <= i < |w.threads[t].hosts|
      ensures HostOk(w', t, w.threads[t].hosts[i])
    {
      assert HostOk(w, t, w.threads[t].hosts[i]);
    }
  }

  // Destruction begins.
  lemma StartDestroyKeeps(w: World, t: Thread, c: Callback)
    requires Inv(w) && Enabled(w, t, StartDestroy(c)) && w.callbacks[c].status.Live?
    ensures Inv(Do(w, t, StartDestroy(c)))
  {
    var w' := Do(w, t, StartDestroy(c));
    assert ThreadOk(w, t) && CallbackOk(w, c);
    StartDestroyOwn(w, t, c);
    StartDestroyServes(w, t, c);
    QuietStepKeeps(w, w', t, c);
  }

  lemma StartDestroyServes(w: World, t: Thread, c: Callback)
    requires Enabled(w, t, StartDestroy(c)) && w.callbacks[c].status.Live? && CallbackOk(w, c)
    ensures var w' := Do(w, t, StartDestroy(c));
            && (forall r :: ThreadServes(w, w', t, r))
            && (forall b :: b in w.callbacks ==> ThreadTends(w, w', t, b))
            && (forall u, r :: u in w.threads && u != t && w.Locked(w.threads[u].pc) == Some(r) ==>
                  w'.Locked(w.threads[u].pc) == Some(r))
            && CallbackOk(w', c)
  {
  }

  lemma StartDestroyOwn(w: World, t: Thread, c: Callback)
    requires Enabled(w, t, StartDestroy(c)) && ThreadOk(w, t) && CallbackOk(w, c)
    ensures ThreadOk(Do(w, t, StartDestroy(c)), t)
  {
    var w' := Do(w, t, StartDestroy(c));
    forall i | 0 <= i < |w.threads[t].hosts|
      ensures HostOk(w', t, w.threads[t].hosts[i])
    {
      assert HostOk(w, t, w.threads[t].hosts[i]);
    }
  }

  // A callback that was never linked in is destroyed at once.
  lemma DestroyInertKeeps(w: World, t: Thread, c: Callback)
    requires Inv(w) && Enabled(w, t, StartDestroy(c)) && w.callbacks[c].status.Inert?
    ensures Inv(Do(w, t, StartDestroy(c)))
  {
    var w' := Do(w, t, StartDestroy(c));
    assert ThreadOk(w, t) && CallbackOk(w, c);
    StartDestroyOwn(w, t, c);
    QuietStepKeeps(w, w', t, c);
  }

  // The destructor takes its callback off the list.
  lemma {:induction false} WithoutOne(list: seq<Callback>, c: Callback)
    requires Distinct(list)
    ensures Distinct(Without(list, c))
    ensures forall b :: b in Without(list, c) <==> b in list && b != c
  {
    if list != [] {
      assert forall i, j :: 0 <= i < j < |list[1..]| ==> list[1..][i] == list[i + 1] && list[1..][j] == list[j + 1];
      WithoutOne(list[1..], c);
      var rest := Without(list[1..], c);
      assert forall b :: b in list <==> b == list[0] || b in list[1..];
      assert list[0] !in list[1..];
    }
  }

  lemma UnlinkKeeps(w: World, t: Thread, c: Callback)
    requires Inv(w) && t in w.threads && w.threads[t].pc == DestroyLocked(c)
    requires c in w.callbacks && w.callbacks[c].state in w.states && w.callbacks[c].registered
    ensures Inv(Unlink(w, c))
  {
    var w' := Unlink(w, c);
    var s := w.callbacks[c].state;
    assert ThreadOk(w, t) && CallbackOk(w, c) && StateOk(w, s);
    WithoutOne(w.states[s].callbacks, c);
    UnlinkOwn(w, t, c);
    UnlinkState(w, t, c);
    forall b | b in w.callbacks && b != c
      ensures StateKeeps(w, w', b)
    {
      assert CallbackOk(w, b);
    }
    CallbackStepKeeps(w, w', t, s, c);
  }

  lemma UnlinkState(w: World, t: Thread, c: Callback)
    requires Inv(w) && t in w.threads && w.threads[t].pc == DestroyLocked(c)
    requires c in w.callbacks && w.callbacks[c].state in w.states && w.callbacks[c].registered
    ensures StateOk(Unlink(w, c), w.callbacks[c].state) && CallbackOk(Unlink(w, c), c)
    ensures forall u :: u in w.threads && u != t ==> CallbackAllows(w, Unlink(w, c), u, c)
  {
    var s := w.callbacks[c].state;
    assert ThreadOk(w, t) && CallbackOk(w, c) && StateOk(w, s);
    WithoutOne(w.states[s].callbacks, c);
  }

  lemma UnlinkOwn(w: World, t: Thread, c: Callback)
    requires Inv(w) && t in w.threads && w.threads[t].pc == DestroyLocked(c)
    requires c in w.callbacks && w.callbacks[c].state in w.states && w.callbacks[c].registered
    ensures ThreadOk(Unlink(w, c), t)
  {
    assert ThreadOk(w, t) && CallbackOk(w, c);
    forall i | 0 <= i < |w.threads[t].hosts|
      ensures HostOk(Unlink(w, c), t, w.threads[t].hosts[i])
    {
      assert HostOk(w, t, w.threads[t].hosts[i]);
    }
  }

  // Then it looks for a frame of a callback at its address.
  lemma MarkOrCheckKeeps(w: World, t: Thread, c: Callback)
    requires Inv(w) && Apart(w) && t in w.threads && w.threads[t].pc == DestroyLocked(c)
    requires c in w.callbacks && !w.callbacks[c].registered
    ensures Inv(MarkOrCheck(w, t, c))
  {
    var hosts, ids := w.threads[t].hosts, w.Sharing(c);
    assert ThreadOk(w, t) && CallbackOk(w, c);
    if HasFrame(hosts, ids) {
      var k := MarkOne(hosts, ids);
      if hosts[k].callback == c {
        MarkAtKeeps(w, t, c, k);
      } else {
        InnermostIsStale(w, t, c, k);
        StaleKeeps(w, t, c, k);
      }
    } else {
      var w' := w.Goto(t, DestroyCheck(c));
      NoOwnFrame(hosts, ids, c);
      AfterUnlinkServes(w, t, c, DestroyCheck(c));
      AfterUnlinkOwn(w, t, c);
      ThreadStepKeeps(w, w', t, w.callbacks[c].state);
    }
  }

  lemma NoOwnFrame(hosts: seq<Host>, ids: set<Callback>, c: Callback)
    requires c in ids && !HasFrame(hosts, ids)
    ensures !HasFrame(hosts, {c})
  {
  }

  // If the innermost frame found is not the callback's own, it is stale, and there is no own one.
  lemma InnermostIsStale(w: World, t: Thread, c: Callback, k: nat)
    requires Inv(w) && Apart(w) && t in w.threads && w.threads[t].pc == DestroyLocked(c) && c in w.callbacks
    requires var hosts := w.threads[t].hosts;
             && k < |hosts| && IsFrame(hosts[k], w.Sharing(c)) && hosts[k].callback != c
             && forall j :: k < j < |hosts| ==> !IsFrame(hosts[j], w.Sharing(c))
    ensures IsStale(w, w.threads[t].hosts[k], c) && !HasFrame(w.threads[t].hosts, {c})
  {
    var hosts := w.threads[t].hosts;
    assert ThreadOk(w, t) && FramesApart(w, hosts);
    assert HostOk(w, t, hosts[k]);
    assert forall i :: 0 <= i < k && IsFrame(hosts[i], {c}) ==> !PairApart(w, hosts[i], hosts[k]);
  }

  lemma AfterUnlinkServes(w: World, t: Thread, c: Callback, pc: Pc)
    requires t in w.threads && w.threads[t].pc == DestroyLocked(c) && c in w.callbacks
    requires pc == DestroyCheck(c)
    ensures forall r :: ThreadServes(w, w.Goto(t, pc), t, r)
    ensures forall b :: b in w.callbacks ==> ThreadTends(w, w.Goto(t, pc), t, b)
  {
  }

  lemma AfterUnlinkOwn(w: World, t: Thread, c: Callback)
    requires t in w.threads && w.threads[t].pc == DestroyLocked(c) && c in w.callbacks && ThreadOk(w, t)
    requires !w.callbacks[c].registered && !HasFrame(w.threads[t].hosts, {c})
    ensures ThreadOk(w.Goto(t, DestroyCheck(c)), t)
  {
    var w' := w.Goto(t, DestroyCheck(c));
    var hosts := w.threads[t].hosts;
    forall i | 0 <= i < |hosts|
      ensures HostOk(w', t, hosts[i])
    {
      assert HostOk(w, t, hosts[i]);
      assert hosts[i].Invoking? ==> hosts[i].callback != c;
    }
  }

  // Marking changes exactly one host: the innermost frame.
  lemma {:induction false} MarkOne(hosts: seq<Host>, ids: set<Callback>) returns (k: nat)
    requires HasFrame(hosts, ids)
    ensures k < |hosts| && IsFrame(hosts[k], ids) && Mark(hosts, ids) == hosts[k := hosts[k].(destroyed := true)]
    ensures forall j :: k < j < |hosts| ==> !IsFrame(hosts[j], ids)
  {
    var last := |hosts| - 1;
    k := last;
    if !IsFrame(hosts[last], ids) {
      var init := hosts[..last];
      var i :| 0 <= i < |hosts| && IsFrame(hosts[i], ids);
      assert init[i] == hosts[i];
      k := MarkOne(init, ids);
      assert hosts == init + [hosts[last]];
      forall j | k < j < |hosts|
        ensures !IsFrame(hosts[j], ids)
      {
        assert j < last ==> hosts[j] == init[j];
      }
    }
  }

  lemma MarkAtKeeps(w: World, t: Thread, c: Callback, k: nat)
    requires Inv(w) && t in w.threads && w.threads[t].pc == DestroyLocked(c)
    requires c in w.callbacks && !w.callbacks[c].registered
    requires k < |w.threads[t].hosts| && w.threads[t].hosts[k].Invoking? && w.threads[t].hosts[k].callback == c
    ensures var hosts := w.threads[t].hosts;
            Inv(w.Become(t, ThreadState(hosts[k := hosts[k].(destroyed := true)], DestroyUnlock(c))))
  {
    var hosts := w.threads[t].hosts;
    var w' := w.Become(t, ThreadState(hosts[k := hosts[k].(destroyed := true)], DestroyUnlock(c)));
    assert ThreadOk(w, t) && CallbackOk(w, c) && HostOk(w, t, hosts[k]);
    MarkServes(w, t, c, k);
    MarkOwn(w, t, c, k);
    MarkCallback(w, t, c, k);
    QuietStepKeeps(w, w', t, c);
  }

  lemma MarkServes(w: World, t: Thread, c: Callback, k: nat)
    requires t in w.threads && w.threads[t].pc == DestroyLocked(c) && c in w.callbacks
    requires k < |w.threads[t].hosts| && w.threads[t].hosts[k].Invoking?
    ensures var hosts := w.threads[t].hosts;
            var w' := w.Become(t, ThreadState(hosts[k := hosts[k].(destroyed := true)], DestroyUnlock(c)));
            && (forall r :: ThreadServes(w, w', t, r))
            && (forall b :: b in w.callbacks && b != hosts[k].callback ==> ThreadTends(w, w', t, b))
  {
    var hosts := w.threads[t].hosts;
    var marked := hosts[k := hosts[k].(destroyed := true)];
    forall r | HostsState(hosts, r)
      ensures HostsState(marked, r)
    {
      var i :| 0 <= i < |hosts| && hosts[i].Invoking? && hosts[i].state == r;
      assert marked[i].Invoking? && marked[i].state == r;
    }
    forall b, s, d | b != hosts[k].callback && Invoking(s, b, d) in hosts
      ensures Invoking(s, b, d) in marked
    {
      var i :| 0 <= i < |hosts| && hosts[i] == Invoking(s, b, d);
      assert marked[i] == hosts[i];
    }
  }

  // Marking a stale frame changes nothing for the callback that it was for.
  lemma StaleKeeps(w: World, t: Thread, c: Callback, k: nat)
    requires Inv(w) && t in w.threads && w.threads[t].pc == DestroyLocked(c)
    requires c in w.callbacks && !w.callbacks[c].registered && !HasFrame(w.threads[t].hosts, {c})
    requires k < |w.threads[t].hosts| && IsStale(w, w.threads[t].hosts[k], c)
    ensures var hosts := w.threads[t].hosts;
            Inv(w.Become(t, ThreadState(hosts[k := hosts[k].(destroyed := true)], DestroyUnlock(c))))
  {
    var hosts := w.threads[t].hosts;
    var d := hosts[k].callback;
    var w' := w.Become(t, ThreadState(hosts[k := hosts[k].(destroyed := true)], DestroyUnlock(c)));
    assert ThreadOk(w, t);
    MarkServes(w, t, c, k);
    StaleOwn(w, t, c, k);
    assert ThreadTends(w, w', t, d);
    ThreadStepKeeps(w, w', t, w.callbacks[c].state);
  }

  lemma StaleOwn(w: World, t: Thread, c: Callback, k: nat)
    requires Inv(w) && t in w.threads && w.threads[t].pc == DestroyLocked(c)
    requires c in w.callbacks && !w.callbacks[c].registered && !HasFrame(w.threads[t].hosts, {c})
    requires k < |w.threads[t].hosts| && IsStale(w, w.threads[t].hosts[k], c)
    ensures var hosts := w.threads[t].hosts;
            ThreadOk(w.Become(t, ThreadState(hosts[k := hosts[k].(destroyed := true)], DestroyUnlock(c))), t)
  {
    var hosts := w.threads[t].hosts;
    var marked := hosts[k := hosts[k].(destroyed := true)];
    var w' := w.Become(t, ThreadState(marked, DestroyUnlock(c)));
    assert ThreadOk(w, t);
    forall i | 0 <= i < |hosts|
      ensures HostOk(w', t, marked[i])
    {
      assert HostOk(w, t, hosts[i]);
      assert !IsFrame(hosts[i], {c});
    }
    assert IsStale(w', marked[k], c);
  }

  lemma MarkOwn(w: World, t: Thread, c: Callback, k: nat)
    requires Inv(w) && t in w.threads && w.threads[t].pc == DestroyLocked(c) && c in w.callbacks
    requires !w.callbacks[c].registered
    requires k < |w.threads[t].hosts| && w.threads[t].hosts[k].Invoking? && w.threads[t].hosts[k].callback == c
    ensures var hosts := w.threads[t].hosts;
            var w' := w.Become(t, ThreadState(hosts[k := hosts[k].(destroyed := true)], DestroyUnlock(c)));
            ThreadOk(w', t)
  {
    var hosts := w.threads[t].hosts;
    var marked := hosts[k := hosts[k].(destroyed := true)];
    var w' := w.Become(t, ThreadState(marked, DestroyUnlock(c)));
    assert ThreadOk(w, t) && HostOk(w, t, hosts[k]);
    forall i | 0 <= i < |hosts|
      ensures HostOk(w', t, marked[i])
    {
      assert HostOk(w, t, hosts[i]);
      if i < k {
        assert HostsDiffer(hosts);
      } else if k < i {
        assert HostsDiffer(hosts);
      }
    }
    assert marked[k] == Invoking(w.callbacks[c].state, c, true);
  }

  lemma MarkCallback(w: World, t: Thread, c: Callback, k: nat)
    requires Inv(w) && t in w.threads && w.threads[t].pc == DestroyLocked(c) && c in w.callbacks
    requires k < |w.threads[t].hosts| && w.threads[t].hosts[k].Invoking? && w.threads[t].hosts[k].callback == c
    ensures var hosts := w.threads[t].hosts;
            var w' := w.Become(t, ThreadState(hosts[k := hosts[k].(destroyed := true)], DestroyUnlock(c)));
            CallbackOk(w', c)
  {
    var hosts := w.threads[t].hosts;
    var marked := hosts[k := hosts[k].(destroyed := true)];
    assert ThreadOk(w, t) && HostOk(w, t, hosts[k]) && CallbackOk(w, c);
    assert marked[k] == Invoking(w.callbacks[c].state, c, true);
  }

  // It waits while its callback runs elsewhere, or goes on.
  lemma CheckKeeps(w: World, t: Thread, c: Callback)
    requires Inv(w) && t in w.threads && w.threads[t].pc == DestroyCheck(c)
    requires c in w.callbacks && w.callbacks[c].state in w.states
    ensures Inv(CheckRunning(w, t, c))
  {
    var w' := CheckRunning(w, t, c);
    var s := w.callbacks[c].state;
    assert ThreadOk(w, t);
    CheckServes(w, t, c);
    CheckOwn(w, t, c);
    if w.callbacks[c].running {
      CheckState(w, t, c);
      ListsStay(w, w');
      StateStepKeeps(w, w', t, s);
    } else {
      ThreadStepKeeps(w, w', t, s);
    }
  }

  lemma CheckServes(w: World, t: Thread, c: Callback)
    requires t in w.threads && w.threads[t].pc == DestroyCheck(c)
    requires c in w.callbacks && w.callbacks[c].state in w.states
    ensures var w' := CheckRunning(w, t, c);
            && (forall r :: r != w.callbacks[c].state || !w.callbacks[c].running ==> ThreadServes(w, w', t, r))
            && (forall b :: b in w.callbacks ==> ThreadTends(w, w', t, b))
            && (Drains(w.threads[t], w.callbacks[c].state) ==> Drains(w'.threads[t], w.callbacks[c].state))
  {
  }

  lemma CheckState(w: World, t: Thread, c: Callback)
    requires Inv(w) && t in w.threads && w.threads[t].pc == DestroyCheck(c)
    requires c in w.callbacks && w.callbacks[c].state in w.states && w.callbacks[c].running
    ensures var w' := CheckRunning(w, t, c);
            && StateOk(w', w.callbacks[c].state)
            && forall u :: u in w.threads && u != t ==> StateAllows(w, w', u, w.callbacks[c].state)
  {
    assert ThreadOk(w, t) && StateOk(w, w.callbacks[c].state);
    CheckServes(w, t, c);
    ListAndPhaseFrame(w, CheckRunning(w, t, c), w.callbacks[c].state);
  }

  lemma CheckOwn(w: World, t: Thread, c: Callback)
    requires t in w.threads && w.threads[t].pc == DestroyCheck(c) && ThreadOk(w, t)
    requires c in w.callbacks && w.callbacks[c].state in w.states
    ensures ThreadOk(CheckRunning(w, t, c), t)
  {
    var w' := CheckRunning(w, t, c);
    forall i | 0 <= i < |w.threads[t].hosts|
      ensures HostOk(w', t, w.threads[t].hosts[i])
    {
      assert HostOk(w, t, w.threads[t].hosts[i]);
    }
  }

  // The destructor returns and the storage goes.
  lemma LeaveDestructorKeeps(w: World, t: Thread, c: Callback)
    requires Inv(w) && t in w.threads && w.threads[t].pc == DestroyUnlock(c)
    requires c in w.callbacks && w.callbacks[c].state in w.states
    ensures Inv(LeaveDestructor(w, t, c))
  {
    var w' := LeaveDestructor(w, t, c);
    var s := w.callbacks[c].state;
    assert ThreadOk(w, t) && CallbackOk(w, c) && StateOk(w, s);
    LeaveDestructorServes(w, t, c);
    LeaveDestructorOwn(w, t, c);
    ListAndPhaseFrame(w, w', s);
    ListsStay(w, w');
    CallbackStepKeeps(w, w', t, s, c);
  }

  lemma LeaveDestructorServes(w: World, t: Thread, c: Callback)
    requires Inv(w) && t in w.threads && w.threads[t].pc == DestroyUnlock(c)
    requires c in w.callbacks && w.callbacks[c].state in w.states
    ensures var w' := LeaveDestructor(w, t, c);
            && (forall r :: r != w.callbacks[c].state ==> ThreadServes(w, w', t, r))
            && (forall b :: b in w.callbacks && b != c ==> ThreadTends(w, w', t, b))
            && (Drains(w.threads[t], w.callbacks[c].state) ==> Drains(w'.threads[t], w.callbacks[c].state))
            && (forall u :: u in w.threads && u != t ==> CallbackAllows(w, w', u, c))
            && CallbackOk(w', c)
  {
    assert ThreadOk(w, t) && CallbackOk(w, c);
    var hosts := w.threads[t].hosts;
    if Invoking(w.callbacks[c].state, c, true) in hosts {
      var i :| 0 <= i < |hosts| && hosts[i] == Invoking(w.callbacks[c].state, c, true);
      assert HostOk(w, t, hosts[i]);
    }
  }

  lemma LeaveDestructorOwn(w: World, t: Thread, c: Callback)
    requires Inv(w) && t in w.threads && w.threads[t].pc == DestroyUnlock(c)
    requires c in w.callbacks && w.callbacks[c].state in w.states
    ensures ThreadOk(LeaveDestructor(w, t, c), t)
  {
    var w' := LeaveDestructor(w, t, c);
    var hosts := w.threads[t].hosts;
    assert ThreadOk(w, t);
    forall i | 0 <= i < |hosts|
      ensures HostOk(w', t, hosts[i])
    {
      assert HostOk(w, t, hosts[i]);
    }
  }

  // ----- Every step, and the beginning.

  lemma ProceedKeeps(w: World, t: Thread)
    requires Inv(w) && Apart(w) && Enabled(w, t, Proceed)
    ensures Inv(Do(w, t, Proceed))
  {
    assert ThreadOk(w, t);
    match w.threads[t].pc
    case User =>
      if w.threads[t].hosts[|w.threads[t].hosts| - 1].Invoking? {
        EndInvokeKeeps(w, t);
      } else {
        EndInlineKeeps(w, t);
      }
    case RequestLocked(s) =>
      if w.states[s].requested {
        FailKeeps(w, t, s);
      } else {
        FlipKeeps(w, t, s);
      }
    case Loop(s) =>
      if w.states[s].callbacks == [] {
        LeaveLoopKeeps(w, t, s);
      } else {
        PopKeeps(w, t, s);
      }
    case Finish(s, c, destroyed) =>
      if destroyed {
        FinishDestroyedKeeps(w, t, s, c);
      } else {
        FinishKeeps(w, t, s, c);
      }
    case RegisterLocked(c) =>
      if w.states[w.callbacks[c].state].requested {
        RegisterLateKeeps(w, t, c);
      } else {
        RegisterKeeps(w, t, c);
      }
    case DestroyLocked(c) => UnlinkAndMarkKeeps(w, t, c);
    case DestroyCheck(c) => CheckKeeps(w, t, c);
    case DestroyUnlock(c) => LeaveDestructorKeeps(w, t, c);
  }

  lemma UnlinkAndMarkKeeps(w: World, t: Thread, c: Callback)
    requires Inv(w) && Apart(w) && t in w.threads && w.threads[t].pc == DestroyLocked(c)
    requires c in w.callbacks && w.callbacks[c].state in w.states
    ensures Inv(UnlinkAndMark(w, t, c))
  {
    if w.callbacks[c].registered {
      UnlinkKeeps(w, t, c);
      UnlinkedApart(w, c);
      MarkOrCheckKeeps(Unlink(w, c), t, c);
    } else {
      MarkOrCheckKeeps(w, t, c);
    }
  }

  lemma UnlinkedApart(w: World, c: Callback)
    requires Apart(w) && c in w.callbacks && w.callbacks[c].state in w.states
    ensures Apart(Unlink(w, c))
  {
    forall t | t in w.threads
      ensures FramesApart(Unlink(w, c), w.threads[t].hosts)
    {
      assert FramesApart(w, w.threads[t].hosts);
    }
  }

  lemma AcquireKeeps(w: World, t: Thread)
    requires Inv(w) && Enabled(w, t, Lock)
    ensures Inv(Do(w, t, Lock))
  {
    match w.threads[t].pc
    case RequestLock(s) => LockKeeps(w, t, s, RequestLocked(s));
    case Relock(s, c, d) => LockKeeps(w, t, s, Finish(s, c, d));
    case RegisterLock(c) => LockKeeps(w, t, w.callbacks[c].state, RegisterLocked(c));
    case DestroyLock(c) => LockKeeps(w, t, w.callbacks[c].state, DestroyLocked(c));
    case DestroyWoken(c) => LockKeeps(w, t, w.callbacks[c].state, DestroyCheck(c));
  }

  // ----- What shares its storage with what.

  predicate StaysThere(w: World, w': World, c: Callback)
    requires c in w.callbacks
  {
    && c in w'.callbacks && w'.callbacks[c].address == w.callbacks[c].address
    && (w.IsDead(c) ==> w'.IsDead(c))
  }

  // A callback that is being constructed is not dead.
  lemma ConstructingIsNotDead(w: World, t: Thread, c: Callback)
    requires Inv(w) && t in w.threads
    requires w.threads[t].pc == RegisterLocked(c)
             || (w.threads[t].hosts != [] && w.threads[t].hosts[|w.threads[t].hosts| - 1] == Inline(c))
    ensures c in w.callbacks && !w.IsDead(c)
  {
    assert ThreadOk(w, t);
  }

  lemma FirstIsNotDead(w: World, s: State)
    requires Inv(w) && s in w.states && w.states[s].callbacks != []
    ensures w.states[s].callbacks[0] in w.callbacks && !w.IsDead(w.states[s].callbacks[0])
  {
    assert StateOk(w, s) && CallbackOk(w, w.states[s].callbacks[0]);
  }

  // Up to marks, a step adds at most one host, of a callback that is not dead, or takes one away.
  predicate HostsFollow(w: World, hosts: seq<Host>, hosts': seq<Host>) {
    forall i :: 0 <= i < |hosts'| ==>
      if i < |hosts| then
        hosts'[i] == hosts[i] || (hosts[i].Invoking? && hosts'[i] == hosts[i].(destroyed := true))
      else
        && i == |hosts|
        && (hosts'[i].Invoking? ==> hosts'[i].callback in w.callbacks && !w.IsDead(hosts'[i].callback))
  }

  predicate Follows(w: World, w': World) {
    && w'.threads.Keys == w.threads.Keys
    && (forall c :: c in w.callbacks ==> StaysThere(w, w', c))
    && (forall u :: u in w.threads ==> HostsFollow(w, w.threads[u].hosts, w'.threads[u].hosts))
  }

  lemma FollowsPop(w: World, t: Thread, s: State)
    requires Inv(w) && t in w.threads && s in w.states && w.states[s].callbacks != []
    requires w.states[s].callbacks[0] in w.callbacks
    ensures Follows(w, PopAndInvoke(w, t, s)) && PopAndInvoke(w, t, s).callbacks.Keys == w.callbacks.Keys
  {
    FirstIsNotDead(w, s);
    hide Inv;
  }

  lemma FollowsMark(w: World, t: Thread, c: Callback)
    requires t in w.threads && c in w.callbacks && w.callbacks[c].state in w.states
    ensures Follows(w, UnlinkAndMark(w, t, c)) && UnlinkAndMark(w, t, c).callbacks.Keys == w.callbacks.Keys
  {
    var unlinked := if w.callbacks[c].registered then Unlink(w, c) else w;
    var hosts, ids := w.threads[t].hosts, unlinked.Sharing(c);
    assert forall b :: b in w.callbacks ==> StaysThere(w, unlinked, b);
    if HasFrame(hosts, ids) {
      var k := MarkOne(hosts, ids);
      assert HostsFollow(w, hosts, Mark(hosts, ids));
    }
  }

  lemma FollowsRegister(w: World, t: Thread, c: Callback)
    requires Inv(w) && t in w.threads && w.threads[t].pc == RegisterLocked(c)
    requires c in w.callbacks && w.callbacks[c].state in w.states
    ensures Follows(w, FinishRegister(w, t, c)) && FinishRegister(w, t, c).callbacks.Keys == w.callbacks.Keys
  {
    ConstructingIsNotDead(w, t, c);
    hide Inv;
  }

  lemma FollowsEnd(w: World, t: Thread)
    requires Inv(w) && t in w.threads && w.threads[t].hosts != []
    ensures Follows(w, EndUserCode(w, t)) && EndUserCode(w, t).callbacks.Keys == w.callbacks.Keys
  {
    var host := w.threads[t].hosts[|w.threads[t].hosts| - 1];
    if host.Inline? {
      ConstructingIsNotDead(w, t, host.callback);
    }
    hide Inv;
  }

  lemma FollowsOther(w: World, t: Thread)
    requires Enabled(w, t, Proceed)
    requires match w.threads[t].pc
             case RequestLocked(_) => true
             case Finish(_, _, _) => true
             case DestroyCheck(_) => true
             case DestroyUnlock(_) => true
             case Loop(s) => s in w.states && w.states[s].callbacks == []
             case _ => false
    ensures Follows(w, Do(w, t, Proceed)) && Do(w, t, Proceed).callbacks.Keys == w.callbacks.Keys
  {
  }

  lemma FollowsProceed(w: World, t: Thread)
    requires Inv(w) && Enabled(w, t, Proceed)
    ensures Follows(w, Do(w, t, Proceed)) && Do(w, t, Proceed).callbacks.Keys == w.callbacks.Keys
  {
    hide Inv, Follows;
    match w.threads[t].pc
    case User => FollowsEnd(w, t);
    case Loop(s) =>
      if w.states[s].callbacks == [] {
        FollowsOther(w, t);
      } else {
        FollowsPop(w, t, s);
      }
    case RegisterLocked(c) => FollowsRegister(w, t, c);
    case DestroyLocked(c) => FollowsMark(w, t, c);
    case _ => FollowsOther(w, t);
  }

  lemma FollowsLock(w: World, t: Thread)
    requires Enabled(w, t, Lock)
    ensures Follows(w, Do(w, t, Lock)) && Do(w, t, Lock).callbacks == w.callbacks
  {
  }

  lemma FollowsStart(w: World, t: Thread, step: Step)
    requires Enabled(w, t, step) && !step.Proceed? && !step.Lock?
    ensures Follows(w, Do(w, t, step))
    ensures step.StartRegister? || Do(w, t, step).callbacks.Keys == w.callbacks.Keys
  {
    match step
    case StartRequest(s) =>
    case StartRegister(s, c, a) =>
    case StartDestroy(c) =>
    case SpuriousWake =>
  }

  lemma FollowsStep(w: World, t: Thread, step: Step)
    requires Inv(w) && Enabled(w, t, step)
    ensures Follows(w, Do(w, t, step))
    ensures step.StartRegister? || Do(w, t, step).callbacks.Keys == w.callbacks.Keys
  {
    hide Inv, Follows, Do, Enabled;
    if step.Proceed? {
      FollowsProceed(w, t);
    } else if step.Lock? {
      FollowsLock(w, t);
    } else {
      FollowsStart(w, t, step);
    }
  }

  lemma AddressesKept(w: World, t: Thread, step: Step)
    requires Inv(w) && AddressesDiffer(w) && Enabled(w, t, step)
    ensures AddressesDiffer(Do(w, t, step))
  {
    var w' := Do(w, t, step);
    if step.StartRegister? {
      hide Inv;
    } else {
      FollowsStep(w, t, step);
      hide Inv, Do, Enabled, HostsFollow;
      assert forall c :: c in w.callbacks ==> StaysThere(w, w', c);
    }
  }

  lemma FrameIsKnown(w: World, u: Thread, i: nat)
    requires Inv(w) && u in w.threads && i < |w.threads[u].hosts| && w.threads[u].hosts[i].Invoking?
    ensures w.threads[u].hosts[i].callback in w.callbacks
  {
    assert ThreadOk(w, u) && HostOk(w, u, w.threads[u].hosts[i]);
  }

  predicate FramesKnown(w: World, hosts: seq<Host>) {
    forall i :: 0 <= i < |hosts| && hosts[i].Invoking? ==> hosts[i].callback in w.callbacks
  }

  lemma FramesFollow(w: World, w': World, hosts: seq<Host>, hosts': seq<Host>)
    requires Follows(w, w') && HostsFollow(w, hosts, hosts') && FramesApart(w, hosts) && FramesKnown(w, hosts)
    requires AddressesDiffer(w)
    ensures FramesApart(w', hosts')
  {
    forall i, j | 0 <= i < j < |hosts'|
      ensures PairApart(w', hosts'[i], hosts'[j])
    {
      assert j < |hosts| ==> PairApart(w, hosts[i], hosts[j]);
      if hosts'[i].Invoking? && hosts'[j].Invoking? {
        assert StaysThere(w, w', hosts'[i].callback) && StaysThere(w, w', hosts'[j].callback);
      }
    }
  }

  lemma FramesKept(w: World, t: Thread, step: Step, u: Thread)
    requires Inv(w) && Apart(w) && Enabled(w, t, step) && u in w.threads && u in Do(w, t, step).threads
    ensures FramesApart(Do(w, t, step), Do(w, t, step).threads[u].hosts)
  {
    var hosts := w.threads[u].hosts;
    hide Inv, Do, Enabled, FramesApart, HostsFollow;
    FollowsStep(w, t, step);
    forall i | 0 <= i < |hosts| && hosts[i].Invoking?
      ensures hosts[i].callback in w.callbacks
    {
      FrameIsKnown(w, u, i);
    }
    FramesFollow(w, Do(w, t, step), hosts, Do(w, t, step).threads[u].hosts);
  }

  lemma ApartKeeps(w: World, t: Thread, step: Step)
    requires Inv(w) && Apart(w) && Enabled(w, t, step)
    ensures Apart(Do(w, t, step))
  {
    var w' := Do(w, t, step);
    AddressesKept(w, t, step);
    FollowsStep(w, t, step);
    forall u | u in w'.threads
      ensures FramesApart(w', w'.threads[u].hosts)
    {
      FramesKept(w, t, step, u);
    }
  }

  // Main lemma: every step of every thread keeps the invariant.
  lemma StepKeeps(w: World, t: Thread, step: Step)
    requires Inv(w) && Apart(w) && Enabled(w, t, step)
    ensures Inv(Do(w, t, step)) && Apart(Do(w, t, step))
  {
    ApartKeeps(w, t, step);
    match step
    case StartRequest(s) => MoveKeeps(w, t, RequestLock(s));
    case StartRegister(s, c, a) => StartRegisterKeeps(w, t, s, c, a);
    case StartDestroy(c) =>
      if w.callbacks[c].status.Live? {
        StartDestroyKeeps(w, t, c);
      } else {
        DestroyInertKeeps(w, t, c);
      }
    case Lock => AcquireKeeps(w, t);
    case Proceed => ProceedKeeps(w, t);
    case SpuriousWake => MoveKeeps(w, t, DestroyWoken(w.threads[t].pc.callback));
  }

  predicate IsInitial(w: World) {
    && w.callbacks == map[]
    && (forall s :: s in w.states ==> w.states[s] == StopState(false, [], None, Idle, 0, {}))
    && (forall t :: t in w.threads ==> w.threads[t] == ThreadState([], User))
  }

  lemma InitialInv(w: World)
    requires IsInitial(w)
    ensures Inv(w) && Apart(w)
  {
  }
}
