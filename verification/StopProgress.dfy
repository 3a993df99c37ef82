// Every call of the stop-callback protocol returns: the steps that a thread takes by itself, and
// the world in which they end.

module StopProgress {
  import opened StopProtocol
  import opened Wrappers
  import opened StopSafety
  import opened StopRuns

  // ----- Longer runs.

  function Last(worlds: seq<World>): World
    requires worlds != []
  {
    worlds[|worlds| - 1]
  }

  // The run goes on by n steps of t.
  predicate GoesOn(worlds: seq<World>, moves: seq<Move>, worlds': seq<World>, moves': seq<Move>, t: Thread, n: nat) {
    && IsRun(worlds', moves') && worlds <= worlds' && moves <= moves'
    && |moves'| == |moves| + n && |worlds'| == |moves'| + 1
    && forall i :: |moves| <= i < |moves'| ==> moves'[i].thread == t
  }

  lemma Goes(worlds: seq<World>, moves: seq<Move>, t: Thread, step: Step)
    returns (worlds': seq<World>, moves': seq<Move>)
    requires IsRun(worlds, moves) && Enabled(Last(worlds), t, step)
    ensures GoesOn(worlds, moves, worlds', moves', t, 1) && Last(worlds') == Do(Last(worlds), t, step)
  {
    hide Enabled, Do, IsInitial;
    worlds', moves' := worlds + [Do(Last(worlds), t, step)], moves + [Move(t, step)];
    forall i | 0 <= i < |moves'|
      ensures IsMove(worlds', moves', i)
    {
      if i < |moves| {
        assert IsMove(worlds, moves, i);
      }
    }
  }

  // The steps lead a thread from one world to another.
  predicate Leads(w: World, t: Thread, steps: seq<Step>, end: World)
    decreases |steps|
  {
    if steps == [] then w == end
    else Enabled(w, t, steps[0]) && Leads(Do(w, t, steps[0]), t, steps[1..], end)
  }

  lemma Arrived(w: World, t: Thread)
    ensures Leads(w, t, [], w)
  {
  }

  lemma First(w: World, t: Thread, step: Step, next: World, steps: seq<Step>, end: World)
    requires Enabled(w, t, step) && Do(w, t, step) == next && Leads(next, t, steps, end)
    ensures Leads(w, t, [step] + steps, end)
  {
    hide Enabled, Do;
    assert ([step] + steps)[1..] == steps;
  }

  lemma {:induction false} LeadsOn(w: World, t: Thread, steps: seq<Step>, next: World, more: seq<Step>, end: World)
    requires Leads(w, t, steps, next) && Leads(next, t, more, end)
    ensures Leads(w, t, steps + more, end)
    decreases |steps|
  {
    hide Enabled, Do;
    if steps == [] {
      assert [] + more == more;
    } else {
      LeadsOn(Do(w, t, steps[0]), t, steps[1..], next, more, end);
      assert (steps + more)[1..] == steps[1..] + more;
    }
  }

  lemma {:induction false} GoesThrough(worlds: seq<World>, moves: seq<Move>, t: Thread, steps: seq<Step>, end: World)
    returns (worlds': seq<World>, moves': seq<Move>)
    requires IsRun(worlds, moves) && Leads(Last(worlds), t, steps, end)
    ensures GoesOn(worlds, moves, worlds', moves', t, |steps|) && Last(worlds') == end
    decreases |steps|
  {
    hide Enabled, Do, IsInitial;
    if steps == [] {
      worlds', moves' := worlds, moves;
    } else {
      worlds', moves' := Goes(worlds, moves, t, steps[0]);
      var longer, more := GoesThrough(worlds', moves', t, steps[1..], end);
      worlds', moves' := longer, more;
    }
  }

  // ----- A request_stop that loses.

  predicate IsUser(w: World, t: Thread) {
    t in w.threads && w.threads[t].pc.User?
  }

  predicate IsFreeState(w: World, s: State) {
    s in w.states && w.states[s].holder.None?
  }

  function Unlocked(w: World, s: State): World
    requires s in w.states
  {
    w.SetState(s, w.states[s].(holder := None))
  }

  predicate AsksInVain(w: World, t: Thread, s: State) {
    && t in w.threads && s in w.states && w.states[s].requested
    && (w.threads[t].pc == RequestLocked(s) || (w.threads[t].pc == RequestLock(s) && w.states[s].holder.None?))
  }

  lemma LoserLeads(w: World, t: Thread, s: State)
    requires AsksInVain(w, t, s)
    ensures Leads(w, t, if w.threads[t].pc.RequestLock? then [Lock, Proceed] else [Proceed], Unlocked(w, s).Goto(t, User))
  {
    hide Leads;
    var end := Unlocked(w, s).Goto(t, User);
    var locked := if w.threads[t].pc.RequestLock? then TakeLock(w, t) else w;
    Arrived(end, t);
    assert Do(locked, t, Proceed) == end;
    First(locked, t, Proceed, end, [], end);
    assert [Proceed] + [] == [Proceed];
    if w.threads[t].pc.RequestLock? {
      First(w, t, Lock, locked, [Proceed], end);
      assert [Lock] + [Proceed] == [Lock, Proceed];
    }
  }

  // Main result: in every run, a thread that asks for a stop that was requested already, with the
  // mutex free or its own, is at most two of its own steps from returning, and nothing else has
  // changed by then.
  lemma LoserReturns(worlds: seq<World>, moves: seq<Move>, t: Thread, s: State)
    returns (worlds': seq<World>, moves': seq<Move>)
    requires IsRun(worlds, moves) && AsksInVain(Last(worlds), t, s)
    ensures exists n :: 0 < n <= 2 && GoesOn(worlds, moves, worlds', moves', t, n)
    ensures var w, w' := Last(worlds), Last(worlds');
            && w'.threads == w.threads[t := ThreadState(w.threads[t].hosts, User)]
            && w'.callbacks == w.callbacks
            && w'.states == w.states[s := w.states[s].(holder := None)]
  {
    var w := Last(worlds);
    LoserLeads(w, t, s);
    var steps := if w.threads[t].pc.RequestLock? then [Lock, Proceed] else [Proceed];
    hide Leads, IsRun, GoesOn, AsksInVain;
    worlds', moves' := GoesThrough(worlds, moves, t, steps, Unlocked(w, s).Goto(t, User));
    assert GoesOn(worlds, moves, worlds', moves', t, |steps|);
  }

  // The whole call leaves everything as it was.
  lemma SecondRequest(worlds: seq<World>, moves: seq<Move>, t: Thread, s: State)
    returns (worlds': seq<World>, moves': seq<Move>)
    requires IsRun(worlds, moves) && IsUser(Last(worlds), t) && IsFreeState(Last(worlds), s)
    requires Last(worlds).states[s].requested
    ensures GoesOn(worlds, moves, worlds', moves', t, 3) && Last(worlds') == Last(worlds)
  {
    var w := Last(worlds);
    var asked := w.Goto(t, RequestLock(s));
    LoserLeads(asked, t, s);
    var end := Unlocked(asked, s).Goto(t, User);
    assert end.states == w.states && end.threads == w.threads;
    First(w, t, StartRequest(s), asked, [Lock, Proceed], w);
    hide Leads, IsRun, GoesOn;
    worlds', moves' := GoesThrough(worlds, moves, t, [StartRequest(s)] + [Lock, Proceed], w);
  }

  // ----- Registration.

  function Registered(w: World, s: State, c: Callback, a: Address): World
    requires s in w.states
  {
    w.SetState(s, w.states[s].(callbacks := [c] + w.states[s].callbacks))
     .SetCallback(c, CallbackState(s, a, Live, true, false, 0, false))
  }

  predicate CanRegister(w: World, t: Thread, s: State, c: Callback, a: Address) {
    IsUser(w, t) && IsFreeState(w, s) && c !in w.callbacks && w.IsFree(a)
  }

  // The constructor, up to where it holds the mutex.
  function Registering(w: World, t: Thread, s: State, c: Callback, a: Address): World
    requires CanRegister(w, t, s, c, a)
  {
    w.SetState(s, w.states[s].(holder := Some(t)))
     .SetCallback(c, CallbackState(s, a, Constructing(t), false, false, 0, false))
     .Goto(t, RegisterLocked(c))
  }

  lemma RegisteringLeads(w: World, t: Thread, s: State, c: Callback, a: Address, steps: seq<Step>, end: World)
    requires CanRegister(w, t, s, c, a) && Leads(Registering(w, t, s, c, a), t, steps, end)
    ensures Leads(w, t, [StartRegister(s, c, a)] + ([Lock] + steps), end)
  {
    hide Leads;
    var started := Do(w, t, StartRegister(s, c, a));
    var locked := Registering(w, t, s, c, a);
    assert Do(started, t, Lock) == locked;
    First(started, t, Lock, locked, steps, end);
    First(w, t, StartRegister(s, c, a), started, [Lock] + steps, end);
  }

  lemma Registers(worlds: seq<World>, moves: seq<Move>, t: Thread, s: State, c: Callback, a: Address)
    returns (worlds': seq<World>, moves': seq<Move>)
    requires IsRun(worlds, moves) && CanRegister(Last(worlds), t, s, c, a) && !Last(worlds).states[s].requested
    ensures GoesOn(worlds, moves, worlds', moves', t, 3) && Last(worlds') == Registered(Last(worlds), s, c, a)
  {
    var w := Last(worlds);
    var locked, end := Registering(w, t, s, c, a), Registered(w, s, c, a);
    assert Do(locked, t, Proceed) == end by {
      assert Do(locked, t, Proceed).threads == w.threads;
      assert Do(locked, t, Proceed).states == end.states;
      assert Do(locked, t, Proceed).callbacks == end.callbacks;
    }
    Arrived(end, t);
    First(locked, t, Proceed, end, [], end);
    RegisteringLeads(w, t, s, c, a, [Proceed] + [], end);
    hide Leads, IsRun, GoesOn;
    worlds', moves' := GoesThrough(worlds, moves, t, [StartRegister(s, c, a)] + ([Lock] + ([Proceed] + [])), end);
  }

  // After the stop, the constructor runs the callable itself; when that returns the callback is
  // left unregistered.
  lemma RegistersLate(worlds: seq<World>, moves: seq<Move>, t: Thread, s: State, c: Callback, a: Address)
    returns (worlds': seq<World>, moves': seq<Move>)
    requires IsRun(worlds, moves) && CanRegister(Last(worlds), t, s, c, a) && Last(worlds).states[s].requested
    ensures GoesOn(worlds, moves, worlds', moves', t, 4)
    ensures Last(worlds') == Last(worlds).SetCallback(c, CallbackState(s, a, Inert, false, false, 1, false))
  {
    var w := Last(worlds);
    var end := w.SetCallback(c, CallbackState(s, a, Inert, false, false, 1, false));
    var locked := Registering(w, t, s, c, a);
    var running := Do(locked, t, Proceed);
    var hosts := w.threads[t].hosts;
    assert (hosts + [Inline(c)])[..|hosts|] == hosts;
    assert Do(running, t, Proceed) == end by {
      assert Do(running, t, Proceed).threads == w.threads;
      assert Do(running, t, Proceed).states == w.states;
      assert Do(running, t, Proceed).callbacks == end.callbacks;
    }
    Arrived(end, t);
    First(running, t, Proceed, end, [], end);
    First(locked, t, Proceed, running, [Proceed] + [], end);
    RegisteringLeads(w, t, s, c, a, [Proceed] + ([Proceed] + []), end);
    hide Leads, IsRun, GoesOn;
    worlds', moves' :=
      GoesThrough(worlds, moves, t, [StartRegister(s, c, a)] + ([Lock] + ([Proceed] + ([Proceed] + []))), end);
  }

  // ----- A request_stop that wins, whose callbacks return at once.

  predicate IsServable(w: World, s: State) {
    && s in w.states && Distinct(w.states[s].callbacks)
    && (forall c :: c in w.states[s].callbacks ==> c in w.callbacks && !w.IsDead(c))
    && (forall u, c :: u in w.threads && c in w.states[s].callbacks ==> w.threads[u].pc != DestroyWait(c))
  }

  lemma InvIsServable(w: World, s: State)
    requires Inv(w) && s in w.states
    ensures IsServable(w, s)
  {
    assert StateOk(w, s);
    forall c | c in w.states[s].callbacks
      ensures c in w.callbacks && w.callbacks[c].registered && !w.IsDead(c)
    {
      assert CallbackOk(w, c);
    }
    forall u, c | u in w.threads && c in w.states[s].callbacks
      ensures w.threads[u].pc != DestroyWait(c)
    {
      assert ThreadOk(w, u);
    }
  }

  function ServedCallback(callback: CallbackState): CallbackState {
    callback.(registered := false, running := false, invoked := callback.invoked + 1)
  }

  // The first callback of the list has been invoked.
  function ServedFirst(w: World, s: State): World
    requires IsServable(w, s) && w.states[s].callbacks != []
  {
    var list := w.states[s].callbacks;
    w.SetState(s, w.states[s].(callbacks := list[1..])).SetCallback(list[0], ServedCallback(w.callbacks[list[0]]))
  }

  predicate IsDraining(w: World, t: Thread, s: State) {
    t in w.threads && w.threads[t].pc == Loop(s) && s in w.states && w.states[s].holder == Some(t)
  }

  const ROUND := [Proceed, Proceed, Lock, Proceed]

  lemma FourSteps(a: Step, b: Step, c: Step, d: Step)
    ensures [a] + ([b] + ([c] + ([d] + []))) == [a, b, c, d]
  {
  }

  lemma RoundLeads(w: World, t: Thread, s: State)
    requires IsDraining(w, t, s) && IsServable(w, s) && w.states[s].callbacks != []
    ensures Leads(w, t, ROUND, ServedFirst(w, s))
  {
    hide Leads;
    var c := w.states[s].callbacks[0];
    var end := ServedFirst(w, s);
    var hosts := w.threads[t].hosts;
    var invoked := PopAndInvoke(w, t, s);
    var returned := invoked.Become(t, ThreadState(hosts, Relock(s, c, false)));
    assert (hosts + [Invoking(s, c, false)])[..|hosts|] == hosts;
    assert EndUserCode(invoked, t) == returned;
    var locked := TakeLock(returned, t);
    FinishLeads(w, locked, t, s, c);
    Arrived(end, t);
    First(locked, t, Proceed, end, [], end);
    First(returned, t, Lock, locked, [Proceed] + [], end);
    First(invoked, t, Proceed, returned, [Lock] + ([Proceed] + []), end);
    First(w, t, Proceed, invoked, [Proceed] + ([Lock] + ([Proceed] + [])), end);
    FourSteps(Proceed, Proceed, Lock, Proceed);
  }

  lemma FinishLeads(w: World, locked: World, t: Thread, s: State, c: Callback)
    requires IsDraining(w, t, s) && IsServable(w, s) && w.states[s].callbacks != [] && c == w.states[s].callbacks[0]
    requires locked.states == w.states[s := w.states[s].(callbacks := w.states[s].callbacks[1..])]
    requires locked.threads == w.threads[t := ThreadState(w.threads[t].hosts, Finish(s, c, false))]
    requires locked.callbacks == w.callbacks[c := w.callbacks[c].(registered := false, running := true,
                                                                  invoked := w.callbacks[c].invoked + 1)]
    ensures Enabled(locked, t, Proceed) && Do(locked, t, Proceed) == ServedFirst(w, s)
  {
    assert Broadcast(c, locked.threads) == locked.threads;
    assert Do(locked, t, Proceed).threads == w.threads;
  }

  // All of them have.
  function ServedAll(w: World, s: State): World
    requires IsServable(w, s)
    decreases |w.states[s].callbacks|
  {
    if w.states[s].callbacks == [] then w else ServedAll(ServedFirst(w, s), s)
  }

  function Rounds(n: nat): seq<Step> {
    if n == 0 then [] else ROUND + Rounds(n - 1)
  }

  lemma {:induction false} RoundsLength(n: nat)
    ensures |Rounds(n)| == 4 * n
  {
    if n > 0 {
      RoundsLength(n - 1);
    }
  }

  lemma {:induction false} RoundsLead(w: World, t: Thread, s: State)
    requires IsDraining(w, t, s) && IsServable(w, s)
    ensures Leads(w, t, Rounds(|w.states[s].callbacks|), ServedAll(w, s))
    ensures IsDraining(ServedAll(w, s), t, s)
    decreases |w.states[s].callbacks|
  {
    hide Leads;
    if w.states[s].callbacks == [] {
      Arrived(w, t);
    } else {
      RoundLeads(w, t, s);
      RoundsLead(ServedFirst(w, s), t, s);
      LeadsOn(w, t, ROUND, ServedFirst(w, s), Rounds(|w.states[s].callbacks| - 1), ServedAll(w, s));
    }
  }

  // What is different then: the list is empty, and each callback of it was invoked once more.
  predicate IsServed(w: World, w': World, s: State)
    requires s in w.states
  {
    && w'.threads == w.threads && w'.states == w.states[s := w.states[s].(callbacks := [])]
    && w'.callbacks.Keys == w.callbacks.Keys
    && forall c :: c in w.callbacks ==>
         w'.callbacks[c] == if c in w.states[s].callbacks then ServedCallback(w.callbacks[c]) else w.callbacks[c]
  }

  lemma {:induction false} ServedAllIsServed(w: World, s: State)
    requires IsServable(w, s)
    ensures IsServed(w, ServedAll(w, s), s)
    decreases |w.states[s].callbacks|
  {
    var list := w.states[s].callbacks;
    if list == [] {
      assert w.states == w.states[s := w.states[s].(callbacks := [])];
    } else {
      var next := ServedFirst(w, s);
      ServedAllIsServed(next, s);
      hide ServedAll;
      assert forall c :: c in list <==> c == list[0] || c in list[1..];
      assert list[0] !in list[1..];
      assert next.states[s := next.states[s].(callbacks := [])] == w.states[s := w.states[s].(callbacks := [])];
    }
  }

  predicate HasReturned(w: World, w': World, t: Thread, s: State)
    requires t in w.threads && s in w.states
  {
    && w'.threads == w.threads[t := ThreadState(w.threads[t].hosts, User)]
    && w'.states == w.states[s := w.states[s].(callbacks := [], holder := None, phase := Drained,
                                               successes := w.states[s].successes + 1)]
    && w'.callbacks.Keys == w.callbacks.Keys
    && forall c :: c in w.callbacks ==>
         w'.callbacks[c] == if c in w.states[s].callbacks then ServedCallback(w.callbacks[c]) else w.callbacks[c]
  }

  lemma WinnerLeads(w: World, t: Thread, s: State) returns (end: World)
    requires IsDraining(w, t, s) && IsServable(w, s)
    ensures Leads(w, t, Rounds(|w.states[s].callbacks|) + [Proceed], end) && HasReturned(w, end, t, s)
  {
    hide Leads, ServedAll, Rounds, IsServable;
    RoundsLead(w, t, s);
    ServedAllIsServed(w, s);
    var served := ServedAll(w, s);
    end := LeaveLoop(served, t, s);
    Arrived(end, t);
    First(served, t, Proceed, end, [], end);
    assert [Proceed] + [] == [Proceed];
    LeadsOn(w, t, Rounds(|w.states[s].callbacks|), served, [Proceed], end);
  }

  // In every run, a thread at the loop of a request_stop whose callbacks return at once is four
  // steps a callback and one more from returning: the list is empty, each callback of it was invoked,
  // the mutex is free, and nothing else has changed.
  lemma WinnerReturns(worlds: seq<World>, moves: seq<Move>, t: Thread, s: State)
    returns (worlds': seq<World>, moves': seq<Move>)
    requires IsRun(worlds, moves) && IsDraining(Last(worlds), t, s)
    ensures GoesOn(worlds, moves, worlds', moves', t, 4 * |Last(worlds).states[s].callbacks| + 1)
    ensures HasReturned(Last(worlds), Last(worlds'), t, s)
  {
    var w := Last(worlds);
    RunKeepsInv(worlds, moves, |moves|);
    InvIsServable(w, s);
    hide Inv, Leads, Rounds, IsRun, IsServable, HasReturned;
    var end := WinnerLeads(w, t, s);
    RoundsLength(|w.states[s].callbacks|);
    worlds', moves' := GoesThrough(worlds, moves, t, Rounds(|w.states[s].callbacks|) + [Proceed], end);
  }

  // The whole call.
  lemma FirstRequest(worlds: seq<World>, moves: seq<Move>, t: Thread, s: State)
    returns (worlds': seq<World>, moves': seq<Move>)
    requires IsRun(worlds, moves) && IsUser(Last(worlds), t) && IsFreeState(Last(worlds), s)
    requires !Last(worlds).states[s].requested
    ensures GoesOn(worlds, moves, worlds', moves', t, 4 * |Last(worlds).states[s].callbacks| + 4)
    ensures var w, w' := Last(worlds), Last(worlds');
            && w'.threads == w.threads
            && w'.states == w.states[s := w.states[s].(callbacks := [], requested := true, phase := Drained,
                                                       successes := w.states[s].successes + 1,
                                                       atFlip := set c | c in w.states[s].callbacks)]
            && w'.callbacks.Keys == w.callbacks.Keys
            && forall c :: c in w.callbacks ==>
                 w'.callbacks[c] == if c in w.states[s].callbacks then ServedCallback(w.callbacks[c]) else w.callbacks[c]
  {
    var w := Last(worlds);
    var asked := w.Goto(t, RequestLock(s));
    var locked := w.SetState(s, w.states[s].(holder := Some(t))).Goto(t, RequestLocked(s));
    var flipped := TestAndFlip(locked, t, s);
    assert Do(asked, t, Lock) == locked;
    Arrived(flipped, t);
    First(locked, t, Proceed, flipped, [], flipped);
    First(asked, t, Lock, locked, [Proceed] + [], flipped);
    First(w, t, StartRequest(s), asked, [Lock] + ([Proceed] + []), flipped);
    var before, made := GoesThrough(worlds, moves, t, [StartRequest(s)] + ([Lock] + ([Proceed] + [])), flipped);
    assert IsDraining(flipped, t, s);
    worlds', moves' := WinnerReturns(before, made, t, s);
    hide IsRun, Leads;
    assert Last(worlds').threads == w.threads;
  }
}
