// A run in which a destructor takes an older frame for its own: a callback destroys itself while
// it runs, another one is built in its storage for a second state, and is destroyed by the same
// thread while a second thread is invoking it.

module StopStaleFrame {
  import opened StopProtocol
  import opened Wrappers
  import opened StopSafety
  import opened StopRuns
  import opened StopLifetimes
  import opened StopProgress
  import opened StopDestruction

  function Invoked(w: World, t: Thread, s: State, c: Callback): World
    requires t in w.threads && s in w.states && c in w.callbacks
  {
    w.SetState(s, w.states[s].(callbacks := [], requested := true, phase := Draining(t), atFlip := {c}))
     .SetCallback(c, w.callbacks[c].(registered := false, running := true, invoked := w.callbacks[c].invoked + 1))
     .Become(t, ThreadState(w.threads[t].hosts + [Invoking(s, c, false)], User))
  }

  lemma RequestLeads(w: World, t: Thread, s: State, c: Callback)
    requires IsUser(w, t) && IsFreeState(w, s) && !w.states[s].requested
    requires c in w.callbacks && w.states[s].callbacks == [c]
    ensures Leads(w, t, [StartRequest(s)] + ([Lock] + ([Proceed] + ([Proceed] + []))), Invoked(w, t, s, c))
  {
    hide Leads;
    var end := Invoked(w, t, s, c);
    var asked := w.Goto(t, RequestLock(s));
    var locked := w.SetState(s, w.states[s].(holder := Some(t))).Goto(t, RequestLocked(s));
    assert Do(asked, t, Lock) == locked;
    var flipped := TestAndFlip(locked, t, s);
    assert flipped.states[s].atFlip == {c} && [c][1..] == [];
    assert Do(flipped, t, Proceed).states == end.states;
    assert Do(flipped, t, Proceed).threads == end.threads;
    Arrived(end, t);
    First(flipped, t, Proceed, end, [], end);
    First(locked, t, Proceed, flipped, [Proceed] + [], end);
    First(asked, t, Lock, locked, [Proceed] + ([Proceed] + []), end);
    First(w, t, StartRequest(s), asked, [Lock] + ([Proceed] + ([Proceed] + [])), end);
  }

  // A request_stop, up to the callable of its only callback.
  lemma Requests(worlds: seq<World>, moves: seq<Move>, t: Thread, s: State, c: Callback)
    returns (worlds': seq<World>, moves': seq<Move>)
    requires IsRun(worlds, moves) && IsUser(Last(worlds), t) && IsFreeState(Last(worlds), s)
    requires !Last(worlds).states[s].requested
    requires c in Last(worlds).callbacks && Last(worlds).states[s].callbacks == [c]
    ensures GoesOn(worlds, moves, worlds', moves', t, 4) && Last(worlds') == Invoked(Last(worlds), t, s, c)
  {
    RequestLeads(Last(worlds), t, s, c);
    hide Leads, IsRun, GoesOn;
    worlds', moves' := GoesThrough(worlds, moves, t, [StartRequest(s)] + ([Lock] + ([Proceed] + ([Proceed] + []))),
                                   Invoked(Last(worlds), t, s, c));
  }

  // ----- The run.

  const START := World(
    map[0 := StopState(false, [], None, Idle, 0, {}), 1 := StopState(false, [], None, Idle, 0, {})],
    map[],
    map[0 := ThreadState([], User), 1 := ThreadState([], User)])

  lemma MarkOnly(s: State, c: Callback, ids: set<Callback>)
    requires c in ids
    ensures Mark([Invoking(s, c, false)], ids) == [Invoking(s, c, true)]
  {
  }

  // Thread 0 is left with the marked frame of the dead callback 0, whose address is 7.
  lemma LeavesFrame() returns (worlds: seq<World>, moves: seq<Move>)
    ensures IsRun(worlds, moves) && |worlds| == |moves| + 1 && |moves| == 11
    ensures Last(worlds).threads == map[0 := ThreadState([Invoking(0, 0, true)], User), 1 := ThreadState([], User)]
    ensures Last(worlds).callbacks == map[0 := CallbackState(0, 7, Dead, false, true, 1, false)]
    ensures 1 in Last(worlds).states && Last(worlds).states[1] == START.states[1]
  {
    worlds, moves := [START], [];
    assert IsRun(worlds, moves);
    hide IsRun;
    worlds, moves := Registers(worlds, moves, 0, 0, 0, 7);
    worlds, moves := Requests(worlds, moves, 0, 0, 0);
    assert IsFrame(Last(worlds).threads[0].hosts[0], Last(worlds).Sharing(0));
    assert [] + [Invoking(0, 0, false)] == [Invoking(0, 0, false)];
    MarkOnly(0, 0, Last(worlds).Sharing(0));
    worlds, moves := DestructorReturns(worlds, moves, 0, 0);
  }

  // Callback 1 is built at the same address, for state 1, and thread 1 is invoking it when thread 0
  // destroys it.
  lemma DestroysInvoked() returns (worlds: seq<World>, moves: seq<Move>)
    ensures IsRun(worlds, moves) && |worlds| == |moves| + 1 && |moves| == 22
    ensures Last(worlds).IsDead(1) && Last(worlds).callbacks[1].state == 1
    ensures 1 in Last(worlds).threads && Last(worlds).threads[1] == ThreadState([Invoking(1, 1, false)], User)
    ensures IsFreeState(Last(worlds), 1)
  {
    worlds, moves := LeavesFrame();
    hide IsRun;
    worlds, moves := Registers(worlds, moves, 0, 1, 1, 7);
    worlds, moves := Requests(worlds, moves, 1, 1, 1);
    assert IsFrame(Last(worlds).threads[0].hosts[0], Last(worlds).Sharing(1));
    assert [] + [Invoking(1, 1, false)] == [Invoking(1, 1, false)];
    worlds, moves := DestructorReturns(worlds, moves, 0, 1);
  }

  // Thread 1 comes back to a dead callback.
  lemma StaleFrameRun() returns (worlds: seq<World>, moves: seq<Move>)
    ensures IsRun(worlds, moves) && |worlds| == |moves| + 1 && |moves| == 24
    ensures exists j :: 0 <= j < 24 && LeavesEarly(worlds[j], moves[j], 1)
    ensures Touches(worlds[24], 1, 1) && worlds[24].IsDead(1)
  {
    worlds, moves := DestroysInvoked();
    hide IsRun, LeavesEarly;
    worlds, moves := Goes(worlds, moves, 1, Proceed);
    worlds, moves := Goes(worlds, moves, 1, Lock);
    NothingDeadIsTouched(worlds, moves, 24, 1, 1);
  }
}
