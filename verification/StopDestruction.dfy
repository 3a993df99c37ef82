// Every destructor of a stop callback returns: at once, or when the invocation that it waits for
// has ended.

module StopDestruction {
  import opened StopProtocol
  import opened Wrappers
  import opened StopSafety
  import opened StopRuns
  import opened StopProgress

  // ----- A destructor that need not wait.

  predicate CanDestroy(w: World, t: Thread, c: Callback) {
    && IsUser(w, t) && c in w.callbacks && w.callbacks[c].status.Live? && MutexFree(w, c)
    && (HasFrame(w.threads[t].hosts, w.Sharing(c)) || !w.callbacks[c].running)
  }

  // The callback is dead and off the list, and the innermost frame at its address is marked.
  function Destroyed(w: World, t: Thread, c: Callback): World
    requires CanDestroy(w, t, c)
  {
    var callback, hosts := w.callbacks[c], w.threads[t].hosts;
    var s := callback.state;
    var list := w.states[s].callbacks;
    w.SetState(s, w.states[s].(callbacks := if callback.registered then Without(list, c) else list))
     .SetCallback(c, callback.(status := Dead, registered := false, removed := callback.removed || callback.registered))
     .Become(t, ThreadState(if HasFrame(hosts, w.Sharing(c)) then Mark(hosts, w.Sharing(c)) else hosts, User))
  }

  // Up to where it holds the mutex.
  function Entered(w: World, t: Thread, c: Callback): World
    requires CanDestroy(w, t, c)
  {
    var s := w.callbacks[c].state;
    w.SetState(s, w.states[s].(holder := Some(t)))
     .SetCallback(c, w.callbacks[c].(status := Destroying(t)))
     .Goto(t, DestroyLocked(c))
  }

  // Up to where it is about to give it up.
  function Leaving(w: World, t: Thread, c: Callback): World
    requires CanDestroy(w, t, c)
  {
    var end := Destroyed(w, t, c);
    var s := w.callbacks[c].state;
    end.SetState(s, end.states[s].(holder := Some(t)))
       .SetCallback(c, end.callbacks[c].(status := Destroying(t)))
       .Goto(t, DestroyUnlock(c))
  }

  lemma EnteredLeads(w: World, t: Thread, c: Callback, steps: seq<Step>, end: World)
    requires CanDestroy(w, t, c) && Leads(Entered(w, t, c), t, steps, end)
    ensures Leads(w, t, [StartDestroy(c)] + ([Lock] + steps), end)
  {
    hide Leads;
    var started := Do(w, t, StartDestroy(c));
    First(started, t, Lock, Entered(w, t, c), steps, end);
    First(w, t, StartDestroy(c), started, [Lock] + steps, end);
  }

  lemma EnteredUnlinks(w: World, t: Thread, c: Callback)
    requires CanDestroy(w, t, c)
    ensures var entered := Entered(w, t, c);
            var unlinked := if entered.callbacks[c].registered then Unlink(entered, c) else entered;
            && unlinked == Leaving(w, t, c).Become(t, entered.threads[t])
            && unlinked.Sharing(c) == w.Sharing(c)
  {
    hide Mark, HasFrame, Without;
    var entered, leaving := Entered(w, t, c), Leaving(w, t, c);
    var unlinked := if entered.callbacks[c].registered then Unlink(entered, c) else entered;
    assert unlinked.states == leaving.states;
    assert unlinked.callbacks == leaving.callbacks;
    assert unlinked.threads == leaving.threads[t := entered.threads[t]];
  }

  lemma MarksAndLeaves(w: World, t: Thread, c: Callback)
    requires CanDestroy(w, t, c) && HasFrame(w.threads[t].hosts, w.Sharing(c))
    ensures Enabled(Entered(w, t, c), t, Proceed) && Do(Entered(w, t, c), t, Proceed) == Leaving(w, t, c)
  {
    EnteredUnlinks(w, t, c);
    hide Unlink, Without, Mark, HasFrame;
    var entered, leaving := Entered(w, t, c), Leaving(w, t, c);
    assert Do(entered, t, Proceed).threads == leaving.threads;
  }

  lemma ChecksAndLeaves(w: World, t: Thread, c: Callback)
    requires CanDestroy(w, t, c) && !HasFrame(w.threads[t].hosts, w.Sharing(c))
    ensures var checking := Leaving(w, t, c).Goto(t, DestroyCheck(c));
            && Enabled(Entered(w, t, c), t, Proceed) && Do(Entered(w, t, c), t, Proceed) == checking
            && Enabled(checking, t, Proceed) && Do(checking, t, Proceed) == Leaving(w, t, c)
  {
    EnteredUnlinks(w, t, c);
    hide Unlink, Without, Mark, HasFrame;
    var entered, leaving := Entered(w, t, c), Leaving(w, t, c);
    var checking := leaving.Goto(t, DestroyCheck(c));
    assert Do(entered, t, Proceed).threads == checking.threads;
  }

  lemma LeavingLeads(w: World, t: Thread, c: Callback)
    requires CanDestroy(w, t, c)
    ensures Leads(Leaving(w, t, c), t, [Proceed] + [], Destroyed(w, t, c))
  {
    hide Leads;
    var leaving, end := Leaving(w, t, c), Destroyed(w, t, c);
    assert Do(leaving, t, Proceed).states == end.states;
    assert Do(leaving, t, Proceed).callbacks == end.callbacks;
    assert Do(leaving, t, Proceed).threads == end.threads;
    Arrived(end, t);
    First(leaving, t, Proceed, end, [], end);
  }

  // In every run, a destructor whose callback is not running, or whose thread has a frame at its
  // address, returns in four steps of its own, or five.
  lemma DestructorReturns(worlds: seq<World>, moves: seq<Move>, t: Thread, c: Callback)
    returns (worlds': seq<World>, moves': seq<Move>)
    requires IsRun(worlds, moves) && CanDestroy(Last(worlds), t, c)
    ensures var n := if HasFrame(Last(worlds).threads[t].hosts, Last(worlds).Sharing(c)) then 4 else 5;
            GoesOn(worlds, moves, worlds', moves', t, n)
    ensures Last(worlds') == Destroyed(Last(worlds), t, c)
  {
    var w := Last(worlds);
    var entered, leaving, end := Entered(w, t, c), Leaving(w, t, c), Destroyed(w, t, c);
    hide Leads, IsRun, GoesOn, Do, Enabled, Destroyed, Entered, Leaving, CanDestroy;
    LeavingLeads(w, t, c);
    var rest := [Proceed] + [];
    if HasFrame(w.threads[t].hosts, w.Sharing(c)) {
      MarksAndLeaves(w, t, c);
    } else {
      ChecksAndLeaves(w, t, c);
      First(leaving.Goto(t, DestroyCheck(c)), t, Proceed, leaving, rest, end);
      rest := [Proceed] + rest;
    }
    First(entered, t, Proceed, Do(entered, t, Proceed), rest, end);
    EnteredLeads(w, t, c, [Proceed] + rest, end);
    worlds', moves' := GoesThrough(worlds, moves, t, [StartDestroy(c)] + ([Lock] + ([Proceed] + rest)), end);
  }

  // A callback that was built after the stop is simply gone.
  lemma InertReturns(worlds: seq<World>, moves: seq<Move>, t: Thread, c: Callback)
    returns (worlds': seq<World>, moves': seq<Move>)
    requires IsRun(worlds, moves) && IsUser(Last(worlds), t)
    requires c in Last(worlds).callbacks && Last(worlds).callbacks[c].status.Inert?
    ensures GoesOn(worlds, moves, worlds', moves', t, 1)
    ensures Last(worlds') == Last(worlds).SetCallback(c, Last(worlds).callbacks[c].(status := Dead))
  {
    worlds', moves' := Goes(worlds, moves, t, StartDestroy(c));
  }

  // ----- A destructor that waits.

  // The thread is in the callable of its innermost invocation.
  predicate IsInvoking(w: World, u: Thread, s: State, c: Callback) {
    && IsUser(w, u) && IsFreeState(w, s) && c in w.callbacks && !w.IsDead(c)
    && var hosts := w.threads[u].hosts;
    && hosts != [] && hosts[|hosts| - 1] == Invoking(s, c, false)
  }

  // The invocation is over, and whoever waits for its end is awake.
  function Ended(w: World, u: Thread, s: State, c: Callback): World
    requires IsInvoking(w, u, s, c)
  {
    var hosts := w.threads[u].hosts;
    World(w.states[s := w.states[s].(holder := Some(u))],
          w.callbacks[c := w.callbacks[c].(running := false)],
          map v | v in w.threads ::
            if v == u then ThreadState(hosts[..|hosts| - 1], Loop(s))
            else if w.threads[v].pc == DestroyWait(c) then w.threads[v].(pc := DestroyWoken(c))
            else w.threads[v])
  }

  lemma EndLeads(w: World, u: Thread, s: State, c: Callback)
    requires IsInvoking(w, u, s, c)
    ensures Leads(w, u, [Proceed] + ([Lock] + ([Proceed] + [])), Ended(w, u, s, c))
  {
    hide Leads;
    var hosts, end := w.threads[u].hosts, Ended(w, u, s, c);
    var returned := w.Become(u, ThreadState(hosts[..|hosts| - 1], Relock(s, c, false)));
    var locked := TakeLock(returned, u);
    assert Do(locked, u, Proceed).threads == end.threads;
    assert Do(locked, u, Proceed) == end;
    Arrived(end, u);
    First(locked, u, Proceed, end, [], end);
    First(returned, u, Lock, locked, [Proceed] + [], end);
    First(w, u, Proceed, returned, [Lock] + ([Proceed] + []), end);
  }

  lemma InvocationEnds(worlds: seq<World>, moves: seq<Move>, u: Thread, s: State, c: Callback)
    returns (worlds': seq<World>, moves': seq<Move>)
    requires IsRun(worlds, moves) && IsInvoking(Last(worlds), u, s, c)
    ensures GoesOn(worlds, moves, worlds', moves', u, 3) && Last(worlds') == Ended(Last(worlds), u, s, c)
  {
    EndLeads(Last(worlds), u, s, c);
    hide Leads, IsRun, GoesOn;
    worlds', moves' :=
      GoesThrough(worlds, moves, u, [Proceed] + ([Lock] + ([Proceed] + [])), Ended(Last(worlds), u, s, c));
  }

  predicate IsWoken(w: World, t: Thread, c: Callback) {
    t in w.threads && w.threads[t].pc == DestroyWoken(c) && MutexFree(w, c) && !w.callbacks[c].running
  }

  lemma WokenLeads(w: World, t: Thread, c: Callback)
    requires IsWoken(w, t, c)
    ensures Leads(w, t, [Lock] + ([Proceed] + ([Proceed] + [])),
                  w.SetCallback(c, w.callbacks[c].(status := Dead)).Goto(t, User))
  {
    hide Leads;
    var end := w.SetCallback(c, w.callbacks[c].(status := Dead)).Goto(t, User);
    var locked := TakeLock(w, t);
    var checked := locked.Goto(t, DestroyUnlock(c));
    assert Do(locked, t, Proceed) == checked;
    assert Do(checked, t, Proceed).states == w.states;
    assert Do(checked, t, Proceed).threads == end.threads;
    Arrived(end, t);
    First(checked, t, Proceed, end, [], end);
    First(locked, t, Proceed, checked, [Proceed] + [], end);
    First(w, t, Lock, locked, [Proceed] + ([Proceed] + []), end);
  }

  lemma WokenReturns(worlds: seq<World>, moves: seq<Move>, t: Thread, c: Callback)
    returns (worlds': seq<World>, moves': seq<Move>)
    requires IsRun(worlds, moves) && IsWoken(Last(worlds), t, c)
    ensures GoesOn(worlds, moves, worlds', moves', t, 3)
    ensures Last(worlds') == Last(worlds).SetCallback(c, Last(worlds).callbacks[c].(status := Dead)).Goto(t, User)
  {
    WokenLeads(Last(worlds), t, c);
    hide Leads, IsRun, GoesOn;
    worlds', moves' :=
      GoesThrough(worlds, moves, t, [Lock] + ([Proceed] + ([Proceed] + [])),
                  Last(worlds).SetCallback(c, Last(worlds).callbacks[c].(status := Dead)).Goto(t, User));
  }

  lemma NotListed(w: World, t: Thread, s: State, c: Callback)
    requires Inv(w) && t in w.threads && w.threads[t].pc == DestroyWait(c) && s in w.states
    ensures c !in w.states[s].callbacks
  {
    assert ThreadOk(w, t) && StateOk(w, s);
  }

  lemma WokenByThen(w: World, served: World, t: Thread, u: Thread, s: State, c: Callback)
    requires IsInvoking(w, u, s, c) && w.callbacks[c].state == s && c !in w.states[s].callbacks
    requires t in w.threads && w.threads[t].pc == DestroyWait(c) && HasReturned(Ended(w, u, s, c), served, u, s)
    ensures IsWoken(served, t, c) && served.threads[t].hosts == w.threads[t].hosts
  {
  }

  // The run goes on by n steps of any threads.
  predicate IsLonger(worlds: seq<World>, moves: seq<Move>, worlds': seq<World>, moves': seq<Move>, n: nat) {
    IsRun(worlds', moves') && worlds <= worlds' && moves <= moves' && |moves'| == |moves| + n && worlds' != []
  }

  lemma LongerOn(worlds: seq<World>, moves: seq<Move>, a: seq<World>, m: seq<Move>, n: nat,
                 b: seq<World>, o: seq<Move>, t: Thread, k: nat)
    requires IsLonger(worlds, moves, a, m, n) && GoesOn(a, m, b, o, t, k)
    ensures IsLonger(worlds, moves, b, o, n + k)
  {
    hide IsRun;
  }

  lemma IsAsLong(worlds: seq<World>, moves: seq<Move>)
    requires IsRun(worlds, moves)
    ensures IsLonger(worlds, moves, worlds, moves, 0) && |worlds| == |moves| + 1
  {
  }

  lemma LongerIsRun(worlds: seq<World>, moves: seq<Move>, a: seq<World>, m: seq<Move>, n: nat)
    requires IsLonger(worlds, moves, a, m, n)
    ensures IsRun(a, m) && a != []
  {
  }

  // In every run, a destructor that waits for an invocation returns: when the callable returns, and
  // those that are still listed return at once, the other thread is three steps and four a callback
  // and one more from giving the mutex up for good, and then the destructor is three steps from its end.
  lemma WaiterReturns(worlds: seq<World>, moves: seq<Move>, t: Thread, u: Thread, s: State, c: Callback)
    returns (worlds': seq<World>, moves': seq<Move>)
    requires IsRun(worlds, moves) && IsInvoking(Last(worlds), u, s, c) && Last(worlds).callbacks[c].state == s
    requires t in Last(worlds).threads && Last(worlds).threads[t].pc == DestroyWait(c)
    ensures IsLonger(worlds, moves, worlds', moves', 4 * |Last(worlds).states[s].callbacks| + 7)
    ensures Last(worlds').IsDead(c)
    ensures t in Last(worlds').threads && Last(worlds').threads[t] == ThreadState(Last(worlds).threads[t].hosts, User)
  {
    hide Inv, IsRun, HasReturned, IsWoken, IsInvoking, IsDraining, Ended, IsLonger, Enabled, Do, GoesOn;
    IsAsLong(worlds, moves);
    var w := Last(worlds);
    RunKeepsInv(worlds, moves, |moves|);
    EndedIsDraining(w, u, s, c);
    NotListed(w, t, s, c);
    var a, m := InvocationEnds(worlds, moves, u, s, c);
    LongerOn(worlds, moves, worlds, moves, 0, a, m, u, 3);
    LongerIsRun(worlds, moves, a, m, 3);
    var b, n := WinnerReturns(a, m, u, s);
    LongerOn(worlds, moves, a, m, 3, b, n, u, 4 * |w.states[s].callbacks| + 1);
    LongerIsRun(worlds, moves, b, n, 4 * |w.states[s].callbacks| + 4);
    WokenByThen(w, Last(b), t, u, s, c);
    WokenThere(Last(b), t, c);
    worlds', moves' := WokenReturns(b, n, t, c);
    LongerOn(worlds, moves, b, n, 4 * |w.states[s].callbacks| + 4, worlds', moves', t, 3);
    LongerIsRun(worlds, moves, worlds', moves', 4 * |w.states[s].callbacks| + 7);
  }

  lemma EndedIsDraining(w: World, u: Thread, s: State, c: Callback)
    requires IsInvoking(w, u, s, c)
    ensures IsDraining(Ended(w, u, s, c), u, s) && Ended(w, u, s, c).states[s].callbacks == w.states[s].callbacks
    ensures s in w.states && c in w.callbacks
  {
  }

  lemma WokenThere(w: World, t: Thread, c: Callback)
    requires IsWoken(w, t, c)
    ensures c in w.callbacks && t in w.threads
  {
  }
}
