// How long a callback lives: no step touches one that is gone, in every run but those in which a
// destructor takes an older frame for its own, and exactly when that happens.

module StopLifetimes {
  import opened StopProtocol
  import opened Wrappers
  import opened StopSafety
  import opened StopRuns

  // ----- The end of a destructor.

  predicate LeavesDestructor(w: World, move: Move, c: Callback) {
    move.thread in w.threads && move.step.Proceed? && w.threads[move.thread].pc == DestroyUnlock(c)
  }

  // It has not waited, because its thread has a frame at the callback's address, and that is the
  // frame of another callback, which was there before.
  predicate LeavesEarly(w: World, move: Move, c: Callback) {
    && LeavesDestructor(w, move, c) && c in w.callbacks && w.callbacks[c].running
    && HasFrame(w.threads[move.thread].hosts, w.Sharing(c)) && !HasFrame(w.threads[move.thread].hosts, {c})
  }

  predicate RunsElsewhere(w: World, t: Thread, c: Callback) {
    exists u :: u in w.threads && u != t && c in w.callbacks && Runs(w.threads[u], w.callbacks[c].state, c, false)
  }

  // A frame of its own is marked, and then no other thread is in the callback.
  lemma OwnFrame(w: World, t: Thread, c: Callback)
    requires Inv(w) && t in w.threads && w.threads[t].pc == DestroyUnlock(c)
    requires HasFrame(w.threads[t].hosts, {c})
    ensures c in w.callbacks && Runs(w.threads[t], w.callbacks[c].state, c, true)
    ensures forall s :: !Runs(w.threads[t], s, c, false)
    ensures w.callbacks[c].state in w.states && w.states[w.callbacks[c].state].phase == Draining(t)
  {
    assert ThreadOk(w, t);
    var hosts := w.threads[t].hosts;
    var i :| 0 <= i < |hosts| && IsFrame(hosts[i], {c});
    assert HostOk(w, t, hosts[i]);
    forall s | Runs(w.threads[t], s, c, false)
      ensures false
    {
      RunsIsOk(w, t, s, c, false);
    }
  }

  lemma HostIsFrame(hosts: seq<Host>, c: Callback)
    ensures forall s, d :: Invoking(s, c, d) in hosts ==> HasFrame(hosts, {c})
  {
    forall s, d | Invoking(s, c, d) in hosts
      ensures HasFrame(hosts, {c})
    {
      var i :| 0 <= i < |hosts| && hosts[i] == Invoking(s, c, d);
      assert IsFrame(hosts[i], {c});
    }
  }

  lemma RunningHasFrame(w: World, t: Thread, c: Callback)
    requires Inv(w) && t in w.threads && w.threads[t].pc == DestroyUnlock(c)
    ensures c in w.callbacks && (w.callbacks[c].running ==> HasFrame(w.threads[t].hosts, w.Sharing(c)))
  {
    var hosts := w.threads[t].hosts;
    assert ThreadOk(w, t);
    hide Inv, HostOk;
    if w.callbacks[c].running {
      HostIsFrame(hosts, c);
      if HasFrame(hosts, {c}) {
        var i :| 0 <= i < |hosts| && IsFrame(hosts[i], {c});
        assert IsFrame(hosts[i], w.Sharing(c));
      } else {
        var i :| 0 <= i < |hosts| && IsStale(w, hosts[i], c);
        assert IsFrame(hosts[i], w.Sharing(c));
      }
    }
  }

  lemma ElsewhereIsEarly(w: World, move: Move, c: Callback)
    requires Inv(w) && LeavesDestructor(w, move, c) && RunsElsewhere(w, move.thread, c)
    ensures LeavesEarly(w, move, c)
  {
    hide Inv, Runs;
    var t := move.thread;
    var u :| u in w.threads && u != t && c in w.callbacks && Runs(w.threads[u], w.callbacks[c].state, c, false);
    RunsIsOk(w, u, w.callbacks[c].state, c, false);
    RunningHasFrame(w, t, c);
    if HasFrame(w.threads[t].hosts, {c}) {
      OwnFrame(w, t, c);
    }
  }

  lemma EarlyIsElsewhere(w: World, move: Move, c: Callback)
    requires Inv(w) && LeavesEarly(w, move, c)
    ensures RunsElsewhere(w, move.thread, c)
  {
    var t := move.thread;
    assert ThreadOk(w, t) && CallbackOk(w, c);
    var s := w.callbacks[c].state;
    var u := w.states[s].phase.winner;
    HostIsFrame(w.threads[t].hosts, c);
  }

  // Main result: in every run, a destructor returns while another thread is still to finish the
  // invocation of its callback if and only if it left early.
  lemma LeavesEarlyExactly(worlds: seq<World>, moves: seq<Move>, i: nat, c: Callback)
    requires IsRun(worlds, moves) && i < |moves| && LeavesDestructor(worlds[i], moves[i], c)
    ensures LeavesEarly(worlds[i], moves[i], c) <==> RunsElsewhere(worlds[i], moves[i].thread, c)
  {
    RunKeepsInv(worlds, moves, i);
    if LeavesEarly(worlds[i], moves[i], c) {
      EarlyIsElsewhere(worlds[i], moves[i], c);
    }
    if RunsElsewhere(worlds[i], moves[i].thread, c) {
      ElsewhereIsEarly(worlds[i], moves[i], c);
    }
  }

  // When it has not, nobody else is in the callback, and a frame of its own thread is marked.
  lemma DestructorIsLast(worlds: seq<World>, moves: seq<Move>, i: nat, c: Callback, u: Thread, s: State, destroyed: bool)
    requires IsRun(worlds, moves) && i < |moves| && LeavesDestructor(worlds[i], moves[i], c)
    requires !LeavesEarly(worlds[i], moves[i], c)
    requires u in worlds[i].threads && Runs(worlds[i].threads[u], s, c, destroyed)
    ensures u == moves[i].thread && destroyed
  {
    var w, t := worlds[i], moves[i].thread;
    LeavesEarlyExactly(worlds, moves, i, c);
    RunKeepsInv(worlds, moves, i);
    RunsIsOk(w, u, s, c, destroyed);
    assert ThreadOk(w, t);
    if !destroyed && u == t {
      OwnUnmarked(w, t, s, c);
    }
  }

  lemma OwnUnmarked(w: World, t: Thread, s: State, c: Callback)
    requires Inv(w) && t in w.threads && w.threads[t].pc == DestroyUnlock(c)
    ensures !Runs(w.threads[t], s, c, false)
  {
    assert ThreadOk(w, t);
    if Runs(w.threads[t], s, c, false) {
      RunsIsOk(w, t, s, c, false);
    }
  }

  // ----- Then a thread is left inside a dead callback, and only then.

  // A thread has an unmarked frame of a dead callback, or has just returned from its callable.
  predicate IsOrphaned(w: World, c: Callback) {
    w.IsDead(c) && exists u :: u in w.threads && Runs(w.threads[u], w.callbacks[c].state, c, false)
  }

  // A thread that is about to note the end of an invocation was in it before.
  predicate PcFollows(thread: ThreadState, thread': ThreadState) {
    match thread'.pc
    case Relock(s, c, d) =>
      thread.pc == thread'.pc || (thread.hosts != [] && thread.hosts[|thread.hosts| - 1] == Invoking(s, c, d))
    case Finish(s, c, d) => thread.pc == thread'.pc || thread.pc == Relock(s, c, d)
    case _ => true
  }

  lemma PcFollowsProceed(w: World, t: Thread, u: Thread)
    requires Enabled(w, t, Proceed) && u in w.threads && u in Do(w, t, Proceed).threads
    ensures PcFollows(w.threads[u], Do(w, t, Proceed).threads[u])
  {
    match w.threads[t].pc
    case User =>
    case RequestLocked(s) =>
    case Loop(s) =>
    case Finish(s, c, destroyed) =>
    case RegisterLocked(c) =>
    case DestroyLocked(c) =>
    case DestroyCheck(c) =>
    case DestroyUnlock(c) =>
  }

  lemma PcFollowsStep(w: World, t: Thread, step: Step, u: Thread)
    requires Enabled(w, t, step) && u in w.threads && u in Do(w, t, step).threads
    ensures PcFollows(w.threads[u], Do(w, t, step).threads[u])
  {
    if step.Proceed? {
      PcFollowsProceed(w, t, u);
    }
  }

  lemma RunsBefore(w: World, thread: ThreadState, thread': ThreadState, s: State, c: Callback)
    requires HostsFollow(w, thread.hosts, thread'.hosts) && PcFollows(thread, thread')
    requires w.IsDead(c) && Runs(thread', s, c, false)
    ensures Runs(thread, s, c, false)
  {
    if Invoking(s, c, false) in thread'.hosts {
      var i :| 0 <= i < |thread'.hosts| && thread'.hosts[i] == Invoking(s, c, false);
      assert i < |thread.hosts| && thread.hosts[i] == thread'.hosts[i];
    }
  }

  // A step brings no thread into a dead callback.
  lemma OrphansAreOld(w: World, t: Thread, step: Step, u: Thread, s: State, c: Callback)
    requires Inv(w) && Enabled(w, t, step) && u in w.threads && w.IsDead(c)
    requires u in Do(w, t, step).threads && Runs(Do(w, t, step).threads[u], s, c, false)
    ensures Runs(w.threads[u], s, c, false)
  {
    hide Inv, Do, Enabled, Runs, HostsFollow, PcFollows;
    FollowsStep(w, t, step);
    PcFollowsStep(w, t, step, u);
    RunsBefore(w, w.threads[u], Do(w, t, step).threads[u], s, c);
  }

  // The step in which a callback dies.
  lemma Dies(w: World, t: Thread, step: Step, c: Callback)
    requires Inv(w) && Enabled(w, t, step) && c in w.callbacks && !w.IsDead(c) && Do(w, t, step).IsDead(c)
    ensures LeavesDestructor(w, Move(t, step), c) || (step == StartDestroy(c) && w.callbacks[c].status.Inert?)
  {
    hide Inv;
  }

  // A callback that was never registered is not running; the other kind of death is a destructor's.
  lemma OrphanedByLeaving(w: World, t: Thread, step: Step, u: Thread, c: Callback)
    requires Inv(w) && Enabled(w, t, step) && c in w.callbacks && !w.IsDead(c) && Do(w, t, step).IsDead(c)
    requires u in w.threads && u in Do(w, t, step).threads
    requires Runs(Do(w, t, step).threads[u], w.callbacks[c].state, c, false)
    ensures LeavesEarly(w, Move(t, step), c)
  {
    Dies(w, t, step, c);
    var s := w.callbacks[c].state;
    assert Runs(w.threads[u], s, c, false) by {
      hide Inv;
    }
    RunsIsOk(w, u, s, c, false);
    assert CallbackOk(w, c);
    if LeavesDestructor(w, Move(t, step), c) {
      if u == t {
        OwnUnmarked(w, t, s, c);
      }
      ElsewhereIsEarly(w, Move(t, step), c);
    }
  }

  // And nobody ever runs it again: in every run, a thread that is left inside a dead callback was
  // left there by a destructor that returned early.
  lemma {:induction false} DeadStaysQuiet(worlds: seq<World>, moves: seq<Move>, i: nat, c: Callback, u: Thread)
    returns (j: nat)
    requires IsRun(worlds, moves) && i <= |moves| && worlds[i].IsDead(c)
    requires u in worlds[i].threads && Runs(worlds[i].threads[u], worlds[i].callbacks[c].state, c, false)
    ensures j < i && LeavesEarly(worlds[j], moves[j], c)
  {
    if i == 0 {
      assert false;
    } else {
      j := i - 1;
      RunKeepsInv(worlds, moves, j);
      assert IsMove(worlds, moves, j);
      FollowsStep(worlds[j], moves[j].thread, moves[j].step);
      StepIsLaterFor(worlds[j], moves[j].thread, moves[j].step, c);
      var s := worlds[i].callbacks[c].state;
      hide Inv, Do, Enabled, Runs, LeavesEarly;
      if worlds[j].IsDead(c) {
        OrphansAreOld(worlds[j], moves[j].thread, moves[j].step, u, s, c);
        j := DeadStaysQuiet(worlds, moves, j, c, u);
      } else {
        OrphanedByLeaving(worlds[j], moves[j].thread, moves[j].step, u, c);
      }
    }
  }

  lemma LeavingKills(w: World, t: Thread, c: Callback, u: Thread)
    requires Enabled(w, t, Proceed) && w.threads[t].pc == DestroyUnlock(c) && u in w.threads && u != t
    ensures var w' := Do(w, t, Proceed);
            w'.IsDead(c) && w'.callbacks[c].state == w.callbacks[c].state
            && u in w'.threads && w'.threads[u] == w.threads[u]
  {
  }

  // An early return leaves a thread inside the dead callback at once.
  lemma EarlyOrphans(worlds: seq<World>, moves: seq<Move>, j: nat, c: Callback)
    requires IsRun(worlds, moves) && j < |moves| && LeavesEarly(worlds[j], moves[j], c)
    ensures IsOrphaned(worlds[j + 1], c)
  {
    hide Inv, Do, Enabled, Runs;
    RunKeepsInv(worlds, moves, j);
    assert IsMove(worlds, moves, j);
    var w := worlds[j];
    EarlyIsElsewhere(w, moves[j], c);
    var u :| u in w.threads && u != moves[j].thread && Runs(w.threads[u], w.callbacks[c].state, c, false);
    LeavingKills(w, moves[j].thread, c, u);
  }

  // Main result: in every run, some dead callback has a thread inside it at some time if and only
  // if some destructor left early.
  lemma OrphansExactly(worlds: seq<World>, moves: seq<Move>)
    requires IsRun(worlds, moves)
    ensures (exists i, c :: 0 <= i <= |moves| && IsOrphaned(worlds[i], c))
            <==> (exists j, c :: 0 <= j < |moves| && LeavesEarly(worlds[j], moves[j], c))
  {
    assert |worlds| == |moves| + 1;
    hide IsRun, IsOrphaned, LeavesEarly;
    forall i, c | 0 <= i <= |moves| && IsOrphaned(worlds[i], c)
      ensures exists j :: 0 <= j < |moves| && LeavesEarly(worlds[j], moves[j], c)
    {
      var j := OrphanedSince(worlds, moves, i, c);
    }
    forall j, c | 0 <= j < |moves| && LeavesEarly(worlds[j], moves[j], c)
      ensures IsOrphaned(worlds[j + 1], c)
    {
      EarlyOrphans(worlds, moves, j, c);
    }
  }

  lemma OrphanedSince(worlds: seq<World>, moves: seq<Move>, i: nat, c: Callback) returns (j: nat)
    requires IsRun(worlds, moves) && i <= |moves| && IsOrphaned(worlds[i], c)
    ensures j < i && LeavesEarly(worlds[j], moves[j], c)
  {
    var u :| u in worlds[i].threads && Runs(worlds[i].threads[u], worlds[i].callbacks[c].state, c, false);
    j := DeadStaysQuiet(worlds, moves, i, c, u);
  }

  // ----- No step touches a destroyed callback.

  predicate Touches(w: World, t: Thread, c: Callback) {
    t in w.threads &&
    match w.threads[t].pc
    case Loop(s) => s in w.states && w.states[s].callbacks != [] && w.states[s].callbacks[0] == c
    case Finish(_, b, destroyed) => b == c && !destroyed
    case RegisterLocked(b) => b == c
    // remove_callback walks the list
    case DestroyLocked(b) =>
      b == c || (b in w.callbacks && w.callbacks[b].state in w.states && c in w.states[w.callbacks[b].state].callbacks)
    case DestroyLock(b) => b == c
    case DestroyCheck(b) => b == c
    case DestroyWait(b) => b == c
    case DestroyWoken(b) => b == c
    case DestroyUnlock(b) => b == c
    case _ => false
  }

  // What the library touches is dead only where a thread comes back to note the end of an
  // invocation, and finds its frame unmarked.
  lemma OnlyOrphansAreTouched(w: World, t: Thread, c: Callback)
    requires Inv(w) && Touches(w, t, c)
    ensures c in w.callbacks
    ensures w.IsDead(c) ==> w.threads[t].pc == Finish(w.callbacks[c].state, c, false)
  {
    assert ThreadOk(w, t);
    match w.threads[t].pc
    case Loop(s) =>
      assert StateOk(w, s) && CallbackOk(w, c);
    case DestroyLocked(b) =>
      if c != b {
        assert StateOk(w, w.callbacks[b].state) && CallbackOk(w, c);
      }
    case _ =>
  }

  // Main result: in every run, what a step touches is dead only if its destructor left early.
  lemma NothingDeadIsTouched(worlds: seq<World>, moves: seq<Move>, i: nat, t: Thread, c: Callback)
    requires IsRun(worlds, moves) && i <= |moves| && Touches(worlds[i], t, c)
    ensures c in worlds[i].callbacks
    ensures worlds[i].IsDead(c) ==> exists j :: 0 <= j < i && LeavesEarly(worlds[j], moves[j], c)
  {
    RunKeepsInv(worlds, moves, i);
    OnlyOrphansAreTouched(worlds[i], t, c);
    if worlds[i].IsDead(c) {
      var j := DeadStaysQuiet(worlds, moves, i, c, t);
    }
  }

  // ----- A rule for callers: no callback is built where one is still being invoked.

  // Some thread has a frame of a callback that is or was there.
  predicate FrameAt(w: World, a: Address) {
    exists t, i :: t in w.threads && 0 <= i < |w.threads[t].hosts| && IsAt(w, w.threads[t].hosts[i], a)
  }

  predicate IsAt(w: World, host: Host, a: Address) {
    host.Invoking? && host.callback in w.callbacks && w.callbacks[host.callback].address == a
  }

  predicate BuildsApart(w: World, step: Step) {
    step.StartRegister? ==> !FrameAt(w, step.a)
  }

  // No thread has a frame that it could take for that of a later callback.
  predicate NoneStale(w: World) {
    forall t, i, c :: t in w.threads && 0 <= i < |w.threads[t].hosts| && c in w.callbacks && !w.IsDead(c) ==>
      !IsStale(w, w.threads[t].hosts[i], c)
  }

  lemma NoneStaleKept(w: World, t: Thread, step: Step)
    requires Inv(w) && Apart(w) && NoneStale(w) && Enabled(w, t, step) && BuildsApart(w, step)
    ensures NoneStale(Do(w, t, step))
  {
    var w' := Do(w, t, step);
    ApartKeeps(w, t, step);
    FollowsStep(w, t, step);
    forall u, i, c | u in w'.threads && 0 <= i < |w'.threads[u].hosts| && c in w'.callbacks && !w'.IsDead(c)
      ensures !IsStale(w', w'.threads[u].hosts[i], c)
    {
      StaysUnstale(w, t, step, u, i, c);
    }
  }

  // A frame of an older callback is not at the address of a new one.
  lemma NewIsUnstale(w: World, t: Thread, step: Step, u: Thread, i: nat, c: Callback)
    requires Enabled(w, t, step) && step.StartRegister? && step.c == c && BuildsApart(w, step)
    requires u in w.threads && u in Do(w, t, step).threads && i < |Do(w, t, step).threads[u].hosts|
    ensures !IsStale(Do(w, t, step), Do(w, t, step).threads[u].hosts[i], c)
  {
    var hosts := w.threads[u].hosts;
    assert Do(w, t, step).threads[u].hosts == hosts;
    assert !IsAt(w, hosts[i], step.a);
  }

  lemma OldIsUnstale(w: World, w': World, u: Thread, i: nat, c: Callback)
    requires NoneStale(w) && AddressesDiffer(w) && Follows(w, w') && u in w.threads && i < |w'.threads[u].hosts|
    requires i < |w.threads[u].hosts| && w.threads[u].hosts[i].Invoking? ==>
               w.threads[u].hosts[i].callback in w.callbacks
    requires c in w.callbacks && c in w'.callbacks && !w'.IsDead(c)
    ensures !IsStale(w', w'.threads[u].hosts[i], c)
  {
    var hosts, hosts' := w.threads[u].hosts, w'.threads[u].hosts;
    assert HostsFollow(w, hosts, hosts') && StaysThere(w, w', c);
    if hosts'[i].Invoking? {
      assert StaysThere(w, w', hosts'[i].callback);
      assert i < |hosts| ==> !IsStale(w, hosts[i], c);
    }
  }

  lemma StaysUnstale(w: World, t: Thread, step: Step, u: Thread, i: nat, c: Callback)
    requires Inv(w) && NoneStale(w) && AddressesDiffer(w) && Enabled(w, t, step) && BuildsApart(w, step)
    requires u in w.threads && u in Do(w, t, step).threads && i < |Do(w, t, step).threads[u].hosts|
    requires c in Do(w, t, step).callbacks && !Do(w, t, step).IsDead(c)
    ensures !IsStale(Do(w, t, step), Do(w, t, step).threads[u].hosts[i], c)
  {
    FollowsStep(w, t, step);
    if c in w.callbacks {
      if i < |w.threads[u].hosts| && w.threads[u].hosts[i].Invoking? {
        FrameIsKnown(w, u, i);
      }
      hide *;
      OldIsUnstale(w, Do(w, t, step), u, i, c);
    } else {
      assert step.StartRegister? && step.c == c by {
        hide Inv;
      }
      hide *;
      NewIsUnstale(w, t, step, u, i, c);
    }
  }

  predicate IsTidy(worlds: seq<World>, moves: seq<Move>)
    requires |worlds| == |moves| + 1
  {
    forall i :: 0 <= i < |moves| ==> BuildsApart(worlds[i], moves[i].step)
  }

  lemma {:induction false} TidyHasNoneStale(worlds: seq<World>, moves: seq<Move>, i: nat)
    requires IsRun(worlds, moves) && IsTidy(worlds, moves) && i <= |moves|
    ensures NoneStale(worlds[i])
  {
    if i > 0 {
      TidyHasNoneStale(worlds, moves, i - 1);
      RunKeepsInv(worlds, moves, i - 1);
      assert IsMove(worlds, moves, i - 1);
      NoneStaleKept(worlds[i - 1], moves[i - 1].thread, moves[i - 1].step);
    }
  }

  // Main result: then no destructor leaves early, so no thread is left inside a dead callback and
  // no step touches one.
  lemma TidyRunsAreSafe(worlds: seq<World>, moves: seq<Move>, i: nat)
    requires IsRun(worlds, moves) && IsTidy(worlds, moves) && i <= |moves|
    ensures forall c :: i < |moves| ==> !LeavesEarly(worlds[i], moves[i], c)
    ensures forall c :: !IsOrphaned(worlds[i], c)
    ensures forall t, c :: Touches(worlds[i], t, c) ==> c in worlds[i].callbacks && !worlds[i].IsDead(c)
  {
    forall c, j | 0 <= j < |moves|
      ensures !LeavesEarly(worlds[j], moves[j], c)
    {
      TidyHasNoneStale(worlds, moves, j);
      RunKeepsInv(worlds, moves, j);
      NotEarly(worlds[j], moves[j], c);
    }
    forall c
      ensures !IsOrphaned(worlds[i], c)
    {
      hide *;
      if IsOrphaned(worlds[i], c) {
        var j := OrphanedSince(worlds, moves, i, c);
      }
    }
    forall t, c | Touches(worlds[i], t, c)
      ensures c in worlds[i].callbacks && !worlds[i].IsDead(c)
    {
      NothingDeadIsTouched(worlds, moves, i, t, c);
    }
  }

  lemma EarlyHasStale(w: World, move: Move, c: Callback) returns (i: nat)
    requires Inv(w) && Apart(w) && LeavesEarly(w, move, c)
    ensures !w.IsDead(c)
    ensures i < |w.threads[move.thread].hosts| && IsStale(w, w.threads[move.thread].hosts[i], c)
  {
    var hosts := w.threads[move.thread].hosts;
    assert !w.IsDead(c) by {
      assert ThreadOk(w, move.thread);
    }
    hide Inv;
    i :| 0 <= i < |hosts| && IsFrame(hosts[i], w.Sharing(c));
    assert !IsFrame(hosts[i], {c});
  }

  lemma NotEarly(w: World, move: Move, c: Callback)
    requires Inv(w) && Apart(w) && NoneStale(w)
    ensures !LeavesEarly(w, move, c)
  {
    if LeavesEarly(w, move, c) {
      var i := EarlyHasStale(w, move, c);
    }
  }

  // ----- A held mutex is always given up: its holder is never blocked, unless what it touches
  // next is dead.

  lemma HolderCanGoOn(worlds: seq<World>, moves: seq<Move>, i: nat, s: State)
    requires IsRun(worlds, moves) && i <= |moves|
    requires s in worlds[i].states && worlds[i].states[s].holder.Some?
    ensures var w, u := worlds[i], worlds[i].states[s].holder.value;
            Enabled(w, u, Proceed) <==> forall c :: Touches(w, u, c) ==> !w.IsDead(c)
  {
    var w := worlds[i];
    RunKeepsInv(worlds, moves, i);
    assert StateOk(w, s);
    var u := w.states[s].holder.value;
    assert ThreadOk(w, u);
    forall c | Touches(w, u, c) && w.IsDead(c)
      ensures w.threads[u].pc == Finish(w.callbacks[c].state, c, false)
    {
      OnlyOrphansAreTouched(w, u, c);
    }
    if w.threads[u].pc.Loop? {
      assert StateOk(w, w.threads[u].pc.state);
    }
    if w.threads[u].pc.Finish? && !w.threads[u].pc.destroyed {
      assert Touches(w, u, w.threads[u].pc.callback);
    }
  }
}
