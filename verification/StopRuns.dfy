// What holds in every run of the stop-callback protocol: [thread.stoptoken] of
// ISO/IEC 14882:2020.

module StopRuns {
  import opened StopProtocol
  import opened Wrappers
  import opened StopSafety

  // A run: worlds linked by steps of any threads, in any order.
  datatype Move = Move(thread: Thread, step: Step)

  predicate IsRun(worlds: seq<World>, moves: seq<Move>) {
    && |worlds| == |moves| + 1 && IsInitial(worlds[0])
    && forall i :: 0 <= i < |moves| ==> IsMove(worlds, moves, i)
  }

  predicate IsMove(worlds: seq<World>, moves: seq<Move>, i: nat)
    requires |worlds| == |moves| + 1 && i < |moves|
  {
    && Enabled(worlds[i], moves[i].thread, moves[i].step)
    && worlds[i + 1] == Do(worlds[i], moves[i].thread, moves[i].step)
  }

  lemma {:induction false} RunKeepsInv(worlds: seq<World>, moves: seq<Move>, i: nat)
    requires IsRun(worlds, moves) && i <= |moves|
    ensures Inv(worlds[i]) && Apart(worlds[i])
  {
    if i == 0 {
      InitialInv(worlds[0]);
    } else {
      RunKeepsInv(worlds, moves, i - 1);
      assert IsMove(worlds, moves, i - 1);
      StepKeeps(worlds[i - 1], moves[i - 1].thread, moves[i - 1].step);
    }
  }

  // ----- What steps cannot undo.

  predicate StateLater(w: World, w': World, s: State) {
    s in w.states ==>
      && s in w'.states
      && (w.states[s].requested ==> w'.states[s].requested && w'.states[s].atFlip == w.states[s].atFlip)
      && w.states[s].successes <= w'.states[s].successes
  }

  predicate CallbackLater(w: World, w': World, c: Callback) {
    c in w.callbacks ==>
      && c in w'.callbacks && w'.callbacks[c].state == w.callbacks[c].state
      && w.callbacks[c].invoked <= w'.callbacks[c].invoked
  }

  lemma StepIsLater(w: World, t: Thread, step: Step, s: State)
    requires Enabled(w, t, step)
    ensures StateLater(w, Do(w, t, step), s)
  {
  }

  lemma StepIsLaterFor(w: World, t: Thread, step: Step, c: Callback)
    requires Enabled(w, t, step)
    ensures CallbackLater(w, Do(w, t, step), c)
  {
  }

  lemma MoveIsLater(worlds: seq<World>, moves: seq<Move>, i: nat, s: State)
    requires IsRun(worlds, moves) && i < |moves|
    ensures StateLater(worlds[i], worlds[i + 1], s)
  {
    assert IsMove(worlds, moves, i);
    StepIsLater(worlds[i], moves[i].thread, moves[i].step, s);
  }

  lemma StateLaterChains(a: World, b: World, c: World, s: State)
    requires StateLater(a, b, s) && StateLater(b, c, s)
    ensures StateLater(a, c, s)
  {
  }

  lemma {:induction false} RunIsLater(worlds: seq<World>, moves: seq<Move>, i: nat, j: nat, s: State)
    requires IsRun(worlds, moves) && i <= j <= |moves|
    ensures StateLater(worlds[i], worlds[j], s)
    decreases j
  {
    if i < j {
      RunIsLater(worlds, moves, i, j - 1, s);
      MoveIsLater(worlds, moves, j - 1, s);
      StateLaterChains(worlds[i], worlds[j - 1], worlds[j], s);
    }
  }

  lemma MoveIsLaterFor(worlds: seq<World>, moves: seq<Move>, i: nat, c: Callback)
    requires IsRun(worlds, moves) && i < |moves|
    ensures CallbackLater(worlds[i], worlds[i + 1], c)
  {
    assert IsMove(worlds, moves, i);
    StepIsLaterFor(worlds[i], moves[i].thread, moves[i].step, c);
  }

  lemma CallbackLaterChains(a: World, b: World, d: World, c: Callback)
    requires CallbackLater(a, b, c) && CallbackLater(b, d, c)
    ensures CallbackLater(a, d, c)
  {
  }

  lemma {:induction false} RunIsLaterFor(worlds: seq<World>, moves: seq<Move>, i: nat, j: nat, c: Callback)
    requires IsRun(worlds, moves) && i <= j <= |moves|
    ensures CallbackLater(worlds[i], worlds[j], c)
    decreases j
  {
    if i < j {
      RunIsLaterFor(worlds, moves, i, j - 1, c);
      MoveIsLaterFor(worlds, moves, j - 1, c);
      CallbackLaterChains(worlds[i], worlds[j - 1], worlds[j], c);
    }
  }

  // ----- At most one request_stop of a state returns true.

  predicate ReturnsTrue(w: World, move: Move, s: State) {
    && move.thread in w.threads && move.step.Proceed?
    && w.threads[move.thread].pc == Loop(s)
    && s in w.states && w.states[s].callbacks == []
  }

  lemma OneSuccess(worlds: seq<World>, moves: seq<Move>, s: State, i: nat, j: nat)
    requires IsRun(worlds, moves) && i < |moves| && j < |moves|
    requires ReturnsTrue(worlds[i], moves[i], s) && ReturnsTrue(worlds[j], moves[j], s)
    ensures i == j
  {
    if i < j {
      SecondSuccess(worlds, moves, s, i, j);
    } else if j < i {
      SecondSuccess(worlds, moves, s, j, i);
    }
  }

  lemma FirstSuccess(w: World, move: Move, s: State)
    requires Inv(w) && Enabled(w, move.thread, move.step) && ReturnsTrue(w, move, s)
    ensures w.states[s].successes == 0
    ensures Do(w, move.thread, move.step).states[s].successes == 1
  {
    assert ThreadOk(w, move.thread) && StateOk(w, s);
  }

  lemma SecondSuccess(worlds: seq<World>, moves: seq<Move>, s: State, i: nat, j: nat)
    requires IsRun(worlds, moves) && i < j < |moves|
    requires ReturnsTrue(worlds[i], moves[i], s)
    ensures !ReturnsTrue(worlds[j], moves[j], s)
  {
    RunKeepsInv(worlds, moves, i);
    assert IsMove(worlds, moves, i) && IsMove(worlds, moves, j);
    FirstSuccess(worlds[i], moves[i], s);
    RunIsLater(worlds, moves, i + 1, j, s);
    RunKeepsInv(worlds, moves, j);
    if ReturnsTrue(worlds[j], moves[j], s) {
      FirstSuccess(worlds[j], moves[j], s);
    }
  }

  // ----- No callback is invoked twice, by request_stop or by its constructor.

  predicate Invokes(w: World, move: Move, c: Callback) {
    && move.thread in w.threads && move.step.Proceed?
    && match w.threads[move.thread].pc
       case Loop(s) => s in w.states && w.states[s].callbacks != [] && w.states[s].callbacks[0] == c
       case RegisterLocked(b) =>
         b == c && c in w.callbacks && w.callbacks[c].state in w.states && w.states[w.callbacks[c].state].requested
       case _ => false
  }

  lemma InvokedOnce(worlds: seq<World>, moves: seq<Move>, c: Callback, i: nat, j: nat)
    requires IsRun(worlds, moves) && i < |moves| && j < |moves|
    requires Invokes(worlds[i], moves[i], c) && Invokes(worlds[j], moves[j], c)
    ensures i == j
  {
    if i < j {
      SecondInvocation(worlds, moves, c, i, j);
    } else if j < i {
      SecondInvocation(worlds, moves, c, j, i);
    }
  }

  lemma FirstInvocation(w: World, move: Move, c: Callback)
    requires Inv(w) && Enabled(w, move.thread, move.step) && Invokes(w, move, c)
    ensures c in w.callbacks && w.callbacks[c].invoked == 0
    ensures Do(w, move.thread, move.step).callbacks[c].invoked == 1
  {
    assert ThreadOk(w, move.thread);
    if w.threads[move.thread].pc.Loop? {
      assert StateOk(w, w.threads[move.thread].pc.state) && CallbackOk(w, c);
    }
  }

  lemma InvocationCounts(worlds: seq<World>, moves: seq<Move>, c: Callback, i: nat)
    requires IsRun(worlds, moves) && i < |moves| && Invokes(worlds[i], moves[i], c)
    ensures c in worlds[i].callbacks && worlds[i].callbacks[c].invoked == 0
    ensures c in worlds[i + 1].callbacks && worlds[i + 1].callbacks[c].invoked == 1
  {
    RunKeepsInv(worlds, moves, i);
    assert IsMove(worlds, moves, i);
    FirstInvocation(worlds[i], moves[i], c);
    StepIsLaterFor(worlds[i], moves[i].thread, moves[i].step, c);
  }

  lemma SecondInvocation(worlds: seq<World>, moves: seq<Move>, c: Callback, i: nat, j: nat)
    requires IsRun(worlds, moves) && i < j < |moves|
    requires Invokes(worlds[i], moves[i], c)
    ensures !Invokes(worlds[j], moves[j], c)
  {
    InvocationCounts(worlds, moves, c, i);
    RunIsLaterFor(worlds, moves, i + 1, j, c);
    if Invokes(worlds[j], moves[j], c) {
      InvocationCounts(worlds, moves, c, j);
    }
  }

  // ----- The winning call leaves an empty list: what was registered when it flipped the flag
  // has been invoked once, or was unlinked by its destructor before its turn.

  predicate Flips(w: World, move: Move, s: State) {
    && move.thread in w.threads && move.step.Proceed?
    && w.threads[move.thread].pc == RequestLocked(s)
    && s in w.states && !w.states[s].requested
  }

  lemma WinnerServesAll(worlds: seq<World>, moves: seq<Move>, s: State, i: nat, j: nat, c: Callback)
    requires IsRun(worlds, moves) && i < j < |moves|
    requires Flips(worlds[i], moves[i], s) && ReturnsTrue(worlds[j], moves[j], s)
    requires c in worlds[i].states[s].callbacks
    ensures c in worlds[j].callbacks
    ensures worlds[j].callbacks[c].invoked == 1 || worlds[j].callbacks[c].removed
    ensures s in worlds[j + 1].states && worlds[j + 1].states[s].callbacks == []
    ensures moves[j].thread == moves[i].thread
  {
    assert IsMove(worlds, moves, i) && IsMove(worlds, moves, j);
    RunIsLater(worlds, moves, i + 1, j, s);
    RunKeepsInv(worlds, moves, j);
    assert c in worlds[i + 1].states[s].atFlip;
    assert StateOk(worlds[j], s) && ThreadOk(worlds[j], moves[j].thread);
    assert Accounted(worlds[j], s, c);
    assert CallbackOk(worlds[j], c);
    SameWinner(worlds, moves, s, i, j);
  }

  // The thread that flipped the flag stays the winner until it returns.
  lemma {:induction false} SameWinner(worlds: seq<World>, moves: seq<Move>, s: State, i: nat, j: nat)
    requires IsRun(worlds, moves) && i < j <= |moves| && Flips(worlds[i], moves[i], s)
    ensures s in worlds[j].states
    ensures worlds[j].states[s].phase == Draining(moves[i].thread) || worlds[j].states[s].phase == Drained
  {
    if i + 1 == j {
      assert IsMove(worlds, moves, i);
    } else {
      hide Do, Enabled, Inv;
      SameWinner(worlds, moves, s, i, j - 1);
      RunKeepsInv(worlds, moves, j - 1);
      assert IsMove(worlds, moves, j - 1);
      PhaseMoves(worlds[j - 1], moves[j - 1].thread, moves[j - 1].step, s);
    }
  }

  lemma PhaseMovesProceed(w: World, t: Thread, s: State)
    requires Enabled(w, t, Proceed) && s in w.states && w.states[s].requested
    ensures s in Do(w, t, Proceed).states
    ensures Do(w, t, Proceed).states[s].phase == w.states[s].phase || Do(w, t, Proceed).states[s].phase == Drained
  {
    match w.threads[t].pc
    case User =>
    case RequestLocked(r) =>
    case Loop(r) =>
    case Finish(r, c, destroyed) =>
    case RegisterLocked(c) =>
    case DestroyLocked(c) =>
    case DestroyCheck(c) =>
    case DestroyUnlock(c) =>
  }

  lemma PhaseMoves(w: World, t: Thread, step: Step, s: State)
    requires Inv(w) && Enabled(w, t, step) && s in w.states && !w.states[s].phase.Idle?
    ensures s in Do(w, t, step).states
    ensures Do(w, t, step).states[s].phase == w.states[s].phase || Do(w, t, step).states[s].phase == Drained
  {
    assert w.states[s].requested by {
      assert StateOk(w, s);
    }
    hide Inv;
    if step.Proceed? {
      hide Do, Enabled;
      PhaseMovesProceed(w, t, s);
    }
  }

  lemma RunsIsOk(w: World, u: Thread, s: State, c: Callback, destroyed: bool)
    requires Inv(w) && u in w.threads && Runs(w.threads[u], s, c, destroyed)
    ensures RunOk(w, u, s, c, destroyed)
  {
    assert ThreadOk(w, u);
    var hosts := w.threads[u].hosts;
    if Invoking(s, c, destroyed) in hosts {
      var k :| 0 <= k < |hosts| && hosts[k] == Invoking(s, c, destroyed);
      assert HostOk(w, u, hosts[k]);
    }
  }

  // ----- No lost wake-up: a destructor is only ever left waiting while another thread is
  // still to finish the invocation and broadcast.

  lemma WaitersWillBeWoken(worlds: seq<World>, moves: seq<Move>, i: nat, t: Thread, c: Callback)
    requires IsRun(worlds, moves) && i <= |moves|
    requires t in worlds[i].threads && worlds[i].threads[t].pc == DestroyWait(c)
    ensures c in worlds[i].callbacks
    ensures exists u :: u in worlds[i].threads && u != t
              && Runs(worlds[i].threads[u], worlds[i].callbacks[c].state, c, false)
  {
    var w := worlds[i];
    RunKeepsInv(worlds, moves, i);
    assert ThreadOk(w, t) && CallbackOk(w, c);
    var s := w.callbacks[c].state;
    var u := w.states[s].phase.winner;
    if Runs(w.threads[u], s, c, true) {
      RunsIsOk(w, u, s, c, true);
    }
    if Runs(w.threads[u], s, c, false) {
      RunsIsOk(w, u, s, c, false);
    }
  }
}
