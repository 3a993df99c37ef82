// What holds in every run of a promise and its future: [futures.state] of ISO/IEC 14882:2020.

module FutureRuns {
  import opened FutureProtocol
  import opened Wrappers

  datatype Move = Move(thread: Thread, step: Step)

  predicate IsRun(worlds: seq<World>, moves: seq<Move>) {
    && |worlds| == |moves| + 1 && IsInitial(worlds[0])
    && forall i :: 0 <= i < |moves| ==> IsMove(worlds, moves, i)
  }

  predicate IsMove(worlds: seq<World>, moves: seq<Move>, i: nat)
    requires |worlds| == |moves| + 1 && i < |moves|
  {
    && Enabled(worlds[i], moves[i].thread, moves[i].step)
    && worlds[i + 1] == Do(worlds[i], moves[i].thread, moves[i].step)
  }

  lemma {:induction false} RunKeepsInv(worlds: seq<World>, moves: seq<Move>, i: nat)
    requires IsRun(worlds, moves) && i <= |moves|
    ensures Inv(worlds[i])
  {
    if i == 0 {
      InitialInv(worlds[0]);
    } else {
      RunKeepsInv(worlds, moves, i - 1);
      assert IsMove(worlds, moves, i - 1);
      StepKeepsInv(worlds[i - 1], moves[i - 1].thread, moves[i - 1].step);
    }
  }

  // ----- No lost wake-up.

  // While a thread is blocked on a ready state, another is between making it ready and
  // notifying; once the mutex is free, between unlock() and notify_all().
  lemma NoLostWakeUp(worlds: seq<World>, moves: seq<Move>, i: nat, t: Thread)
    requires IsRun(worlds, moves) && i <= |moves|
    requires Blocked(worlds[i], t) && worlds[i].shared.ready
    ensures exists u :: u in worlds[i].threads && Announces(worlds[i].threads[u]) && Enabled(worlds[i], u, Proceed)
    ensures worlds[i].shared.holder.None? ==>
              exists u :: u in worlds[i].threads && worlds[i].threads[u].SetNotify? && Enabled(worlds[i], u, Proceed)
  {
    var w := worlds[i];
    RunKeepsInv(worlds, moves, i);
    assert SomeoneAnnounces(w);
    var u :| u in w.threads && Announces(w.threads[u]);
    assert ThreadOk(w, u);
  }

  // ----- A waiter on a ready state gets through.

  predicate Waits(pc: Pc) {
    pc.WaitLock? || pc.WaitLocked? || pc.WaitBlocked? || pc.WaitWoken?
  }

  // Where wait() leads: to its return, or on to what get() reads.
  function AfterWait(getting: bool): Pc {
    if getting then GetReadError else Idle
  }

  // The holder of the mutex gives it up in one step, for the outcome is written already.
  lemma HolderReleases(w: World, t: Thread) returns (u: Thread)
    requires Inv(w) && w.shared.ready && w.shared.holder.Some? && w.shared.holder != Some(t) && t in w.threads
    ensures u == w.shared.holder.value && Enabled(w, u, Proceed)
    ensures Go(w, u).shared.holder.None? && Go(w, u).shared.ready
    ensures t in Go(w, u).threads && Go(w, u).threads[t] == w.threads[t]
  {
    u := w.shared.holder.value;
    assert ThreadOk(w, u);
  }

  // And the thread that made the state ready wakes all that are blocked.
  lemma NotifierWakes(w: World, t: Thread) returns (u: Thread)
    requires Inv(w) && w.shared.ready && w.shared.holder.None? && Blocked(w, t)
    ensures Enabled(w, u, Proceed) && u in w.threads && Announces(w.threads[u])
    ensures Go(w, u).shared.holder.None? && Go(w, u).shared.ready
    ensures t in Go(w, u).threads && Go(w, u).threads[t] == WaitWoken(w.threads[t].getting)
  {
    assert SomeoneAnnounces(w);
    u :| u in w.threads && Announces(w.threads[u]);
    assert ThreadOk(w, u);
  }

  lemma TakesMutex(w: World, t: Thread)
    requires w.shared.ready && w.shared.holder.None? && t in w.threads
    requires w.threads[t].WaitLock? || w.threads[t].WaitWoken?
    ensures Enabled(w, t, TakeLock)
    ensures Do(w, t, TakeLock).shared.ready
    ensures t in Do(w, t, TakeLock).threads && Do(w, t, TakeLock).threads[t] == WaitLocked(w.threads[t].getting)
  {
  }

  lemma GoesThrough(w: World, t: Thread)
    requires w.shared.ready && t in w.threads && w.threads[t].WaitLocked?
    ensures Enabled(w, t, Proceed)
    ensures t in Go(w, t).threads && Go(w, t).threads[t] == AfterWait(w.threads[t].getting)
  {
  }

  lemma Extended(worlds: seq<World>, moves: seq<Move>, move: Move)
    requires IsRun(worlds, moves) && Enabled(worlds[|moves|], move.thread, move.step)
    ensures IsRun(worlds + [Do(worlds[|moves|], move.thread, move.step)], moves + [move])
  {
    var longer, more := worlds + [Do(worlds[|moves|], move.thread, move.step)], moves + [move];
    forall i | 0 <= i < |more|
      ensures IsMove(longer, more, i)
    {
      if i < |moves| {
        assert IsMove(worlds, moves, i);
        assert longer[i] == worlds[i] && longer[i + 1] == worlds[i + 1] && more[i] == moves[i];
      }
    }
  }

  function Then(worlds: seq<World>, move: Move): seq<World>
    requires worlds != [] && Enabled(worlds[|worlds| - 1], move.thread, move.step)
  {
    worlds + [Do(worlds[|worlds| - 1], move.thread, move.step)]
  }

  // A waiter with the mutex free, or in its own hands, is through in at most three steps.
  lemma FreeWaiterGetsThrough(worlds: seq<World>, moves: seq<Move>, t: Thread)
    returns (worlds': seq<World>, moves': seq<Move>)
    requires IsRun(worlds, moves) && worlds[|moves|].shared.ready
    requires t in worlds[|moves|].threads && Waits(worlds[|moves|].threads[t])
    requires worlds[|moves|].shared.holder.None? || worlds[|moves|].threads[t].WaitLocked?
    ensures IsRun(worlds', moves') && worlds <= worlds' && moves <= moves' && |moves'| <= |moves| + 3
    ensures t in worlds'[|moves'|].threads
    ensures worlds'[|moves'|].threads[t] == AfterWait(worlds[|moves|].threads[t].getting)
  {
    hide IsRun, Do, Go, Enabled, Inv;
    worlds', moves' := worlds, moves;
    WorldsOfRun(worlds, moves);
    if Blocked(worlds[|moves|], t) {
      RunKeepsInv(worlds, moves, |moves|);
      var u := NotifierWakes(worlds[|moves|], t);
      Extended(worlds', moves', Move(u, Proceed));
      DoIsGo(worlds'[|moves'|], u);
      worlds', moves' := Then(worlds', Move(u, Proceed)), moves' + [Move(u, Proceed)];
    }
    if !worlds'[|moves'|].threads[t].WaitLocked? {
      TakesMutex(worlds'[|moves'|], t);
      Extended(worlds', moves', Move(t, TakeLock));
      worlds', moves' := Then(worlds', Move(t, TakeLock)), moves' + [Move(t, TakeLock)];
    }
    GoesThrough(worlds'[|moves'|], t);
    Extended(worlds', moves', Move(t, Proceed));
    DoIsGo(worlds'[|moves'|], t);
    worlds', moves' := Then(worlds', Move(t, Proceed)), moves' + [Move(t, Proceed)];
  }

  lemma WorldsOfRun(worlds: seq<World>, moves: seq<Move>)
    requires IsRun(worlds, moves)
    ensures |worlds| == |moves| + 1
  {
  }

  lemma DoIsGo(w: World, t: Thread)
    requires Enabled(w, t, Proceed)
    ensures Do(w, t, Proceed) == Go(w, t)
  {
  }

  // In every run, a thread that waits on a ready state is at most four steps from getting
  // through: the holder's unlock, the notification, and its own two.
  lemma WaiterGetsThrough(worlds: seq<World>, moves: seq<Move>, t: Thread)
    returns (worlds': seq<World>, moves': seq<Move>)
    requires IsRun(worlds, moves) && worlds[|moves|].shared.ready
    requires t in worlds[|moves|].threads && Waits(worlds[|moves|].threads[t])
    ensures IsRun(worlds', moves') && worlds <= worlds' && moves <= moves' && |moves'| <= |moves| + 4
    ensures t in worlds'[|moves'|].threads
    ensures worlds'[|moves'|].threads[t] == AfterWait(worlds[|moves|].threads[t].getting)
  {
    var w := worlds[|moves|];
    RunKeepsInv(worlds, moves, |moves|);
    assert ThreadOk(w, t);
    if w.shared.holder.Some? && w.shared.holder != Some(t) {
      var u := HolderReleases(w, t);
      Extended(worlds, moves, Move(u, Proceed));
      worlds', moves' := FreeWaiterGetsThrough(Then(worlds, Move(u, Proceed)), moves + [Move(u, Proceed)], t);
    } else {
      worlds', moves' := FreeWaiterGetsThrough(worlds, moves, t);
    }
  }

  // A held mutex is always given up: its holder is never blocked.
  lemma HolderCanGoOn(worlds: seq<World>, moves: seq<Move>, i: nat)
    requires IsRun(worlds, moves) && i <= |moves| && worlds[i].shared.holder.Some?
    ensures Enabled(worlds[i], worlds[i].shared.holder.value, Proceed)
  {
    RunKeepsInv(worlds, moves, i);
    HolderExists(worlds[i]);
  }

  lemma HolderExists(w: World)
    requires Inv(w) && w.shared.holder.Some?
    ensures Enabled(w, w.shared.holder.value, Proceed)
  {
    assert ThreadOk(w, w.shared.holder.value);
  }

  // ----- The outcome is frozen.

  predicate Frozen(w: World, w': World) {
    w.shared.ready ==>
      && w'.shared.ready && w'.shared.channel == w.shared.channel
      && w'.shared.satisfiedBy == w.shared.satisfiedBy && w'.shared.satisfied == w.shared.satisfied
  }

  lemma StepKeepsFrozen(w: World, t: Thread, step: Step)
    requires Inv(w) && Enabled(w, t, step)
    ensures Frozen(w, Do(w, t, step))
  {
    assert ThreadOk(w, t);
  }

  lemma {:induction false} OutcomeIsFrozen(worlds: seq<World>, moves: seq<Move>, i: nat, j: nat)
    requires IsRun(worlds, moves) && i <= j <= |moves|
    ensures Frozen(worlds[i], worlds[j])
    decreases j
  {
    if i < j {
      OutcomeIsFrozen(worlds, moves, i, j - 1);
      RunKeepsInv(worlds, moves, j - 1);
      assert IsMove(worlds, moves, j - 1);
      StepKeepsFrozen(worlds[j - 1], moves[j - 1].thread, moves[j - 1].step);
    }
  }

  // A thread about to write the outcome, or to announce that it is written.
  predicate Writes(pc: Pc) {
    pc.SetChecked? || pc.SetWritten?
  }

  // get() reads the outcome without the mutex; nobody writes it meanwhile.
  lemma GetReadsUndisturbed(worlds: seq<World>, moves: seq<Move>, i: nat, t: Thread, u: Thread)
    requires IsRun(worlds, moves) && i <= |moves|
    requires t in worlds[i].threads && (worlds[i].threads[t].GetReadError? || worlds[i].threads[t].GetReadException?)
    requires u in worlds[i].threads
    ensures !Writes(worlds[i].threads[u])
  {
    RunKeepsInv(worlds, moves, i);
    assert ThreadOk(worlds[i], t) && ThreadOk(worlds[i], u);
  }

  // ----- One request is granted, and get() delivers it.

  // The step that makes the state ready.
  predicate Satisfies(w: World, move: Move, request: Request) {
    move.thread in w.threads && move.step.Proceed? && w.threads[move.thread] == SetWritten(request)
  }

  lemma NotYetReady(w: World, move: Move, request: Request)
    requires Inv(w) && Satisfies(w, move, request)
    ensures !w.shared.ready
  {
    assert ThreadOk(w, move.thread);
  }

  lemma SatisfiedOnce(worlds: seq<World>, moves: seq<Move>, i: nat, j: nat, first: Request, second: Request)
    requires IsRun(worlds, moves) && i < |moves| && j < |moves|
    requires Satisfies(worlds[i], moves[i], first) && Satisfies(worlds[j], moves[j], second)
    ensures i == j
  {
    if i < j {
      NotSatisfiedAgain(worlds, moves, i, j, first, second);
    } else if j < i {
      NotSatisfiedAgain(worlds, moves, j, i, second, first);
    }
  }

  lemma NotSatisfiedAgain(worlds: seq<World>, moves: seq<Move>, i: nat, j: nat, first: Request, second: Request)
    requires IsRun(worlds, moves) && i < j < |moves|
    requires Satisfies(worlds[i], moves[i], first)
    ensures !Satisfies(worlds[j], moves[j], second)
  {
    SatisfiedStays(worlds, moves, i, j, first);
    RunKeepsInv(worlds, moves, j);
    if Satisfies(worlds[j], moves[j], second) {
      NotYetReady(worlds[j], moves[j], second);
    }
  }

  lemma SatisfiedStays(worlds: seq<World>, moves: seq<Move>, i: nat, j: nat, request: Request)
    requires IsRun(worlds, moves) && i < j <= |moves|
    requires Satisfies(worlds[i], moves[i], request)
    ensures worlds[j].shared.ready && worlds[j].shared.satisfiedBy == Some(request)
  {
    assert IsMove(worlds, moves, i);
    OutcomeIsFrozen(worlds, moves, i + 1, j);
  }

  // The step that refuses a set: the promise was satisfied already.
  predicate Refuses(w: World, move: Move) {
    && move.thread in w.threads && move.step.Proceed?
    && w.threads[move.thread].SetLocked? && w.shared.ready
  }

  lemma RefusedOnlyAfterSatisfied(worlds: seq<World>, moves: seq<Move>, j: nat)
    requires IsRun(worlds, moves) && j < |moves| && Refuses(worlds[j], moves[j])
    ensures exists i, request :: 0 <= i < j && Satisfies(worlds[i], moves[i], request)
  {
    ReadyWasSatisfied(worlds, moves, j);
  }

  lemma {:induction false} ReadyWasSatisfied(worlds: seq<World>, moves: seq<Move>, j: nat)
    requires IsRun(worlds, moves) && j <= |moves| && worlds[j].shared.ready
    ensures exists i, request :: 0 <= i < j && Satisfies(worlds[i], moves[i], request)
  {
    if worlds[j - 1].shared.ready {
      ReadyWasSatisfied(worlds, moves, j - 1);
    } else {
      assert IsMove(worlds, moves, j - 1);
      assert Satisfies(worlds[j - 1], moves[j - 1], worlds[j - 1].threads[moves[j - 1].thread].request);
    }
  }

  // The step by which get() leaves with an outcome.
  predicate Delivers(w: World, move: Move, outcome: Outcome) {
    move.thread in w.threads && move.step.Proceed? && w.threads[move.thread] == GetRelease(outcome)
  }

  lemma GetDeliversWhatWasSet(worlds: seq<World>, moves: seq<Move>, j: nat, outcome: Outcome)
    requires IsRun(worlds, moves) && j < |moves| && Delivers(worlds[j], moves[j], outcome)
    ensures exists i, request :: 0 <= i < j && Satisfies(worlds[i], moves[i], request) && outcome == Meaning(request)
  {
    RunKeepsInv(worlds, moves, j);
    assert ThreadOk(worlds[j], moves[j].thread);
    ReadyWasSatisfied(worlds, moves, j);
    var i, request :| 0 <= i < j && Satisfies(worlds[i], moves[i], request);
    SatisfiedStays(worlds, moves, i, j, request);
    WrittenIsRead(request);
  }

  // So a null exception_ptr, which asks for an exception, is delivered as a value.
  lemma NullExceptionIsValue(worlds: seq<World>, moves: seq<Move>, i: nat, j: nat, outcome: Outcome)
    requires IsRun(worlds, moves) && i < |moves| && j < |moves|
    requires Satisfies(worlds[i], moves[i], SetException(None)) && Delivers(worlds[j], moves[j], outcome)
    ensures outcome == Value
  {
    GetDeliversWhatWasSet(worlds, moves, j, outcome);
    var k, request :| 0 <= k < j && Satisfies(worlds[k], moves[k], request) && outcome == Meaning(request);
    SatisfiedOnce(worlds, moves, i, k, SetException(None), request);
  }

  lemma WrittenIsRead(request: Request)
    ensures OutcomeOf(Written(request, CLEAN)) == Meaning(request)
  {
  }

  // ----- The state outlives every use of it, and is deleted once.

  lemma FreedIsUntouched(worlds: seq<World>, moves: seq<Move>, i: nat, t: Thread)
    requires IsRun(worlds, moves) && i <= |moves|
    requires t in worlds[i].threads && worlds[i].threads[t] != Idle
    ensures worlds[i].shared.freed == 0 && worlds[i].shared.refs > 0
  {
    RunKeepsInv(worlds, moves, i);
    assert ThreadOk(worlds[i], t);
  }

  lemma FreedOnce(worlds: seq<World>, moves: seq<Move>, i: nat)
    requires IsRun(worlds, moves) && i <= |moves|
    ensures 0 <= worlds[i].shared.refs <= 2 && worlds[i].shared.freed <= 1
    ensures worlds[i].shared.freed == 1 <==>
              worlds[i].promise == Gone && (worlds[i].future == NotYet || worlds[i].future == Gone)
  {
    RunKeepsInv(worlds, moves, i);
    CountsBound(worlds[i]);
  }

  lemma CountsBound(w: World)
    requires Inv(w)
    ensures 0 <= w.shared.refs <= 2 && w.shared.freed <= 1
    ensures w.shared.freed == 1 <==> w.promise == Gone && (w.future == NotYet || w.future == Gone)
  {
  }

  // A state that no promise can satisfy any more is ready.
  lemma AbandonedIsReady(worlds: seq<World>, moves: seq<Move>, i: nat)
    requires IsRun(worlds, moves) && i <= |moves| && worlds[i].promise == Gone
    ensures worlds[i].shared.ready
  {
    RunKeepsInv(worlds, moves, i);
  }

  // Only one call of get_future succeeds.
  predicate Retrieves(w: World, move: Move) {
    && move.thread in w.threads && move.step.Proceed?
    && w.threads[move.thread].RetrieveLocked? && !w.shared.retrieved
  }

  lemma RetrievedOnce(worlds: seq<World>, moves: seq<Move>, i: nat, j: nat)
    requires IsRun(worlds, moves) && i < |moves| && j < |moves|
    requires Retrieves(worlds[i], moves[i]) && Retrieves(worlds[j], moves[j])
    ensures i == j
  {
    if i < j {
      assert IsMove(worlds, moves, i);
      RetrievedStays(worlds, moves, i + 1, j);
    } else if j < i {
      assert IsMove(worlds, moves, j);
      RetrievedStays(worlds, moves, j + 1, i);
    }
  }

  lemma {:induction false} RetrievedStays(worlds: seq<World>, moves: seq<Move>, i: nat, j: nat)
    requires IsRun(worlds, moves) && i <= j <= |moves| && worlds[i].shared.retrieved
    ensures worlds[j].shared.retrieved
    decreases j
  {
    if i < j {
      RetrievedStays(worlds, moves, i, j - 1);
      assert IsMove(worlds, moves, j - 1);
    }
  }
}
