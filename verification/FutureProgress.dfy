// Every operation on a promise or its future returns, but a wait for an outcome that nobody sets.

module FutureProgress {
  import opened FutureProtocol
  import opened Wrappers
  import opened FutureRuns

  function Last(worlds: seq<World>): World
    requires worlds != []
  {
    worlds[|worlds| - 1]
  }

  // The run goes on by n steps.
  predicate GoesOn(worlds: seq<World>, moves: seq<Move>, worlds': seq<World>, moves': seq<Move>, n: nat) {
    && IsRun(worlds', moves') && worlds <= worlds' && moves <= moves'
    && |moves'| == |moves| + n && |worlds'| == |moves'| + 1
  }

  lemma Goes(worlds: seq<World>, moves: seq<Move>, t: Thread, step: Step)
    returns (worlds': seq<World>, moves': seq<Move>)
    requires IsRun(worlds, moves) && Enabled(Last(worlds), t, step)
    ensures GoesOn(worlds, moves, worlds', moves', 1) && Last(worlds') == Do(Last(worlds), t, step)
    ensures moves' == moves + [Move(t, step)]
  {
    hide Enabled, Do, IsInitial;
    Extended(worlds, moves, Move(t, step));
    worlds', moves' := Then(worlds, Move(t, step)), moves + [Move(t, step)];
  }

  // ----- By itself.

  predicate NeedsMutex(pc: Pc) {
    pc.SetLock? || pc.RetrieveLock? || pc.WaitLock? || pc.WaitWoken?
  }

  // The thread can go on: the mutex is free or its own, and it does not wait for an outcome.
  predicate CanGoOn(w: World, t: Thread) {
    && t in w.threads && (w.shared.holder.None? || w.shared.holder == Some(t))
    && !w.threads[t].WaitBlocked? && (Waits(w.threads[t]) ==> w.shared.ready)
  }

  function AfterSetLeft(request: Request): nat {
    if request.Abandon? then 1 else 0
  }

  function AfterWaitLeft(getting: bool): nat {
    if getting then 3 else 0
  }

  // How many steps the operation still has.
  function Left(w: World, pc: Pc): nat {
    match pc
    case Idle => 0
    case SetLock(request) => 1 + (if w.shared.ready then 1 else 5) + AfterSetLeft(request)
    case SetLocked(request) => (if w.shared.ready then 1 else 5) + AfterSetLeft(request)
    case SetChecked(request) => 4 + AfterSetLeft(request)
    case SetWritten(request) => 3 + AfterSetLeft(request)
    case SetReadied(request) => 2 + AfterSetLeft(request)
    case SetNotify(request) => 1 + AfterSetLeft(request)
    case PromiseRelease => 1
    case RetrieveLock => if w.shared.retrieved then 2 else 3
    case RetrieveLocked => if w.shared.retrieved then 1 else 2
    case Retain => 1
    case WaitLock(getting) => 2 + AfterWaitLeft(getting)
    case WaitLocked(getting) => 1 + AfterWaitLeft(getting)
    case WaitBlocked(getting) => 3 + AfterWaitLeft(getting)
    case WaitWoken(getting) => 2 + AfterWaitLeft(getting)
    case GetReadError => 3
    case GetReadException => 2
    case GetRelease(_) => 1
    case FutureRelease => 1
  }

  // On the way to making the state ready.
  predicate Sets(pc: Pc) {
    pc.SetLock? || pc.SetLocked? || pc.SetChecked? || pc.SetWritten?
  }

  predicate IsEnding(handle: Handle, t: Thread) {
    handle == Closing(t) || handle == Gone
  }

  // What is not undone until t returns: the outcome, and what t has set out to do.
  predicate Keeps(w: World, w': World, t: Thread)
    requires t in w.threads && t in w'.threads
  {
    && Frozen(w, w')
    && (Sets(w.threads[t]) ==> Sets(w'.threads[t]) || w'.shared.ready)
    && (IsEnding(w.promise, t) ==> IsEnding(w'.promise, t))
    && (IsEnding(w.future, t) ==> IsEnding(w'.future, t))
    && (IsEnding(w.promise, t) && (w.future.NotYet? || w.future.Gone?) ==> w'.future == w.future)
    && (w.promise.Gone? ==> w'.promise.Gone?)
  }

  lemma KeepsOn(a: World, b: World, c: World, t: Thread)
    requires t in a.threads && t in b.threads && t in c.threads
    requires Keeps(a, b, t) && Keeps(b, c, t)
    ensures Keeps(a, c, t)
  {
  }

  function OwnStep(pc: Pc): Step {
    if NeedsMutex(pc) then TakeLock else Proceed
  }

  lemma TakesAlone(w: World, t: Thread)
    requires Inv(w) && CanGoOn(w, t) && NeedsMutex(w.threads[t])
    ensures Enabled(w, t, TakeLock)
    ensures var w' := Do(w, t, TakeLock);
            CanGoOn(w', t) && Left(w', w'.threads[t]) < Left(w, w.threads[t]) && Keeps(w, w', t)
  {
    assert ThreadOk(w, t);
  }

  lemma PromiseGoesOn(w: World, t: Thread)
    requires Inv(w) && CanGoOn(w, t) && UsesPromise(w.threads[t]) && !NeedsMutex(w.threads[t])
    ensures Enabled(w, t, Proceed)
    ensures var w' := Do(w, t, Proceed);
            CanGoOn(w', t) && Left(w', w'.threads[t]) < Left(w, w.threads[t]) && Keeps(w, w', t)
  {
    assert ThreadOk(w, t);
  }

  lemma FutureGoesOn(w: World, t: Thread)
    requires Inv(w) && CanGoOn(w, t) && UsesFuture(w.threads[t]) && !NeedsMutex(w.threads[t])
    ensures Enabled(w, t, Proceed)
    ensures var w' := Do(w, t, Proceed);
            CanGoOn(w', t) && Left(w', w'.threads[t]) < Left(w, w.threads[t]) && Keeps(w, w', t)
  {
    assert ThreadOk(w, t);
  }

  lemma GoesOnAlone(w: World, t: Thread)
    requires Inv(w) && CanGoOn(w, t) && w.threads[t] != Idle
    ensures Enabled(w, t, OwnStep(w.threads[t]))
    ensures var w' := Do(w, t, OwnStep(w.threads[t]));
            CanGoOn(w', t) && Left(w', w'.threads[t]) < Left(w, w.threads[t]) && Keeps(w, w', t)
  {
    hide Inv, Do, Enabled, Keeps;
    if NeedsMutex(w.threads[t]) {
      TakesAlone(w, t);
    } else if UsesPromise(w.threads[t]) {
      PromiseGoesOn(w, t);
    } else {
      FutureGoesOn(w, t);
    }
  }

  lemma {:induction false} ReturnsAlone(worlds: seq<World>, moves: seq<Move>, t: Thread)
    returns (worlds': seq<World>, moves': seq<Move>, n: nat)
    requires IsRun(worlds, moves) && CanGoOn(Last(worlds), t)
    ensures n <= Left(Last(worlds), Last(worlds).threads[t]) && GoesOn(worlds, moves, worlds', moves', n)
    ensures t in Last(worlds').threads && Last(worlds').threads[t] == Idle && Keeps(Last(worlds), Last(worlds'), t)
    decreases Left(Last(worlds), Last(worlds).threads[t])
  {
    var w := Last(worlds);
    if w.threads[t] == Idle {
      worlds', moves', n := worlds, moves, 0;
    } else {
      RunKeepsInv(worlds, moves, |moves|);
      hide Inv, Do, Enabled, CanGoOn, Left, Keeps;
      GoesOnAlone(w, t);
      var longer, more := Goes(worlds, moves, t, OwnStep(w.threads[t]));
      worlds', moves', n := ReturnsAlone(longer, more, t);
      KeepsOn(w, Last(longer), Last(worlds'), t);
      n := n + 1;
    }
  }

  // ----- When another thread holds the mutex.

  function HeldFor(w: World, pc: Pc): nat {
    match pc
    case SetLocked(_) => if w.shared.ready then 1 else 4
    case SetChecked(_) => 3
    case SetWritten(_) => 2
    case _ => 1
  }

  predicate IsHeldOff(w: World, t: Thread) {
    && t in w.threads && w.shared.holder.Some? && w.shared.holder != Some(t)
    && w.shared.holder.value in w.threads
  }

  lemma HolderGoesOn(w: World, t: Thread)
    requires Inv(w) && IsHeldOff(w, t)
    ensures var u := w.shared.holder.value;
            && Enabled(w, u, Proceed)
            && var w' := Do(w, u, Proceed);
            && t in w'.threads && w'.threads[t] == w.threads[t] && Keeps(w, w', t)
            && (w'.shared.holder.None?
                || (w'.shared.holder == w.shared.holder && u in w'.threads
                    && HeldFor(w', w'.threads[u]) < HeldFor(w, w.threads[u])))
  {
    assert ThreadOk(w, w.shared.holder.value) && ThreadOk(w, t);
  }

  lemma {:induction false} HolderGivesUp(worlds: seq<World>, moves: seq<Move>, t: Thread)
    returns (worlds': seq<World>, moves': seq<Move>, n: nat)
    requires IsRun(worlds, moves) && IsHeldOff(Last(worlds), t)
    ensures n <= HeldFor(Last(worlds), Last(worlds).threads[Last(worlds).shared.holder.value])
    ensures GoesOn(worlds, moves, worlds', moves', n) && Last(worlds').shared.holder.None?
    ensures t in Last(worlds').threads && Last(worlds').threads[t] == Last(worlds).threads[t]
    ensures Keeps(Last(worlds), Last(worlds'), t)
    decreases HeldFor(Last(worlds), Last(worlds).threads[Last(worlds).shared.holder.value])
  {
    var w := Last(worlds);
    RunKeepsInv(worlds, moves, |moves|);
    hide Inv, Do, Enabled, HeldFor, Keeps;
    HolderGoesOn(w, t);
    worlds', moves' := Goes(worlds, moves, w.shared.holder.value, Proceed);
    n := 1;
    if Last(worlds').shared.holder.Some? {
      var next := Last(worlds');
      worlds', moves', n := HolderGivesUp(worlds', moves', t);
      KeepsOn(w, next, Last(worlds'), t);
      n := n + 1;
    } else {
      assert HeldFor(w, w.threads[w.shared.holder.value]) >= 1 by {
        HeldForSome(w, w.threads[w.shared.holder.value]);
      }
    }
  }

  lemma HeldForSome(w: World, pc: Pc)
    ensures 1 <= HeldFor(w, pc) <= 4
  {
  }

  // ----- Both.

  lemma NotifierKeeps(w: World, t: Thread, u: Thread)
    requires Inv(w) && w.shared.ready && Blocked(w, t) && u in w.threads && u != t && Announces(w.threads[u])
    requires Enabled(w, u, Proceed) && t in Do(w, u, Proceed).threads
    ensures Keeps(w, Do(w, u, Proceed), t)
  {
    assert ThreadOk(w, u) && ThreadOk(w, t);
  }

  lemma LeftBound(w: World, pc: Pc)
    ensures Left(w, pc) <= 7
  {
  }

  // Whoever holds the mutex gives it up, and whoever has made the state ready wakes t.
  lemma IsSetFree(worlds: seq<World>, moves: seq<Move>, t: Thread)
    returns (worlds': seq<World>, moves': seq<Move>, n: nat)
    requires IsRun(worlds, moves) && t in Last(worlds).threads
    requires Waits(Last(worlds).threads[t]) ==> Last(worlds).shared.ready
    ensures n <= 5 && GoesOn(worlds, moves, worlds', moves', n) && CanGoOn(Last(worlds'), t)
    ensures Keeps(Last(worlds), Last(worlds'), t)
  {
    var w := Last(worlds);
    RunKeepsInv(worlds, moves, |moves|);
    worlds', moves', n := worlds, moves, 0;
    if w.shared.holder.Some? && w.shared.holder != Some(t) {
      HeldForSome(w, w.threads[w.shared.holder.value]);
      hide Inv, Do, Enabled, HeldFor, IsRun;
      worlds', moves', n := HolderGivesUp(worlds, moves, t);
    }
    var w1 := Last(worlds');
    if Blocked(w1, t) {
      RunKeepsInv(worlds', moves', |moves'|);
      assert ThreadOk(w1, t);
      hide Do, Enabled, IsRun, Keeps;
      var u := NotifierWakes(w1, t);
      DoIsGo(w1, u);
      NotifierKeeps(w1, t, u);
      var longer, more := Goes(worlds', moves', u, Proceed);
      KeepsOn(w, w1, Last(longer), t);
      worlds', moves', n := longer, more, n + 1;
    }
  }

  // Main result: in every run, a thread inside any operation, but a wait for an outcome that is not
  // there, is at most twelve steps, its own and those of who holds it up, from its return.
  // The outcome, if there was one, is the same then; if it was setting one there is one; and a
  // handle that it was ending is gone.
  lemma OperationReturns(worlds: seq<World>, moves: seq<Move>, t: Thread)
    returns (worlds': seq<World>, moves': seq<Move>, n: nat)
    requires IsRun(worlds, moves) && t in Last(worlds).threads
    requires Waits(Last(worlds).threads[t]) ==> Last(worlds).shared.ready
    ensures n <= 12 && GoesOn(worlds, moves, worlds', moves', n)
    ensures var w, w' := Last(worlds), Last(worlds');
            && t in w'.threads && w'.threads[t] == Idle && Frozen(w, w')
            && (Sets(w.threads[t]) ==> w'.shared.ready)
            && (w.promise == Closing(t) ==> w'.promise == Gone)
            && (w.future == Closing(t) ==> w'.future == Gone)
            && (w.promise == Closing(t) && (w.future.NotYet? || w.future.Gone?) ==> w'.shared.freed == 1)
  {
    var w := Last(worlds);
    hide Inv, Do, Enabled, CanGoOn, Left;
    var a, m, k := IsSetFree(worlds, moves, t);
    LeftBound(Last(a), Last(a).threads[t]);
    worlds', moves', n := ReturnsAlone(a, m, t);
    n := k + n;
    KeepsOn(w, Last(a), Last(worlds'), t);
    RunKeepsInv(worlds', moves', |moves'|);
    NothingClosing(Last(worlds'), t);
    FreedOnce(worlds', moves', |moves'|);
  }

  lemma NothingClosing(w: World, t: Thread)
    requires Inv(w) && t in w.threads && w.threads[t] == Idle
    ensures w.promise != Closing(t) && w.future != Closing(t)
  {
  }

  // So a promise that is being destroyed goes, and with it the state if the future has gone, or
  // was never asked for.
  lemma DestructionEnds(worlds: seq<World>, moves: seq<Move>)
    returns (worlds': seq<World>, moves': seq<Move>, n: nat)
    requires IsRun(worlds, moves) && Last(worlds).promise.Closing?
    ensures n <= 12 && GoesOn(worlds, moves, worlds', moves', n)
    ensures Last(worlds').promise == Gone && Last(worlds').shared.ready
    ensures Last(worlds).future.NotYet? || Last(worlds).future.Gone? ==> Last(worlds').shared.freed == 1
  {
    RunKeepsInv(worlds, moves, |moves|);
    var t := Last(worlds).promise.owner;
    assert t in Last(worlds).threads && !Waits(Last(worlds).threads[t]);
    worlds', moves', n := OperationReturns(worlds, moves, t);
    AbandonedIsReady(worlds', moves', |moves'|);
  }

  // ----- Whole calls, undisturbed.

  predicate IsQuiet(w: World, t: Thread) {
    t in w.threads && w.threads[t] == Idle && w.shared.holder.None?
  }

  // A second set changes nothing.
  lemma SecondSet(worlds: seq<World>, moves: seq<Move>, t: Thread, request: Request)
    returns (worlds': seq<World>, moves': seq<Move>)
    requires IsRun(worlds, moves) && IsQuiet(Last(worlds), t) && Last(worlds).promise.Open?
    requires !request.Abandon? && Last(worlds).shared.ready
    ensures GoesOn(worlds, moves, worlds', moves', 3) && Last(worlds') == Last(worlds)
  {
    var w := Last(worlds);
    hide IsRun;
    worlds', moves' := Goes(worlds, moves, t, StartSet(request));
    worlds', moves' := Goes(worlds', moves', t, TakeLock);
    worlds', moves' := Goes(worlds', moves', t, Proceed);
    assert Last(worlds').threads == w.threads;
  }

  // From the check to the unlock.
  lemma SetsUnderMutex(worlds: seq<World>, moves: seq<Move>, t: Thread, request: Request)
    returns (worlds': seq<World>, moves': seq<Move>)
    requires IsRun(worlds, moves) && t in Last(worlds).threads && Last(worlds).threads[t] == SetLocked(request)
    requires !Last(worlds).shared.ready && Last(worlds).shared.channel == CLEAN
    ensures GoesOn(worlds, moves, worlds', moves', 4)
    ensures Last(worlds').shared.ready && Last(worlds').shared.channel == Written(request, CLEAN)
    ensures Last(worlds').shared.holder.None?
    ensures Last(worlds').threads == Last(worlds).threads[t := SetNotify(request)]
    ensures Last(worlds').promise == Last(worlds).promise && Last(worlds').future == Last(worlds).future
  {
    hide IsRun;
    worlds', moves' := Goes(worlds, moves, t, Proceed);
    worlds', moves' := Goes(worlds', moves', t, Proceed);
    worlds', moves' := Goes(worlds', moves', t, Proceed);
    worlds', moves' := Goes(worlds', moves', t, Proceed);
  }

  // The first makes the state ready with its outcome, and wakes whoever is blocked.
  lemma FirstSet(worlds: seq<World>, moves: seq<Move>, t: Thread, request: Request)
    returns (worlds': seq<World>, moves': seq<Move>)
    requires IsRun(worlds, moves) && IsQuiet(Last(worlds), t) && Last(worlds).promise.Open?
    requires !request.Abandon? && !Last(worlds).shared.ready
    ensures GoesOn(worlds, moves, worlds', moves', 7)
    ensures Last(worlds').shared.ready && OutcomeOf(Last(worlds').shared.channel) == Meaning(request)
    ensures Last(worlds').promise == Last(worlds).promise && Last(worlds').future == Last(worlds).future
    ensures Last(worlds').threads.Keys == Last(worlds).threads.Keys
    ensures forall u :: u in Last(worlds).threads ==> Last(worlds').threads[u] == WakeOne(Last(worlds).threads[u])
  {
    var w := Last(worlds);
    RunKeepsInv(worlds, moves, |moves|);
    assert w.shared.channel == CLEAN;
    WrittenIsRead(request);
    hide IsRun, Inv;
    worlds', moves' := Goes(worlds, moves, t, StartSet(request));
    worlds', moves' := Goes(worlds', moves', t, TakeLock);
    worlds', moves' := SetsUnderMutex(worlds', moves', t, request);
    assert Last(worlds').threads == w.threads[t := SetNotify(request)];
    worlds', moves' := Goes(worlds', moves', t, Proceed);
  }

  // get_future hands the state over once, with a reference of its own.
  lemma FirstFuture(worlds: seq<World>, moves: seq<Move>, t: Thread)
    returns (worlds': seq<World>, moves': seq<Move>)
    requires IsRun(worlds, moves) && IsQuiet(Last(worlds), t) && Last(worlds).promise.Open?
    requires Last(worlds).future.NotYet?
    ensures GoesOn(worlds, moves, worlds', moves', 4)
    ensures Last(worlds') == Last(worlds).(future := Open, shared := Last(worlds).shared.(retrieved := true, refs := 2))
  {
    var w := Last(worlds);
    RunKeepsInv(worlds, moves, |moves|);
    assert !w.shared.retrieved && w.shared.refs == 1;
    hide IsRun, Inv;
    worlds', moves' := Goes(worlds, moves, t, StartGetFuture);
    worlds', moves' := Goes(worlds', moves', t, TakeLock);
    worlds', moves' := Goes(worlds', moves', t, Proceed);
    worlds', moves' := Goes(worlds', moves', t, Proceed);
    assert Last(worlds').threads == w.threads;
  }

  lemma SecondFuture(worlds: seq<World>, moves: seq<Move>, t: Thread)
    returns (worlds': seq<World>, moves': seq<Move>)
    requires IsRun(worlds, moves) && IsQuiet(Last(worlds), t) && Last(worlds).promise.Open?
    requires !Last(worlds).future.NotYet?
    ensures GoesOn(worlds, moves, worlds', moves', 3) && Last(worlds') == Last(worlds)
  {
    var w := Last(worlds);
    RunKeepsInv(worlds, moves, |moves|);
    assert w.shared.retrieved;
    hide IsRun, Inv;
    worlds', moves' := Goes(worlds, moves, t, StartGetFuture);
    worlds', moves' := Goes(worlds', moves', t, TakeLock);
    worlds', moves' := Goes(worlds', moves', t, Proceed);
    assert Last(worlds').threads == w.threads;
  }

  // wait on a ready state changes nothing, and get gives the future up.
  lemma ReadyWait(worlds: seq<World>, moves: seq<Move>, t: Thread)
    returns (worlds': seq<World>, moves': seq<Move>)
    requires IsRun(worlds, moves) && IsQuiet(Last(worlds), t) && Last(worlds).future.Open? && Last(worlds).shared.ready
    ensures GoesOn(worlds, moves, worlds', moves', 3) && Last(worlds') == Last(worlds)
  {
    var w := Last(worlds);
    hide IsRun;
    worlds', moves' := Goes(worlds, moves, t, StartWait);
    worlds', moves' := Goes(worlds', moves', t, TakeLock);
    worlds', moves' := Goes(worlds', moves', t, Proceed);
    assert Last(worlds').threads == w.threads;
  }

  // A wait on a state that is not ready blocks, with the mutex free.
  lemma PendingWait(worlds: seq<World>, moves: seq<Move>, t: Thread)
    returns (worlds': seq<World>, moves': seq<Move>)
    requires IsRun(worlds, moves) && IsQuiet(Last(worlds), t) && Last(worlds).future.Open? && !Last(worlds).shared.ready
    ensures GoesOn(worlds, moves, worlds', moves', 3)
    ensures Last(worlds') == Last(worlds).(threads := Last(worlds).threads[t := WaitBlocked(false)])
  {
    var w := Last(worlds);
    hide IsRun;
    worlds', moves' := Goes(worlds, moves, t, StartWait);
    worlds', moves' := Goes(worlds', moves', t, TakeLock);
    worlds', moves' := Goes(worlds', moves', t, Proceed);
    assert Last(worlds').threads == w.threads[t := WaitBlocked(false)];
  }

  lemma Reads(worlds: seq<World>, moves: seq<Move>, t: Thread)
    returns (worlds': seq<World>, moves': seq<Move>, n: nat)
    requires IsRun(worlds, moves) && t in Last(worlds).threads && Last(worlds).threads[t] == GetReadError
    ensures n == (if Last(worlds).shared.channel.error then 1 else 2) && GoesOn(worlds, moves, worlds', moves', n)
    ensures Last(worlds') == Last(worlds).Goto(t, GetRelease(OutcomeOf(Last(worlds).shared.channel)))
  {
    var w := Last(worlds);
    hide IsRun;
    worlds', moves' := Goes(worlds, moves, t, Proceed);
    n := 1;
    if !w.shared.channel.error {
      worlds', moves' := Goes(worlds', moves', t, Proceed);
      n := 2;
      assert Last(worlds').threads == w.threads[t := GetRelease(OutcomeOf(w.shared.channel))];
    }
  }

  lemma StartsGet(worlds: seq<World>, moves: seq<Move>, t: Thread)
    returns (worlds': seq<World>, moves': seq<Move>)
    requires IsRun(worlds, moves) && IsQuiet(Last(worlds), t) && Last(worlds).future.Open? && Last(worlds).shared.ready
    requires FutureUnused(Last(worlds))
    ensures GoesOn(worlds, moves, worlds', moves', 3)
    ensures Last(worlds') == Last(worlds).(future := Closing(t)).Goto(t, GetReadError)
  {
    var w := Last(worlds);
    hide IsRun;
    worlds', moves' := Goes(worlds, moves, t, StartGet);
    worlds', moves' := Goes(worlds', moves', t, TakeLock);
    worlds', moves' := Goes(worlds', moves', t, Proceed);
    assert Last(worlds').threads == w.threads[t := GetReadError];
  }

  lemma ReadyGet(worlds: seq<World>, moves: seq<Move>, t: Thread)
    returns (worlds': seq<World>, moves': seq<Move>, n: nat)
    requires IsRun(worlds, moves) && IsQuiet(Last(worlds), t) && Last(worlds).future.Open? && Last(worlds).shared.ready
    requires FutureUnused(Last(worlds))
    ensures 5 <= n <= 6 && GoesOn(worlds, moves, worlds', moves', n)
    ensures Delivers(worlds'[|moves'| - 1], moves'[|moves'| - 1], OutcomeOf(Last(worlds).shared.channel))
    ensures Last(worlds').threads == Last(worlds).threads && Last(worlds').future == Gone
    ensures Last(worlds').promise == Last(worlds).promise && Last(worlds').shared.refs == Last(worlds).shared.refs - 1
  {
    var w := Last(worlds);
    hide IsRun, Do, Enabled;
    worlds', moves' := StartsGet(worlds, moves, t);
    worlds', moves', n := Reads(worlds', moves', t);
    n := n + 4;
    worlds', moves' := ReleasesFuture(worlds', moves', t, OutcomeOf(w.shared.channel));
    assert Last(worlds').threads == w.threads;
  }

  lemma ReleasesFuture(worlds: seq<World>, moves: seq<Move>, t: Thread, outcome: Outcome)
    returns (worlds': seq<World>, moves': seq<Move>)
    requires IsRun(worlds, moves) && t in Last(worlds).threads && Last(worlds).threads[t] == GetRelease(outcome)
    ensures GoesOn(worlds, moves, worlds', moves', 1)
    ensures Delivers(worlds'[|moves'| - 1], moves'[|moves'| - 1], outcome)
    ensures Last(worlds') == Last(worlds).(future := Gone).Release().Goto(t, Idle)
  {
    worlds', moves' := Goes(worlds, moves, t, Proceed);
    assert worlds'[|moves'| - 1] == Last(worlds);
  }
}
