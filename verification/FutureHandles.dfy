// Promise and future handles over a counted shared state: std::promise<void> and
// std::future<void>, in every order of moves, get_future, sets, get and destruction.
//
// `World` is the heap of live objects.  FutureProtocol covers the same state under threads; here
// every operation runs to its end, and one that would wait for a promise reports that.

module FutureHandles {
  import opened Wrappers

  type Exception = nat

  datatype Error =
    | NoState
    | AlreadySatisfied
    | AlreadyRetrieved
    | BrokenPromise
    | Rethrown(exception: Exception)

  // Waiting: the thread is still inside wait().
  datatype Waited = Waiting | Done(result: Result<(), Error>)

  datatype Outcome = Pending | Value | Threw(exception: Exception) | Broken

  class SharedState {
    var references: int
    var ready: bool
    var retrieved: bool
    var broken: bool                   // error_ == broken_promise
    var exception: Option<Exception>
    // The handles that refer to the state.
    ghost var promise: Promise?
    ghost var future: Future?

    constructor ()
      ensures references == 1 && !ready && !retrieved && !broken && exception == None
      ensures promise == null && future == null
    {
      references, ready, retrieved, broken, exception := 1, false, false, false, None;
      promise, future := null, null;
    }

    ghost function Outcome(): Outcome
      reads this
    {
      if !ready then Pending
      else if broken then Broken
      else if exception.Some? then Threw(exception.value)
      else Value
    }

    ghost function Handles(): nat
      reads this
    {
      (if promise != null then 1 else 0) + (if future != null then 1 else 0)
    }

    method SetValue() returns (result: Result<(), Error>)
      requires !ready ==> !broken && exception == None
      modifies `ready
      ensures old(ready) ==> result == Err(AlreadySatisfied) && unchanged(this)
      ensures !old(ready) ==> result == Ok(()) && Outcome() == Value
    {
      if ready {
        return Err(AlreadySatisfied);
      }
      ready := true;
      result := Ok(());
    }

    method SetException(e: Option<Exception>) returns (result: Result<(), Error>)
      requires !ready ==> !broken && exception == None
      modifies `ready, `exception
      ensures old(ready) ==> result == Err(AlreadySatisfied) && unchanged(this)
      ensures !old(ready) ==> result == Ok(()) && Outcome() == if e.Some? then Threw(e.value) else Value
    {
      if ready {
        return Err(AlreadySatisfied);
      }
      exception := e;
      ready := true;
      result := Ok(());
    }

    method Abandon()
      modifies `ready, `broken
      ensures ready
      ensures Outcome() == if old(ready) then old(Outcome()) else Broken
    {
      if ready {
        return;
      }
      broken := true;
      ready := true;
    }
  }

  class Promise {
    var state: SharedState?

    constructor (state: SharedState?)
      ensures this.state == state
    {
      this.state := state;
    }
  }

  class Future {
    var state: SharedState?

    constructor (state: SharedState?)
      ensures this.state == state
    {
      this.state := state;
    }
  }

  // ----- Consistency.

  ghost predicate PromisesOk(promises: set<Promise>, states: set<SharedState>)
    reads promises, states
  {
    forall p :: p in promises && p.state != null ==> p.state in states && p.state.promise == p
  }

  ghost predicate FuturesOk(futures: set<Future>, states: set<SharedState>)
    reads futures, states
  {
    forall f :: f in futures && f.state != null ==> f.state in states && f.state.future == f
  }

  ghost predicate StateOk(s: SharedState, promises: set<Promise>, futures: set<Future>)
    reads s, promises, futures
  {
    && s.references == s.Handles() && s.references > 0
    && LinksOk(s, promises, futures)
  }

  ghost predicate LinksOk(s: SharedState, promises: set<Promise>, futures: set<Future>)
    reads s, promises, futures
  {
    && (s.promise != null ==> s.promise in promises && s.promise.state == s)
    && (s.future != null ==> s.future in futures && s.future.state == s && s.retrieved)
    && (s.promise == null ==> s.ready)
    && (!s.ready ==> !s.broken && s.exception == None)
  }

  ghost predicate StatesOk(states: set<SharedState>, promises: set<Promise>, futures: set<Future>)
    reads states, promises, futures
  {
    forall s :: s in states ==> StateOk(s, promises, futures)
  }

  // Every state that was made is live, or was deleted once.
  ghost predicate FreedOk(created: set<SharedState>, states: set<SharedState>, freed: multiset<SharedState>) {
    states <= created && freed == multiset(created - states)
  }

  ghost function Only(s: SharedState?): set<SharedState> {
    if s == null then {} else {s}
  }

  // What get() gives for an outcome.
  ghost function Delivered(outcome: Outcome): Waited {
    match outcome
    case Pending => Waiting
    case Value => Done(Ok(()))
    case Threw(e) => Done(Err(Rethrown(e)))
    case Broken => Done(Err(BrokenPromise))
  }

  lemma MadeAndLive(created: set<SharedState>, states: set<SharedState>, freed: multiset<SharedState>, s: SharedState)
    requires FreedOk(created, states, freed) && s !in created
    ensures FreedOk(created + {s}, states + {s}, freed) && s !in states
  {
    assert created + {s} - (states + {s}) == created - states;
  }

  class World {
    ghost var promises: set<Promise>
    ghost var futures: set<Future>
    ghost var states: set<SharedState>
    ghost var created: set<SharedState>
    ghost var freed: multiset<SharedState>

    ghost predicate Valid()
      reads this, promises, futures, states
    {
      && PromisesOk(promises, states) && FuturesOk(futures, states)
      && StatesOk(states, promises, futures) && FreedOk(created, states, freed)
    }

    constructor ()
      ensures Valid() && promises == {} && futures == {} && states == {} && created == {} && freed == multiset{}
    {
      promises, futures, states, created, freed := {}, {}, {}, {}, multiset{};
    }

    // One handle has let go of the state, and its reference is still counted.
    ghost predicate Letting(s: SharedState)
      reads this, promises, futures, states
    {
      && PromisesOk(promises, states) && FuturesOk(futures, states) && FreedOk(created, states, freed)
      && s in states && StatesOk(states - {s}, promises, futures)
      && s.references == s.Handles() + 1 && LinksOk(s, promises, futures)
    }

    // release_reference, and delete for the last one
    method Release(s: SharedState)
      requires Letting(s)
      modifies `states, `freed, s`references
      ensures Valid()
      ensures states == if old(s.Handles()) == 0 then old(states) - {s} else old(states)
    {
      s.references := s.references - 1;
      if s.references == 0 {
        states := states - {s};
        freed := freed + multiset{s};
      }
    }

    // ----- Promises.

    ghost method Admit(p: Promise, s: SharedState)
      requires Valid()
      requires p !in promises && p.state == s && s !in created && s.promise == null && s.future == null
      requires s.references == 1 && s.Outcome() == Pending && !s.broken && s.exception == None
      modifies `promises, `states, `created, s`promise
      ensures Valid()
      ensures promises == old(promises) + {p} && states == old(states) + {s} && created == old(created) + {s}
    {
      hide FreedOk;
      MadeAndLive(created, states, freed, s);
      s.promise := p;
      promises, states, created := promises + {p}, states + {s}, created + {s};
    }

    method MakePromise() returns (p: Promise)
      requires Valid()
      modifies `promises, `states, `created
      ensures Valid() && fresh(p) && promises == old(promises) + {p}
      ensures p.state != null && fresh(p.state) && p.state.Outcome() == Pending && !p.state.retrieved
      ensures states == old(states) + {p.state} && created == old(created) + {p.state}
    {
      var s := new SharedState();
      p := new Promise(s);
      FreshIsNotMade(s);
      Admit(p, s);
    }

    lemma FreshIsNotMade(s: SharedState)
      requires Valid() && s.references == 1 && s.promise == null && s.future == null
      ensures s !in states
    {
    }

    // The source's handle is emptied into p.
    method TakePromise(p: Promise, source: Promise)
      requires Valid() && p !in promises && source in promises
      modifies `promises, p, source, Only(source.state)
      ensures Valid() && promises == old(promises) + {p}
      ensures p.state == old(source.state) && source.state == null
      ensures p.state != null ==> p.state.Outcome() == old(source.state.Outcome())
    {
      hide PromisesOk, FuturesOk, StatesOk, FreedOk;
      if source.state == null {
        EmptyPromise(p);
      } else {
        TransferPromise(p, source);
      }
    }

    method TransferPromise(p: Promise, source: Promise)
      requires Valid() && p !in promises && source in promises && source.state != null
      modifies `promises, p`state, source`state, source.state`promise
      ensures Valid() && promises == old(promises) + {p}
      ensures p.state == old(source.state) && source.state == null
    {
      p.state := source.state;
      source.state := null;
      p.state.promise := p;
      promises := promises + {p};
    }

    method EmptyPromise(p: Promise)
      requires Valid() && p !in promises
      modifies `promises, p
      ensures Valid() && promises == old(promises) + {p} && p.state == null
    {
      p.state := null;
      promises := promises + {p};
    }

    ghost method DropPromise(p: Promise)
      requires Valid() && p in promises && p.state != null && p.state.ready
      modifies `promises, p.state`promise
      ensures Letting(p.state) && promises == old(promises) - {p}
      ensures p.state.promise == null
    {
      p.state.promise := null;
      promises := promises - {p};
    }

    method AbandonState(p: Promise)
      requires Valid() && p in promises && p.state != null
      modifies p.state`ready, p.state`broken
      ensures Valid() && p.state.ready
      ensures p.state.Outcome() == (if old(p.state.ready) then old(p.state.Outcome()) else Broken)
    {
      p.state.Abandon();
    }

    ghost method Leave(p: Promise)
      requires Valid() && p in promises && p.state == null
      modifies `promises
      ensures Valid() && promises == old(promises) - {p}
    {
      promises := promises - {p};
    }

    // ~promise
    method DestroyPromise(p: Promise)
      requires Valid() && p in promises
      modifies `promises, `states, `freed, Only(p.state)
      ensures Valid() && promises == old(promises) - {p}
      ensures p.state == null ==> states == old(states)
      ensures p.state != null ==> states == (if old(p.state.future) == null then old(states) - {p.state} else old(states))
      ensures p.state != null ==>
                p.state.Outcome() == (if old(p.state.ready) then old(p.state.Outcome()) else Broken)
    {
      hide PromisesOk, FuturesOk, StatesOk, FreedOk, LinksOk;
      if p.state == null {
        Leave(p);
      } else {
        AbandonState(p);
        DropPromise(p);
        Release(p.state);
      }
    }

    method MovePromise(other: Promise) returns (p: Promise)
      requires Valid() && other in promises
      modifies `promises, other, Only(other.state)
      ensures Valid() && fresh(p) && promises == old(promises) + {p}
      ensures p.state == old(other.state) && other.state == null
      ensures p.state != null ==> p.state.Outcome() == old(other.state.Outcome())
    {
      p := new Promise(null);
      TakePromise(p, other);
    }

    lemma PromisesApart(p: Promise, q: Promise)
      requires Valid() && p in promises && q in promises && p != q
      ensures p.state == null || p.state != q.state
    {
    }

    method AssignPromise(p: Promise, other: Promise)
      requires Valid() && p in promises && other in promises
      modifies `promises, `states, `freed, p, other, Only(p.state), Only(other.state)
      ensures Valid() && promises == old(promises)
      ensures p.state == old(other.state) && (p != other ==> other.state == null)
      ensures p != other && old(p.state) != null ==>
                old(p.state).Outcome() == (if old(p.state.ready) then old(p.state.Outcome()) else Broken)
      ensures p.state != null ==> p.state.Outcome() == old(other.state.Outcome())
    {
      hide PromisesOk, FuturesOk, StatesOk, FreedOk;
      if p != other {
        PromisesApart(p, other);
        DestroyPromise(p);
        TakePromise(p, other);
      }
    }

    method SetValue(p: Promise) returns (result: Result<(), Error>)
      requires Valid() && p in promises
      modifies Only(p.state)
      ensures Valid()
      ensures p.state == null ==> result == Err(NoState)
      ensures p.state != null && old(p.state.ready) ==>
                result == Err(AlreadySatisfied) && p.state.Outcome() == old(p.state.Outcome())
      ensures p.state != null && !old(p.state.ready) ==> result == Ok(()) && p.state.Outcome() == Value
    {
      if p.state == null {
        return Err(NoState);
      }
      result := p.state.SetValue();
    }

    method SetException(p: Promise, e: Option<Exception>) returns (result: Result<(), Error>)
      requires Valid() && p in promises
      modifies Only(p.state)
      ensures Valid()
      ensures p.state == null ==> result == Err(NoState)
      ensures p.state != null && old(p.state.ready) ==>
                result == Err(AlreadySatisfied) && p.state.Outcome() == old(p.state.Outcome())
      ensures p.state != null && !old(p.state.ready) ==>
                result == Ok(()) && p.state.Outcome() == if e.Some? then Threw(e.value) else Value
    {
      if p.state == null {
        return Err(NoState);
      }
      result := p.state.SetException(e);
    }

    method IsReady(p: Promise) returns (result: Result<bool, Error>)
      requires Valid() && p in promises
      ensures result == if p.state == null then Err(NoState) else Ok(p.state.Outcome() != Pending)
    {
      if p.state == null {
        return Err(NoState);
      }
      result := Ok(p.state.ready);
    }

    // ----- Futures.

    // retrieve_future, retain and the future itself
    method Retrieve(s: SharedState) returns (f: Future)
      requires Valid() && s in states && !s.retrieved
      modifies `futures, s`retrieved, s`references, s`future
      ensures Valid() && fresh(f) && futures == old(futures) + {f} && f.state == s
      ensures s.retrieved && s.references == 2
    {
      s.retrieved := true;
      s.references := s.references + 1;
      f := new Future(s);
      assert f !in futures;
      s.future := f;
      futures := futures + {f};
    }

    method GetFuture(p: Promise) returns (result: Result<Future, Error>)
      requires Valid() && p in promises
      modifies `futures, Only(p.state)
      ensures Valid()
      ensures p.state == null ==> result == Err(NoState)
      ensures p.state != null && old(p.state.retrieved) ==> result == Err(AlreadyRetrieved)
      ensures p.state != null && !old(p.state.retrieved) ==>
                result.Ok? && fresh(result.value) && result.value.state == p.state && p.state.references == 2
      ensures p.state != null ==> p.state.retrieved && p.state.Outcome() == old(p.state.Outcome())
      ensures futures == if result.Ok? then old(futures) + {result.value} else old(futures)
    {
      if p.state == null {
        return Err(NoState);
      }
      if p.state.retrieved {
        return Err(AlreadyRetrieved);
      }
      var f := Retrieve(p.state);
      result := Ok(f);
    }

    // The source's handle is emptied into f.
    method TakeFuture(f: Future, source: Future)
      requires Valid() && f !in futures && source in futures
      modifies `futures, f, source, Only(source.state)
      ensures Valid() && futures == old(futures) + {f}
      ensures f.state == old(source.state) && source.state == null
      ensures f.state != null ==> f.state.Outcome() == old(source.state.Outcome())
    {
      hide PromisesOk, FuturesOk, StatesOk, FreedOk;
      if source.state == null {
        EmptyFuture(f);
      } else {
        TransferFuture(f, source);
      }
    }

    method TransferFuture(f: Future, source: Future)
      requires Valid() && f !in futures && source in futures && source.state != null
      modifies `futures, f`state, source`state, source.state`future
      ensures Valid() && futures == old(futures) + {f}
      ensures f.state == old(source.state) && source.state == null
    {
      f.state := source.state;
      source.state := null;
      f.state.future := f;
      futures := futures + {f};
    }

    method EmptyFuture(f: Future)
      requires Valid() && f !in futures
      modifies `futures, f
      ensures Valid() && futures == old(futures) + {f} && f.state == null
    {
      f.state := null;
      futures := futures + {f};
    }

    ghost method DropFuture(f: Future)
      requires Valid() && f in futures && f.state != null
      modifies `futures, f.state`future
      ensures Letting(f.state) && futures == old(futures) - {f}
      ensures f.state.future == null
    {
      f.state.future := null;
      futures := futures - {f};
    }

    ghost method LeaveFuture(f: Future)
      requires Valid() && f in futures && f.state == null
      modifies `futures
      ensures Valid() && futures == old(futures) - {f}
    {
      futures := futures - {f};
    }

    // ~future
    method DestroyFuture(f: Future)
      requires Valid() && f in futures
      modifies `futures, `states, `freed, Only(f.state)
      ensures Valid() && futures == old(futures) - {f}
      ensures f.state == null ==> states == old(states)
      ensures f.state != null ==> states == (if old(f.state.promise) == null then old(states) - {f.state} else old(states))
      ensures f.state != null ==> f.state.Outcome() == old(f.state.Outcome())
    {
      hide PromisesOk, FuturesOk, StatesOk, FreedOk, LinksOk;
      if f.state == null {
        LeaveFuture(f);
      } else {
        DropFuture(f);
        Release(f.state);
      }
    }

    method MakeFuture() returns (f: Future)
      requires Valid()
      modifies `futures
      ensures Valid() && fresh(f) && futures == old(futures) + {f} && f.state == null
    {
      f := new Future(null);
      futures := futures + {f};
    }

    method MoveFuture(other: Future) returns (f: Future)
      requires Valid() && other in futures
      modifies `futures, other, Only(other.state)
      ensures Valid() && fresh(f) && futures == old(futures) + {f}
      ensures f.state == old(other.state) && other.state == null
      ensures f.state != null ==> f.state.Outcome() == old(other.state.Outcome())
    {
      f := new Future(null);
      TakeFuture(f, other);
    }

    lemma FuturesApart(f: Future, g: Future)
      requires Valid() && f in futures && g in futures && f != g
      ensures f.state == null || f.state != g.state
    {
    }

    method AssignFuture(f: Future, other: Future)
      requires Valid() && f in futures && other in futures
      modifies `futures, `states, `freed, f, other, Only(f.state), Only(other.state)
      ensures Valid() && futures == old(futures)
      ensures f.state == old(other.state) && (f != other ==> other.state == null)
      ensures f.state != null ==> f.state.Outcome() == old(other.state.Outcome())
    {
      hide PromisesOk, FuturesOk, StatesOk, FreedOk;
      if f != other {
        FuturesApart(f, other);
        DestroyFuture(f);
        TakeFuture(f, other);
      }
    }

    method Wait(f: Future) returns (result: Waited)
      requires Valid() && f in futures
      ensures f.state == null ==> result == Done(Err(NoState))
      ensures f.state != null ==> result == if f.state.Outcome() == Pending then Waiting else Done(Ok(()))
    {
      if f.state == null {
        return Done(Err(NoState));
      }
      result := if f.state.ready then Done(Ok(())) else Waiting;
    }

    // state_->release(); state_ = nullptr;
    method Consume(f: Future)
      requires Valid() && f in futures && f.state != null
      modifies `futures, `states, `freed, f, f.state
      ensures Valid() && futures == old(futures) && f.state == null
      ensures states == if old(f.state.promise) == null then old(states) - {old(f.state)} else old(states)
    {
      hide PromisesOk, FuturesOk, StatesOk, FreedOk;
      DestroyFuture(f);
      EmptyFuture(f);
    }

    method Get(f: Future) returns (result: Waited)
      requires Valid() && f in futures
      modifies `futures, `states, `freed, f, Only(f.state)
      ensures Valid() && futures == old(futures)
      ensures old(f.state) == null ==> result == Done(Err(NoState))
      ensures old(f.state) != null ==> result == Delivered(old(f.state.Outcome()))
      ensures old(f.state) != null && result != Waiting ==>
                f.state == null
                && states == if old(f.state.promise) == null then old(states) - {old(f.state)} else old(states)
    {
      result := Wait(f);
      if result != Done(Ok(())) {
        return;
      }
      if f.state.broken {
        Consume(f);
        return Done(Err(BrokenPromise));
      }
      if f.state.exception.Some? {
        var exception := f.state.exception.value;
        Consume(f);
        return Done(Err(Rethrown(exception)));
      }
      Consume(f);
    }
  }

  // ----- What holds between the operations.

  ghost function PromisesOf(promises: set<Promise>, s: SharedState): set<Promise>
    reads promises
  {
    set p | p in promises && p.state == s
  }

  ghost function FuturesOf(futures: set<Future>, s: SharedState): set<Future>
    reads futures
  {
    set f | f in futures && f.state == s
  }

  lemma OnePromise(w: World, s: SharedState)
    requires w.Valid() && s in w.states
    ensures PromisesOf(w.promises, s) == if s.promise == null then {} else {s.promise}
  {
    assert StateOk(s, w.promises, w.futures);
    forall p | p in PromisesOf(w.promises, s)
      ensures p == s.promise
    {
    }
  }

  lemma OneFuture(w: World, s: SharedState)
    requires w.Valid() && s in w.states
    ensures FuturesOf(w.futures, s) == if s.future == null then {} else {s.future}
  {
    assert StateOk(s, w.promises, w.futures);
    forall f | f in FuturesOf(w.futures, s)
      ensures f == s.future
    {
    }
  }

  // The count of a state is the number of live handles that refer to it: one or two, and at
  // most one of each kind.
  lemma ReferencesAreHandles(w: World, s: SharedState)
    requires w.Valid() && s in w.states
    ensures s.references == |PromisesOf(w.promises, s)| + |FuturesOf(w.futures, s)|
    ensures |PromisesOf(w.promises, s)| <= 1 && |FuturesOf(w.futures, s)| <= 1 && 1 <= s.references <= 2
  {
    OnePromise(w, s);
    OneFuture(w, s);
    assert StateOk(s, w.promises, w.futures);
  }

  // A state is deleted once, and exactly when no live handle refers to it.
  lemma FreedExactly(w: World, s: SharedState)
    requires w.Valid() && s in w.created
    ensures w.freed[s] <= 1
    ensures w.freed[s] == 1 <==> PromisesOf(w.promises, s) == {} && FuturesOf(w.futures, s) == {}
  {
    if s in w.states {
      ReferencesAreHandles(w, s);
    } else {
      forall p | p in w.promises
        ensures p.state != s
      {
      }
      forall f | f in w.futures
        ensures f.state != s
      {
      }
    }
  }

  // A state with no promise left to satisfy it is ready.
  lemma AbandonedIsReady(w: World, s: SharedState)
    requires w.Valid() && s in w.states && PromisesOf(w.promises, s) == {}
    ensures s.ready && s.Outcome() != Pending
  {
    OnePromise(w, s);
    assert StateOk(s, w.promises, w.futures);
  }

  // So only a future whose promise is still there can have to wait.
  lemma OnlyWaitsForPromise(w: World, f: Future)
    requires w.Valid() && f in w.futures && f.state != null && f.state.Outcome() == Pending
    ensures exists p :: p in w.promises && p.state == f.state
  {
    OnePromise(w, f.state);
    assert StateOk(f.state, w.promises, w.futures);
  }
}
