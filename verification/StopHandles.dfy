// stop_token and stop_source handles, and registered callbacks, over a counted stop state.
//
// `World` is the heap of live objects.  The counts are atomic in the source, so an operation
// is one step here; what happens under the mutex of the state is StopProtocol's subject.

module StopHandles {

  datatype Kind = Token | Source | Registration

  class StopState {
    var refs: int
    var sources: int
    var requested: bool

    constructor ()
      ensures refs == 1 && sources == 1 && !requested
    {
      refs, sources, requested := 1, 1, false;
    }
  }

  // A stop_token, a stop_source, or a stop_callback with its state_.
  class Handle {
    const kind: Kind
    var state: StopState?

    constructor (kind: Kind, state: StopState?)
      ensures this.kind == kind && this.state == state
    {
      this.kind := kind;
      this.state := state;
    }
  }

  // ----- Counting handles.

  ghost function OfState(handles: set<Handle>, s: StopState): set<Handle>
    reads handles
  {
    set h | h in handles && h.state == s
  }

  ghost function SourcesOf(handles: set<Handle>, s: StopState): set<Handle>
    reads handles
  {
    set h | h in handles && h.state == s && h.kind.Source?
  }

  function One(b: bool): nat {
    if b then 1 else 0
  }

  lemma Removed(handles: set<Handle>, h: Handle, s: StopState)
    requires h in handles
    ensures |OfState(handles - {h}, s)| == |OfState(handles, s)| - One(h.state == s)
    ensures |SourcesOf(handles - {h}, s)| == |SourcesOf(handles, s)| - One(h.state == s && h.kind.Source?)
  {
    assert OfState(handles - {h}, s) == OfState(handles, s) - {h};
    assert SourcesOf(handles - {h}, s) == SourcesOf(handles, s) - {h};
  }

  // The counts are the numbers of handles, but for one reference that no handle holds.
  ghost predicate Counted(states: set<StopState>, handles: set<Handle>, loose: StopState?, kind: Kind)
    reads states, handles
  {
    forall s :: s in states ==>
      && s.refs == |OfState(handles, s)| + One(s == loose)
      && s.sources == |SourcesOf(handles, s)| + One(s == loose && kind.Source?)
  }

  ghost predicate AllReferenced(states: set<StopState>)
    reads states
  {
    forall s :: s in states ==> s.refs > 0
  }

  ghost predicate NothingDangles(states: set<StopState>, handles: set<Handle>)
    reads handles
  {
    forall h :: h in handles && h.state != null ==> h.state in states
  }

  ghost predicate FreedOk(created: set<StopState>, states: set<StopState>, freed: multiset<StopState>) {
    states <= created && freed == multiset(created - states)
  }

  lemma Loosened(states: set<StopState>, handles: set<Handle>, h: Handle)
    requires Counted(states, handles, null, Token) && NothingDangles(states, handles) && h in handles
    ensures Counted(states, handles - {h}, h.state, h.kind) && NothingDangles(states, handles - {h})
    ensures h.state != null ==> h.state in states
  {
    forall s | s in states
      ensures s.refs == |OfState(handles - {h}, s)| + One(s == h.state)
      ensures s.sources == |SourcesOf(handles - {h}, s)| + One(s == h.state && h.kind.Source?)
    {
      Removed(handles, h, s);
    }
  }

  lemma Fastened(states: set<StopState>, handles: set<Handle>, h: Handle)
    requires Counted(states, handles, h.state, h.kind) && NothingDangles(states, handles) && h !in handles
    requires h.state != null ==> h.state in states
    ensures Counted(states, handles + {h}, null, Token) && NothingDangles(states, handles + {h})
  {
    forall s | s in states
      ensures s.refs == |OfState(handles + {h}, s)|
      ensures s.sources == |SourcesOf(handles + {h}, s)|
    {
      Removed(handles + {h}, h, s);
      assert handles + {h} - {h} == handles;
    }
  }

  // A state without references has no handles.
  lemma Unreferenced(states: set<StopState>, handles: set<Handle>, s: StopState, kind: Kind)
    requires Counted(states, handles, null, kind) && NothingDangles(states, handles) && s in states && s.refs == 0
    ensures Counted(states - {s}, handles, null, kind) && NothingDangles(states - {s}, handles)
  {
    forall h | h in handles
      ensures h.state != s
    {
      assert h.state == s ==> h in OfState(handles, s);
    }
  }

  lemma Freed(created: set<StopState>, states: set<StopState>, freed: multiset<StopState>, s: StopState)
    requires FreedOk(created, states, freed) && s in states
    ensures FreedOk(created, states - {s}, freed + multiset{s})
  {
    assert created - (states - {s}) == created - states + {s};
  }

  lemma Made(created: set<StopState>, states: set<StopState>, freed: multiset<StopState>, s: StopState)
    requires FreedOk(created, states, freed) && s !in created
    ensures FreedOk(created + {s}, states + {s}, freed)
  {
    assert created + {s} - (states + {s}) == created - states;
  }

  lemma FirstSource(states: set<StopState>, handles: set<Handle>, s: StopState)
    requires Counted(states, handles, null, Token) && NothingDangles(states, handles)
    requires s !in states && s.refs == 1 && s.sources == 1
    ensures Counted(states + {s}, handles, s, Source) && NothingDangles(states + {s}, handles)
  {
    assert OfState(handles, s) == {} && SourcesOf(handles, s) == {};
  }

  ghost function Only(s: StopState?): set<StopState> {
    if s == null then {} else {s}
  }

  class World {
    ghost var handles: set<Handle>
    ghost var states: set<StopState>
    ghost var created: set<StopState>
    ghost var freed: multiset<StopState>

    // Everything is in order but for one reference that no handle holds.
    ghost predicate Loose(s: StopState?, kind: Kind)
      reads this, handles, states
    {
      && Counted(states, handles, s, kind) && AllReferenced(states)
      && NothingDangles(states, handles) && FreedOk(created, states, freed)
      && (s != null ==> s in states)
    }

    ghost predicate Valid()
      reads this, handles, states
    {
      Loose(null, Token)
    }

    constructor ()
      ensures Valid() && handles == {} && states == {} && created == {} && freed == multiset{}
    {
      handles, states, created, freed := {}, {}, {}, multiset{};
    }

    ghost method Loosen(h: Handle)
      requires Valid() && h in handles
      modifies `handles
      ensures Loose(h.state, h.kind) && handles == old(handles) - {h}
    {
      hide Counted, AllReferenced, NothingDangles, FreedOk;
      Loosened(states, handles, h);
      handles := handles - {h};
    }

    ghost method Fasten(h: Handle)
      requires Loose(h.state, h.kind) && h !in handles
      modifies `handles
      ensures Valid() && handles == old(handles) + {h}
    {
      hide Counted, AllReferenced, NothingDangles, FreedOk;
      Fastened(states, handles, h);
      handles := handles + {h};
    }

    // add_ref, and add_source for a source
    method AddRef(s: StopState, kind: Kind)
      requires Valid() && s in states
      modifies s`refs, s`sources
      ensures Loose(s, kind) && s.refs == old(s.refs) + 1
    {
      hide FreedOk;
      s.refs := s.refs + 1;
      if kind.Source? {
        s.sources := s.sources + 1;
      }
    }

    // release_source for a source, and release
    method Release(s: StopState, kind: Kind)
      requires Loose(s, kind)
      modifies `states, `freed, s`refs, s`sources
      ensures Valid() && handles == old(handles)
      ensures states == if OfState(handles, s) == {} then old(states) - {s} else old(states)
    {
      Decrement(s, kind);
      CountIsZero(s);
      if s.refs == 0 {
        Delete(s);
      }
    }

    method Decrement(s: StopState, kind: Kind)
      requires Loose(s, kind)
      modifies s`refs, s`sources
      ensures Counted(states, handles, null, Token) && AllReferenced(states - {s}) && s.refs >= 0
      ensures NothingDangles(states, handles) && FreedOk(created, states, freed) && s in states
    {
      hide FreedOk;
      if kind.Source? {
        s.sources := s.sources - 1;
      }
      s.refs := s.refs - 1;
    }

    lemma CountIsZero(s: StopState)
      requires Counted(states, handles, null, Token) && s in states
      ensures s.refs == 0 <==> OfState(handles, s) == {}
    {
    }

    ghost method Delete(s: StopState)
      requires Counted(states, handles, null, Token) && AllReferenced(states - {s}) && s.refs == 0 && s in states
      requires NothingDangles(states, handles) && FreedOk(created, states, freed)
      modifies `states, `freed
      ensures Valid() && states == old(states) - {s}
    {
      hide Counted, AllReferenced, NothingDangles, FreedOk;
      Unreferenced(states, handles, s, Token);
      Freed(created, states, freed, s);
      states, freed := states - {s}, freed + multiset{s};
    }

    // stop_source(): without memory it has no state.
    method MakeSource(memory: bool) returns (h: Handle)
      requires Valid()
      modifies `handles, `states, `created
      ensures Valid() && fresh(h) && handles == old(handles) + {h} && h.kind == Source
      ensures h.state != null <==> memory
      ensures memory ==> fresh(h.state) && !h.state.requested && states == old(states) + {h.state}
    {
      hide Counted, AllReferenced, NothingDangles, FreedOk;
      if memory {
        var s := new StopState();
        MadeFresh(s);
        Admit(s);
        h := new Handle(Source, s);
      } else {
        h := new Handle(Source, null);
        NoState(Source);
      }
      Fasten(h);
    }

    lemma MadeFresh(s: StopState)
      requires Valid() && s.refs == 1 && OfState(handles, s) == {}
      ensures s !in states
    {
    }

    // With no state there is nothing to count.
    lemma NoState(kind: Kind)
      requires Valid()
      ensures Loose(null, kind)
    {
    }

    ghost method Admit(s: StopState)
      requires Valid() && s !in created && s !in states && s.refs == 1 && s.sources == 1
      modifies `states, `created
      ensures Loose(s, Source) && states == old(states) + {s} && created == old(created) + {s}
    {
      hide Counted, NothingDangles, FreedOk;
      FirstSource(states, handles, s);
      Made(created, states, freed, s);
      states, created := states + {s}, created + {s};
    }

    // The destructors: a handle gives up its reference.
    method Destroy(h: Handle)
      requires Valid() && h in handles
      modifies `handles, `states, `freed, Only(h.state)`refs, Only(h.state)`sources
      ensures Valid() && handles == old(handles) - {h}
      ensures states == if h.state != null && OfState(handles, h.state) == {} then old(states) - {h.state} else old(states)
    {
      hide Counted, AllReferenced, NothingDangles, FreedOk;
      Loosen(h);
      if h.state != null {
        Release(h.state, h.kind);
      } else {
        Settled(h.kind);
      }
    }

    lemma Settled(kind: Kind)
      requires Loose(null, kind)
      ensures Valid()
    {
    }

    lemma StateIsLive(h: Handle)
      requires Valid() && h in handles && h.state != null
      ensures h.state in states
    {
    }

    // A handle that is not counted yet comes to share a state: the copy constructors,
    // get_token, and the registration of a callback.
    method Share(kind: Kind, s: StopState?) returns (h: Handle)
      requires Valid() && (s != null ==> s in states)
      modifies `handles, Only(s)`refs, Only(s)`sources
      ensures Valid() && fresh(h) && handles == old(handles) + {h} && h.kind == kind && h.state == s
    {
      hide Counted, AllReferenced, NothingDangles, FreedOk;
      if s != null {
        AddRef(s, kind);
      } else {
        NoState(kind);
      }
      h := new Handle(kind, s);
      Fasten(h);
    }

    method Copy(other: Handle) returns (h: Handle)
      requires Valid() && other in handles && !other.kind.Registration?
      modifies `handles, Only(other.state)`refs, Only(other.state)`sources
      ensures Valid() && fresh(h) && handles == old(handles) + {h}
      ensures h.kind == other.kind && h.state == other.state
    {
      hide Counted, AllReferenced, NothingDangles, FreedOk;
      if other.state != null {
        StateIsLive(other);
      }
      h := Share(other.kind, other.state);
    }

    method GetToken(source: Handle) returns (token: Handle)
      requires Valid() && source in handles && source.kind.Source?
      modifies `handles, Only(source.state)`refs, Only(source.state)`sources
      ensures Valid() && fresh(token) && handles == old(handles) + {token}
      ensures token.kind == Token && token.state == source.state
    {
      hide Counted, AllReferenced, NothingDangles, FreedOk;
      if source.state != null {
        StateIsLive(source);
      }
      token := Share(Token, source.state);
    }

    // The reference goes over from one handle to another of its kind.
    method Take(h: Handle, other: Handle)
      requires Valid() && other in handles && h !in handles && h.kind == other.kind
      modifies `handles, h, other
      ensures Valid() && handles == old(handles) + {h}
      ensures h.state == old(other.state) && other.state == null
    {
      hide Counted, AllReferenced, NothingDangles, FreedOk;
      ghost var before := handles;
      Loosen(other);
      h.state := other.state;
      other.state := null;
      Fasten(h);
      NoState(other.kind);
      Fasten(other);
      assert before - {other} + {h} + {other} == before + {h};
    }

    method Move(other: Handle) returns (h: Handle)
      requires Valid() && other in handles && !other.kind.Registration?
      modifies `handles, other
      ensures Valid() && fresh(h) && handles == old(handles) + {h} && h.kind == other.kind
      ensures h.state == old(other.state) && other.state == null
    {
      hide Counted, AllReferenced, NothingDangles, FreedOk;
      h := new Handle(other.kind, null);
      Take(h, other);
    }

    // h gives up its own state, and then shares that of the other.
    method CopyAssign(h: Handle, other: Handle)
      requires Valid() && h in handles && other in handles && h.kind == other.kind && !h.kind.Registration?
      modifies `handles, `states, `freed, h, Only(h.state)`refs, Only(h.state)`sources, Only(other.state)`refs, Only(other.state)`sources
      ensures Valid() && handles == old(handles) && h.state == other.state
    {
      hide Counted, AllReferenced, NothingDangles, FreedOk;
      if h != other {
        ghost var before := handles;
        Destroy(h);
        h.state := other.state;
        if h.state != null {
          StateIsLive(other);
          AddRef(h.state, h.kind);
        } else {
          NoState(h.kind);
        }
        Fasten(h);
        assert before - {h} + {h} == before;
      }
    }

    method MoveAssign(h: Handle, other: Handle)
      requires Valid() && h in handles && other in handles && h.kind == other.kind && !h.kind.Registration?
      modifies `handles, `states, `freed, h, other, Only(h.state)`refs, Only(h.state)`sources
      ensures Valid() && handles == old(handles) && h.state == old(other.state)
      ensures h != other ==> other.state == null
    {
      hide Counted, AllReferenced, NothingDangles, FreedOk;
      if h != other {
        ghost var before := handles;
        Destroy(h);
        Take(h, other);
        assert before - {h} + {h} == before;
      }
    }

    // The constructor of stop_callback takes a reference.  When the stop was requested before, it
    // goes on to run the callable itself, and holds the reference until that has returned.
    method Register(token: Handle) returns (registration: Handle, late: bool)
      requires Valid() && token in handles && token.kind.Token?
      modifies `handles, Only(token.state)`refs, Only(token.state)`sources
      ensures Valid() && fresh(registration) && handles == old(handles) + {registration}
      ensures registration.kind == Registration && registration.state == token.state
      ensures late <==> token.state != null && token.state.requested
    {
      hide Counted, AllReferenced, NothingDangles, FreedOk;
      if token.state != null {
        StateIsLive(token);
      }
      registration := Share(Registration, token.state);
      late := token.state != null && token.state.requested;
    }

    // The callable of a late constructor has returned: the callback keeps no reference.
    method FinishLate(registration: Handle)
      requires Valid() && registration in handles && registration.kind.Registration? && registration.state != null
      modifies `handles, `states, `freed, registration, registration.state`refs, registration.state`sources
      ensures Valid() && handles == old(handles) && registration.state == null
      ensures states == if OfState(handles, old(registration.state)) == {} then old(states) - {old(registration.state)}
                        else old(states)
    {
      hide Counted, AllReferenced, NothingDangles, FreedOk;
      ghost var before := handles;
      ghost var state := registration.state;
      Destroy(registration);
      registration.state := null;
      SameHandles(before, registration, state);
      NoState(Registration);
      Fasten(registration);
      assert before - {registration} + {registration} == before;
    }

    lemma SameHandles(before: set<Handle>, h: Handle, s: StopState)
      requires h in before && h.state == null
      ensures OfState(before, s) == OfState(before - {h}, s)
    {
    }

    // What request_stop leaves behind, and whether it was the first.
    method RequestStop(source: Handle) returns (first: bool)
      requires Valid() && source in handles && source.kind.Source?
      modifies if source.state == null then {} else {source.state}
      ensures Valid()
      ensures first <==> source.state != null && !old(source.state.requested)
      ensures source.state != null ==> source.state.requested
    {
      first := source.state != null && !source.state.requested;
      if first {
        source.state.requested := true;
      }
    }

    // stop_token::stop_possible: a stop was requested, or there is still a source that can.
    method StopPossible(token: Handle) returns (possible: bool)
      requires Valid() && token in handles && token.kind.Token?
      ensures possible <==>
              token.state != null
              && (token.state.requested || exists h :: h in handles && h.kind.Source? && h.state == token.state)
    {
      if token.state == null {
        return false;
      }
      StateIsLive(token);
      SourcesLeft(token.state);
      possible := token.state.requested || token.state.sources != 0;
    }

    lemma SourcesLeft(s: StopState)
      requires Valid() && s in states
      ensures s.sources != 0 <==> exists h :: h in handles && h.kind.Source? && h.state == s
    {
      assert |SourcesOf(handles, s)| == s.sources;
      if h :| h in handles && h.kind.Source? && h.state == s {
        assert h in SourcesOf(handles, s);
      } else {
        assert SourcesOf(handles, s) == {};
      }
    }
  }

  // ----- What holds between the operations.

  lemma CountsAreHandles(w: World, s: StopState)
    requires w.Valid() && s in w.states
    ensures s.refs == |OfState(w.handles, s)| && s.sources == |SourcesOf(w.handles, s)|
    ensures 0 <= s.sources <= s.refs && s.refs > 0
  {
    SourcesAmong(w.handles, s);
  }

  lemma SourcesAmong(handles: set<Handle>, s: StopState)
    ensures |SourcesOf(handles, s)| <= |OfState(handles, s)|
  {
    Smaller(SourcesOf(handles, s), OfState(handles, s));
  }

  lemma {:induction false} Smaller(a: set<Handle>, b: set<Handle>)
    requires a <= b
    ensures |a| <= |b|
  {
    if a != {} {
      var h :| h in a;
      Smaller(a - {h}, b - {h});
    }
  }

  // A state is deleted once, and exactly when its last token, source and callback are gone.
  lemma FreedExactly(w: World, s: StopState)
    requires w.Valid() && s in w.created
    ensures w.freed[s] <= 1
    ensures w.freed[s] == 1 <==> OfState(w.handles, s) == {}
  {
    if s in w.states {
      CountsAreHandles(w, s);
    } else {
      forall h | h in w.handles
        ensures h.state != s
      {
      }
    }
  }
}
