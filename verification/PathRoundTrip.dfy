// Exactly when going to a base and then along lexically_relative leads where the path leads.

module PathRoundTrip {
  import opened PathText
  import opened PathNormal
  import opened PathRelative

  // ----- How a component list moves: up by its climb, then down its descent.

  // How far the list climbs above where it starts.
  function Climb(components: seq<string>): nat {
    if components == [] then 0
    else
      var before := Climb(components[..|components| - 1]);
      if -Depth(components) > before then -Depth(components) else before
  }

  // What follows the leading ".."s.
  function AfterUps(parts: seq<string>): seq<string> {
    if parts != [] && parts[0] == ".." then AfterUps(parts[1..]) else parts
  }

  // The names that the list ends up descending.
  function Descent(components: seq<string>): seq<string> {
    AfterUps(ReduceAll(false, [], components))
  }

  function Cut(at: Directory, levels: nat): Directory {
    if levels <= |at| then at[..|at| - levels] else []
  }

  predicate NamesAndUps(components: seq<string>) {
    forall i :: 0 <= i < |components| ==> IsName(components[i]) || components[i] == ".."
  }

  // The climb is the deepest point below the start, and a list never climbs if and only if it
  // is zero.
  lemma {:induction false} ClimbIsDeepest(components: seq<string>)
    ensures forall n :: 0 <= n <= |components| ==> -Depth(components[..n]) <= Climb(components)
    ensures exists n :: 0 <= n <= |components| && -Depth(components[..n]) == Climb(components)
  {
    assert components[..|components|] == components;
    if components == [] {
      assert components[..0] == [];
    } else {
      var init := components[..|components| - 1];
      ClimbIsDeepest(init);
      forall n | 0 <= n <= |components|
        ensures -Depth(components[..n]) <= Climb(components)
      {
        if n < |components| {
          assert components[..n] == init[..n];
        }
      }
      var n :| 0 <= n <= |init| && -Depth(init[..n]) == Climb(init);
      assert components[..n] == init[..n];
    }
  }

  lemma {:induction false} AfterUpsAt(parts: seq<string>, ups: nat)
    requires IsCanonicalAt(false, parts, ups)
    ensures AfterUps(parts) == parts[ups..]
  {
    if ups > 0 {
      AfterUpsAt(parts[1..], ups - 1);
    }
  }

  // One more component cancels a name, is one more "..", or is one more name.
  lemma ReduceShape(parts: seq<string>, ups: nat, last: string)
    requires IsCanonicalAt(false, parts, ups) && (IsName(last) || last == "..")
    ensures var after := Reduce(false, parts, last);
            if last != ".." then IsCanonicalAt(false, after, ups) && |after| == |parts| + 1
            else if ups < |parts| then IsCanonicalAt(false, after, ups) && |after| == |parts| - 1
            else IsCanonicalAt(false, after, ups + 1) && |after| == |parts| + 1
  {
  }

  // The reduced list has as many ".."s as the list climbs.
  lemma {:induction false} ReducedShape(components: seq<string>)
    requires NamesAndUps(components)
    ensures IsCanonicalAt(false, ReduceAll(false, [], components), Climb(components))
    ensures |ReduceAll(false, [], components)| == Depth(components) + 2 * Climb(components)
  {
    if components != [] {
      var init, last := components[..|components| - 1], components[|components| - 1];
      hide ReduceAll, Reduce, IsCanonicalAt;
      ReducedShape(init);
      ReduceShape(ReduceAll(false, [], init), Climb(init), last);
      ReduceAllSnoc(false, init, last);
      assert components == init + [last];
    }
  }

  lemma FollowList(at: Directory, components: seq<string>)
    requires NamesAndUps(components)
    ensures Follow(at, components) == Cut(at, Climb(components)) + Descent(components)
    ensures |Descent(components)| == Depth(components) + Climb(components)
  {
    ReducedShape(components);
    var parts := ReduceAll(false, [], components);
    AfterUpsAt(parts, Climb(components));
    assert IsCanonicalAt(false, [], 0);
    ReduceAllMeaning(false, at, [], components);
    FollowCanonical(false, at, parts, Climb(components));
  }

  // Climbing back as far as a list descends leaves what it climbed, and the names it came
  // down first.
  lemma ClimbedBack(at: Directory, components: seq<string>)
    requires NamesAndUps(components) && Depth(components) >= 0
    ensures |Descent(components)| >= Climb(components)
    ensures Follow(Follow(at, components), Copies("..", Depth(components)))
            == Cut(at, Climb(components)) + Descent(components)[..Climb(components)]
  {
    FollowList(at, components);
    FollowUps(Follow(at, components), Copies("..", Depth(components)));
  }

  // ----- When a detour is not seen any more.

  // From a directory, the climb that makes good the detour of the list.
  function Needed(at: Directory, components: seq<string>): nat {
    var climb := Climb(components);
    if climb <= |at| then climb - CommonLength(at[|at| - climb..], Descent(components)) else climb
  }

  lemma CommonExactly(a: seq<string>, b: seq<string>, n: nat)
    requires n <= |a| && n <= |b|
    ensures n <= CommonLength(a, b) <==> a[..n] == b[..n]
  {
    hide CommonLength;
    var common := CommonLength(a, b);
    if n <= common {
      assert a[..n] == a[..common][..n] && b[..n] == b[..common][..n];
    } else {
      assert a[..n][common] != b[..n][common];
    }
  }

  // Cutting as much as was replaced, or more, leaves no difference.
  lemma CutAway(at: Directory, down: seq<string>, levels: nat)
    requires levels >= |down|
    ensures Cut(Cut(at, |down|) + down, levels) == Cut(at, levels)
  {
    var moved := Cut(at, |down|) + down;
    if levels <= |at| {
      assert |moved| == |at|;
      assert moved[..|at| - levels] == at[..|at| - levels];
    }
  }

  // Cutting less leaves the first names of what was replaced.
  lemma CutLess(at: Directory, down: seq<string>, levels: nat)
    requires levels < |down| <= |at|
    ensures Cut(Cut(at, |down|) + down, levels) == at[..|at| - |down|] + down[..|down| - levels]
    ensures Cut(at, levels) == at[..|at| - |down|] + at[|at| - |down|..][..|down| - levels]
  {
  }

  // Replacing the last names of a directory is unseen after cutting exactly what differs.
  lemma CutsAgree(at: Directory, down: seq<string>, levels: nat)
    ensures Cut(Cut(at, |down|) + down, levels) == Cut(at, levels)
            <==> levels >= if |down| <= |at| then |down| - CommonLength(at[|at| - |down|..], down) else |down|
  {
    hide CommonLength;
    if levels >= |down| {
      CutAway(at, down, levels);
    } else if |down| <= |at| {
      hide Cut;
      var last, n := at[|at| - |down|..], |down| - levels;
      CutLess(at, down, levels);
      CommonExactly(last, down, n);
      SamePrefix(at[..|at| - |down|], down[..n], last[..n]);
    }
  }

  lemma SamePrefix(x: seq<string>, a: seq<string>, b: seq<string>)
    ensures x + a == x + b <==> a == b
  {
    if a != b {
      SameLengthPrefix(x, a, b);
    }
  }

  lemma CommonOfPrefix(a: seq<string>, b: seq<string>)
    requires |a| <= |b|
    ensures CommonLength(a, b) == CommonLength(a, b[..|a|])
  {
    hide CommonLength;
    var n, front := CommonLength(a, b), b[..|a|];
    assert front[..n] == b[..n];
    assert n < |a| ==> front[n] == b[n];
    CommonLengthIsUnique(a, front, n);
  }

  // Going along `rest`, back up and along `onward` is going along `onward` at once, if and only
  // if `onward` climbs as far as needed.
  lemma DetourExactly(at: Directory, rest: seq<string>, onward: seq<string>)
    requires NamesAndUps(rest) && NamesAndUps(onward) && Depth(rest) >= 0
    ensures Follow(Follow(Follow(at, rest), Copies("..", Depth(rest))), onward) == Follow(at, onward)
            <==> Climb(onward) >= Needed(at, rest)
  {
    var climb := Climb(rest);
    ClimbedBack(at, rest);
    var down := Descent(rest)[..climb];
    var moved := Cut(at, climb) + down;
    FollowList(moved, onward);
    FollowList(at, onward);
    CutsAgree(at, down, Climb(onward));
    if climb <= |at| {
      CommonOfPrefix(at[|at| - climb..], Descent(rest));
    }
    SameSuffix(Cut(moved, Climb(onward)), Cut(at, Climb(onward)), Descent(onward));
  }

  lemma SameSuffix(a: seq<string>, b: seq<string>, x: seq<string>)
    ensures a + x == b + x <==> a == b
  {
    if a + x == b + x {
      assert |a| == |b| && (a + x)[..|a|] == a && (b + x)[..|b|] == b;
    }
  }

  // ----- Round trips.

  function Shared(p: string, base: string): seq<string> {
    BaseOrigin(base)[..CommonLength(PathDestination(p), BaseOrigin(base))]
  }

  // What is left of the path after the common prefix.
  function Onward(p: string, base: string): seq<string> {
    PathDestination(p)[CommonLength(PathDestination(p), BaseOrigin(base))..]
  }

  lemma PartsOfPath(p: string, base: string)
    ensures NamesAndUps(Shared(p, base)) && NamesAndUps(Unshared(p, base))
    ensures BaseOrigin(base) == Shared(p, base) + Unshared(p, base)
    ensures PathDestination(p) == Shared(p, base) + Onward(p, base)
  {
    hide PathDestination, BaseOrigin, CommonLength, IsName;
    DestinationShape(base);
    var origin, path := BaseOrigin(base), PathDestination(p);
    assert NamesAndUps(origin);
    PartsOfList(origin, CommonLength(path, origin));
    PartsAreAll(origin, CommonLength(path, origin));
    PartsAreAll(path, CommonLength(path, origin));
  }

  lemma PartsOfList(components: seq<string>, n: nat)
    requires NamesAndUps(components) && n <= |components|
    ensures NamesAndUps(components[..n]) && NamesAndUps(components[n..])
  {
  }

  lemma PartsAreAll(components: seq<string>, n: nat)
    requires n <= |components|
    ensures components == components[..n] + components[n..]
  {
  }

  // The empty component after a trailing separator goes nowhere.
  lemma TrailingComponent(at: Directory, components: seq<string>)
    ensures Follow(at, components + [""]) == Follow(at, components)
    ensures Climb(components + [""]) == Climb(components)
  {
    FollowSnoc(at, components, "");
    assert (components + [""])[..|components|] == components;
    ClimbBelow(components);
  }

  lemma ClimbBelow(components: seq<string>)
    ensures -Depth(components) <= Climb(components)
  {
  }

  // The common prefix does not reach that component.
  lemma SharedIsNamed(names: seq<string>, tail: seq<string>, origin: seq<string>)
    requires tail == [] || tail == [""]
    requires forall i :: 0 <= i < |origin| ==> origin[i] != ""
    ensures CommonLength(names + tail, origin) <= |names|
  {
    hide CommonLength;
    var n := CommonLength(names + tail, origin);
    if tail == [""] {
      assert (names + tail)[|names|] == "";
      forall i | 0 <= i < n
        ensures (names + tail)[i] != ""
      {
        assert (names + tail)[i] == (names + tail)[..n][i] == origin[..n][i];
      }
    }
  }

  // The path's own names after the common prefix, without that empty component.
  lemma OnwardNames(p: string, base: string) returns (names: seq<string>)
    ensures NamesAndUps(names) && Climb(names) == Climb(Onward(p, base))
    ensures forall at: Directory :: Follow(at, names) == Follow(at, Onward(p, base))
  {
    hide CommonLength, Destination, OriginOf, Climb, Follow;
    DestinationShape(p);
    DestinationIsOrigin(p);
    var o, origin := BaseOrigin(p), BaseOrigin(base);
    DestinationShape(base);
    assert forall i :: 0 <= i < |origin| ==> origin[i] in origin;
    assert o + [] == o;
    SharedIsNamed(o, if PathDestination(p) == o then [] else [""], origin);
    names := o[CommonLength(PathDestination(p), BaseOrigin(base))..];
    assert forall i :: 0 <= i < |o| ==> o[i] in o;
    if PathDestination(p) != o {
      assert Onward(p, base) == names + [""];
      forall at: Directory
        ensures Follow(at, names + [""]) == Follow(at, names)
      {
        TrailingComponent(at, names);
      }
      TrailingComponent([], names);
    }
  }

  // From one starting directory: the round trip works if and only if what is left of the path
  // climbs as far as needed from where the shared prefix leads.
  lemma RoundTripFrom(start: Directory, p: string, base: string)
    requires IsAbsolute(p) == IsAbsolute(base) && Depth(Unshared(p, base)) >= 0
    ensures Resolve(Resolve(start, base), Relative(p, base)) == Resolve(start, p)
            <==> Climb(Onward(p, base)) >= Needed(Follow(Origin(start, p), Shared(p, base)), Unshared(p, base))
  {
    var at := Origin(start, p);
    var shared, rest, onward := Shared(p, base), Unshared(p, base), Onward(p, base);
    PartsOfPath(p, base);
    KeptMeaning(at, p);
    KeptMeaning(at, base);
    RelativeMeaning(Resolve(start, base), p, base);
    FollowConcat(at, shared, rest);
    FollowConcat(at, shared, onward);
    FollowConcat(Follow(at, shared + rest), Copies("..", Depth(rest)), onward);
    var names := OnwardNames(p, base);
    DetourExactly(Follow(at, shared), rest, names);
  }

  // A longer directory needs no more, and exactly as much when the climb stays in what is known.
  lemma NeededAbove(above: Directory, at: Directory, components: seq<string>)
    ensures Needed(above + at, components) <= Needed(at, components)
    ensures Climb(components) <= |at| ==> Needed(above + at, components) == Needed(at, components)
  {
    hide Climb, Descent, CommonLength;
    var climb := Climb(components);
    if climb <= |at| {
      var full := above + at;
      assert full[|full| - climb..] == at[|at| - climb..];
    }
  }

  // Where the climb leaves what is known, some start shares no name with the descent.
  lemma NeededInFull(at: Directory, components: seq<string>, levels: nat) returns (start: Directory)
    requires Climb(components) > |at|
    ensures IsDirectory(start) && |start| >= levels
    ensures Needed(Cut(start, levels) + at, components) == Climb(components)
  {
    var climb := Climb(components);
    var name := FreshName(Descent(components));
    start := Copies(name, levels + climb);
    var full := Cut(start, levels) + at;
    assert full[|full| - climb..][0] == name;
    if Descent(components) != [] {
      assert Descent(components)[0] in Descent(components);
    }
  }

  // Main result: the round trip works from every starting directory if and only if what is left
  // of the path climbs as far as needed from the names at the end of the shared prefix.
  lemma RoundTripExactly(p: string, base: string)
    requires IsAbsolute(p) == IsAbsolute(base) && Depth(Unshared(p, base)) >= 0
    ensures (forall start: Directory | IsDirectory(start) ::
               Resolve(Resolve(start, base), Relative(p, base)) == Resolve(start, p))
            <==> Climb(Onward(p, base)) >= Needed(Descent(Shared(p, base)), Unshared(p, base))
  {
    var shared, rest, climb := Shared(p, base), Unshared(p, base), Climb(Onward(p, base));
    PartsOfPath(p, base);
    forall start: Directory
      ensures Resolve(Resolve(start, base), Relative(p, base)) == Resolve(start, p)
              <==> climb >= Needed(Cut(Origin(start, p), Climb(shared)) + Descent(shared), rest)
    {
      RoundTripFrom(start, p, base);
      FollowList(Origin(start, p), shared);
    }
    forall start: Directory
      ensures Needed(Cut(Origin(start, p), Climb(shared)) + Descent(shared), rest) <= Needed(Descent(shared), rest)
    {
      NeededAbove(Cut(Origin(start, p), Climb(shared)), Descent(shared), rest);
    }
    if climb < Needed(Descent(shared), rest) {
      var start: Directory := [];
      if !IsAbsolute(p) && Climb(rest) > |Descent(shared)| {
        start := NeededInFull(Descent(shared), rest, Climb(shared));
      } else if IsAbsolute(p) {
        assert Cut([], Climb(shared)) + Descent(shared) == Descent(shared);
      } else {
        NeededAbove(Cut(start, Climb(shared)), Descent(shared), rest);
      }
      assert IsDirectory(start);
      assert Resolve(Resolve(start, base), Relative(p, base)) != Resolve(start, p);
    }
  }

  // In particular whenever what the base does not share never climbs above the shared prefix,
  // and so when it holds no ".." at all.
  lemma RelativeRoundTrip(start: Directory, p: string, base: string)
    requires IsAbsolute(p) == IsAbsolute(base)
    requires NeverClimbs(Unshared(p, base))
    ensures Relative(p, base) != ""
    ensures Resolve(Resolve(start, base), Relative(p, base)) == Resolve(start, p)
  {
    var rest := Unshared(p, base);
    NeverClimbsIsNoClimb(rest);
    RelativeMeaning(start, p, base);
    RoundTripFrom(start, p, base);
  }

  lemma NeverClimbsIsNoClimb(components: seq<string>)
    ensures NeverClimbs(components) <==> Climb(components) == 0
    ensures NeverClimbs(components) ==> Depth(components) >= 0
  {
    ClimbIsDeepest(components);
    assert components[..|components|] == components && components[..0] == [];
  }

  lemma RelativeRoundTripWithoutDotDot(start: Directory, p: string, base: string)
    requires IsAbsolute(p) == IsAbsolute(base)
    requires ".." !in Unshared(p, base)
    ensures Resolve(Resolve(start, base), Relative(p, base)) == Resolve(start, p)
  {
    DescendingNeverClimbs(Unshared(p, base));
    RelativeRoundTrip(start, p, base);
  }

  lemma {:induction false} DescendingNeverClimbs(components: seq<string>)
    requires ".." !in components
    ensures NeverClimbs(components) && Depth(components) == |components|
  {
    if components != [] {
      var init := components[..|components| - 1];
      DescendingNeverClimbs(init);
      forall n | 0 <= n <= |components|
        ensures Depth(components[..n]) >= 0
      {
        if n == |components| {
          assert components[..n] == components;
        } else {
          assert components[..n] == init[..n];
        }
      }
    }
  }
}
