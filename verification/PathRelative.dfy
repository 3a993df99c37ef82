// Relative paths: std::filesystem::path::lexically_relative, and the append operator that
// undoes it.

module PathRelative {
  import opened PathText
  import opened PathNormal

  // The components kept of the path and of the base: the path also keeps the empty component
  // of a trailing separator.
  predicate KeptInDestination(component: string) {
    component != "/" && component != "."
  }

  predicate KeptInOrigin(component: string) {
    component != "" && component != "/" && component != "."
  }

  function Destination(components: seq<string>): seq<string> {
    if components == [] then []
    else (if KeptInDestination(components[0]) then [components[0]] else []) + Destination(components[1..])
  }

  function OriginOf(components: seq<string>): seq<string> {
    if components == [] then []
    else (if KeptInOrigin(components[0]) then [components[0]] else []) + OriginOf(components[1..])
  }

  function CommonLength(a: seq<string>, b: seq<string>): (n: nat)
    ensures n <= |a| && n <= |b| && a[..n] == b[..n]
    ensures n < |a| && n < |b| ==> a[n] != b[n]
  {
    if a != [] && b != [] && a[0] == b[0] then 1 + CommonLength(a[1..], b[1..]) else 0
  }

  // How many levels a component list descends, each ".." counting against it.
  function Depth(components: seq<string>): int {
    if components == [] then 0
    else Depth(components[..|components| - 1]) + (if components[|components| - 1] == ".." then -1 else 1)
  }

  // No prefix of the list climbs above where the list starts.
  predicate NeverClimbs(components: seq<string>) {
    forall n :: 0 <= n <= |components| ==> Depth(components[..n]) >= 0
  }

  function PathDestination(p: string): seq<string> { Destination(Components(p)) }

  function BaseOrigin(base: string): seq<string> { OriginOf(Components(base)) }

  // What is left of the base after the common prefix.
  function Unshared(p: string, base: string): seq<string> {
    BaseOrigin(base)[CommonLength(PathDestination(p), BaseOrigin(base))..]
  }

  function RelativeParts(p: string, base: string): seq<string>
    requires Depth(Unshared(p, base)) >= 0
  {
    Copies("..", Depth(Unshared(p, base)))
    + PathDestination(p)[CommonLength(PathDestination(p), BaseOrigin(base))..]
  }

  function Relative(p: string, base: string): string {
    if IsAbsolute(p) != IsAbsolute(base) || Depth(Unshared(p, base)) < 0 then ""
    else
      var text := Join(RelativeParts(p, base));
      if text == "" then "." else text
  }

  // operator/=
  function Append(left: string, right: string): string {
    if IsAbsolute(right) then right
    else left + (if left != "" && left[|left| - 1] != '/' then "/" else "") + right
  }

  // ----- The methods.

  method LexicallyRelative(p: string, base: string) returns (result: string)
    ensures result == Relative(p, base)
  {
    if IsAbsolute(p) != IsAbsolute(base) {
      return "";
    }
    var destination := CollectDestination(Components(p));
    var origin := CollectOrigin(Components(base));
    var common := CountCommon(destination, origin);
    var parents := CountParents(origin[common..]);
    if parents < 0 {
      return "";
    }
    DestinationShape(p);
    var rest := destination[common..];
    forall i | 0 <= i < |rest| - 1
      ensures rest[i] != ""
    {
      assert rest[i] == PathDestination(p)[common + i];
    }
    result := AppendAll(parents, rest);
    if result == "" {
      result := ".";
    }
  }

  method CountCommon(destination: seq<string>, origin: seq<string>) returns (common: nat)
    ensures common == CommonLength(destination, origin)
  {
    common := 0;
    while common < |destination| && common < |origin| && destination[common] == origin[common]
      invariant common <= |destination| && common <= |origin|
      invariant destination[..common] == origin[..common]
    {
      common := common + 1;
    }
    CommonLengthIsUnique(destination, origin, common);
  }

  method CountParents(rest: seq<string>) returns (parents: int)
    ensures parents == Depth(rest)
  {
    parents := 0;
    for i := 0 to |rest|
      invariant parents == Depth(rest[..i])
    {
      assert rest[..i + 1][..i] == rest[..i];
      parents := parents + if rest[i] == ".." then -1 else 1;
    }
    assert rest[..|rest|] == rest;
  }

  method CollectDestination(components: seq<string>) returns (kept: seq<string>)
    ensures kept == Destination(components)
  {
    kept := [];
    for i := 0 to |components|
      invariant kept == Destination(components[..i])
    {
      assert components[..i + 1] == components[..i] + [components[i]];
      DestinationConcat(components[..i], [components[i]]);
      if components[i] == "" {
        kept := kept + [""];
      } else if components[i] != "/" && components[i] != "." {
        kept := kept + [components[i]];
      }
    }
    assert components[..|components|] == components;
  }

  method CollectOrigin(components: seq<string>) returns (kept: seq<string>)
    ensures kept == OriginOf(components)
  {
    kept := [];
    for i := 0 to |components|
      invariant kept == OriginOf(components[..i])
    {
      assert components[..i + 1] == components[..i] + [components[i]];
      OriginConcat(components[..i], [components[i]]);
      if components[i] != "" && components[i] != "/" && components[i] != "." {
        kept := kept + [components[i]];
      }
    }
    assert components[..|components|] == components;
  }

  // The lambda `append`: a separator goes in front unless the text is still empty.
  method AppendAll(parents: nat, rest: seq<string>) returns (result: string)
    requires forall i :: 0 <= i < |rest| - 1 ==> rest[i] != ""
    ensures result == Join(Copies("..", parents) + rest)
  {
    var parts := Copies("..", parents) + rest;
    result := "";
    for i := 0 to |parts|
      invariant result == Join(parts[..i])
      invariant 0 < i < |parts| ==> result != ""
    {
      assert parts[..i + 1] == parts[..i] + [parts[i]];
      JoinSnoc(parts[..i], parts[i]);
      if result != "" {
        result := result + "/";
      }
      result := result + parts[i];
    }
    assert parts[..|parts|] == parts;
  }

  lemma {:induction false} CommonLengthIsUnique(a: seq<string>, b: seq<string>, n: nat)
    requires n <= |a| && n <= |b| && a[..n] == b[..n]
    requires n < |a| && n < |b| ==> a[n] != b[n]
    ensures n == CommonLength(a, b)
  {
    if n > 0 {
      assert a[0] == a[..n][0] == b[..n][0] == b[0];
      assert a[1..][..n - 1] == a[..n][1..] && b[1..][..n - 1] == b[..n][1..];
      CommonLengthIsUnique(a[1..], b[1..], n - 1);
    }
  }

  // ----- The kept components mean the same as the path.

  lemma {:induction false} DestinationConcat(a: seq<string>, b: seq<string>)
    ensures Destination(a + b) == Destination(a) + Destination(b)
  {
    if a == [] {
      assert a + b == b;
    } else {
      assert (a + b)[1..] == a[1..] + b;
      DestinationConcat(a[1..], b);
    }
  }

  lemma {:induction false} OriginConcat(a: seq<string>, b: seq<string>)
    ensures OriginOf(a + b) == OriginOf(a) + OriginOf(b)
  {
    if a == [] {
      assert a + b == b;
    } else {
      assert (a + b)[1..] == a[1..] + b;
      OriginConcat(a[1..], b);
    }
  }

  lemma {:induction false} KeptNames(segments: seq<string>)
    requires forall s :: s in segments ==> SlashFree(s)
    ensures Destination(NonEmpty(segments)) == OriginOf(NonEmpty(segments))
    ensures forall c :: c in OriginOf(NonEmpty(segments)) ==> IsName(c) || c == ".."
  {
    if segments != [] {
      var s, rest := segments[0], NonEmpty(segments[1..]);
      assert SlashFree(s);
      KeptNames(segments[1..]);
      if s != "" {
        assert ([s] + rest)[1..] == rest;
      }
    }
  }

  lemma {:induction false} KeptNamesMean(at: Directory, segments: seq<string>)
    requires forall s :: s in segments ==> SlashFree(s)
    ensures Follow(at, OriginOf(NonEmpty(segments))) == Follow(at, segments)
    decreases |segments|
  {
    if segments != [] {
      var s, rest := segments[0], NonEmpty(segments[1..]);
      assert SlashFree(s);
      KeptNamesMean(Enter(at, s), segments[1..]);
      if s == "" {
        assert NonEmpty(segments) == rest;
      } else {
        assert NonEmpty(segments) == [s] + rest && ([s] + rest)[1..] == rest;
        if s == "." {
          assert OriginOf([s] + rest) == OriginOf(rest);
        } else {
          assert OriginOf([s] + rest) == [s] + OriginOf(rest);
          assert ([s] + OriginOf(rest))[1..] == OriginOf(rest);
        }
      }
    }
  }

  // The path keeps what the base would keep, and perhaps one empty component after it.
  lemma DestinationIsOrigin(p: string)
    ensures BaseOrigin(p) == OriginOf(NonEmpty(Split(p)))
    ensures PathDestination(p) == BaseOrigin(p) || PathDestination(p) == BaseOrigin(p) + [""]
  {
    SegmentsSlashFree(p);
    KeptNames(Split(p));
    var names := NonEmpty(Split(p));
    if IsAbsolute(p) {
      AroundNames(["/"], names, if names != [] && p[|p| - 1] == '/' then [""] else []);
    } else {
      AroundNames([], names, if names != [] && p != "" && p[|p| - 1] == '/' then [""] else []);
    }
  }

  lemma AroundNames(root: seq<string>, names: seq<string>, tail: seq<string>)
    requires root == [] || root == ["/"]
    requires tail == [] || tail == [""]
    ensures Destination(root + names + tail) == Destination(names) + tail
    ensures OriginOf(root + names + tail) == OriginOf(names)
  {
    DestinationConcat(root + names, tail);
    DestinationConcat(root, names);
    OriginConcat(root + names, tail);
    OriginConcat(root, names);
    RootAndTail();
    assert [] + Destination(names) == Destination(names);
    assert [] + OriginOf(names) + [] == OriginOf(names);
  }

  lemma RootAndTail()
    ensures Destination(["/"]) == [] && OriginOf(["/"]) == [] && OriginOf([""]) == [] && Destination([""]) == [""]
  {
    assert ["/"][1..] == [] && [""][1..] == [];
  }

  lemma DestinationShape(p: string)
    ensures forall i :: 0 <= i < |PathDestination(p)| - 1 ==> PathDestination(p)[i] != ""
    ensures forall i :: 0 <= i < |PathDestination(p)| ==> SlashFree(PathDestination(p)[i])
    ensures forall c :: c in BaseOrigin(p) ==> IsName(c) || c == ".."
  {
    SegmentsSlashFree(p);
    DestinationIsOrigin(p);
    KeptNames(Split(p));
    ShapeWithTail(BaseOrigin(p), PathDestination(p));
  }

  lemma ShapeWithTail(o: seq<string>, d: seq<string>)
    requires forall c :: c in o ==> IsName(c) || c == ".."
    requires d == o || d == o + [""]
    ensures forall i :: 0 <= i < |d| - 1 ==> d[i] != ""
    ensures forall i :: 0 <= i < |d| ==> SlashFree(d[i])
  {
    forall i | 0 <= i < |d|
      ensures SlashFree(d[i]) && (i < |d| - 1 ==> d[i] != "")
    {
      if i < |o| {
        assert d[i] == o[i] && o[i] in o;
      }
    }
  }

  lemma KeptMeaning(at: Directory, p: string)
    ensures Follow(at, BaseOrigin(p)) == Follow(at, Split(p))
    ensures Follow(at, PathDestination(p)) == Follow(at, Split(p))
  {
    SegmentsSlashFree(p);
    DestinationIsOrigin(p);
    KeptNamesMean(at, Split(p));
    FollowConcat(at, BaseOrigin(p), [""]);
    FollowEmptySegments(Follow(at, BaseOrigin(p)));
  }

  // ----- What the result means.

  lemma RelativePartsShape(p: string, base: string)
    requires Depth(Unshared(p, base)) >= 0
    ensures var parts := RelativeParts(p, base);
            && (forall i :: 0 <= i < |parts| ==> SlashFree(parts[i]))
            && (forall i :: 0 <= i < |parts| - 1 ==> parts[i] != "")
  {
    DestinationShape(p);
    var d := PathDestination(p);
    UpsAndRestShape(Depth(Unshared(p, base)), d, CommonLength(d, BaseOrigin(base)));
  }

  lemma UpsAndRestShape(ups: nat, d: seq<string>, n: nat)
    requires n <= |d|
    requires forall i :: 0 <= i < |d| ==> SlashFree(d[i])
    requires forall i :: 0 <= i < |d| - 1 ==> d[i] != ""
    ensures var parts := Copies("..", ups) + d[n..];
            && (forall i :: 0 <= i < |parts| ==> SlashFree(parts[i]))
            && (forall i :: 0 <= i < |parts| - 1 ==> parts[i] != "")
  {
    var parts := Copies("..", ups) + d[n..];
    forall i | ups <= i < |parts|
      ensures parts[i] == d[n + i - ups]
    {
    }
  }

  lemma JoinMeaning(at: Directory, parts: seq<string>)
    requires forall i :: 0 <= i < |parts| ==> SlashFree(parts[i])
    requires forall i :: 0 <= i < |parts| - 1 ==> parts[i] != ""
    ensures var text := if Join(parts) == "" then "." else Join(parts);
            text != "" && !IsAbsolute(text) && Resolve(at, text) == Follow(at, parts)
  {
    FollowEmptySegments(at);
    SplitSlashFree(".");
    if parts != [] {
      SplitJoin(parts);
      if parts[0] != "" {
        assert Join(parts)[0] == parts[0][0];
      } else {
        assert parts == [""];
      }
    }
  }

  lemma RelativeMeaning(at: Directory, p: string, base: string)
    requires IsAbsolute(p) == IsAbsolute(base) && Depth(Unshared(p, base)) >= 0
    ensures Relative(p, base) != "" && !IsAbsolute(Relative(p, base))
    ensures Resolve(at, Relative(p, base)) == Follow(at, RelativeParts(p, base))
  {
    RelativePartsShape(p, base);
    JoinMeaning(at, RelativeParts(p, base));
  }

  // Appending is going on from where the left path leads.
  lemma AppendMeaning(start: Directory, left: string, right: string)
    ensures Resolve(start, Append(left, right)) == Resolve(Resolve(start, left), right)
  {
    var at := PathNormal.Origin(start, left);
    if IsAbsolute(right) {
    } else if left == "" {
      FollowEmptySegments(start);
      assert Append(left, right) == right;
      assert Resolve(start, left) == start;
    } else if left[|left| - 1] != '/' {
      assert Append(left, right) == left + "/" + right;
      SplitConcat(left, right);
      FollowConcat(at, Split(left), Split(right));
    } else {
      var init := left[..|left| - 1];
      assert left == init + "/" + "" && Append(left, right) == init + "/" + right;
      SplitConcat(init, "");
      SplitConcat(init, right);
      FollowConcat(at, Split(init), [""]);
      FollowConcat(at, Split(init), Split(right));
      FollowEmptySegments(Follow(at, Split(init)));
    }
  }

  // A base that climbs above the shared prefix and comes down elsewhere is not undone.
  lemma ClimbingBaseIsNotUndone()
    ensures Relative("y", "../x") == "y"
    ensures Resolve(Resolve(["a"], "../x"), "y") == ["x", "y"] && Resolve(["a"], "y") == ["a", "y"]
  {
    ClimbingBaseText();
    ClimbingBaseDirectories();
    var unshared := ["..", "x"];
    assert unshared[..1] == [".."] && unshared[..1][..0] == [];
    assert Depth([".."]) == -1 && Depth(unshared) == 0;
    assert Unshared("y", "../x") == unshared;
    assert RelativeParts("y", "../x") == ["y"];
  }

  lemma ClimbingBaseDirectories()
    ensures Follow(["a"], ["..", "x"]) == ["x"]
    ensures Follow(["x"], ["y"]) == ["x", "y"] && Follow(["a"], ["y"]) == ["a", "y"]
  {
    assert ["..", "x"][1..] == ["x"] && ["x"][1..] == [] && ["y"][1..] == [];
    assert Follow(["a"], ["..", "x"]) == Follow([], ["x"]) == Follow(["x"], []);
    assert Follow(["x"], ["y"]) == Follow(["x", "y"], []);
    assert Follow(["a"], ["y"]) == Follow(["a", "y"], []);
  }

  lemma ClimbingBaseText()
    ensures Split("../x") == ["..", "x"] && Split("y") == ["y"]
    ensures BaseOrigin("../x") == ["..", "x"] && PathDestination("y") == ["y"]
  {
    SplitSlashFree("y");
    SplitSlashFree("x");
    SplitSlashFree("..");
    assert "../x" == ".." + "/" + "x";
    SplitConcat("..", "x");
    assert ["..", "x"][1..] == ["x"] && ["x"][1..] == [] && ["y"][1..] == [];
    assert NonEmpty(["x"]) == ["x"] && NonEmpty(["y"]) == ["y"];
    assert NonEmpty(["..", "x"]) == ["..", "x"];
    assert OriginOf(["x"]) == ["x"];
  }
}
