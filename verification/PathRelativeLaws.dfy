// Laws of lexically_relative on texts alone: a path from itself, from its parent and from a child,
// and what a separator at the end does.

module PathRelativeLaws {
  import opened PathText
  import opened PathNormal
  import opened PathRelative
  import opened PathLaws

  // ----- What is kept of a path that has one segment more.

  lemma KeptOf(p: string)
    ensures BaseOrigin(p) == OriginOf(NonEmpty(Split(p)))
    ensures PathDestination(p) ==
            BaseOrigin(p) + (if EndsInSlash(p) && NonEmpty(Split(p)) != [] then [""] else [])
  {
    var names := NonEmpty(Split(p));
    SegmentsSlashFree(p);
    KeptNames(Split(p));
    AroundNames(if IsAbsolute(p) then ["/"] else [], names, if EndsInSlash(p) && names != [] then [""] else []);
    DestinationIsOrigin(p);
    assert BaseOrigin(p) + [] == BaseOrigin(p);
  }

  lemma KeptWithName(p: string, x: string)
    requires p != "" && IsName(x)
    ensures BaseOrigin(p + "/" + x) == BaseOrigin(p) + [x] && PathDestination(p + "/" + x) == BaseOrigin(p) + [x]
    ensures IsAbsolute(p + "/" + x) == IsAbsolute(p)
  {
    var text := p + "/" + x;
    SeparatedSegments(p, x);
    OriginConcat(NonEmpty(Split(p)), [x]);
    assert [x][1..] == [] && OriginOf([x]) == [x];
    KeptOf(p);
    KeptOf(text);
    assert text[|text| - 1] == x[|x| - 1];
    assert BaseOrigin(text) + [] == BaseOrigin(text);
  }

  lemma KeptWithSeparator(p: string)
    requires p != "" && NonEmpty(Split(p)) != []
    ensures BaseOrigin(p + "/") == BaseOrigin(p) && PathDestination(p + "/") == BaseOrigin(p) + [""]
    ensures IsAbsolute(p + "/") == IsAbsolute(p)
  {
    SeparatedSegments(p, "");
    assert p + "/" + "" == p + "/" && NonEmpty(Split(p)) + [] == NonEmpty(Split(p));
    KeptOf(p);
    KeptOf(p + "/");
  }

  lemma AllShared(a: seq<string>, b: seq<string>)
    requires a <= b
    ensures CommonLength(a, b) == |a| && CommonLength(b, a) == |a|
  {
    assert a[..|a|] == b[..|a|];
    CommonLengthIsUnique(a, b, |a|);
    CommonLengthIsUnique(b, a, |a|);
  }

  // ----- The laws.

  // A path leads to itself by a dot.
  lemma FromItself(p: string)
    ensures Relative(p, p) == "."
  {
    KeptOf(p);
    var origin := BaseOrigin(p);
    AllShared(origin, PathDestination(p));
    assert Unshared(p, p) == [];
    var parts := RelativeParts(p, p);
    assert parts == [] || parts == [""];
  }

  // To what is in the base by its name, and with a separator if it has one.
  lemma FromParent(base: string, x: string)
    requires base != "" && IsName(x)
    ensures Relative(base + "/" + x, base) == x
  {
    var p := base + "/" + x;
    KeptWithName(base, x);
    hide BaseOrigin, PathDestination, CommonLength, Join;
    var origin := BaseOrigin(base);
    AllShared(origin, origin + [x]);
    assert (origin + [x])[|origin|..] == [x] && Unshared(p, base) == [];
    assert RelativeParts(p, base) == [x];
    JoinedPair(x);
  }

  lemma FromParentSeparated(base: string, x: string)
    requires base != "" && IsName(x)
    ensures Relative(base + "/" + x + "/", base) == x + "/"
  {
    var p := base + "/" + x;
    KeptWithName(base, x);
    SeparatedSegments(base, x);
    KeptWithSeparator(p);
    hide BaseOrigin, PathDestination, Split, NonEmpty, CommonLength, Join;
    var origin := BaseOrigin(base);
    AllShared(origin, origin + [x] + [""]);
    assert (origin + [x] + [""])[|origin|..] == [x, ""] && Unshared(p + "/", base) == [];
    assert RelativeParts(p + "/", base) == [x, ""];
    JoinedPair(x);
  }

  lemma JoinedPair(x: string)
    ensures Join([x]) == x && Join([x, ""]) == x + "/"
  {
    JoinSnoc([x], "");
    assert [x] + [""] == [x, ""] && x + "/" + "" == x + "/";
  }

  // From a child by a dot-dot.
  lemma FromChild(base: string, x: string)
    requires base != "" && !EndsInSlash(base) && IsName(x)
    ensures Relative(base, base + "/" + x) == ".."
  {
    KeptWithName(base, x);
    KeptOf(base);
    var origin := BaseOrigin(base);
    AllShared(origin, origin + [x]);
    assert (origin + [x])[|origin|..] == [x] && PathDestination(base) == origin;
    assert Unshared(base, base + "/" + x) == [x];
    assert [x][..0] == [] && Depth([x]) == 1;
    assert RelativeParts(base, base + "/" + x) == [".."];
    assert Join([".."]) == "..";
  }

  // To a sibling by both.
  lemma FromSibling(base: string, x: string, y: string)
    requires base != "" && IsName(x) && IsName(y) && x != y
    ensures Relative(base + "/" + y, base + "/" + x) == "../" + y
  {
    var p, q := base + "/" + y, base + "/" + x;
    KeptWithName(base, x);
    KeptWithName(base, y);
    hide BaseOrigin, PathDestination, Split, NonEmpty, CommonLength;
    var origin := BaseOrigin(base);
    var a, b := origin + [y], origin + [x];
    assert a[..|origin|] == b[..|origin|];
    CommonLengthIsUnique(a, b, |origin|);
    assert a[|origin|..] == [y] && b[|origin|..] == [x];
    assert [x][..0] == [] && Depth([x]) == 1;
    assert RelativeParts(p, q) == [".."] + [y];
    JoinSnoc([".."], y);
    assert Join([".."]) == ".." && ".." + "/" + y == "../" + y;
  }

  // Nothing at all if only one of the two is absolute, or the base climbs more than it descends.
  lemma RefusedExactly(p: string, base: string)
    ensures Relative(p, base) == "" <==> IsAbsolute(p) != IsAbsolute(base) || Depth(Unshared(p, base)) < 0
  {
  }
}
