// Laws of lexically_normal on texts alone: what one more segment does, and when a separator is
// left at the end.

module PathLaws {
  import opened PathText
  import opened PathNormal

  predicate EndsInSlash(text: string) {
    text != "" && text[|text| - 1] == '/'
  }

  // A path with one more segment behind a separator.
  lemma OneMore(p: string, x: string)
    requires p != "" && SlashFree(x)
    ensures Split(p + "/" + x) == Split(p) + [x]
    ensures p + "/" + x != "" && IsAbsolute(p + "/" + x) == IsAbsolute(p)
    ensures Normal(p + "/" + x) ==
            Render(IsAbsolute(p), Reduce(IsAbsolute(p), NormalParts(p), x), x == "" || Cancels(NormalParts(p), x))
  {
    SplitConcat(p, x);
    SplitSlashFree(x);
    ReduceAllSnoc(IsAbsolute(p), Split(p), x);
    assert (Split(p) + [x])[..|Split(p)|] == Split(p);
  }

  lemma Separated(p: string)
    requires p != ""
    ensures Normal(p + "/") == Render(IsAbsolute(p), NormalParts(p), true)
  {
    OneMore(p, "");
    assert p + "/" + "" == p + "/";
  }

  // A dot behind the last separator does nothing.
  lemma FinalDot(p: string)
    requires p != ""
    ensures Normal(p + "/.") == Normal(p + "/")
  {
    OneMore(p, ".");
    assert p + "/" + "." == p + "/.";
    Separated(p);
  }

  lemma NameThenUp(parts: seq<string>, x: string)
    requires IsName(x)
    ensures Reduce(true, Reduce(true, parts, x), "..") == parts && Reduce(false, Reduce(false, parts, x), "..") == parts
    ensures Cancels(parts + [x], "..")
  {
    assert (parts + [x])[..|parts|] == parts;
  }

  // A name and a dot-dot cancel, and leave the separator in front of them.
  lemma FinalDotDot(p: string, x: string)
    requires p != "" && IsName(x)
    ensures Normal(p + "/" + x + "/..") == Normal(p + "/")
  {
    OneMore(p, x);
    OneMore(p + "/" + x, "..");
    assert p + "/" + x + "/" + ".." == p + "/" + x + "/..";
    ReduceAllSnoc(IsAbsolute(p), Split(p), x);
    NameThenUp(NormalParts(p), x);
    Separated(p);
  }

  lemma BodyEnd(absolute: bool, parts: seq<string>)
    requires IsCanonical(absolute, parts) && parts != []
    ensures var body := Root(absolute) + Join(parts);
            body != "" && body != "/" && body != "." && body[|body| - 1] != '/'
  {
    BodySegments(absolute, parts);
    var init, last := parts[..|parts| - 1], parts[|parts| - 1];
    assert parts == init + [last];
    JoinSnoc(init, last);
    assert last != "" && SlashFree(last) by {
      var ups: nat :| IsCanonicalAt(absolute, parts, ups);
    }
    hide Split, Join;
    var body := Root(absolute) + Join(parts);
    assert body[|body| - 1] == last[|last| - 1];
  }

  lemma RenderEnd(absolute: bool, parts: seq<string>, trailing: bool)
    requires IsCanonical(absolute, parts)
    ensures var text := Render(absolute, parts, trailing);
            && text != ""
            && (EndsInSlash(text) <==> (absolute && parts == []) || (trailing && parts != []))
            && (text == "." <==> !absolute && parts == [])
            && (parts == [] && absolute ==> text == "/")
            && (parts != [] ==> text == Root(absolute) + Join(parts) + (if trailing then "/" else ""))
  {
    if parts != [] {
      BodyEnd(absolute, parts);
      hide Join;
      var body := Root(absolute) + Join(parts);
      assert body + "" == body;
    }
  }

  // One more part is put behind what is in front of it.
  lemma RenderSnoc(absolute: bool, parts: seq<string>, x: string)
    requires IsCanonical(absolute, parts) && IsCanonical(absolute, parts + [x])
    ensures var front := Render(absolute, parts, true);
            Render(absolute, parts + [x], false) == if front == "." then x else front + x
  {
    RenderEnd(absolute, parts, true);
    RenderEnd(absolute, parts + [x], false);
    JoinSnoc(parts, x);
    hide Join, Render, IsCanonical, EndsInSlash;
    Regroup(Root(absolute), Join(parts), x);
  }

  lemma Regroup(root: string, joined: string, x: string)
    ensures root + (joined + "/" + x) + "" == root + joined + "/" + x && root + x + "" == root + x
    ensures "" + x + "" == x
  {
  }

  // A path that ends in a separator keeps it, unless nothing else is left of it.
  lemma SeparatorStays(p: string)
    requires p != ""
    ensures EndsInSlash(Normal(p + "/")) || Normal(p + "/") == "."
  {
    Separated(p);
    NormalPartsCanonical(p);
    RenderEnd(IsAbsolute(p), NormalParts(p), true);
  }

  // A name is put behind what the path in front of it normalizes to, and no separator is left.
  lemma FinalName(p: string, x: string)
    requires p != "" && IsName(x)
    ensures Normal(p + "/" + x) == (if Normal(p + "/") == "." then x else Normal(p + "/") + x)
    ensures !EndsInSlash(Normal(p + "/" + x))
  {
    var absolute, parts := IsAbsolute(p), NormalParts(p);
    OneMore(p, x);
    Separated(p);
    NormalPartsCanonical(p);
    ReduceCanonical(absolute, parts, x);
    hide NormalParts, Normal, Render, IsCanonical;
    RenderSnoc(absolute, parts, x);
    RenderEnd(absolute, parts + [x], false);
  }

  // A dot-dot that finds no name stays behind a relative path, and is dropped at the root.
  lemma FinalUp(p: string)
    requires p != "" && !EndsInName(NormalParts(p))
    ensures Normal(p + "/..") ==
            if IsAbsolute(p) then "/" else if Normal(p + "/") == "." then ".." else Normal(p + "/") + ".."
  {
    var absolute, parts := IsAbsolute(p), NormalParts(p);
    OneMore(p, "..");
    assert p + "/" + ".." == p + "/..";
    Separated(p);
    NormalPartsCanonical(p);
    ReduceCanonical(absolute, parts, "..");
    if absolute {
      assert parts == [] by {
        var ups: nat :| IsCanonicalAt(absolute, parts, ups);
      }
      RenderEnd(absolute, [], false);
    } else {
      hide NormalParts, Normal, Render, IsCanonical;
      RenderSnoc(absolute, parts, "..");
    }
  }

  // A separator more makes no other difference.
  lemma SeparatorAdded(p: string)
    requires p != ""
    ensures Normal(p + "/") == if EndsInSlash(Normal(p)) || Normal(p) == "." then Normal(p) else Normal(p) + "/"
  {
    var absolute, parts := IsAbsolute(p), NormalParts(p);
    Separated(p);
    NormalPartsCanonical(p);
    hide Split, Join, IsCanonical;
    RenderEnd(absolute, parts, true);
    RenderEnd(absolute, parts, false);
  }

  lemma SeparatorTwice(p: string)
    requires p != ""
    ensures Normal(p + "//") == Normal(p + "/")
  {
    Separated(p);
    Separated(p + "/");
    OneMore(p, "");
    assert p + "/" + "" == p + "/" && p + "/" + "/" == p + "//";
    ReduceAllSnoc(IsAbsolute(p), Split(p), "");
  }

  // Paths of one segment.
  lemma OneSegment(x: string)
    requires IsName(x) || x == ".."
    ensures Normal(x) == x
  {
    SplitSlashFree(x);
    assert [x][1..] == [] && [] + [x] == [x] && [x][..0] == [];
    assert ReduceAll(false, [], [x]) == ReduceAll(false, [x], []);
    assert NormalParts(x) == [x];
    assert Join([x]) == x && "" + x == x;
  }

  // ----- The components, one segment at a time.

  lemma SeparatedSegments(p: string, x: string)
    requires p != "" && SlashFree(x)
    ensures NonEmpty(Split(p + "/" + x)) == NonEmpty(Split(p)) + (if x == "" then [] else [x])
    ensures IsAbsolute(p + "/" + x) == IsAbsolute(p)
  {
    SplitConcat(p, x);
    SplitSlashFree(x);
    NonEmptyConcat(Split(p), [x]);
    NonEmptyCons(x, []);
    assert [x] + [] == [x];
  }

  // The names of a path, behind its root.
  function Names(p: string): seq<string> {
    (if IsAbsolute(p) then ["/"] else []) + NonEmpty(Split(p))
  }

  // A path that does not end in a separator has no empty component, and one that does has one
  // exactly when there is a name in front of it.
  lemma ComponentsAreNames(p: string)
    ensures !EndsInSlash(p) ==> Components(p) == Names(p)
    ensures EndsInSlash(p) ==> Components(p) == Names(p) + (if NonEmpty(Split(p)) == [] then [] else [""])
  {
  }

  // A name more is a component more.
  lemma NameAdded(p: string, x: string)
    requires p != "" && IsName(x)
    ensures Components(p + "/" + x) == Names(p) + [x]
  {
    SeparatedSegments(p, x);
    var text := p + "/" + x;
    assert text[|text| - 1] == x[|x| - 1];
    assert !EndsInSlash(text);
    hide Split, NonEmpty;
    ComponentsAreNames(text);
  }

  // A separator behind a name leaves an empty component; further separators make no difference.
  lemma SeparatorAfter(p: string)
    requires p != ""
    ensures Names(p + "/") == Names(p)
    ensures Components(p + "/") == Names(p) + (if NonEmpty(Split(p)) == [] then [] else [""])
  {
    SeparatedSegments(p, "");
    assert p + "/" + "" == p + "/";
    hide Split, NonEmpty;
    ComponentsAreNames(p + "/");
  }

  lemma OneComponent(x: string)
    requires IsName(x)
    ensures Components(x) == [x] && Names(x) == [x]
    ensures Components("") == [] && Components("/") == ["/"] && Names("/") == ["/"]
  {
    SplitSlashFree(x);
    NonEmptyCons(x, []);
    assert [x] + [] == [x] && [] + [x] == [x];
    assert x[|x| - 1] != '/';
    assert Split("/") == [""] + Split("");
    assert ["", ""][1..] == [""] && [""][1..] == [];
  }

  // A name at the root.
  lemma RootName(x: string)
    requires IsName(x)
    ensures NonEmpty(Split("/" + x)) == [x] && Components("/" + x) == ["/", x] && Names("/" + x) == ["/", x]
  {
    assert "" + "/" + x == "/" + x;
    SplitConcat("", x);
    SplitSlashFree(x);
    NonEmptyCons("", [x]);
    NonEmptyCons(x, []);
    assert [x] + [] == [x];
    assert ("/" + x)[|x|] == x[|x| - 1];
  }

  // As in /alpha//beta/, which has the root, the two names and the empty component.
  lemma TwoNames(x: string, y: string)
    requires IsName(x) && IsName(y)
    ensures Components("/" + x + "//" + y + "/") == ["/", x, y, ""]
  {
    var p := "/" + x;
    var q := p + "/" + "/" + y;
    RootName(x);
    SeparatorAfter(p);
    SeparatedSegments(p + "/", y);
    SeparatorAfter(q);
    assert q + "/" == "/" + x + "//" + y + "/";
    hide Split, NonEmpty, Components;
    NamesAfter(p + "/", y);
  }

  lemma NamesAfter(p: string, x: string)
    requires p != "" && IsName(x)
    ensures Names(p + "/" + x) == Names(p) + [x] && NonEmpty(Split(p + "/" + x)) != []
  {
    SeparatedSegments(p, x);
  }
}
