// The bidirectional component iterator std::filesystem::path::iterator, and the one-way
// scanner next_path_component.

module PathIterator {
  import opened PathText

  // offset_: a position in the text, or npos.
  datatype Offset = At(position: nat) | End

  // Where the iterator can stand: at the start, at a name that follows a '/', or at the very
  // end of a path whose names are followed by a '/'.
  predicate IsOffset(p: string, offset: Offset) {
    match offset
    case End => true
    case At(i) =>
      && p != "" && i <= |p|
      && (i > 0 ==> p[i - 1] == '/')
      && (0 < i < |p| ==> p[i] != '/')
      && (i == |p| ==> SkipSlashes(p, 0) < |p|)
  }

  function Begin(p: string): Offset {
    if p == "" then End else At(0)
  }

  function ComponentAt(p: string, offset: Offset): string
    requires IsOffset(p, offset)
  {
    match offset
    case End => ""
    case At(i) =>
      if i == |p| then ""
      else if i == 0 && p[0] == '/' then "/"
      else p[i..SlashFrom(p, i)]
  }

  // operator++
  function Next(p: string, i: nat): Offset
    requires IsOffset(p, At(i))
  {
    if i == |p| then End
    else if i == 0 && p[0] == '/' then
      var next := SkipSlashes(p, 1);
      if next == |p| then End else At(next)
    else
      var end := SlashFrom(p, i);
      if end == |p| then End else At(SkipSlashes(p, end))
  }

  // The start of the run of '/' that ends at `from`, and of the name that ends at `from`.
  function SlashesBack(p: string, from: nat): (start: nat)
    requires from <= |p|
    ensures start <= from
    ensures forall i :: start <= i < from ==> p[i] == '/'
    ensures start > 0 ==> p[start - 1] != '/'
  {
    if from == 0 || p[from - 1] != '/' then from else SlashesBack(p, from - 1)
  }

  function NameBack(p: string, from: nat): (start: nat)
    requires from <= |p|
    ensures start <= from
    ensures forall i :: start <= i < from ==> p[i] != '/'
    ensures start > 0 ==> p[start - 1] == '/'
  {
    if from == 0 || p[from - 1] == '/' then from else NameBack(p, from - 1)
  }

  // operator--
  function Previous(p: string, offset: Offset): Offset
    requires p != "" && IsOffset(p, offset)
  {
    match offset
    case End =>
      if p[|p| - 1] == '/' then
        (if SlashesBack(p, |p|) > 0 then At(|p|) else At(0))
      else At(NameBack(p, |p|))
    case At(i) =>
      var end := SlashesBack(p, i);
      if end == 0 then At(0) else At(NameBack(p, end))
  }

  // ----- The iterator object.

  // The path that an iterator points to.  Two paths may have the same text.
  class PathObject {
    const text: string

    constructor (text: string)
      ensures this.text == text
    {
      this.text := text;
    }
  }

  class ComponentIterator {
    const owner: PathObject
    var offset: Offset
    var component: string

    ghost predicate Valid()
      reads this
    {
      IsOffset(owner.text, offset) && component == ComponentAt(owner.text, offset)
    }

    constructor (owner: PathObject, offset: Offset)
      requires IsOffset(owner.text, offset)
      ensures Valid() && this.owner == owner && this.offset == offset
    {
      this.owner := owner;
      this.offset := offset;
      this.component := "";
      new;
      SetComponent(offset);
    }

    method SetComponent(target: Offset)
      requires IsOffset(owner.text, target)
      modifies this
      ensures Valid() && offset == target
    {
      offset := target;
      if target == End {
        component := "";
        return;
      }
      var i := target.position;
      if i == |owner.text| {
        component := "";
      } else if i == 0 && owner.text[0] == '/' {
        component := "/";
      } else {
        var end := FindSlash(owner.text, i);
        component := owner.text[i..end];
      }
    }

    method Increment()
      requires Valid() && offset != End
      modifies this
      ensures Valid() && offset == Next(owner.text, old(offset).position)
    {
      var i := offset.position;
      NextIsOffset(owner.text, i);
      if i == |owner.text| {
        SetComponent(End);
        return;
      }
      var next := 1;
      if !(i == 0 && owner.text[0] == '/') {
        next := FindSlash(owner.text, i);
        if next == |owner.text| {
          SetComponent(End);
          return;
        }
      }
      next := FindNonSlash(owner.text, next);
      if next == |owner.text| && i == 0 && owner.text[0] == '/' {
        SetComponent(End);
      } else {
        SetComponent(At(next));
      }
    }

    method Decrement()
      requires Valid() && owner.text != ""
      modifies this
      ensures Valid() && offset == Previous(owner.text, old(offset))
    {
      PreviousIsOffset(owner.text, offset);
      if offset == End {
        if owner.text[|owner.text| - 1] == '/' {
          var last := FindSlashesBack(owner.text, |owner.text|);
          SetComponent(if last > 0 then At(|owner.text|) else At(0));
        } else {
          var start := FindNameBack(owner.text, |owner.text|);
          SetComponent(At(start));
        }
        return;
      }
      var previousEnd := FindSlashesBack(owner.text, offset.position);
      if previousEnd == 0 {
        SetComponent(At(0));
        return;
      }
      var previous := FindNameBack(owner.text, previousEnd);
      SetComponent(At(previous));
    }

    // operator==: the same path object, and the same components still to come.
    method Equals(other: ComponentIterator) returns (equal: bool)
      requires Valid() && other.Valid()
      ensures equal <==> owner == other.owner && Walk(owner.text, offset) == Walk(other.owner.text, other.offset)
    {
      if owner == other.owner {
        WalksDiffer(owner.text, offset, other.offset);
      }
      equal := owner == other.owner && offset == other.offset;
    }
  }

  method FindSlashesBack(p: string, from: nat) returns (start: nat)
    requires from <= |p|
    ensures start == SlashesBack(p, from)
  {
    start := from;
    while start > 0 && p[start - 1] == '/'
      invariant start <= from
      invariant SlashesBack(p, start) == SlashesBack(p, from)
    {
      start := start - 1;
    }
  }

  method FindNameBack(p: string, from: nat) returns (start: nat)
    requires from <= |p|
    ensures start == NameBack(p, from)
  {
    start := from;
    while start > 0 && p[start - 1] != '/'
      invariant start <= from
      invariant NameBack(p, start) == NameBack(p, from)
    {
      start := start - 1;
    }
  }

  // `for (const path& component : p)`
  method CollectComponents(p: string) returns (components: seq<string>)
    ensures components == Components(p)
  {
    components := [];
    var path := new PathObject(p);
    var it := new ComponentIterator(path, Begin(p));
    WalkIsComponents(p);
    while it.offset != End
      invariant it.Valid() && it.owner == path
      invariant components + Walk(p, it.offset) == Components(p)
      decreases Measure(p, it.offset)
    {
      components := components + [it.component];
      NextIsOffset(p, it.offset.position);
      it.Increment();
    }
  }

  // next_path_component: the component at the offset, and the offset moved on.
  method NextPathComponent(p: string, offset: nat) returns (component: string, next: Offset)
    requires IsOffset(p, At(offset))
    ensures component == ComponentAt(p, At(offset)) && next == Next(p, offset)
  {
    if offset == |p| {
      return "", End;
    }
    if offset == 0 && p[0] == '/' {
      assert SkipSlashes(p, 0) == SkipSlashes(p, 1);
      var i := FindNonSlash(p, offset);
      next := if i == |p| then End else At(i);
      return "/", next;
    }
    var end := FindSlash(p, offset);
    component := p[offset..end];
    if end == |p| {
      next := End;
    } else {
      end := FindNonSlash(p, end);
      next := At(end);
    }
  }

  // ----- Lemmas.

  function Measure(p: string, offset: Offset): nat
    requires IsOffset(p, offset)
  {
    match offset
    case End => 0
    case At(i) => |p| + 1 - i
  }

  lemma NextIsOffset(p: string, i: nat)
    requires IsOffset(p, At(i))
    ensures IsOffset(p, Next(p, i))
    ensures Measure(p, Next(p, i)) < Measure(p, At(i))
  {
  }

  lemma PreviousIsOffset(p: string, offset: Offset)
    requires p != "" && IsOffset(p, offset)
    ensures IsOffset(p, Previous(p, offset))
    ensures Previous(p, offset) != End
    ensures offset == At(0) || Measure(p, Previous(p, offset)) > Measure(p, offset)
  {
  }

  // -- undoes ++ at every position, and ++ undoes -- everywhere but at the start.
  lemma DecrementUndoesIncrement(p: string, i: nat)
    requires IsOffset(p, At(i))
    ensures IsOffset(p, Next(p, i)) && Previous(p, Next(p, i)) == At(i)
  {
    NextIsOffset(p, i);
  }

  lemma IncrementUndoesDecrement(p: string, offset: Offset)
    requires p != "" && IsOffset(p, offset) && offset != At(0)
    ensures Previous(p, offset).At? && IsOffset(p, Previous(p, offset))
    ensures Next(p, Previous(p, offset).position) == offset
  {
    PreviousIsOffset(p, offset);
  }

  // No offset is passed over.
  lemma NextIsLeast(p: string, i: nat, j: nat)
    requires IsOffset(p, At(i)) && IsOffset(p, At(j)) && i < j
    ensures Next(p, i).At? && Next(p, i).position <= j
  {
    if i == 0 && p[0] == '/' {
      assert SkipSlashes(p, 0) == SkipSlashes(p, 1);
    }
  }

  // An earlier offset has more components to come.
  lemma {:induction false} WalkIsLonger(p: string, a: Offset, b: Offset)
    requires IsOffset(p, a) && IsOffset(p, b) && Measure(p, a) > Measure(p, b)
    ensures |Walk(p, a)| > |Walk(p, b)|
    decreases Measure(p, a)
  {
    NextIsOffset(p, a.position);
    var next := Next(p, a.position);
    if b.At? {
      NextIsLeast(p, a.position, b.position);
    }
    if Measure(p, next) > Measure(p, b) {
      WalkIsLonger(p, next, b);
    } else {
      assert next == b;
    }
  }

  lemma WalksDiffer(p: string, a: Offset, b: Offset)
    requires IsOffset(p, a) && IsOffset(p, b)
    ensures a == b <==> Walk(p, a) == Walk(p, b)
  {
    if Measure(p, a) > Measure(p, b) {
      WalkIsLonger(p, a, b);
    } else if Measure(p, a) < Measure(p, b) {
      WalkIsLonger(p, b, a);
    }
  }

  // The components met by going ++ from an offset to the end, and by going -- to the start.
  function Walk(p: string, offset: Offset): seq<string>
    requires IsOffset(p, offset)
    decreases Measure(p, offset)
  {
    if offset == End then []
    else
      NextIsOffset(p, offset.position);
      [ComponentAt(p, offset)] + Walk(p, Next(p, offset.position))
  }

  function WalkBack(p: string, offset: Offset): seq<string>
    requires IsOffset(p, offset)
    decreases |p| + 1 - Measure(p, offset)
  {
    if p == "" || offset == At(0) then []
    else
      PreviousIsOffset(p, offset);
      WalkBack(p, Previous(p, offset)) + [ComponentAt(p, Previous(p, offset))]
  }

  lemma {:induction false} SkippedSegments(p: string, from: nat)
    requires from <= |p|
    ensures NonEmpty(Split(p[from..])) == NonEmpty(Split(p[SkipSlashes(p, from)..]))
    decreases |p| - from
  {
    if from < |p| && p[from] == '/' {
      SplitAtSlash(p, from);
      SkippedSegments(p, from + 1);
      assert ([""] + Split(p[from + 1..]))[1..] == Split(p[from + 1..]);
    }
  }

  function Tail(p: string): seq<string>
    requires p != ""
  {
    if p[|p| - 1] == '/' then [""] else []
  }

  lemma NamesFrom(p: string, i: nat, end: nat)
    requires i < |p| && p[i] != '/' && end == SlashFrom(p, i)
    ensures end > i
    ensures NonEmpty(Split(p[i..])) == [p[i..end]] + NonEmpty(Split(p[SkipSlashes(p, end)..]))
  {
    SplitFrom(p, i, end);
    assert p[i..end][0] == p[i];
    if end == |p| {
      NonEmptyCons(p[i..end], []);
      assert [p[i..end]] + [] == [p[i..end]];
      NothingAfter(p);
    } else {
      NonEmptyCons(p[i..end], Split(p[end + 1..]));
      SplitAtSlash(p, end);
      NonEmptyCons("", Split(p[end + 1..]));
      SkippedSegments(p, end);
    }
  }

  lemma {:induction false} WalkFromName(p: string, i: nat)
    requires IsOffset(p, At(i))
    requires i < |p| && p[i] != '/'
    ensures Walk(p, At(i)) == NonEmpty(Split(p[i..])) + Tail(p)
    decreases |p| - i
  {
    hide Split, NonEmpty;
    var end := SlashFrom(p, i);
    NamesFrom(p, i, end);
    NextIsOffset(p, i);
    assert Walk(p, At(i)) == [p[i..end]] + Walk(p, Next(p, i));
    var next := SkipSlashes(p, end);
    if next < |p| {
      WalkFromName(p, next);
    } else {
      NothingAfter(p);
      if end < |p| {
        assert Walk(p, At(next)) == [""] + Walk(p, End);
      } else {
        assert p[|p| - 1] == p[i..end][end - i - 1];
      }
    }
  }

  lemma NothingAfter(p: string)
    ensures NonEmpty(Split(p[|p|..])) == []
  {
    assert p[|p|..] == "" && [""][1..] == [];
  }

  // Main result: the walk from the start to the end is the component sequence.
  lemma WalkIsComponents(p: string)
    ensures Walk(p, Begin(p)) == Components(p)
  {
    if p == "" {
      NothingAfter(p);
    } else {
      assert p[0..] == p;
      if p[0] != '/' {
        WalkFromName(p, 0);
        NamesFrom(p, 0, SlashFrom(p, 0));
      } else {
        WalkFromRoot(p);
      }
    }
  }

  lemma WalkFromRoot(p: string)
    requires IsAbsolute(p)
    ensures Walk(p, At(0)) == Components(p)
  {
    var next := SkipSlashes(p, 1);
    assert p[0..] == p && SkipSlashes(p, 0) == next;
    SkippedSegments(p, 0);
    NextIsOffset(p, 0);
    assert Walk(p, At(0)) == ["/"] + Walk(p, Next(p, 0));
    if next == |p| {
      NothingAfter(p);
    } else {
      WalkFromName(p, next);
      NamesFrom(p, next, SlashFrom(p, next));
    }
  }

  // Going back sees the same components: at every offset, what lies behind and what lies ahead
  // make up the component sequence.
  lemma {:induction false} WalkBackMeetsWalk(p: string, offset: Offset)
    requires IsOffset(p, offset)
    ensures WalkBack(p, offset) + Walk(p, offset) == Components(p)
    decreases |p| + 1 - Measure(p, offset)
  {
    if p == "" || offset == At(0) {
      WalkIsComponents(p);
    } else {
      IncrementUndoesDecrement(p, offset);
      PreviousIsOffset(p, offset);
      WalkBackMeetsWalk(p, Previous(p, offset));
    }
  }
}
