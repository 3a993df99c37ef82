// Lexical normalisation: std::filesystem::path::lexically_normal.

module PathNormal {
  import opened PathText

  // ----- What a path means: the directory reached from a starting directory, both given as
  // stacks of names.  "." and empty segments do nothing, ".." pops (and stays at the root),
  // every other segment pushes.

  type Directory = seq<string>

  function Enter(at: Directory, segment: string): Directory {
    if segment == "" || segment == "." then at
    else if segment == ".." then (if at == [] then [] else at[..|at| - 1])
    else at + [segment]
  }

  function Follow(at: Directory, segments: seq<string>): Directory
    decreases |segments|
  {
    if segments == [] then at else Follow(Enter(at, segments[0]), segments[1..])
  }

  function Resolve(start: Directory, p: string): Directory {
    Follow(if IsAbsolute(p) then [] else start, Split(p))
  }

  // A segment that names a directory entry.
  predicate IsName(s: string) {
    s != "" && s != "." && s != ".." && SlashFree(s)
  }

  predicate IsDirectory(at: Directory) {
    forall s :: s in at ==> IsName(s)
  }

  // ----- What the loop builds.

  predicate EndsInName(parts: seq<string>) {
    parts != [] && parts[|parts| - 1] != ".."
  }

  predicate Cancels(parts: seq<string>, segment: string) {
    segment == "." || (segment == ".." && EndsInName(parts))
  }

  function Reduce(absolute: bool, parts: seq<string>, segment: string): seq<string> {
    if segment == "" || segment == "." then parts
    else if segment == ".." && EndsInName(parts) then parts[..|parts| - 1]
    else if segment != ".." || !absolute then parts + [segment]
    else parts
  }

  function ReduceAll(absolute: bool, parts: seq<string>, segments: seq<string>): seq<string>
    decreases |segments|
  {
    if segments == [] then parts
    else ReduceAll(absolute, Reduce(absolute, parts, segments[0]), segments[1..])
  }

  function NormalParts(p: string): seq<string> {
    ReduceAll(IsAbsolute(p), [], Split(p))
  }

  // Whether the last segment leaves a trailing separator behind: it is empty, ".", or a ".."
  // that cancels a name.
  predicate EndsInDirectory(absolute: bool, segments: seq<string>)
    requires segments != []
  {
    var last := segments[|segments| - 1];
    last == "" || Cancels(ReduceAll(absolute, [], segments[..|segments| - 1]), last)
  }

  function Render(absolute: bool, parts: seq<string>, trailing: bool): string {
    var body := Root(absolute) + Join(parts);
    if body == "" then "."
    else if trailing && body != "/" && body != "." then body + "/"
    else body
  }

  function Normal(p: string): string {
    if p == "" then ""
    else Render(IsAbsolute(p), NormalParts(p), EndsInDirectory(IsAbsolute(p), Split(p)))
  }

  // The shape of the list: ".."s, then names; no ".." when absolute.
  ghost predicate IsCanonical(absolute: bool, parts: seq<string>) {
    exists ups: nat :: IsCanonicalAt(absolute, parts, ups)
  }

  predicate IsCanonicalAt(absolute: bool, parts: seq<string>, ups: nat) {
    && ups <= |parts|
    && (absolute ==> ups == 0)
    && (forall i :: 0 <= i < ups ==> parts[i] == "..")
    && (forall i :: ups <= i < |parts| ==> IsName(parts[i]))
  }

  // ----- The method.

  // The segments still ahead of offset `begin`; one past the end there are none.
  function Ahead(p: string, begin: nat): seq<string>
    requires begin <= |p| + 1
  {
    if begin <= |p| then Split(p[begin..]) else []
  }

  method LexicallyNormal(p: string) returns (result: string)
    ensures result == Normal(p)
  {
    if p == "" {
      return "";
    }
    var absolute := p[0] == '/';
    var parts, trailing := CollectParts(p);
    NormalPartsCanonical(p);
    result := BuildBody(absolute, parts);
    if result == "" {
      result := ".";
    }
    if trailing && result != "/" && result != "." {
      result := result + "/";
    }
  }

  // The branches of the loop body.
  method TakePart(absolute: bool, parts0: seq<string>, part: string, final: bool, trailing0: bool)
    returns (parts: seq<string>, trailing: bool)
    ensures parts == Reduce(absolute, parts0, part)
    ensures trailing == (trailing0 || (final && Cancels(parts0, part)))
  {
    parts, trailing := parts0, trailing0;
    if part != "" && part != "." {
      if part == ".." && parts != [] && parts[|parts| - 1] != ".." {
        parts := parts[..|parts| - 1];
        if final {
          trailing := true;
        }
      } else if part != ".." || !absolute {
        parts := parts + [part];
      }
    } else if part == "." && final {
      trailing := true;
    }
  }

  // What the loop keeps, with `seen` counting the segments behind `begin`: `parts` is the list
  // of those, and `trailing` is the final answer once the last segment has been seen.
  ghost predicate Progress(p: string, segments: seq<string>, seen: nat, parts: seq<string>, begin: nat, trailing: bool)
    requires p != "" && segments != []
  {
    && begin <= |p| + 1 && seen <= |segments|
    && segments[seen..] == Ahead(p, begin)
    && parts == ReduceAll(IsAbsolute(p), [], segments[..seen])
    && (begin <= |p| ==> trailing == (p[|p| - 1] == '/'))
    && (begin == |p| ==> p[|p| - 1] == '/')
    && (begin > |p| ==> trailing == EndsInDirectory(IsAbsolute(p), segments))
  }

  // The loop over offsets.
  method CollectParts(p: string) returns (parts: seq<string>, trailing: bool)
    requires p != ""
    ensures parts == NormalParts(p)
    ensures trailing == EndsInDirectory(IsAbsolute(p), Split(p))
  {
    trailing := p[|p| - 1] == '/';
    parts := [];
    var begin := 0;
    ghost var segments := Split(p);
    ghost var seen: nat := 0;
    assert p[0..] == p && segments[0..] == segments;
    while begin < |p|
      invariant Progress(p, segments, seen, parts, begin, trailing)
    {
      seen := SlashesPassed(p, segments, seen, parts, begin, trailing);
      begin := FindNonSlash(p, begin);
      var end := FindSlash(p, begin);
      ghost var parts0 := parts;
      ghost var trailing0 := trailing;
      parts, trailing := TakePart(p[0] == '/', parts, p[begin..end], end == |p|, trailing);
      SegmentPassed(p, segments, seen, parts0, begin, trailing0, end, parts, trailing);
      seen := seen + 1;
      begin := end + 1;
    }
    LoopDone(p, segments, seen, parts, begin, trailing);
  }

  lemma ReduceAllNext(absolute: bool, segments: seq<string>, seen: nat)
    requires seen < |segments|
    ensures ReduceAll(absolute, [], segments[..seen + 1])
         == Reduce(absolute, ReduceAll(absolute, [], segments[..seen]), segments[seen])
  {
    assert segments[..seen + 1] == segments[..seen] + [segments[seen]];
    ReduceAllSnoc(absolute, segments[..seen], segments[seen]);
  }

  lemma ReduceAllSnoc(absolute: bool, seen: seq<string>, segment: string)
    ensures ReduceAll(absolute, [], seen + [segment]) == Reduce(absolute, ReduceAll(absolute, [], seen), segment)
  {
    ReduceAllConcat(absolute, [], seen, [segment]);
    assert ReduceAll(absolute, Reduce(absolute, ReduceAll(absolute, [], seen), segment), [segment][1..])
        == Reduce(absolute, ReduceAll(absolute, [], seen), segment);
  }

  lemma {:induction false} SlashesPassed(p: string, segments: seq<string>, seen: nat,
                                         parts: seq<string>, begin: nat, trailing: bool)
    returns (seen': nat)
    requires p != "" && segments != [] && begin <= |p|
    requires Progress(p, segments, seen, parts, begin, trailing)
    ensures Progress(p, segments, seen', parts, SkipSlashes(p, begin), trailing)
    decreases |p| - begin
  {
    seen' := seen;
    if begin < |p| && p[begin] == '/' {
      SplitAtSlash(p, begin);
      HeadAndTail(segments, seen, "", Split(p[begin + 1..]));
      ReduceAllNext(IsAbsolute(p), segments, seen);
      seen' := SlashesPassed(p, segments, seen + 1, parts, begin + 1, trailing);
    }
  }

  lemma HeadAndTail(segments: seq<string>, seen: nat, first: string, rest: seq<string>)
    requires seen <= |segments| && segments[seen..] == [first] + rest
    ensures seen < |segments| && segments[seen] == first && segments[seen + 1..] == rest
  {
    assert segments[seen..][0] == first;
    assert segments[seen + 1..] == segments[seen..][1..] == ([first] + rest)[1..];
  }

  lemma SegmentPassed(p: string, segments: seq<string>, seen: nat, parts: seq<string>, begin: nat, trailing: bool,
                      end: nat, parts': seq<string>, trailing': bool)
    requires p != "" && segments != [] && begin <= |p|
    requires Progress(p, segments, seen, parts, begin, trailing)
    requires end == SlashFrom(p, begin)
    requires parts' == Reduce(IsAbsolute(p), parts, p[begin..end])
    requires trailing' == (trailing || (end == |p| && Cancels(parts, p[begin..end])))
    ensures Progress(p, segments, seen + 1, parts', end + 1, trailing')
  {
    NextSegment(p, begin, end);
    HeadAndTail(segments, seen, p[begin..end], Ahead(p, end + 1));
    ReduceAllNext(IsAbsolute(p), segments, seen);
  }

  lemma LoopDone(p: string, segments: seq<string>, seen: nat, parts: seq<string>, begin: nat, trailing: bool)
    requires p != "" && segments != [] && begin >= |p|
    requires Progress(p, segments, seen, parts, begin, trailing)
    ensures parts == ReduceAll(IsAbsolute(p), [], segments)
    ensures trailing == EndsInDirectory(IsAbsolute(p), segments)
  {
    if begin == |p| {
      assert Ahead(p, |p|) == [""] + [];
      HeadAndTail(segments, seen, "", []);
      ReduceAllNext(IsAbsolute(p), segments, seen);
      assert segments[..seen + 1] == segments;
    } else {
      assert segments[seen..] == [];
      assert segments[..seen] == segments;
    }
  }

  // The segment between offset `begin` and the next '/', and what lies beyond it.
  lemma NextSegment(p: string, begin: nat, end: nat)
    requires begin <= |p| && end == SlashFrom(p, begin)
    ensures Ahead(p, begin) == [p[begin..end]] + Ahead(p, end + 1)
    ensures end == |p| && begin < |p| ==> p[begin..end] != "" && p[|p| - 1] != '/'
    ensures end == |p| && begin == |p| ==> p[begin..end] == ""
  {
    SplitFrom(p, begin, end);
    if end == |p| && begin < |p| {
      assert p[begin..end][|p| - 1 - begin] == p[|p| - 1];
    }
  }

  // The result loop: it puts a '/' before a part unless the text is empty or ends in one.
  method BuildBody(absolute: bool, parts: seq<string>) returns (result: string)
    requires IsCanonical(absolute, parts)
    ensures result == Root(absolute) + Join(parts)
  {
    result := if absolute then "/" else "";
    for i := 0 to |parts|
      invariant result == Root(absolute) + Join(parts[..i])
      invariant NeedsSeparator(result) <==> i > 0
    {
      BodyGrows(absolute, parts, i);
      if result != "" && result[|result| - 1] != '/' {
        result := result + "/";
      }
      result := result + parts[i];
    }
    assert parts[..|parts|] == parts;
  }

  predicate NeedsSeparator(text: string) {
    text != "" && text[|text| - 1] != '/'
  }

  lemma BodyGrows(absolute: bool, parts: seq<string>, i: nat)
    requires IsCanonical(absolute, parts) && i < |parts|
    ensures var before := Root(absolute) + Join(parts[..i]);
            var after := Root(absolute) + Join(parts[..i + 1]);
            && after == before + (if i > 0 then "/" else "") + parts[i]
            && NeedsSeparator(after)
  {
    assert parts[..i + 1] == parts[..i] + [parts[i]];
    JoinSnoc(parts[..i], parts[i]);
    assert parts[i] != "" && SlashFree(parts[i]);
    var after := Root(absolute) + Join(parts[..i + 1]);
    assert after[|after| - 1] == parts[i][|parts[i]| - 1];
  }

  // ----- The list is canonical.

  lemma ReduceCanonical(absolute: bool, parts: seq<string>, segment: string)
    requires IsCanonical(absolute, parts) && SlashFree(segment)
    ensures IsCanonical(absolute, Reduce(absolute, parts, segment))
  {
    var ups: nat :| IsCanonicalAt(absolute, parts, ups);
    var next := Reduce(absolute, parts, segment);
    if segment == ".." && !EndsInName(parts) && !absolute {
      assert ups == |parts|;
      assert IsCanonicalAt(absolute, next, ups + 1);
    } else {
      assert IsCanonicalAt(absolute, next, ups);
    }
  }

  lemma {:induction false} ReduceAllCanonical(absolute: bool, parts: seq<string>, segments: seq<string>)
    requires IsCanonical(absolute, parts)
    requires forall s :: s in segments ==> SlashFree(s)
    ensures IsCanonical(absolute, ReduceAll(absolute, parts, segments))
    decreases |segments|
  {
    if segments != [] {
      ReduceCanonical(absolute, parts, segments[0]);
      ReduceAllCanonical(absolute, Reduce(absolute, parts, segments[0]), segments[1..]);
    }
  }

  lemma NormalPartsCanonical(p: string)
    ensures IsCanonical(IsAbsolute(p), NormalParts(p))
  {
    SegmentsSlashFree(p);
    assert IsCanonicalAt(IsAbsolute(p), [], 0);
    ReduceAllCanonical(IsAbsolute(p), [], Split(p));
  }

  // ----- Meaning is preserved.

  lemma {:induction false} FollowConcat(at: Directory, a: seq<string>, b: seq<string>)
    ensures Follow(at, a + b) == Follow(Follow(at, a), b)
    decreases |a|
  {
    if a == [] {
      assert a + b == b;
    } else {
      assert (a + b)[1..] == a[1..] + b;
      FollowConcat(Enter(at, a[0]), a[1..], b);
    }
  }

  lemma FollowSnoc(at: Directory, a: seq<string>, last: string)
    ensures Follow(at, a + [last]) == Enter(Follow(at, a), last)
  {
    FollowConcat(at, a, [last]);
    assert [last][1..] == [];
    assert Follow(Enter(Follow(at, a), last), []) == Enter(Follow(at, a), last);
  }

  // One loop step: following the new list is following the old one and then the segment.
  lemma ReduceMeaning(absolute: bool, start: Directory, parts: seq<string>, segment: string)
    requires IsCanonical(absolute, parts)
    requires absolute ==> start == []
    ensures Follow(start, Reduce(absolute, parts, segment)) == Enter(Follow(start, parts), segment)
  {
    if segment == ".." && EndsInName(parts) {
      var init, last := parts[..|parts| - 1], parts[|parts| - 1];
      assert parts == init + [last];
      FollowSnoc(start, init, last);
    } else if segment == ".." && absolute {
      var ups: nat :| IsCanonicalAt(absolute, parts, ups);
      assert parts == [];
    } else {
      FollowSnoc(start, parts, segment);
    }
  }

  lemma {:induction false} ReduceAllMeaning(absolute: bool, start: Directory, parts: seq<string>, segments: seq<string>)
    requires IsCanonical(absolute, parts)
    requires forall s :: s in segments ==> SlashFree(s)
    requires absolute ==> start == []
    ensures Follow(start, ReduceAll(absolute, parts, segments)) == Follow(Follow(start, parts), segments)
    decreases |segments|
  {
    if segments != [] {
      ReduceMeaning(absolute, start, parts, segments[0]);
      ReduceCanonical(absolute, parts, segments[0]);
      ReduceAllMeaning(absolute, start, Reduce(absolute, parts, segments[0]), segments[1..]);
    }
  }

  function Origin(start: Directory, p: string): Directory {
    if IsAbsolute(p) then [] else start
  }

  lemma ResolveIsFollowParts(start: Directory, p: string)
    ensures Resolve(start, p) == Follow(Origin(start, p), NormalParts(p))
  {
    SegmentsSlashFree(p);
    assert IsCanonicalAt(IsAbsolute(p), [], 0);
    ReduceAllMeaning(IsAbsolute(p), Origin(start, p), [], Split(p));
  }

  function Root(absolute: bool): string { if absolute then "/" else "" }

  lemma BodySegments(absolute: bool, parts: seq<string>)
    requires IsCanonical(absolute, parts) && parts != []
    ensures var body := Root(absolute) + Join(parts);
            && body != "" && body != "/" && body != "." && IsAbsolute(body) == absolute
            && Split(body) == (if absolute then [""] else []) + parts
            && Split(body + "/") == Split(body) + [""]
  {
    var ups: nat :| IsCanonicalAt(absolute, parts, ups);
    var joined := Join(parts);
    var body := Root(absolute) + joined;
    assert forall i :: 0 <= i < |parts| ==> SlashFree(parts[i]) && parts[i] != "" && parts[i] != ".";
    SplitJoin(parts);
    JoinNonEmpty(parts);
    if absolute {
      assert body == "" + "/" + joined;
      SplitConcat("", joined);
    } else {
      assert body == joined;
      SplitSlashFree(".");
      assert parts != ["."];
    }
    assert body + "/" == body + "/" + "";
    SplitConcat(body, "");
  }

  // What the rendered text splits back into.
  lemma RenderSegments(absolute: bool, parts: seq<string>, trailing: bool)
    requires IsCanonical(absolute, parts)
    ensures var text := Render(absolute, parts, trailing);
            && text != "" && IsAbsolute(text) == absolute
            && (parts == [] ==> Split(text) == if absolute then ["", ""] else ["."])
            && (parts != [] ==>
                  var body := (if absolute then [""] else []) + parts;
                  Split(text) == if trailing then body + [""] else body)
  {
    if parts == [] {
      SplitSlashFree(".");
      assert Split("/") == [""] + Split("");
    } else {
      BodySegments(absolute, parts);
    }
  }

  lemma JoinNonEmpty(parts: seq<string>)
    requires parts != [] && parts[0] != "" && SlashFree(parts[0])
    ensures Join(parts) != "" && Join(parts)[0] != '/'
  {
    assert Join(parts)[0] == parts[0][0];
  }

  lemma FollowEmptySegments(at: Directory)
    ensures Follow(at, [""]) == at && Follow(at, ["."]) == at && Follow(at, ["", ""]) == at
  {
    assert [""][1..] == [] && ["."][1..] == [] && ["", ""][1..] == [""];
  }

  // Main result: from every starting directory the normal form leads where the path leads.
  lemma NormalPreservesMeaning(start: Directory, p: string)
    ensures Resolve(start, Normal(p)) == Resolve(start, p)
    ensures p != "" ==> IsAbsolute(Normal(p)) == IsAbsolute(p)
  {
    if p != "" {
      var absolute, parts := IsAbsolute(p), NormalParts(p);
      var trailing := EndsInDirectory(absolute, Split(p));
      var at := Origin(start, p);
      NormalPartsCanonical(p);
      RenderSegments(absolute, parts, trailing);
      ResolveIsFollowParts(start, p);
      FollowEmptySegments(at);
      var root: seq<string> := if absolute then [""] else [];
      FollowConcat(at, root, parts);
      FollowConcat(at, root + parts, [""]);
      FollowEmptySegments(Follow(at, parts));
    }
  }

  // ----- The list is a complete invariant of the meaning.

  lemma {:induction false} FollowUps(at: Directory, ups: seq<string>)
    requires forall i :: 0 <= i < |ups| ==> ups[i] == ".."
    ensures Follow(at, ups) == if |ups| <= |at| then at[..|at| - |ups|] else []
    decreases |ups|
  {
    if ups != [] {
      assert ups[0] == "..";
      FollowUps(Enter(at, ups[0]), ups[1..]);
    }
  }

  lemma {:induction false} FollowNames(at: Directory, names: seq<string>)
    requires IsDirectory(names)
    ensures Follow(at, names) == at + names
    decreases |names|
  {
    if names != [] {
      assert IsName(names[0]);
      FollowNames(at + [names[0]], names[1..]);
      assert at + [names[0]] + names[1..] == at + names;
    }
  }

  lemma FollowCanonical(absolute: bool, at: Directory, parts: seq<string>, ups: nat)
    requires IsCanonicalAt(absolute, parts, ups)
    ensures Follow(at, parts) == (if ups <= |at| then at[..|at| - ups] else []) + parts[ups..]
  {
    assert parts == parts[..ups] + parts[ups..];
    FollowConcat(at, parts[..ups], parts[ups..]);
    FollowUps(at, parts[..ups]);
    FollowNames(Follow(at, parts[..ups]), parts[ups..]);
  }

  // A directory name longer than every name in `parts`.
  function FreshName(parts: seq<string>): (name: string)
    ensures IsName(name) && |name| >= 3
    ensures forall s :: s in parts ==> |s| < |name|
  {
    if parts == [] then "aaa"
    else
      var rest := FreshName(parts[1..]);
      var name := rest + Repeat('a', |parts[0]|);
      name
  }

  function Repeat(c: char, n: nat): (text: string)
    ensures |text| == n && forall i :: 0 <= i < n ==> text[i] == c
  {
    if n == 0 then "" else [c] + Repeat(c, n - 1)
  }

  function Copies(s: string, n: nat): (copies: seq<string>)
    ensures |copies| == n && forall i :: 0 <= i < n ==> copies[i] == s
  {
    if n == 0 then [] else [s] + Copies(s, n - 1)
  }

  // Two different lists lead apart from a directory deep enough for every ".." and made of a
  // name neither list mentions.
  lemma LeadApart(start: Directory, name: string, a: seq<string>, m: nat, b: seq<string>, n: nat)
    requires IsCanonicalAt(false, a, m) && IsCanonicalAt(false, b, n) && m <= n < |start|
    requires a != b
    requires forall i :: 0 <= i < |start| ==> start[i] == name
    requires forall i :: 0 <= i < |b| ==> b[i] != name
    ensures Follow(start, a) != Follow(start, b)
  {
    FollowCanonical(false, start, a, m);
    FollowCanonical(false, start, b, n);
    if m < n {
      TailsDiffer(start[..|start| - m], a[m..], start[..|start| - n], b[n..], name);
    } else {
      SameUps(a, b, m);
      SameLengthPrefix(start[..|start| - m], a[m..], b[m..]);
    }
  }

  lemma SameUps(a: seq<string>, b: seq<string>, ups: nat)
    requires IsCanonicalAt(false, a, ups) && IsCanonicalAt(false, b, ups) && a != b
    ensures a[ups..] != b[ups..]
  {
    assert a[..ups] == b[..ups];
    assert a == a[..ups] + a[ups..] && b == b[..ups] + b[ups..];
  }

  lemma TailsDiffer(x: seq<string>, a: seq<string>, y: seq<string>, b: seq<string>, name: string)
    requires |y| < |x| && forall i :: 0 <= i < |x| ==> x[i] == name
    requires forall i :: 0 <= i < |b| ==> b[i] != name
    ensures x + a != y + b
  {
    if |x + a| == |y + b| {
      assert (x + a)[|y|] == name && (y + b)[|y|] == b[0];
    }
  }

  lemma SameLengthPrefix(x: seq<string>, a: seq<string>, b: seq<string>)
    requires a != b
    ensures x + a != x + b
  {
    assert (x + a)[|x|..] == a && (x + b)[|x|..] == b;
  }

  lemma DistinguishingStart(a: seq<string>, b: seq<string>)
    requires IsCanonical(false, a) && IsCanonical(false, b)
    requires a != b
    ensures exists start: Directory :: IsDirectory(start) && Follow(start, a) != Follow(start, b)
  {
    var m: nat :| IsCanonicalAt(false, a, m);
    var n: nat :| IsCanonicalAt(false, b, n);
    var name := FreshName(a + b);
    var start := Copies(name, m + n + 1);
    forall i | 0 <= i < |a|
      ensures a[i] != name
    {
      assert a[i] in a + b;
    }
    forall i | 0 <= i < |b|
      ensures b[i] != name
    {
      assert b[i] in a + b;
    }
    if m <= n {
      LeadApart(start, name, a, m, b, n);
    } else {
      LeadApart(start, name, b, n, a, m);
    }
    assert IsDirectory(start);
  }

  lemma FollowAbsolute(parts: seq<string>)
    requires IsCanonical(true, parts)
    ensures Follow([], parts) == parts
  {
    var ups: nat :| IsCanonicalAt(true, parts, ups);
    FollowCanonical(true, [], parts, ups);
  }

  // Main result: two paths of the same absoluteness lead to the same directory from every
  // starting directory exactly when the loop builds the same list for them.
  lemma PartsCharacteriseMeaning(p: string, q: string)
    requires IsAbsolute(p) == IsAbsolute(q)
    ensures (forall start: Directory | IsDirectory(start) :: Resolve(start, p) == Resolve(start, q))
            <==> NormalParts(p) == NormalParts(q)
  {
    NormalPartsCanonical(p);
    NormalPartsCanonical(q);
    forall start: Directory
      ensures Resolve(start, p) == Follow(Origin(start, p), NormalParts(p))
      ensures Resolve(start, q) == Follow(Origin(start, q), NormalParts(q))
    {
      ResolveIsFollowParts(start, p);
      ResolveIsFollowParts(start, q);
    }
    if NormalParts(p) != NormalParts(q) {
      if IsAbsolute(p) {
        FollowAbsolute(NormalParts(p));
        FollowAbsolute(NormalParts(q));
        assert IsDirectory([]) && Resolve([], p) != Resolve([], q);
      } else {
        DistinguishingStart(NormalParts(p), NormalParts(q));
      }
    }
  }

  // ----- Normalisation is idempotent on strings.

  lemma {:induction false} ReduceAllConcat(absolute: bool, parts: seq<string>, a: seq<string>, b: seq<string>)
    ensures ReduceAll(absolute, parts, a + b) == ReduceAll(absolute, ReduceAll(absolute, parts, a), b)
    decreases |a|
  {
    if a == [] {
      assert a + b == b;
    } else {
      assert (a + b)[1..] == a[1..] + b;
      ReduceAllConcat(absolute, Reduce(absolute, parts, a[0]), a[1..], b);
    }
  }

  lemma {:induction false} CanonicalIsFixed(absolute: bool, parts: seq<string>, ups: nat, n: nat)
    requires IsCanonicalAt(absolute, parts, ups) && n <= |parts|
    ensures ReduceAll(absolute, parts[..n], parts[n..]) == parts
    decreases |parts| - n
  {
    if n == |parts| {
      assert parts[..n] == parts && parts[n..] == [];
    } else {
      assert parts[n..][1..] == parts[n + 1..];
      assert parts[..n + 1] == parts[..n] + [parts[n]];
      assert parts[n] == ".." ==> n < ups && !EndsInName(parts[..n]);
      CanonicalIsFixed(absolute, parts, ups, n + 1);
    }
  }

  lemma CanonicalReducesToItself(absolute: bool, parts: seq<string>, ups: nat)
    requires IsCanonicalAt(absolute, parts, ups)
    ensures ReduceAll(absolute, [], parts) == parts
  {
    assert parts[..0] == [] && parts[0..] == parts;
    CanonicalIsFixed(absolute, parts, ups, 0);
  }

  lemma CanonicalDoesNotTrail(absolute: bool, parts: seq<string>, ups: nat)
    requires IsCanonicalAt(absolute, parts, ups) && parts != []
    ensures !EndsInDirectory(absolute, parts)
  {
    var init, last := parts[..|parts| - 1], parts[|parts| - 1];
    CanonicalReducesToItself(absolute, init, if ups < |parts| then ups else |init|);
    assert last == ".." ==> ups == |parts| && !EndsInName(init);
  }

  // Normalising the segments a canonical list renders to finds the list and the trailing
  // separator again.
  lemma CanonicalSegments(absolute: bool, parts: seq<string>, trailing: bool)
    requires IsCanonical(absolute, parts) && parts != []
    ensures var body := (if absolute then [""] else []) + parts;
            var segments := if trailing then body + [""] else body;
            ReduceAll(absolute, [], segments) == parts && EndsInDirectory(absolute, segments) == trailing
  {
    var ups: nat :| IsCanonicalAt(absolute, parts, ups);
    var body := (if absolute then [""] else []) + parts;
    CanonicalReducesToItself(absolute, parts, ups);
    RootReducesAway(absolute, parts);
    if trailing {
      ReduceAllSnoc(absolute, body, "");
      assert (body + [""])[..|body|] == body;
    } else {
      CanonicalDoesNotTrail(absolute, parts, ups);
      RootReducesAway(absolute, parts[..|parts| - 1]);
      assert body[..|body| - 1] == (if absolute then [""] else []) + parts[..|parts| - 1];
    }
  }

  lemma RootReducesAway(absolute: bool, parts: seq<string>)
    ensures ReduceAll(absolute, [], (if absolute then [""] else []) + parts) == ReduceAll(absolute, [], parts)
  {
    assert ([""] + parts)[1..] == parts && [] + parts == parts;
  }

  lemma RootAndDotAreNormal()
    ensures Normal("/") == "/" && Normal(".") == "."
  {
    SplitSlashFree(".");
    assert Split("/") == [""] + Split("");
    assert [""][1..] == [] && ["."][1..] == [] && ["", ""][1..] == [""];
  }

  // Rendering a canonical list and normalising the text gives the same text back.
  lemma RenderIsNormal(absolute: bool, parts: seq<string>, trailing: bool)
    requires IsCanonical(absolute, parts)
    ensures Normal(Render(absolute, parts, trailing)) == Render(absolute, parts, trailing)
  {
    if parts == [] {
      RootAndDotAreNormal();
    } else {
      RenderSegments(absolute, parts, trailing);
      CanonicalSegments(absolute, parts, trailing);
    }
  }

  lemma NormalIsIdempotent(p: string)
    ensures Normal(Normal(p)) == Normal(p)
  {
    if p != "" {
      NormalPartsCanonical(p);
      RenderIsNormal(IsAbsolute(p), NormalParts(p), EndsInDirectory(IsAbsolute(p), Split(p)));
    }
  }
}
