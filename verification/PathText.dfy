// Path text: how a native path string falls into segments and components.
//
// A path is a string over '/'-separated segments.  `Split` keeps every segment, the empty
// ones included, so `Join` is its exact inverse; the loops of src/filesystem.cpp, which
// move offsets through the string, are related to it by `SplitFrom`.

module PathText {

  function Split(p: string): (segments: seq<string>)
    ensures |segments| >= 1
  {
    if p == "" then [""]
    else if p[0] == '/' then [""] + Split(p[1..])
    else
      var rest := Split(p[1..]);
      [[p[0]] + rest[0]] + rest[1..]
  }

  function Join(parts: seq<string>): (text: string) {
    if parts == [] then ""
    else if |parts| == 1 then parts[0]
    else parts[0] + "/" + Join(parts[1..])
  }

  predicate SlashFree(s: string) {
    forall i :: 0 <= i < |s| ==> s[i] != '/'
  }

  predicate IsAbsolute(p: string) {
    p != "" && p[0] == '/'
  }

  // The first '/' at or after `from`, or the end of the string.
  function SlashFrom(p: string, from: nat): (end: nat)
    requires from <= |p|
    ensures from <= end <= |p|
    ensures end < |p| ==> p[end] == '/'
    ensures forall i :: from <= i < end ==> p[i] != '/'
    decreases |p| - from
  {
    if from == |p| || p[from] == '/' then from else SlashFrom(p, from + 1)
  }

  // The first character at or after `from` that is not a '/', or the end of the string.
  function SkipSlashes(p: string, from: nat): (next: nat)
    requires from <= |p|
    ensures from <= next <= |p|
    ensures next < |p| ==> p[next] != '/'
    ensures forall i :: from <= i < next ==> p[i] == '/'
    decreases |p| - from
  {
    if from == |p| || p[from] != '/' then from else SkipSlashes(p, from + 1)
  }

  // What std::string::find('/', from) returns, with npos read as the end of the string.
  method FindSlash(p: string, from: nat) returns (end: nat)
    requires from <= |p|
    ensures end == SlashFrom(p, from)
  {
    end := from;
    while end < |p| && p[end] != '/'
      invariant from <= end <= |p|
      invariant SlashFrom(p, end) == SlashFrom(p, from)
    {
      end := end + 1;
    }
  }

  // The loops `while (i < size && text[i] == '/') ++i` of src/filesystem.cpp.
  method FindNonSlash(p: string, from: nat) returns (next: nat)
    requires from <= |p|
    ensures next == SkipSlashes(p, from)
  {
    next := from;
    while next < |p| && p[next] == '/'
      invariant from <= next <= |p|
      invariant SkipSlashes(p, next) == SkipSlashes(p, from)
    {
      next := next + 1;
    }
  }

  function NonEmpty(segments: seq<string>): (names: seq<string>)
    ensures forall s :: s in names <==> s in segments && s != ""
  {
    if segments == [] then []
    else if segments[0] == "" then NonEmpty(segments[1..])
    else [segments[0]] + NonEmpty(segments[1..])
  }

  // The component sequence of a path: a leading "/" for an absolute one, the names, and an
  // empty component for a trailing separator that follows a name.
  function Components(p: string): seq<string> {
    var names := NonEmpty(Split(p));
    (if IsAbsolute(p) then ["/"] else [])
    + names
    + (if names != [] && p != "" && p[|p| - 1] == '/' then [""] else [])
  }

  // ----- lemmas

  lemma {:induction false} SplitSlashFree(s: string)
    requires SlashFree(s)
    ensures Split(s) == [s]
  {
    if s != "" {
      assert s[1..] + [] == s[1..];
      SplitSlashFree(s[1..]);
      assert s == [s[0]] + s[1..];
    }
  }

  lemma {:induction false} SplitConcat(a: string, b: string)
    ensures Split(a + "/" + b) == Split(a) + Split(b)
  {
    var whole := a + "/" + b;
    if a == "" {
      assert whole == "/" + b;
    } else {
      assert whole[1..] == a[1..] + "/" + b;
      SplitConcat(a[1..], b);
    }
  }

  lemma {:induction false} SegmentsSlashFree(p: string)
    ensures forall s :: s in Split(p) ==> SlashFree(s)
  {
    if p != "" {
      var rest := Split(p[1..]);
      SegmentsSlashFree(p[1..]);
      assert rest[0] in rest;
      assert forall s :: s in Split(p) ==> s in rest || s == "" || s == [p[0]] + rest[0];
    }
  }

  lemma JoinCons(first: string, rest: seq<string>)
    ensures Join([first] + rest) == if rest == [] then first else first + "/" + Join(rest)
  {
    assert ([first] + rest)[1..] == rest;
  }

  lemma {:induction false} JoinSplit(p: string)
    ensures Join(Split(p)) == p
  {
    if p != "" {
      var rest := Split(p[1..]);
      JoinSplit(p[1..]);
      assert p == [p[0]] + p[1..];
      if p[0] == '/' {
        JoinCons("", rest);
      } else {
        assert rest == [rest[0]] + rest[1..];
        JoinCons(rest[0], rest[1..]);
        JoinCons([p[0]] + rest[0], rest[1..]);
      }
    }
  }

  lemma {:induction false} SplitJoin(parts: seq<string>)
    requires parts != []
    requires forall s :: s in parts ==> SlashFree(s)
    ensures Split(Join(parts)) == parts
  {
    SplitSlashFree(parts[0]);
    if |parts| > 1 {
      SplitJoin(parts[1..]);
      SplitConcat(parts[0], Join(parts[1..]));
    }
  }

  lemma {:induction false} JoinSnoc(parts: seq<string>, last: string)
    ensures Join(parts + [last]) == if parts == [] then last else Join(parts) + "/" + last
  {
    if |parts| > 0 {
      assert (parts + [last])[1..] == parts[1..] + [last];
      JoinSnoc(parts[1..], last);
    }
  }

  // One segment at a time: what a loop over offsets sees of Split.
  lemma SplitFrom(p: string, from: nat, end: nat)
    requires from <= |p| && end == SlashFrom(p, from)
    ensures end < |p| ==> Split(p[from..]) == [p[from..end]] + Split(p[end + 1..])
    ensures end == |p| ==> Split(p[from..]) == [p[from..end]]
  {
    if end < |p| {
      CutAtSlash(p, from, end);
      SplitName(p[from..], p[from..end], p[end + 1..]);
    } else {
      assert p[from..] == p[from..end];
      SplitSlashFree(p[from..]);
    }
  }

  lemma CutAtSlash(p: string, from: nat, end: nat)
    requires from <= end < |p| && p[end] == '/'
    ensures p[from..] == p[from..end] + "/" + p[end + 1..]
  {
  }

  lemma SplitName(p: string, name: string, rest: string)
    requires SlashFree(name) && p == name + "/" + rest
    ensures Split(p) == [name] + Split(rest)
  {
    SplitSlashFree(name);
    SplitConcat(name, rest);
  }

  lemma SplitAtSlash(p: string, at: nat)
    requires at < |p| && p[at] == '/'
    ensures Split(p[at..]) == [""] + Split(p[at + 1..])
  {
    assert p[at..][1..] == p[at + 1..];
  }

  lemma NonEmptyCons(first: string, rest: seq<string>)
    ensures NonEmpty([first] + rest) == if first == "" then NonEmpty(rest) else [first] + NonEmpty(rest)
  {
    assert ([first] + rest)[1..] == rest;
  }

  lemma {:induction false} NonEmptyConcat(a: seq<string>, b: seq<string>)
    ensures NonEmpty(a + b) == NonEmpty(a) + NonEmpty(b)
  {
    if a == [] {
      assert a + b == b;
    } else {
      assert (a + b)[1..] == a[1..] + b;
      NonEmptyConcat(a[1..], b);
    }
  }
}
