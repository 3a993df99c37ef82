// Comparing, hashing and climbing paths: compare, operator==, hash_value, parent_path.

module PathOrder {
  import opened PathText
  import opened PathNormal
  import opened PathRelative
  import opened PathIterator

  // ----- Lexicographic order over any ordered element type.

  function Sign(x: int): (s: int)
    ensures -1 <= s <= 1
  {
    if x < 0 then -1 else if x > 0 then 1 else 0
  }

  function Lexicographic<T>(compare: (T, T) -> int, a: seq<T>, b: seq<T>): (d: int)
    ensures -1 <= d <= 1
  {
    if a == [] then (if b == [] then 0 else -1)
    else if b == [] then 1
    else
      var d := Sign(compare(a[0], b[0]));
      if d != 0 then d else Lexicographic(compare, a[1..], b[1..])
  }

  ghost predicate IsTotalOrder<T(!new)>(compare: (T, T) -> int) {
    && (forall x, y :: compare(x, y) == 0 <==> x == y)
    && (forall x, y :: Sign(compare(x, y)) == -Sign(compare(y, x)))
    && (forall x, y, z :: compare(x, y) <= 0 && compare(y, z) <= 0 ==> compare(x, z) <= 0)
  }

  lemma {:induction false} LexicographicZero<T(!new)>(compare: (T, T) -> int, a: seq<T>, b: seq<T>)
    requires IsTotalOrder(compare)
    ensures Lexicographic(compare, a, b) == 0 <==> a == b
  {
    if a != [] && b != [] {
      LexicographicZero(compare, a[1..], b[1..]);
      assert a == [a[0]] + a[1..] && b == [b[0]] + b[1..];
    }
  }

  lemma {:induction false} LexicographicFlips<T(!new)>(compare: (T, T) -> int, a: seq<T>, b: seq<T>)
    requires IsTotalOrder(compare)
    ensures Lexicographic(compare, a, b) == -Lexicographic(compare, b, a)
  {
    if a != [] && b != [] {
      assert Sign(compare(a[0], b[0])) == -Sign(compare(b[0], a[0]));
      LexicographicFlips(compare, a[1..], b[1..]);
    }
  }

  lemma {:induction false} LexicographicTransitive<T(!new)>(compare: (T, T) -> int, a: seq<T>, b: seq<T>, c: seq<T>)
    requires IsTotalOrder(compare)
    requires Lexicographic(compare, a, b) <= 0 && Lexicographic(compare, b, c) <= 0
    ensures Lexicographic(compare, a, c) <= 0
  {
    if a != [] && b != [] && c != [] {
      var x, y, z := a[0], b[0], c[0];
      assert compare(x, y) <= 0 && compare(y, z) <= 0;
      assert compare(x, z) <= 0;
      if compare(x, z) == 0 {
        assert x == z;
        assert Sign(compare(x, y)) == -Sign(compare(y, x));
        assert compare(x, y) == 0 && compare(y, z) == 0;
        LexicographicTransitive(compare, a[1..], b[1..], c[1..]);
      }
    }
  }

  // ----- The two orders of compare: characters within a component, components within a path.

  function CompareChars(a: char, b: char): int {
    a as int - b as int
  }

  function CompareTexts(a: string, b: string): int {
    Lexicographic(CompareChars, a, b)
  }

  function ComparePaths(p: string, q: string): int {
    Lexicographic(CompareTexts, Components(p), Components(q))
  }

  lemma TextOrder()
    ensures IsTotalOrder(CompareTexts)
  {
    assert IsTotalOrder(CompareChars);
    forall a, b
      ensures CompareTexts(a, b) == 0 <==> a == b
      ensures Sign(CompareTexts(a, b)) == -Sign(CompareTexts(b, a))
    {
      LexicographicZero(CompareChars, a, b);
      LexicographicFlips(CompareChars, a, b);
    }
    forall a, b, c | CompareTexts(a, b) <= 0 && CompareTexts(b, c) <= 0
      ensures CompareTexts(a, c) <= 0
    {
      LexicographicTransitive(CompareChars, a, b, c);
    }
  }

  // Main result: compare is a total preorder on paths whose ties are exactly the pairs with
  // the same components.
  lemma ComparePathsIsPreorder(p: string, q: string, r: string)
    ensures ComparePaths(p, q) == 0 <==> Components(p) == Components(q)
    ensures ComparePaths(p, q) == -ComparePaths(q, p)
    ensures ComparePaths(p, q) <= 0 && ComparePaths(q, r) <= 0 ==> ComparePaths(p, r) <= 0
  {
    TextOrder();
    LexicographicZero(CompareTexts, Components(p), Components(q));
    LexicographicFlips(CompareTexts, Components(p), Components(q));
    if ComparePaths(p, q) <= 0 && ComparePaths(q, r) <= 0 {
      LexicographicTransitive(CompareTexts, Components(p), Components(q), Components(r));
    }
  }

  // The smaller one is a proper prefix of the other, or has the smaller element where they first
  // differ.
  ghost predicate IsBefore<T(!new)>(smaller: (T, T) -> bool, a: seq<T>, b: seq<T>) {
    exists i :: IsBeforeAt(smaller, a, b, i)
  }

  predicate IsBeforeAt<T(==)>(smaller: (T, T) -> bool, a: seq<T>, b: seq<T>, i: int) {
    0 <= i <= |a| && i < |b| && a[..i] == b[..i] && (i == |a| || smaller(a[i], b[i]))
  }

  lemma SamePrefixes<T>(smaller: (T, T) -> bool, a: seq<T>, b: seq<T>)
    requires a != [] && b != []
    ensures forall i :: 0 < i && IsBeforeAt(smaller, a, b, i) ==> a[0] == b[0]
  {
    forall i | 0 < i && IsBeforeAt(smaller, a, b, i)
      ensures a[0] == b[0]
    {
      assert a[..i][0] == b[..i][0];
    }
  }

  lemma {:induction false} LexicographicBefore<T(!new)>(
    compare: (T, T) -> int, smaller: (T, T) -> bool, a: seq<T>, b: seq<T>)
    requires IsTotalOrder(compare) && forall x, y :: smaller(x, y) <==> compare(x, y) < 0
    ensures Lexicographic(compare, a, b) < 0 <==> IsBefore(smaller, a, b)
  {
    if a == [] {
      assert b != [] ==> IsBeforeAt(smaller, a, b, 0);
    } else if b != [] {
      LexicographicBefore(compare, smaller, a[1..], b[1..]);
      if a[0] != b[0] {
        assert compare(a[0], b[0]) < 0 ==> IsBeforeAt(smaller, a, b, 0);
        SamePrefixes(smaller, a, b);
      } else {
        if IsBefore(smaller, a[1..], b[1..]) {
          var i :| IsBeforeAt(smaller, a[1..], b[1..], i);
          assert a[..i + 1] == [a[0]] + a[1..][..i] && b[..i + 1] == [b[0]] + b[1..][..i];
          assert IsBeforeAt(smaller, a, b, i + 1);
        }
        if IsBefore(smaller, a, b) {
          var i :| IsBeforeAt(smaller, a, b, i);
          assert i > 0;
          assert a[1..][..i - 1] == a[..i][1..] && b[1..][..i - 1] == b[..i][1..];
          assert IsBeforeAt(smaller, a[1..], b[1..], i - 1);
        }
      }
    }
  }

  predicate SmallerByte(a: char, b: char) {
    a < b
  }

  ghost predicate SmallerText(a: string, b: string) {
    IsBefore(SmallerByte, a, b)
  }

  // A text is smaller if it has the smaller byte where they first differ, or ends there.
  lemma TextsExactly(a: string, b: string)
    ensures CompareTexts(a, b) < 0 <==> SmallerText(a, b)
  {
    LexicographicBefore(CompareChars, SmallerByte, a, b);
  }

  // Main result: a path is smaller if and only if its components are, in the order of texts.
  lemma PathsExactly(p: string, q: string)
    ensures ComparePaths(p, q) < 0 <==> IsBefore((a, b) => CompareTexts(a, b) < 0, Components(p), Components(q))
  {
    TextOrder();
    LexicographicBefore(CompareTexts, (a, b) => CompareTexts(a, b) < 0, Components(p), Components(q));
  }

  // string_view::compare: the first difference within the common length, then the lengths.
  method CompareViews(a: string, b: string) returns (difference: int)
    ensures Sign(difference) == CompareTexts(a, b)
  {
    var n := if |a| < |b| then |a| else |b|;
    assert a[0..] == a && b[0..] == b;
    for i := 0 to n
      invariant CompareTexts(a[i..], b[i..]) == CompareTexts(a, b)
    {
      if a[i] != b[i] {
        return if a[i] < b[i] then -1 else 1;
      }
    }
    return if |a| < |b| then -1 else if |a| > |b| then 1 else 0;
  }

  method Compare(p: string, q: string) returns (difference: int)
    ensures Sign(difference) == ComparePaths(p, q)
  {
    var left, right := Begin(p), Begin(q);
    WalkIsComponents(p);
    WalkIsComponents(q);
    while left != End && right != End
      invariant IsOffset(p, left) && IsOffset(q, right)
      invariant Lexicographic(CompareTexts, Walk(p, left), Walk(q, right)) == ComparePaths(p, q)
      decreases Measure(p, left)
    {
      NextIsOffset(p, left.position);
      NextIsOffset(q, right.position);
      var leftComponent, left' := NextPathComponent(p, left.position);
      var rightComponent, right' := NextPathComponent(q, right.position);
      difference := CompareViews(leftComponent, rightComponent);
      if difference != 0 {
        return;
      }
      left, right := left', right';
    }
    return if left == End then (if right == End then 0 else -1) else 1;
  }

  // operator==
  method Equals(p: string, q: string) returns (equal: bool)
    ensures equal <==> Components(p) == Components(q)
  {
    var difference := Compare(p, q);
    ComparePathsIsPreorder(p, q, p);
    equal := difference == 0;
  }

  // ----- hash_value: FNV-1a over the components, each closed by the byte 0xff.

  const FNV_BASIS: bv64 := 1469598103934665603
  const FNV_PRIME: bv64 := 1099511628211

  function Byte(c: char): bv64 {
    (c as int % 256) as bv64
  }

  function HashByte(hash: bv64, byte: bv64): bv64 {
    (hash ^ byte) * FNV_PRIME
  }

  function HashText(hash: bv64, text: string): bv64
    decreases |text|
  {
    if text == "" then hash else HashText(HashByte(hash, Byte(text[0])), text[1..])
  }

  function HashComponents(hash: bv64, components: seq<string>): bv64
    decreases |components|
  {
    if components == [] then hash
    else HashComponents(HashByte(HashText(hash, components[0]), 0xff), components[1..])
  }

  // The published test vector of FNV-1a for foobar, byte by byte.
  lemma FnvVector()
    ensures HashByte(0xcbf29ce484222325, 0x66) == 0xaf63db4c8601ead9
    ensures HashByte(0xaf63db4c8601ead9, 0x6f) == 0x8985907b541d342
    ensures HashByte(0x8985907b541d342, 0x6f) == 0xdcb27518fed9d577
    ensures HashByte(0xdcb27518fed9d577, 0x62) == 0xdd120e790c2512af
    ensures HashByte(0xdd120e790c2512af, 0x61) == 0xcac165afa2fef40a
    ensures HashByte(0xcac165afa2fef40a, 0x72) == 0x85944171f73967e8
  {
  }

  // The empty path has the basis, as the code writes it.
  lemma EmptyHash()
    ensures HashComponents(FNV_BASIS, Components("")) == 1469598103934665603
  {
  }

  // Every byte of a component goes in, and then the closing byte; then the next component.
  lemma HashOfComponents(hash: bv64, c: char, component: string, components: seq<string>)
    ensures HashText(hash, []) == hash
    ensures HashText(hash, component + [c]) == HashByte(HashText(hash, component), Byte(c))
    ensures HashComponents(hash, []) == hash
    ensures HashComponents(hash, components + [component])
            == HashByte(HashText(HashComponents(hash, components), component), 0xff)
  {
    hide HashByte, Byte;
    TextAppended(hash, component, c);
    ComponentAppended(hash, components, component);
  }

  lemma {:induction false} TextAppended(hash: bv64, text: string, c: char)
    ensures HashText(hash, text + [c]) == HashByte(HashText(hash, text), Byte(c))
    decreases |text|
  {
    hide HashByte, Byte;
    if text == "" {
      assert "" + [c] == [c] && [c][1..] == "";
    } else {
      TextAppended(HashByte(hash, Byte(text[0])), text[1..], c);
      assert (text + [c])[1..] == text[1..] + [c];
    }
  }

  lemma {:induction false} ComponentAppended(hash: bv64, components: seq<string>, last: string)
    ensures HashComponents(hash, components + [last])
            == HashByte(HashText(HashComponents(hash, components), last), 0xff)
    decreases |components|
  {
    hide HashByte, HashText;
    if components == [] {
      assert [] + [last] == [last] && [last][1..] == [];
    } else {
      ComponentAppended(HashByte(HashText(hash, components[0]), 0xff), components[1..], last);
      assert (components + [last])[1..] == components[1..] + [last];
    }
  }

  method HashValue(p: string) returns (result: bv64)
    ensures result == HashComponents(FNV_BASIS, Components(p))
  {
    result := FNV_BASIS;
    var offset := Begin(p);
    WalkIsComponents(p);
    while offset != End
      invariant IsOffset(p, offset)
      invariant HashComponents(result, Walk(p, offset)) == HashComponents(FNV_BASIS, Components(p))
      decreases Measure(p, offset)
    {
      NextIsOffset(p, offset.position);
      ghost var components := Walk(p, offset);
      var component, next := NextPathComponent(p, offset.position);
      result := HashBytes(result, component);
      result := HashByte(result, 0xff);
      assert components[1..] == Walk(p, next);
      offset := next;
    }
  }

  method HashBytes(before: bv64, component: string) returns (result: bv64)
    ensures result == HashText(before, component)
  {
    result := before;
    assert component[0..] == component;
    for i := 0 to |component|
      invariant HashText(result, component[i..]) == HashText(before, component)
    {
      result := HashByte(result, Byte(component[i]));
    }
  }

  // Paths that compare equal hash alike and, from every starting directory, mean the same.
  lemma EqualPathsAgree(p: string, q: string)
    requires ComparePaths(p, q) == 0
    ensures HashComponents(FNV_BASIS, Components(p)) == HashComponents(FNV_BASIS, Components(q))
    ensures forall start: Directory :: Resolve(start, p) == Resolve(start, q)
  {
    ComparePathsIsPreorder(p, q, p);
    RootIsFirst(p);
    RootIsFirst(q);
    forall start: Directory
      ensures Resolve(start, p) == Resolve(start, q)
    {
      KeptMeaning(PathNormal.Origin(start, p), p);
      KeptMeaning(PathNormal.Origin(start, q), q);
    }
  }

  lemma RootIsFirst(p: string)
    ensures IsAbsolute(p) <==> Components(p) != [] && Components(p)[0] == "/"
  {
    SegmentsSlashFree(p);
    var names := NonEmpty(Split(p));
    if !IsAbsolute(p) && names != [] {
      assert names[0] in names;
      assert SlashFree(names[0]) && "/"[0] == '/';
    }
  }

  // ----- parent_path

  method ParentPath(p: string) returns (parent: string)
    ensures Components(parent) ==
              if Components(p) == ["/"] then ["/"]
              else if p == "" then []
              else Components(p)[..|Components(p)| - 1]
  {
    if p == "" {
      NothingAfter("");
      return "";
    }
    var end := |p|;
    assert p[..|p|] == p;
    while end > 1 && p[end - 1] == '/'
      invariant 0 < end <= |p|
      invariant forall i :: end <= i < |p| ==> p[i] == '/'
    {
      end := end - 1;
    }
    if end != |p| {
      TrailingSlashes(p, end);
      return p[..end];
    }
    if end == 1 && p[0] == '/' {
      SlashesOnly(p);
      return "/";
    }
    var start := FindNameBack(p, end);
    if start == 0 {
      LastNameAlone(p);
      return "";
    }
    var separator := FindSlashesBack(p, start - 1);
    LastName(p, separator, start);
    if separator == 0 {
      return "/";
    }
    return p[..separator];
  }

  lemma {:induction false} NamesOfSlashes(head: string, slashes: string)
    requires forall i :: 0 <= i < |slashes| ==> slashes[i] == '/'
    ensures NonEmpty(Split(head + slashes)) == NonEmpty(Split(head))
    decreases |slashes|
  {
    if slashes == "" {
      assert head + slashes == head;
    } else {
      var init := slashes[..|slashes| - 1];
      assert head + slashes == head + init + "/" + "";
      SplitConcat(head + init, "");
      NonEmptyConcat(Split(head + init), [""]);
      NothingAfter("");
      NamesOfSlashes(head, init);
    }
  }

  lemma SlashesOnly(p: string)
    requires p != "" && forall i :: 0 <= i < |p| ==> p[i] == '/'
    ensures Components(p) == ["/"]
  {
    NamesOfSlashes("", p);
    assert "" + p == p;
    NothingAfter("");
  }

  lemma NameIsLast(head: string, slashes: string, name: string)
    requires slashes != "" && forall i :: 0 <= i < |slashes| ==> slashes[i] == '/'
    requires name != "" && SlashFree(name)
    ensures NonEmpty(Split(head + slashes + name)) == NonEmpty(Split(head)) + [name]
  {
    var init := slashes[..|slashes| - 1];
    assert head + slashes + name == head + init + "/" + name;
    SplitConcat(head + init, name);
    SplitSlashFree(name);
    NonEmptyConcat(Split(head + init), [name]);
    NamesOfSlashes(head, init);
    assert NonEmpty([name]) == [name] by { assert NonEmpty([name][1..]) == []; }
  }

  // A name or more before trailing slashes: the trailing empty component is what goes.
  lemma TrailingSlashes(p: string, end: nat)
    requires 0 < end < |p| && forall i :: end <= i < |p| ==> p[i] == '/'
    requires end == 1 || p[end - 1] != '/'
    ensures Components(p[..end]) ==
              if Components(p) == ["/"] then ["/"] else Components(p)[..|Components(p)| - 1]
  {
    var head := p[..end];
    assert p == head + p[end..];
    NamesOfSlashes(head, p[end..]);
    if p[end - 1] == '/' {
      SlashesOnly(p);
      SlashesOnly(head);
    } else {
      HasNames(head);
    }
  }

  lemma HasNames(p: string)
    requires p != "" && p[|p| - 1] != '/'
    ensures NonEmpty(Split(p)) != []
  {
    if NonEmpty(Split(p)) == [] {
      forall s | s in Split(p)
        ensures s == ""
      {
      }
      OnlyEmptySegments(Split(p));
      JoinSplit(p);
    }
  }

  lemma {:induction false} OnlyEmptySegments(segments: seq<string>)
    requires forall s :: s in segments ==> s == ""
    ensures forall c :: c in Join(segments) ==> c == '/'
  {
    if segments != [] {
      assert segments[0] in segments;
      assert forall s :: s in segments[1..] ==> s in segments;
      OnlyEmptySegments(segments[1..]);
    }
  }

  lemma LastNameAlone(p: string)
    requires p != "" && forall i :: 0 <= i < |p| ==> p[i] != '/'
    ensures Components(p) == [p] && Components("") == []
  {
    NothingAfter("");
    SplitSlashFree(p);
    assert NonEmpty([p]) == [p] by { assert NonEmpty([p][1..]) == []; }
  }

  lemma LastName(p: string, separator: nat, start: nat)
    requires separator < start < |p|
    requires forall i :: separator <= i < start ==> p[i] == '/'
    requires forall i :: start <= i < |p| ==> p[i] != '/'
    requires separator > 0 ==> p[separator - 1] != '/'
    ensures Components(if separator == 0 then "/" else p[..separator]) == Components(p)[..|Components(p)| - 1]
    ensures Components(p) != ["/"]
  {
    var head, slashes, name := p[..separator], p[separator..start], p[start..];
    assert p == head + slashes + name;
    NameIsLast(head, slashes, name);
    var names := NonEmpty(Split(head));
    assert Components(p) == (if IsAbsolute(p) then ["/"] else []) + names + [name];
    assert name != "/";
    if separator == 0 {
      NothingAfter("");
      SlashesOnly("/");
    } else {
      assert IsAbsolute(head) == IsAbsolute(p);
    }
  }
}
