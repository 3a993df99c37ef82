// The matching loops of std::regex: regex_replace and the constructor of sregex_token_iterator.
//
// regexec is a parameter: `exec` says what it answers at each offset of the subject, in offsets
// relative to that one.

module RegexLoops {
  import RegexNumbering
  import RegexReading
  import RegexTranslate
  import opened Wrappers

  // regmatch_t; an unmatched group has so == -1.
  datatype Span = Span(so: int, eo: int)

  type Exec = nat -> Option<seq<Span>>

  // One successful call: where it started, and its spans.
  datatype Found = Found(offset: nat, spans: seq<Span>)

  predicate SpanOk(span: Span, length: int) {
    span.so == -1 || 0 <= span.so <= span.eo <= length
  }

  // What regexec promises: spans inside the text it was given, and the whole match first.
  ghost predicate ExecOk(exec: Exec, size: nat, count: nat) {
    forall at: nat {:trigger exec(at)} :: at <= size && exec(at).Some? ==>
      && |exec(at).value| == count && count > 0
      && exec(at).value[0].so >= 0
      && forall i :: 0 <= i < count ==> SpanOk(exec(at).value[i], size - at)
  }

  predicate FoundOk(found: Found, size: nat, count: nat) {
    && found.offset <= size && |found.spans| == count && count > 0
    && found.spans[0].so >= 0
    && forall i :: 0 <= i < count ==> SpanOk(found.spans[i], size - found.offset)
  }

  function Begin(found: Found): int
    requires found.spans != []
  {
    found.offset + found.spans[0].so
  }

  function End(found: Found): int
    requires found.spans != []
  {
    found.offset + found.spans[0].eo
  }

  // All matches from an offset on; after an empty one the search moves on by a character.
  ghost function Finds(exec: Exec, size: nat, count: nat, offset: nat): (founds: seq<Found>)
    requires ExecOk(exec, size, count)
    decreases size + 1 - offset
  {
    if offset > size || exec(offset).None? then []
    else
      var found := Found(offset, exec(offset).value);
      if Begin(found) < End(found) then [found] + Finds(exec, size, count, End(found))
      else if End(found) == size then [found]
      else [found] + Finds(exec, size, count, End(found) + 1)
  }

  // The matches lie in the subject one after the other, from pos on.
  predicate Ordered(founds: seq<Found>, size: nat, count: nat, pos: nat) {
    if founds == [] then pos <= size
    else
      && FoundOk(founds[0], size, count) && pos <= Begin(founds[0])
      && Ordered(founds[1..], size, count, End(founds[0]))
  }

  lemma {:induction false} FindsOrdered(exec: Exec, size: nat, count: nat, offset: nat, pos: nat)
    requires ExecOk(exec, size, count) && pos <= offset && pos <= size
    ensures Ordered(Finds(exec, size, count, offset), size, count, pos)
    decreases size + 1 - offset
  {
    if offset <= size && exec(offset).Some? {
      var found := Found(offset, exec(offset).value);
      assert SpanOk(found.spans[0], size - offset);
      if Begin(found) < End(found) {
        FindsOrdered(exec, size, count, End(found), End(found));
      } else if End(found) < size {
        FindsOrdered(exec, size, count, End(found) + 1, End(found));
      }
    }
  }

  // ----- What a replacement text stands for.

  // The text of a native group.  There is none beyond those that regexec was asked for.
  function SpanText(subject: string, found: Found, i: nat): string
    requires FoundOk(found, |subject|, |found.spans|)
  {
    if i >= |found.spans| || found.spans[i].so < 0 then ""
    else subject[found.offset + found.spans[i].so..found.offset + found.spans[i].eo]
  }

  // native_submatch, for groups that exist
  function Native(submatches: seq<nat>, logical: nat): nat
    requires logical <= |submatches|
  {
    if logical == 0 then 0 else submatches[logical - 1]
  }

  // The source reads the entry of a logical group from an array of `count` native ones.
  predicate IsBeyond(submatches: seq<nat>, count: nat, logical: nat) {
    logical <= |submatches| && Native(submatches, logical) >= count
  }

  // Every logical group has a native one.
  predicate SubmatchesOk(submatches: seq<nat>, count: nat) {
    forall k :: 0 <= k < |submatches| ==> submatches[k] < count
  }

  // The text of a logical group; nothing for one that took no part or does not exist.
  function GroupText(subject: string, found: Found, submatches: seq<nat>, logical: nat): string
    requires FoundOk(found, |subject|, |found.spans|)
  {
    if logical <= |submatches| then SpanText(subject, found, Native(submatches, logical)) else ""
  }

  function Marker(subject: string, found: Found, submatches: seq<nat>, marker: char): string
    requires FoundOk(found, |subject|, |found.spans|)
  {
    if marker == '$' then "$"
    else if marker == '&' then SpanText(subject, found, 0)
    else if '0' <= marker <= '9' then GroupText(subject, found, submatches, marker as int - '0' as int)
    else ['$', marker]
  }

  function Expansion(subject: string, found: Found, submatches: seq<nat>, replacement: string): string
    requires FoundOk(found, |subject|, |found.spans|)
  {
    if replacement == "" then ""
    else if replacement[0] != '$' || |replacement| == 1 then
      [replacement[0]] + Expansion(subject, found, submatches, replacement[1..])
    else
      Marker(subject, found, submatches, replacement[1]) + Expansion(subject, found, submatches, replacement[2..])
  }

  // A replacement that names a group beyond the native ones: the source reads outside its array.
  predicate ReadsBeyond(submatches: seq<nat>, count: nat, replacement: string) {
    if replacement == "" then false
    else if replacement[0] != '$' || |replacement| == 1 then ReadsBeyond(submatches, count, replacement[1..])
    else MarksBeyond(submatches, count, replacement[1]) || ReadsBeyond(submatches, count, replacement[2..])
  }

  predicate MarksBeyond(submatches: seq<nat>, count: nat, marker: char) {
    '0' <= marker <= '9' && IsBeyond(submatches, count, marker as int - '0' as int)
  }

  lemma {:induction false} NeverBeyond(submatches: seq<nat>, count: nat, replacement: string)
    requires SubmatchesOk(submatches, count) && count > 0
    ensures !ReadsBeyond(submatches, count, replacement)
    ensures forall logical: nat :: !IsBeyond(submatches, count, logical)
  {
    if replacement != "" {
      NeverBeyond(submatches, count, replacement[if replacement[0] != '$' || |replacement| == 1 then 1 else 2..]);
    }
  }

  // For a translated pattern whose classes are closed and readable nothing is read beyond the
  // native groups, whatever the replacement.
  lemma TranslationStaysWithin(
    pattern: RegexTranslate.CString, pieces: seq<RegexTranslate.Piece>, replacement: string, logical: nat)
    requires RegexNumbering.Parsed(pattern, pieces) && RegexNumbering.AllClosed(pieces)
    requires RegexNumbering.ClassesReadable(pieces)
    ensures RegexReading.NativeGroups(RegexTranslate.Text(pieces)) == Some(RegexTranslate.Opens(pieces))
    ensures !ReadsBeyond(RegexTranslate.Numbers(pieces), RegexTranslate.Opens(pieces) + 1, replacement)
    ensures !IsBeyond(RegexTranslate.Numbers(pieces), RegexTranslate.Opens(pieces) + 1, logical)
  {
    hide *;
    RegexNumbering.GroupsAreCounted(pattern, pieces);
    RegexNumbering.NumbersIncrease(pieces);
    NumbersWithin(RegexTranslate.Numbers(pieces), RegexTranslate.Opens(pieces));
    NeverBeyond(RegexTranslate.Numbers(pieces), RegexTranslate.Opens(pieces) + 1, replacement);
  }

  lemma NumbersWithin(numbers: seq<nat>, opens: nat)
    requires forall k :: 0 <= k < |numbers| ==> 1 <= numbers[k] <= opens
    ensures SubmatchesOk(numbers, opens + 1)
  {
  }

  // For the pattern [[:name:](], of any class name, naming its one group reads beyond them.
  lemma MisreadClassReadsBeyond(name: string, pattern: RegexTranslate.CString, translation: RegexTranslate.Translation)
    requires RegexReading.IsClassName(name) && pattern == RegexNumbering.NamedPattern(name)
    requires RegexTranslate.Translated(pattern) == Ok(translation)
    ensures var native := RegexReading.NativeGroups(translation.text);
            native.Some? && ReadsBeyond(translation.submatches, native.value + 1, "$1")
            && IsBeyond(translation.submatches, native.value + 1, 1)
  {
    RegexNumbering.NamedClassMisread(name, pattern);
    assert "$1"[2..] == "";
  }

  // ----- regex_search and regex_match

  // Groups: the text of every logical group, or that it took no part.  Beyond: the source reads
  // outside its array.
  datatype Search = NoMatch | Groups(texts: seq<Option<string>>) | Beyond

  function GroupOf(subject: string, found: Found, native: nat): Option<string>
    requires FoundOk(found, |subject|, |found.spans|) && native < |found.spans|
  {
    if found.spans[native].so < 0 then None else Some(SpanText(subject, found, native))
  }

  lemma AnswerOk(exec: Exec, size: nat, count: nat)
    requires ExecOk(exec, size, count) && exec(0).Some?
    ensures FoundOk(Found(0, exec(0).value), size, count) && |exec(0).value| == count > 0
  {
  }

  method RegexSearch(subject: string, exec: Exec, count: nat, submatches: seq<nat>) returns (search: Search)
    requires ExecOk(exec, |subject|, count)
    ensures search.NoMatch? <==> exec(0).None?
    ensures search.Beyond? <==> exec(0).Some? && !SubmatchesOk(submatches, count)
    ensures search.Groups? ==>
              var found := Found(0, exec(0).value);
              FoundOk(found, |subject|, count) && |search.texts| == |submatches| + 1
              && forall i :: 0 <= i <= |submatches| ==> search.texts[i] == GroupOf(subject, found, Native(submatches, i))
  {
    if exec(0).None? {
      return NoMatch;
    }
    AnswerOk(exec, |subject|, count);
    hide ExecOk, FoundOk, GroupOf;
    var found := Found(0, exec(0).value);
    var texts := [];
    for i := 0 to |submatches| + 1
      invariant |texts| == i
      invariant forall k :: 0 <= k < i ==>
                  Native(submatches, k) < count && texts[k] == GroupOf(subject, found, Native(submatches, k))
    {
      var native := if i == 0 then 0 else submatches[i - 1];
      if native >= |found.spans| {
        assert submatches[i - 1] >= count;
        return Beyond;
      }
      texts := texts + [GroupOf(subject, found, native)];
    }
    assert forall k :: 0 <= k < |submatches| ==> submatches[k] == Native(submatches, k + 1);
    search := Groups(texts);
  }

  // The longest of the leftmost matches, where `spans` says what the pattern matches.
  ghost predicate LeftmostLongest(answer: Option<seq<Span>>, spans: (int, int) -> bool, size: nat) {
    if answer.None? then forall i, j :: 0 <= i <= j <= size ==> !spans(i, j)
    else
      && answer.value != [] && spans(answer.value[0].so, answer.value[0].eo)
      && forall i, j :: 0 <= i <= j <= size && spans(i, j) ==>
           answer.value[0].so < i || (answer.value[0].so == i && j <= answer.value[0].eo)
  }

  // True if and only if the pattern matches the whole subject.
  method RegexMatch(subject: string, exec: Exec, count: nat, submatches: seq<nat>, ghost spans: (int, int) -> bool)
    returns (matched: Option<bool>)
    requires ExecOk(exec, |subject|, count) && LeftmostLongest(exec(0), spans, |subject|)
    ensures matched.None? <==> exec(0).Some? && !SubmatchesOk(submatches, count)
    ensures matched.Some? ==> (matched.value <==> spans(0, |subject|))
  {
    var search := RegexSearch(subject, exec, count, submatches);
    match search
    case NoMatch =>
      matched := Some(false);
    case Beyond =>
      matched := None;
    case Groups(texts) =>
      matched := Some(texts[0] == Some(subject));
      WholeText(subject, Found(0, exec(0).value));
  }

  lemma WholeText(subject: string, found: Found)
    requires FoundOk(found, |subject|, |found.spans|) && found.offset == 0
    ensures GroupOf(subject, found, 0) == Some(subject)
            <==> found.spans[0].so == 0 && found.spans[0].eo == |subject|
  {
    assert SpanOk(found.spans[0], |subject|);
    assert subject[..|subject|] == subject;
  }

  // ----- regex_replace

  // The subject from pos on with each match replaced and everything else kept.
  function Spliced(subject: string, founds: seq<Found>, count: nat, pos: nat, submatches: seq<nat>, replacement: string)
    : string
    requires Ordered(founds, |subject|, count, pos)
    decreases |founds|
  {
    if founds == [] then subject[pos..]
    else
      subject[pos..Begin(founds[0])] + Expansion(subject, founds[0], submatches, replacement)
      + Spliced(subject, founds[1..], count, End(founds[0]), submatches, replacement)
  }

  // Copying the character after an empty match is keeping what lies before the next one.
  lemma SplicedSkip(subject: string, founds: seq<Found>, count: nat, pos: nat, submatches: seq<nat>, replacement: string)
    requires pos < |subject|
    requires Ordered(founds, |subject|, count, pos + 1) && Ordered(founds, |subject|, count, pos)
    ensures Spliced(subject, founds, count, pos, submatches, replacement)
            == [subject[pos]] + Spliced(subject, founds, count, pos + 1, submatches, replacement)
  {
    if founds != [] {
      var b := Begin(founds[0]);
      assert subject[pos..b] == [subject[pos]] + subject[pos + 1..b];
    }
  }

  lemma Assoc(a: string, b: string, c: string)
    ensures a + (b + c) == a + b + c
  {
  }

  // What has been expanded, in front of what is left.
  ghost predicate Expanded(
    subject: string, found: Found, submatches: seq<nat>, replacement: string, i: nat, text: string)
    requires FoundOk(found, |subject|, |found.spans|) && i <= |replacement|
  {
    && Expansion(subject, found, submatches, replacement)
       == text + Expansion(subject, found, submatches, replacement[i..])
    && ReadsBeyond(submatches, |found.spans|, replacement)
       == ReadsBeyond(submatches, |found.spans|, replacement[i..])
  }

  lemma ExpandsChar(
    subject: string, found: Found, submatches: seq<nat>, replacement: string, i: nat, text: string)
    requires FoundOk(found, |subject|, |found.spans|)
    requires i < |replacement| && (replacement[i] != '$' || i + 1 == |replacement|)
    requires Expanded(subject, found, submatches, replacement, i, text)
    ensures Expanded(subject, found, submatches, replacement, i + 1, text + [replacement[i]])
  {
    assert replacement[i..][1..] == replacement[i + 1..];
    Assoc(text, [replacement[i]], Expansion(subject, found, submatches, replacement[i + 1..]));
  }

  lemma ExpandsMarker(
    subject: string, found: Found, submatches: seq<nat>, replacement: string, i: nat, text: string)
    requires FoundOk(found, |subject|, |found.spans|)
    requires i + 1 < |replacement| && replacement[i] == '$'
    requires !MarksBeyond(submatches, |found.spans|, replacement[i + 1])
    requires Expanded(subject, found, submatches, replacement, i, text)
    ensures Expanded(subject, found, submatches, replacement, i + 2,
                     text + Marker(subject, found, submatches, replacement[i + 1]))
  {
    hide Marker;
    assert replacement[i..][2..] == replacement[i + 2..];
    Assoc(text, Marker(subject, found, submatches, replacement[i + 1]),
          Expansion(subject, found, submatches, replacement[i + 2..]));
  }

  // Nothing when the replacement names a group beyond the native ones.
  method Expand(subject: string, found: Found, submatches: seq<nat>, replacement: string)
    returns (text: Option<string>)
    requires FoundOk(found, |subject|, |found.spans|)
    ensures text == if ReadsBeyond(submatches, |found.spans|, replacement) then None
                    else Some(Expansion(subject, found, submatches, replacement))
  {
    hide Marker, MarksBeyond;
    var expanded := "";
    var i := 0;
    assert replacement[0..] == replacement;
    while i < |replacement|
      invariant i <= |replacement|
      invariant Expanded(subject, found, submatches, replacement, i, expanded)
    {
      if replacement[i] != '$' || i + 1 == |replacement| {
        ExpandsChar(subject, found, submatches, replacement, i, expanded);
        expanded := expanded + [replacement[i]];
      } else {
        if MarksBeyond(submatches, |found.spans|, replacement[i + 1]) {
          assert replacement[i..][1] == replacement[i + 1];
          return None;
        }
        ExpandsMarker(subject, found, submatches, replacement, i, expanded);
        i := i + 1;
        expanded := expanded + Marker(subject, found, submatches, replacement[i]);
      }
      i := i + 1;
    }
    assert replacement[i..] == "" && expanded + "" == expanded;
    text := Some(expanded);
  }

  // What has been replaced, in front of what is left.
  ghost predicate Replaced(
    subject: string, exec: Exec, count: nat, submatches: seq<nat>, replacement: string, offset: nat, result: string)
    requires ExecOk(exec, |subject|, count)
  {
    && Ordered(Finds(exec, |subject|, count, 0), |subject|, count, 0)
    && Ordered(Finds(exec, |subject|, count, offset), |subject|, count, offset)
    && Spliced(subject, Finds(exec, |subject|, count, 0), count, 0, submatches, replacement)
       == result + Spliced(subject, Finds(exec, |subject|, count, offset), count, offset, submatches, replacement)
  }

  lemma ReplaceBegins(subject: string, exec: Exec, count: nat, submatches: seq<nat>, replacement: string)
    requires ExecOk(exec, |subject|, count)
    ensures Replaced(subject, exec, count, submatches, replacement, 0, "")
  {
    FindsOrdered(exec, |subject|, count, 0, 0);
  }

  // One match, and what the search goes on with.
  lemma ReplaceMatch(
    subject: string, exec: Exec, count: nat, submatches: seq<nat>, replacement: string, offset: nat, result: string,
    found: Found, rest: seq<Found>, gap: string, text: string)
    requires ExecOk(exec, |subject|, count)
    requires Replaced(subject, exec, count, submatches, replacement, offset, result)
    requires FoundOk(found, |subject|, count) && Finds(exec, |subject|, count, offset) == [found] + rest
    requires offset <= Begin(found) && gap == subject[offset..Begin(found)]
    requires text == Expansion(subject, found, submatches, replacement)
    ensures Ordered(rest, |subject|, count, End(found))
    ensures Spliced(subject, Finds(exec, |subject|, count, 0), count, 0, submatches, replacement)
            == result + gap + text + Spliced(subject, rest, count, End(found), submatches, replacement)
  {
    hide Finds, Expansion, ExecOk;
    Assoc(result, gap, text);
    Assoc(result, gap + text, Spliced(subject, rest, count, End(found), submatches, replacement));
    assert ([found] + rest)[1..] == rest;
  }

  lemma ReplaceSkips(
    subject: string, exec: Exec, count: nat, submatches: seq<nat>, replacement: string, at: nat, result: string)
    requires ExecOk(exec, |subject|, count)
    requires at < |subject| && Ordered(Finds(exec, |subject|, count, 0), |subject|, count, 0)
    requires Ordered(Finds(exec, |subject|, count, at + 1), |subject|, count, at)
    requires Spliced(subject, Finds(exec, |subject|, count, 0), count, 0, submatches, replacement)
             == result + Spliced(subject, Finds(exec, |subject|, count, at + 1), count, at, submatches, replacement)
    ensures Replaced(subject, exec, count, submatches, replacement, at + 1, result + [subject[at]])
  {
    var rest := Finds(exec, |subject|, count, at + 1);
    FindsOrdered(exec, |subject|, count, at + 1, at + 1);
    SplicedSkip(subject, rest, count, at, submatches, replacement);
    Assoc(result, [subject[at]], Spliced(subject, rest, count, at + 1, submatches, replacement));
  }

  // The first match from an offset on.
  lemma FirstFound(exec: Exec, size: nat, count: nat, offset: nat) returns (found: Found, rest: seq<Found>)
    requires ExecOk(exec, size, count) && offset <= size && exec(offset).Some?
    ensures found == Found(offset, exec(offset).value) && FoundOk(found, size, count)
    ensures Finds(exec, size, count, offset) == [found] + rest
    ensures rest == if Begin(found) < End(found) then Finds(exec, size, count, End(found))
                    else if End(found) == size then [] else Finds(exec, size, count, End(found) + 1)
  {
    found := Found(offset, exec(offset).value);
    assert SpanOk(found.spans[0], size - offset);
    rest := Finds(exec, size, count, offset)[1..];
  }

  lemma NoneFound(exec: Exec, size: nat, count: nat, offset: nat)
    requires ExecOk(exec, size, count) && (offset > size || exec(offset).None?)
    ensures Finds(exec, size, count, offset) == []
  {
  }

  lemma NothingLeft(subject: string, count: nat, pos: nat, submatches: seq<nat>, replacement: string)
    requires pos <= |subject|
    ensures Ordered([], |subject|, count, pos)
    ensures Spliced(subject, [], count, pos, submatches, replacement) == subject[pos..]
  {
  }

  // Nothing when there is a match and the replacement names a group beyond the native ones.
  method Replace(subject: string, exec: Exec, count: nat, submatches: seq<nat>, replacement: string)
    returns (result: Option<string>)
    requires ExecOk(exec, |subject|, count)
    ensures Ordered(Finds(exec, |subject|, count, 0), |subject|, count, 0)
    ensures result ==
            if ReadsBeyond(submatches, count, replacement) && Finds(exec, |subject|, count, 0) != [] then None
            else Some(Spliced(subject, Finds(exec, |subject|, count, 0), count, 0, submatches, replacement))
  {
    hide Expansion, Marker, ExecOk, Finds, Spliced, Ordered, ReadsBeyond;
    var replaced := "";
    var offset := 0;
    ReplaceBegins(subject, exec, count, submatches, replacement);
    while offset <= |subject| && exec(offset).Some?
      invariant offset <= |subject|
      invariant Replaced(subject, exec, count, submatches, replacement, offset, replaced)
      invariant ReadsBeyond(submatches, count, replacement) ==> offset == 0
      decreases |subject| + 1 - offset
    {
      ghost var found, rest := FirstFound(exec, |subject|, count, offset);
      ghost var before := replaced;
      var matches := exec(offset).value;
      var matchBegin, matchEnd := offset + matches[0].so, offset + matches[0].eo;
      replaced := replaced + subject[offset..matchBegin];
      var text := Expand(subject, Found(offset, matches), submatches, replacement);
      if text.None? {
        return None;
      }
      replaced := replaced + text.value;
      ReplaceMatch(subject, exec, count, submatches, replacement, offset, before, found, rest,
                   subject[offset..matchBegin], text.value);
      offset := matchEnd;
      if matches[0].so == matches[0].eo {
        if offset == |subject| {
          NothingLeft(subject, count, offset, submatches, replacement);
          break;
        }
        ReplaceSkips(subject, exec, count, submatches, replacement, offset, replaced);
        replaced := replaced + [subject[offset]];
        offset := offset + 1;
      }
    }
    if offset > |subject| || exec(offset).None? {
      NoneFound(exec, |subject|, count, offset);
      NothingLeft(subject, count, offset, submatches, replacement);
    }
    replaced := replaced + subject[offset..];
    result := Some(replaced);
  }

  // ----- What replacing means.

  function Matched(founds: seq<Found>, size: nat, count: nat, pos: nat): nat
    requires Ordered(founds, size, count, pos)
    decreases |founds|
  {
    if founds == [] then 0
    else founds[0].spans[0].eo - founds[0].spans[0].so + Matched(founds[1..], size, count, End(founds[0]))
  }

  lemma WholeMatch(subject: string, found: Found, submatches: seq<nat>)
    requires FoundOk(found, |subject|, |found.spans|)
    ensures Expansion(subject, found, submatches, "$&") == subject[Begin(found)..End(found)]
    ensures Expansion(subject, found, submatches, "$0") == subject[Begin(found)..End(found)]
    ensures Expansion(subject, found, submatches, "$$") == "$"
  {
    assert "$&"[2..] == "" && "$0"[2..] == "" && "$$"[2..] == "";
  }

  // Replacing every match by itself changes nothing.
  lemma {:induction false} ReplaceByItself(
    subject: string, founds: seq<Found>, count: nat, pos: nat, submatches: seq<nat>, replacement: string)
    requires Ordered(founds, |subject|, count, pos)
    requires replacement == "$&" || replacement == "$0"
    ensures Spliced(subject, founds, count, pos, submatches, replacement) == subject[pos..]
    decreases |founds|
  {
    hide Expansion;
    if founds != [] {
      var b, e := Begin(founds[0]), End(founds[0]);
      WholeMatch(subject, founds[0], submatches);
      ReplaceByItself(subject, founds[1..], count, e, submatches, replacement);
      OrderedStays(founds[1..], |subject|, count, e);
      assert subject[pos..b] + subject[b..e] + subject[e..] == subject[pos..];
    }
  }

  lemma OrderedStays(founds: seq<Found>, size: nat, count: nat, pos: nat)
    requires Ordered(founds, size, count, pos)
    ensures pos <= size
  {
  }

  // Deleting every match shortens the subject by exactly what was matched.
  lemma {:induction false} ReplaceByNothing(
    subject: string, founds: seq<Found>, count: nat, pos: nat, submatches: seq<nat>)
    requires Ordered(founds, |subject|, count, pos)
    ensures |Spliced(subject, founds, count, pos, submatches, "")| + Matched(founds, |subject|, count, pos)
            == |subject| - pos
    decreases |founds|
  {
    if founds != [] {
      ReplaceByNothing(subject, founds[1..], count, End(founds[0]), submatches);
      OrderedStays(founds[1..], |subject|, count, End(founds[0]));
    }
  }

  // A replacement without a dollar sign stands for itself.
  lemma {:induction false} PlainReplacement(
    subject: string, found: Found, submatches: seq<nat>, replacement: string)
    requires FoundOk(found, |subject|, |found.spans|)
    requires forall i :: 0 <= i < |replacement| ==> replacement[i] != '$'
    ensures Expansion(subject, found, submatches, replacement) == replacement
  {
    if replacement != "" {
      PlainReplacement(subject, found, submatches, replacement[1..]);
      assert [replacement[0]] + replacement[1..] == replacement;
    }
  }

  lemma ReplaceAll(subject: string, exec: Exec, count: nat, submatches: seq<nat>, replacement: string)
    returns (founds: seq<Found>)
    requires ExecOk(exec, |subject|, count)
    ensures founds == Finds(exec, |subject|, count, 0) && Ordered(founds, |subject|, count, 0)
    ensures replacement == "$&" ==> Spliced(subject, founds, count, 0, submatches, replacement) == subject
    ensures replacement == "" ==>
              |Spliced(subject, founds, count, 0, submatches, replacement)|
              == |subject| - Matched(founds, |subject|, count, 0)
  {
    hide Finds, Spliced, Expansion, ExecOk;
    founds := Finds(exec, |subject|, count, 0);
    FindsOrdered(exec, |subject|, count, 0, 0);
    if replacement == "$&" {
      ReplaceByItself(subject, founds, count, 0, submatches, replacement);
    }
    ReplaceByNothing(subject, founds, count, 0, submatches);
  }

  // ----- sregex_token_iterator

  // What lies between the matches.
  function Gaps(subject: string, founds: seq<Found>, count: nat, pos: nat): seq<string>
    requires Ordered(founds, |subject|, count, pos)
    decreases |founds|
  {
    if founds == [] then []
    else [subject[pos..Begin(founds[0])]] + Gaps(subject, founds[1..], count, End(founds[0]))
  }

  // Where the last match ended.
  function LastEnd(founds: seq<Found>, size: nat, count: nat, pos: nat): (end: nat)
    requires Ordered(founds, size, count, pos)
    ensures pos <= end <= size
    decreases |founds|
  {
    if founds == [] then pos else LastEnd(founds[1..], size, count, End(founds[0]))
  }

  function Token(subject: string, found: Found, submatches: seq<nat>, submatch: int): string
    requires FoundOk(found, |subject|, |found.spans|)
  {
    if submatch >= 0 then GroupText(subject, found, submatches, submatch) else ""
  }

  function GroupTokens(
    subject: string, founds: seq<Found>, count: nat, pos: nat, submatches: seq<nat>, submatch: int): seq<string>
    requires Ordered(founds, |subject|, count, pos)
    decreases |founds|
  {
    if founds == [] then []
    else
      [Token(subject, founds[0], submatches, submatch)]
      + GroupTokens(subject, founds[1..], count, End(founds[0]), submatches, submatch)
  }

  function Tokens(
    subject: string, founds: seq<Found>, count: nat, submatches: seq<nat>, submatch: int): seq<string>
    requires Ordered(founds, |subject|, count, 0)
  {
    if submatch != -1 then GroupTokens(subject, founds, count, 0, submatches, submatch)
    else
      var end := LastEnd(founds, |subject|, count, 0);
      Gaps(subject, founds, count, 0) + (if end < |subject| || founds == [] then [subject[end..]] else [])
  }

  // The tokens of some matches before the last one is followed by the rest of the subject.
  function Part(
    subject: string, founds: seq<Found>, count: nat, pos: nat, submatches: seq<nat>, submatch: int): seq<string>
    requires Ordered(founds, |subject|, count, pos)
  {
    if submatch == -1 then Gaps(subject, founds, count, pos)
    else GroupTokens(subject, founds, count, pos, submatches, submatch)
  }

  ghost predicate Tokenized(
    subject: string, exec: Exec, count: nat, submatches: seq<nat>, submatch: int,
    rest: seq<Found>, tokenStart: nat, found: bool, tokens: seq<string>)
    requires ExecOk(exec, |subject|, count)
  {
    var all := Finds(exec, |subject|, count, 0);
    && Ordered(all, |subject|, count, 0) && Ordered(rest, |subject|, count, tokenStart)
    && Part(subject, all, count, 0, submatches, submatch)
       == tokens + Part(subject, rest, count, tokenStart, submatches, submatch)
    && LastEnd(all, |subject|, count, 0) == LastEnd(rest, |subject|, count, tokenStart)
    && (found <==> |rest| < |all|)
  }

  lemma TokenizeBegins(subject: string, exec: Exec, count: nat, submatches: seq<nat>, submatch: int)
    requires ExecOk(exec, |subject|, count)
    ensures Tokenized(subject, exec, count, submatches, submatch, Finds(exec, |subject|, count, 0), 0, false, [])
  {
    FindsOrdered(exec, |subject|, count, 0, 0);
  }

  lemma AssocTokens(a: seq<string>, b: seq<string>, c: seq<string>)
    ensures a + (b + c) == a + b + c
  {
  }

  lemma TokenizeMatch(
    subject: string, exec: Exec, count: nat, submatches: seq<nat>, submatch: int,
    next: Found, rest: seq<Found>, tokenStart: nat, found: bool, tokens: seq<string>)
    requires ExecOk(exec, |subject|, count)
    requires Tokenized(subject, exec, count, submatches, submatch, [next] + rest, tokenStart, found, tokens)
    requires |rest| < |Finds(exec, |subject|, count, 0)|
    ensures FoundOk(next, |subject|, count) && tokenStart <= Begin(next)
    ensures Tokenized(subject, exec, count, submatches, submatch, rest, End(next), true,
                      tokens + [if submatch == -1 then subject[tokenStart..Begin(next)]
                                else Token(subject, next, submatches, submatch)])
  {
    hide Finds, Token, ExecOk;
    assert ([next] + rest)[1..] == rest;
    var token := if submatch == -1 then subject[tokenStart..Begin(next)] else Token(subject, next, submatches, submatch);
    AssocTokens(tokens, [token], Part(subject, rest, count, End(next), submatches, submatch));
  }

  lemma TokenizeEnds(
    subject: string, exec: Exec, count: nat, submatches: seq<nat>, submatch: int,
    tokenStart: nat, found: bool, tokens: seq<string>)
    requires ExecOk(exec, |subject|, count) && tokenStart <= |subject|
    requires Tokenized(subject, exec, count, submatches, submatch, [], tokenStart, found, tokens)
    ensures Ordered(Finds(exec, |subject|, count, 0), |subject|, count, 0)
    ensures Tokens(subject, Finds(exec, |subject|, count, 0), count, submatches, submatch) ==
            tokens + (if submatch == -1 && (tokenStart < |subject| || !found) then [subject[tokenStart..]] else [])
  {
    assert tokens + [] == tokens;
  }

  // Nothing when there is a match and the group asked for is beyond the native ones.
  method Tokenize(subject: string, exec: Exec, count: nat, submatches: seq<nat>, submatch: int)
    returns (result: Option<seq<string>>)
    requires ExecOk(exec, |subject|, count)
    ensures Ordered(Finds(exec, |subject|, count, 0), |subject|, count, 0)
    ensures result ==
            if submatch >= 0 && IsBeyond(submatches, count, submatch) && Finds(exec, |subject|, count, 0) != [] then None
            else Some(Tokens(subject, Finds(exec, |subject|, count, 0), count, submatches, submatch))
  {
    hide ExecOk, Finds, Tokenized, Tokens, Token, Ordered, IsBeyond;
    var tokens: seq<string> := [];
    var tokenStart, searchOffset, foundMatch := 0, 0, false;
    TokenizeBegins(subject, exec, count, submatches, submatch);
    ghost var rest := Finds(exec, |subject|, count, 0);
    while searchOffset <= |subject| && exec(searchOffset).Some?
      invariant 0 <= tokenStart <= |subject| && |rest| <= |Finds(exec, |subject|, count, 0)|
      invariant rest == Finds(exec, |subject|, count, searchOffset)
      invariant Tokenized(subject, exec, count, submatches, submatch, rest, tokenStart, foundMatch, tokens)
      invariant submatch >= 0 && IsBeyond(submatches, count, submatch) ==> searchOffset == 0
      decreases |subject| + 1 - searchOffset
    {
      ghost var next;
      next, rest := FirstFound(exec, |subject|, count, searchOffset);
      TokenizeMatch(subject, exec, count, submatches, submatch, next, rest, tokenStart, foundMatch, tokens);
      foundMatch := true;
      var matches := exec(searchOffset).value;
      var matchBegin, matchEnd := searchOffset + matches[0].so, searchOffset + matches[0].eo;
      if submatch == -1 {
        tokens := tokens + [subject[tokenStart..matchBegin]];
      } else {
        if submatch >= 0 && IsBeyond(submatches, |matches|, submatch) {
          return None;
        }
        tokens := tokens + [Token(subject, Found(searchOffset, matches), submatches, submatch)];
      }
      tokenStart := matchEnd;
      searchOffset := matchEnd;
      if matchBegin == matchEnd {
        if searchOffset == |subject| {
          break;
        }
        searchOffset := searchOffset + 1;
      }
    }
    if searchOffset > |subject| || exec(searchOffset).None? {
      NoneFound(exec, |subject|, count, searchOffset);
    }
    assert rest == [];
    TokenizeEnds(subject, exec, count, submatches, submatch, tokenStart, foundMatch, tokens);
    if submatch == -1 && (tokenStart < |subject| || !foundMatch) {
      tokens := tokens + [subject[tokenStart..]];
    } else {
      assert tokens + [] == tokens;
    }
    result := Some(tokens);
  }

  // ----- Splitting loses nothing.

  // Between tokens and matches in turn, starting with a token.
  function Weave(tokens: seq<string>, matches: seq<string>): string
    decreases |tokens|
  {
    if tokens == [] then ""
    else if matches == [] then tokens[0]
    else tokens[0] + matches[0] + Weave(tokens[1..], matches[1..])
  }

  lemma WeaveFirst(token: string, tokens: seq<string>, m: string, matches: seq<string>)
    ensures Weave([token] + tokens, [m] + matches) == token + m + Weave(tokens, matches)
  {
    assert ([token] + tokens)[1..] == tokens && ([m] + matches)[1..] == matches;
  }

  lemma WholeToken(subject: string, found: Found, submatches: seq<nat>)
    requires FoundOk(found, |subject|, |found.spans|)
    ensures Token(subject, found, submatches, 0) == subject[Begin(found)..End(found)]
  {
  }

  lemma {:induction false} WeaveRebuilds(
    subject: string, founds: seq<Found>, count: nat, pos: nat, submatches: seq<nat>, last: seq<string>)
    requires Ordered(founds, |subject|, count, pos)
    requires var end := LastEnd(founds, |subject|, count, pos);
             last == [subject[end..]] || (last == [] && end == |subject|)
    ensures Weave(Gaps(subject, founds, count, pos) + last, GroupTokens(subject, founds, count, pos, submatches, 0))
            == subject[pos..]
    decreases |founds|
  {
    if founds == [] {
      assert Gaps(subject, founds, count, pos) + last == last;
    } else {
      hide Weave, Token;
      var b, e := Begin(founds[0]), End(founds[0]);
      WholeToken(subject, founds[0], submatches);
      var gaps := Gaps(subject, founds[1..], count, e);
      var matches := GroupTokens(subject, founds[1..], count, e, submatches, 0);
      WeaveRebuilds(subject, founds[1..], count, e, submatches, last);
      AssocTokens([subject[pos..b]], gaps, last);
      WeaveFirst(subject[pos..b], gaps + last, subject[b..e], matches);
      OrderedStays(founds[1..], |subject|, count, e);
      assert subject[pos..b] + subject[b..e] + subject[e..] == subject[pos..];
    }
  }

  lemma {:induction false} PartLengths(
    subject: string, founds: seq<Found>, count: nat, pos: nat, submatches: seq<nat>, submatch: int)
    requires Ordered(founds, |subject|, count, pos)
    ensures |Gaps(subject, founds, count, pos)| == |founds|
    ensures |GroupTokens(subject, founds, count, pos, submatches, submatch)| == |founds|
    decreases |founds|
  {
    if founds != [] {
      PartLengths(subject, founds[1..], count, End(founds[0]), submatches, submatch);
    }
  }

  // The tokens between the matches and the matches themselves, taken in turn, are the subject.
  // There is one token more than there are matches, except that an empty last token is left
  // out when the last match ends the subject.
  lemma SplittingLosesNothing(subject: string, exec: Exec, count: nat, submatches: seq<nat>)
    returns (founds: seq<Found>)
    requires ExecOk(exec, |subject|, count)
    ensures founds == Finds(exec, |subject|, count, 0) && Ordered(founds, |subject|, count, 0)
    ensures Weave(Tokens(subject, founds, count, submatches, -1), Tokens(subject, founds, count, submatches, 0))
            == subject
    ensures |Tokens(subject, founds, count, submatches, 0)| == |founds|
    ensures |Tokens(subject, founds, count, submatches, -1)| ==
            if founds != [] && LastEnd(founds, |subject|, count, 0) == |subject| then |founds| else |founds| + 1
  {
    hide Finds, Weave, ExecOk;
    founds := Finds(exec, |subject|, count, 0);
    FindsOrdered(exec, |subject|, count, 0, 0);
    var end := LastEnd(founds, |subject|, count, 0);
    WeaveRebuilds(subject, founds, count, 0, submatches,
                  if end < |subject| || founds == [] then [subject[end..]] else []);
    PartLengths(subject, founds, count, 0, submatches, 0);
  }
}
