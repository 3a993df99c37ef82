// Quoted path text on streams: insert_path and extract_path_string.

module PathQuoting {
  import opened Wrappers

  predicate IsSpecial(c: char) {
    c == '"' || c == '\\'
  }

  // A backslash goes in front of every quote and backslash.
  function Escape(value: string): string {
    if value == "" then ""
    else (if IsSpecial(value[0]) then "\\" else "") + [value[0]] + Escape(value[1..])
  }

  function Quote(value: string): string {
    "\"" + Escape(value) + "\""
  }

  function Specials(value: string): nat {
    if value == "" then 0 else (if value[0] == '"' || value[0] == '\\' then 1 else 0) + Specials(value[1..])
  }

  // There is one backslash more for each quote and each backslash, and nothing else.
  lemma {:induction false} EscapedLength(value: string)
    ensures |Escape(value)| == |value| + Specials(value)
    ensures Specials(value) == 0 ==> Escape(value) == value
  {
    if value != "" {
      EscapedLength(value[1..]);
      assert value == [value[0]] + value[1..];
    }
  }

  // a b\c is written as "a b\\c".
  lemma QuotedExample()
    ensures Quote("a b\\c") == "\"a b\\\\c\""
  {
    assert "a b\\c"[1..] == " b\\c" && " b\\c"[1..] == "b\\c" && "b\\c"[1..] == "\\c" && "\\c"[1..] == "c" && "c"[1..] == "";
    assert Escape("c") == "c" && Escape("\\c") == "\\\\c";
    assert Escape("b\\c") == "b\\\\c" && Escape(" b\\c") == " b\\\\c";
  }

  // What is read after an opening quote: the text up to the first unescaped quote, and the
  // position behind that quote; nothing when the input ends first.
  function Unquote(text: string, from: nat, escaped: bool): Option<(string, nat)>
    requires from <= |text|
    decreases |text| - from
  {
    if from == |text| then None
    else if !escaped && text[from] == '"' then Some(("", from + 1))
    else if !escaped && text[from] == '\\' then Unquote(text, from + 1, true)
    else
      WithPrefix([text[from]], Unquote(text, from + 1, false))
  }

  function WithPrefix(prefix: string, read: Option<(string, nat)>): Option<(string, nat)> {
    match read
    case None => None
    case Some((value, next)) => Some((prefix + value, next))
  }

  predicate IsSpace(c: char) {
    c == ' ' || c == '\t' || c == '\n' || c == '\r'
  }

  function SkipSpace(text: string, from: nat): (next: nat)
    requires from <= |text|
    ensures from <= next <= |text|
    ensures next < |text| ==> !IsSpace(text[next])
    decreases |text| - from
  {
    if from == |text| || !IsSpace(text[from]) then from else SkipSpace(text, from + 1)
  }

  // A blank, a tab, a line feed and a carriage return are passed over, and nothing else is.
  lemma OneSpace(c: char)
    ensures SkipSpace([c], 0) == 1 <==> c in {' ', '\t', '\n', '\r'}
    ensures WordEnd([c], 0) == 0 <==> c in {' ', '\t', '\n', '\r'}
  {
    assert SkipSpace([c], 1) == 1 && WordEnd([c], 1) == 1;
  }

  // What the formatted extractor passes over before a word: blanks of the stream's locale, or
  // nothing without skipws.
  function SkipOver(text: string, from: nat, skips: set<char>): (next: nat)
    requires from <= |text|
    ensures from <= next <= |text|
    ensures next < |text| ==> text[next] !in skips
    decreases |text| - from
  {
    if from == |text| || text[from] !in skips then from else SkipOver(text, from + 1, skips)
  }

  // A word ends at white space or with the text.
  function WordEnd(text: string, from: nat): (end: nat)
    requires from <= |text|
    ensures from <= end <= |text|
    ensures end < |text| ==> IsSpace(text[end])
    ensures forall i :: from <= i < end ==> !IsSpace(text[i])
    decreases |text| - from
  {
    if from == |text| || IsSpace(text[from]) then from else WordEnd(text, from + 1)
  }

  // ----- The stream, with its two state bits.

  class InputStream {
    const text: string
    const skips: set<char>
    var position: nat
    var atEnd: bool
    var failed: bool

    ghost predicate Valid()
      reads this
    {
      position <= |text|
    }

    predicate Good()
      reads this
    {
      !atEnd && !failed
    }

    constructor (text: string, skips: set<char>)
      ensures Valid() && Good() && this.text == text && this.skips == skips && position == 0
    {
      this.text := text;
      this.skips := skips;
      position := 0;
      atEnd := false;
      failed := false;
    }

    // std::ws
    method SkipWhitespace()
      requires Valid()
      modifies this
      ensures Valid()
      ensures !old(Good()) ==> position == old(position) && failed && atEnd == old(atEnd)
      ensures old(Good()) ==>
                position == SkipSpace(text, old(position)) && !failed && atEnd == (position == |text|)
    {
      if !Good() {
        failed := true;
        return;
      }
      while position < |text| && IsSpace(text[position])
        invariant Valid() && Good()
        invariant SkipSpace(text, position) == SkipSpace(text, old(position))
      {
        position := position + 1;
      }
      if position == |text| {
        atEnd := true;
      }
    }

    method Peek() returns (next: Option<char>)
      requires Valid()
      modifies this
      ensures Valid() && position == old(position) && failed == old(failed)
      ensures next == if old(Good()) && position < |text| then Some(text[position]) else None
      ensures atEnd == (old(atEnd) || (old(Good()) && position == |text|))
    {
      if !Good() {
        return None;
      }
      if position == |text| {
        atEnd := true;
        return None;
      }
      return Some(text[position]);
    }

    method Get() returns (next: Option<char>)
      requires Valid()
      modifies this
      ensures Valid()
      ensures old(Good()) && old(position) < |text| ==>
                next == Some(text[old(position)]) && position == old(position) + 1 && Good()
      ensures !(old(Good()) && old(position) < |text|) ==>
                next == None && position == old(position) && failed
                && atEnd == (old(atEnd) || old(Good()))
    {
      if !Good() {
        failed := true;
        return None;
      }
      if position == |text| {
        atEnd := true;
        failed := true;
        return None;
      }
      next := Some(text[position]);
      position := position + 1;
    }

    // operator>>(string), which leaves its argument alone when the stream is not good
    method GetWord() returns (found: Option<string>)
      requires Valid()
      modifies this
      ensures Valid() && (found.Some? <==> old(Good()))
      ensures found.None? ==> failed && atEnd == old(atEnd) && position == old(position)
      ensures found.Some? ==>
                var start := SkipOver(text, old(position), skips);
                && position == WordEnd(text, start) && found.value == text[start..position]
                && atEnd == (position == |text|) && failed == (found.value == "")
    {
      if !Good() {
        failed := true;
        return None;
      }
      while position < |text| && text[position] in skips
        invariant Valid() && Good()
        invariant SkipOver(text, position, skips) == SkipOver(text, old(position), skips)
      {
        position := position + 1;
      }
      var word := "";
      ghost var start := position;
      while position < |text| && !IsSpace(text[position])
        invariant Valid() && Good() && start <= position && word == text[start..position]
        invariant WordEnd(text, position) == WordEnd(text, start)
      {
        word := word + [text[position]];
        position := position + 1;
      }
      if position == |text| {
        atEnd := true;
      }
      if word == "" {
        failed := true;
      }
      found := Some(word);
    }
  }

  // ----- The two operations.

  method InsertPath(value: string) returns (quoted: string)
    ensures quoted == Quote(value)
  {
    quoted := "\"";
    assert value[0..] == value;
    for i := 0 to |value|
      invariant quoted + Escape(value[i..]) == "\"" + Escape(value)
    {
      assert value[i..][1..] == value[i + 1..];
      if IsSpecial(value[i]) {
        quoted := quoted + "\\";
      }
      quoted := quoted + [value[i]];
    }
    quoted := quoted + "\"";
  }

  datatype Extraction = NothingToRead | Word(value: string) | Quoted(value: string) | Unterminated

  // The outcome of reading from a good stream at `from`, and where reading stops.
  function Extract(text: string, from: nat, skips: set<char>): (Extraction, nat)
    requires from <= |text|
  {
    var start := SkipSpace(text, from);
    if start == |text| then (NothingToRead, start)
    else if text[start] != '"' then
      var begin := SkipOver(text, start, skips);
      (Word(text[begin..WordEnd(text, begin)]), WordEnd(text, begin))
    else
      match Unquote(text, start + 1, false)
      case None => (Unterminated, |text|)
      case Some((value, next)) => (Quoted(value), next)
  }

  method ExtractPathString(input: InputStream) returns (outcome: Extraction)
    requires input.Valid()
    modifies input
    ensures input.Valid()
    ensures !old(input.Good()) ==> outcome == NothingToRead && input.failed && input.position == old(input.position)
    ensures old(input.Good()) ==>
              (outcome, input.position) == Extract(input.text, old(input.position), input.skips)
    ensures old(input.Good()) ==> input.failed == (outcome.Unterminated? || outcome == Word(""))
    ensures outcome.Quoted? ==> input.Good()
    ensures outcome.Word? || outcome.NothingToRead? ==>
              old(input.Good()) ==> input.atEnd == (input.position == |input.text|)
  {
    input.SkipWhitespace();
    var first := input.Peek();
    if first == None {
      return NothingToRead;
    }
    if first != Some('"') {
      var word := input.GetWord();
      return Word(word.value);
    }
    var character := input.Get();
    ghost var start := input.position;
    var value, escaped := "", false;
    character := input.Get();
    PrefixesCompose("", "", Unquote(input.text, start, false));
    while character.Some?
      invariant input.Valid() && start <= input.position
      invariant character.Some? ==>
                  input.Good() && input.position > start && character == Some(input.text[input.position - 1])
                  && WithPrefix(value, Unquote(input.text, input.position - 1, escaped)) == Unquote(input.text, start, false)
      invariant character.None? ==>
                  input.position == |input.text| && input.failed && Unquote(input.text, start, false) == None
      decreases |input.text| - input.position, character.Some?
    {
      if !escaped && character.value == '"' {
        assert value + "" == value;
        return Quoted(value);
      }
      if !escaped && character.value == '\\' {
        escaped := true;
      } else {
        PrefixesCompose(value, [character.value], Unquote(input.text, input.position, false));
        value := value + [character.value];
        escaped := false;
      }
      character := input.Get();
    }
    return Unterminated;
  }

  lemma PrefixesCompose(a: string, b: string, read: Option<(string, nat)>)
    ensures WithPrefix("", read) == read
    ensures WithPrefix(a, WithPrefix(b, read)) == WithPrefix(a + b, read)
  {
    if read.Some? {
      var value := read.value.0;
      assert "" + value == value && a + (b + value) == a + b + value;
    }
  }

  // ----- Round trip.

  lemma {:induction false} UnquoteEscaped(before: string, value: string, after: string)
    ensures var text := before + Escape(value) + "\"" + after;
            Unquote(text, |before|, false) == Some((value, |before| + |Escape(value)| + 1))
    decreases |value|
  {
    var text := before + Escape(value) + "\"" + after;
    if value != "" {
      var first := (if IsSpecial(value[0]) then "\\" else "") + [value[0]];
      UnquoteEscaped(before + first, value[1..], after);
      assert Escape(value) == first + Escape(value[1..]);
      assert text == before + first + Escape(value[1..]) + "\"" + after;
      assert value == [value[0]] + value[1..];
      assert text[|before|] == first[0];
      if IsSpecial(value[0]) {
        assert text[|before| + 1] == value[0];
      }
    }
  }

  // Main result: reading what was written, behind any white space, gives the value back and
  // leaves all that follows unread.
  lemma ExtractUndoesInsert(space: string, value: string, following: string, skips: set<char>)
    requires forall i :: 0 <= i < |space| ==> IsSpace(space[i])
    ensures var text := space + Quote(value) + following;
            Extract(text, 0, skips) == (Quoted(value), |space| + |Quote(value)|)
            && text[|space| + |Quote(value)|..] == following
  {
    var text := space + Quote(value) + following;
    assert text == space + "\"" + Escape(value) + "\"" + following;
    SkipsAll(text, 0, |space|);
    UnquoteEscaped(space + "\"", value, following);
  }

  // A path written without quotes is read back if it is one word: not empty, with no white
  // space in it, and not starting with a quote or with what the extractor passes over.
  lemma WordReadBack(space: string, value: string, following: string, skips: set<char>)
    requires forall i :: 0 <= i < |space| ==> IsSpace(space[i])
    requires value != "" && forall i :: 0 <= i < |value| ==> !IsSpace(value[i])
    requires value[0] != '"' && value[0] !in skips
    requires following == "" || IsSpace(following[0])
    ensures var text := space + value + following;
            Extract(text, 0, skips) == (Word(value), |space| + |value|)
            && text[|space| + |value|..] == following
  {
    var text := space + value + following;
    assert text[|space|] == value[0];
    SkipsAll(text, 0, |space|);
    WordEndsAt(text, |space|, |space| + |value|);
    assert text[|space|..|space| + |value|] == value;
  }

  lemma {:induction false} WordEndsAt(text: string, from: nat, to: nat)
    requires from <= to <= |text|
    requires forall i :: from <= i < to ==> !IsSpace(text[i])
    requires to < |text| ==> IsSpace(text[to])
    ensures WordEnd(text, from) == to
    decreases |text| - from
  {
    if from < to {
      WordEndsAt(text, from + 1, to);
    }
  }

  lemma {:induction false} SkipsAll(text: string, from: nat, to: nat)
    requires from <= to < |text|
    requires forall i :: from <= i < to ==> IsSpace(text[i])
    requires !IsSpace(text[to])
    ensures SkipSpace(text, from) == to
    decreases |text| - from
  {
    if from < to {
      SkipsAll(text, from + 1, to);
    }
  }
}
