// How the native library reads a translated pattern, and when the translator's numbering of the
// groups is the native one.

module RegexReading {
  import opened RegexTranslate
  import opened Wrappers

  // ----- The native reading: sections 9.3.5 and 9.4 of POSIX.1-2017.

  function Plus(n: nat, length: Option<nat>): Option<nat> {
    if length.Some? then Some(n + length.value) else None
  }

  // The length of what is left of [. .], [= =] or [: :].
  function Close(t: string, c: char): (length: Option<nat>)
    ensures length.Some? ==> 2 <= length.value <= |t|
  {
    if |t| < 2 then None
    else if t[0] == c && t[1] == ']' then Some(2)
    else Plus(1, Close(t[1..], c))
  }

  predicate Opener(c: char) {
    c == '.' || c == '=' || c == ':'
  }

  // The class names that every locale has; the library refuses any other in [: :].
  predicate IsClassName(name: string) {
    name in {"alnum", "alpha", "blank", "cntrl", "digit", "graph",
             "lower", "print", "punct", "space", "upper", "xdigit"}
  }

  // What is left of [. .], [= =] or [: :], when the library knows what it holds.
  function Known(t: string, c: char): (length: Option<nat>)
    ensures length.Some? ==> Close(t, c) == length
  {
    var length := Close(t, c);
    if length.Some? && c == ':' && !IsClassName(t[..length.value - 2]) then None else length
  }

  // The length of the members of a bracket expression and its closing bracket.
  function MembersEnd(t: string): (length: Option<nat>)
    ensures length.Some? ==> 1 <= length.value <= |t|
    decreases |t|
  {
    if t == "" then None
    else if t[0] == ']' then Some(1)
    else if t[0] == '[' && |t| > 1 && Opener(t[1]) then
      match Known(t[2..], t[1])
      case None => None
      case Some(k) => Plus(2 + k, MembersEnd(t[2 + k..]))
    else Plus(1, MembersEnd(t[1..]))
  }

  // After the opening bracket: a caret negates, and a bracket that comes first is a member.
  function LeadLength(t: string): (lead: nat)
    ensures lead <= |t|
  {
    var caret := if t != "" && t[0] == '^' then 1 else 0;
    if |t| > caret && t[caret] == ']' then caret + 1 else caret
  }

  function BracketEnd(t: string): (length: Option<nat>)
    ensures length.Some? ==> 1 <= length.value <= |t|
  {
    Plus(LeadLength(t), MembersEnd(t[LeadLength(t)..]))
  }

  // The first token: an escape, a bracket expression or a single character.  A bracket
  // expression that never ends is an error.
  function TokenLength(t: string): (length: Option<nat>)
    requires t != ""
    ensures length.Some? ==> 1 <= length.value <= |t|
  {
    if t[0] == '\\' && |t| > 1 then Some(2)
    else if t[0] == '[' then Plus(1, BracketEnd(t[1..]))
    else Some(1)
  }

  // re_nsub: how many groups the text opens.
  function NativeGroups(t: string): Option<nat>
    decreases |t|
  {
    if t == "" then Some(0)
    else match TokenLength(t)
      case None => None
      case Some(k) => Plus(if t[0] == '(' then 1 else 0, NativeGroups(t[k..]))
  }

  // The groups opened before offset `at`, if a token starts there.
  function NativeBefore(t: string, at: nat): Option<nat>
    decreases at
  {
    if at == 0 then Some(0)
    else if t == "" then None
    else match TokenLength(t)
      case None => None
      case Some(k) => if k > at then None else Plus(if t[0] == '(' then 1 else 0, NativeBefore(t[k..], at - k))
  }

  // ----- Which classes the native library reads with the extent they were written with.

  // A plain [ before an opener.
  predicate OpensOne(members: seq<Member>) {
    |members| > 1 && members[0] == Char('[') && members[1].Char? && Opener(members[1].c)
  }

  // No plain [ stands before an opener.
  predicate Unopened(members: seq<Member>) {
    members == [] || (!OpensOne(members) && Unopened(members[1..]))
  }

  // An escaped caret at the start is emitted as a bare one.
  predicate BareCaret(piece: Piece)
    requires piece.Class?
  {
    !piece.negated && !piece.bracket && piece.members != [] && piece.members[0] == Char('^')
  }

  predicate Readable(piece: Piece)
    requires piece.Class?
  {
    var members := if BareCaret(piece) then piece.members[1..] else piece.members;
    (piece.bracket || piece.hyphen || members != []) && Unopened(members)
  }

  // ----- Reading the members.

  predicate NoBracket(members: seq<Member>) {
    forall i :: 0 <= i < |members| ==> members[i] != Char(']') && (members[i].Named? ==> IsClassName(members[i].name))
  }

  lemma ClassNamesArePlain(name: string)
    requires IsClassName(name)
    ensures name != ""
    ensures forall i :: 0 <= i < |name| ==> 'a' <= name[i] <= 'z'
  {
  }

  lemma {:induction false} SkipClose(text: string, rest: string, c: char)
    requires forall i :: 0 <= i < |text| ==> text[i] != c
    ensures Close(text + rest, c) == Plus(|text|, Close(rest, c))
  {
    if text == "" {
      assert text + rest == rest;
    } else {
      SkipClose(text[1..], rest, c);
      assert (text + rest)[1..] == text[1..] + rest;
    }
  }

  lemma NameCloses(name: string, rest: string)
    requires IsClassName(name)
    ensures Close(name + ":]" + rest, ':') == Some(|name| + 2)
  {
    ClassNamesArePlain(name);
    hide IsClassName;
    assert (":]" + rest)[0] == ':' && (":]" + rest)[1] == ']';
    SkipClose(name, ":]" + rest, ':');
    assert name + (":]" + rest) == name + ":]" + rest;
  }

  lemma NameIsKnown(name: string, rest: string)
    requires IsClassName(name)
    ensures Known(name + ":]" + rest, ':') == Some(|name| + 2)
  {
    hide Close, IsClassName;
    NameCloses(name, rest);
    assert (name + ":]" + rest)[..|name|] == name;
  }

  lemma NamedText(name: string, rest: string)
    ensures MemberText(Named(name)) + rest == "[:" + (name + ":]" + rest)
  {
  }

  // A named class in the middle of an open [: ends it.
  lemma NamedCloses(name: string, rest: string)
    requires IsClassName(name)
    ensures Close(MemberText(Named(name)) + rest, ':') == Some(|MemberText(Named(name))|)
  {
    ClassNamesArePlain(name);
    hide IsClassName;
    var tail := name + ":]" + rest;
    NamedText(name, rest);
    NameCloses(name, rest);
    SkipClose("[", ":" + tail, ':');
    assert "[" + (":" + tail) == "[:" + tail;
    assert (":" + tail)[1..] == tail;
    assert tail[0] == name[0] && name[0] != ']';
  }

  // And passes over an open [. or [=.
  lemma NamedPasses(name: string, rest: string, c: char)
    requires IsClassName(name) && (c == '.' || c == '=')
    ensures Close(MemberText(Named(name)) + rest, c) == Plus(|MemberText(Named(name))|, Close(rest, c))
  {
    ClassNamesArePlain(name);
    hide IsClassName;
    SkipClose(MemberText(Named(name)), rest, c);
  }

  lemma ContentsOfRest(members: seq<Member>, tail: string)
    requires members != []
    ensures Contents(members) + tail == MemberText(members[0]) + (Contents(members[1..]) + tail)
    ensures |Contents(members)| == |MemberText(members[0])| + |Contents(members[1..])|
  {
    hide Contents, MemberText;
    ContentsFirst(members);
    Assoc(MemberText(members[0]), Contents(members[1..]), tail);
  }

  // What follows the members: an optional hyphen and the closing bracket.
  predicate IsTail(tail: string, length: nat) {
    1 <= length <= 2 && |tail| >= length && tail[length - 1] == ']' && (length == 2 ==> tail[0] == '-')
  }

  lemma CharSkips(x: char, rest: string, c: char)
    requires rest == "" || x != c || rest[0] != ']'
    ensures Close([x] + rest, c) == Plus(1, Close(rest, c))
  {
    assert ([x] + rest)[1..] == rest;
  }

  // What is left open runs over the end of the class, or takes in the bracket of a class escape,
  // which no class name has.
  predicate Overruns(t: string, c: char, end: nat) {
    var length := Close(t, c);
    length.Some? ==> length.value >= end || (c == ':' && HasBracket(t[..length.value - 2]))
  }

  predicate HasBracket(text: string) {
    exists i :: 0 <= i < |text| && text[i] == '['
  }

  lemma OverrunsIsUnknown(t: string, c: char, end: nat)
    requires Overruns(t, c, end)
    ensures Known(t, c).Some? ==> Known(t, c).value >= end
  {
  }

  lemma TailOverruns(tail: string, length: nat, c: char)
    requires IsTail(tail, length) && Opener(c)
    ensures Overruns(tail, c, length)
  {
  }

  lemma CharOverruns(x: char, rest: string, c: char, end: nat)
    requires rest == "" || x != c || rest[0] != ']'
    requires Overruns(rest, c, end)
    ensures Overruns([x] + rest, c, 1 + end)
  {
    hide Close;
    CharSkips(x, rest, c);
    var length := Close(rest, c);
    if length.Some? && length.value < end {
      var i :| 0 <= i < length.value - 2 && rest[i] == '[';
      assert ([x] + rest)[..1 + length.value - 2][1 + i] == '[';
    }
  }

  lemma NamedOverruns(name: string, rest: string, c: char, end: nat)
    requires IsClassName(name) && Opener(c) && Overruns(rest, c, end)
    ensures Overruns(MemberText(Named(name)) + rest, c, |MemberText(Named(name))| + end)
  {
    hide Close;
    var text := MemberText(Named(name));
    if c == ':' {
      NamedCloses(name, rest);
      assert (text + rest)[..|text| - 2][0] == '[';
    } else {
      NamedPasses(name, rest, c);
    }
  }

  lemma {:induction false} OpenOverruns(members: seq<Member>, tail: string, length: nat, c: char)
    requires NoBracket(members) && IsTail(tail, length) && Opener(c)
    ensures Overruns(Contents(members) + tail, c, |Contents(members)| + length)
  {
    hide Contents, Overruns, MemberText;
    if members == [] {
      ContentsNone();
      assert "" + tail == tail;
      TailOverruns(tail, length, c);
    } else {
      OpenOverruns(members[1..], tail, length, c);
      ContentsOfRest(members, tail);
      var rest := Contents(members[1..]) + tail;
      if members[0].Named? {
        NamedOverruns(members[0].name, rest, c, |Contents(members[1..])| + length);
      } else if members[1..] == [] && length == 1 {
        ContentsNone();
        assert "" + tail == tail;
        LastOverruns(members[0].c, tail, c);
      } else {
        FirstOfRest(members[1..], tail, length);
        CharOverruns(members[0].c, rest, c, |Contents(members[1..])| + length);
      }
      CharText(members[0]);
    }
  }

  lemma CharText(member: Member)
    ensures member.Char? ==> MemberText(member) == [member.c]
  {
  }

  // An opener right before the closing bracket closes with it, and so beyond the class.
  lemma LastOverruns(x: char, tail: string, c: char)
    requires IsTail(tail, 1)
    ensures Overruns([x] + tail, c, 2)
  {
  }

  lemma TailEnds(tail: string, length: nat)
    requires IsTail(tail, length)
    ensures MembersEnd(tail) == Some(length)
  {
  }

  lemma PlainMember(c: char, rest: string)
    requires c != ']' && (c == '[' ==> rest == "" || !Opener(rest[0]))
    ensures MembersEnd([c] + rest) == Plus(1, MembersEnd(rest))
  {
    assert ([c] + rest)[1..] == rest;
  }

  lemma NamedMember(name: string, rest: string)
    requires IsClassName(name)
    ensures MembersEnd(MemberText(Named(name)) + rest) == Plus(|MemberText(Named(name))|, MembersEnd(rest))
  {
    hide Known, IsClassName;
    var t := MemberText(Named(name)) + rest;
    NamedText(name, rest);
    NameIsKnown(name, rest);
    assert t[2..] == name + ":]" + rest;
    assert t[2 + (|name| + 2)..] == rest;
  }

  lemma OpenedText(members: seq<Member>, tail: string)
    requires OpensOne(members)
    ensures Contents(members) + tail == ['[', members[1].c] + (Contents(members[2..]) + tail)
    ensures |Contents(members)| == 2 + |Contents(members[2..])|
  {
    ContentsOfRest(members, tail);
    ContentsOfRest(members[1..], tail);
    assert members[1..][1..] == members[2..];
  }

  lemma OpenedMember(c: char, rest: string)
    requires Opener(c)
    ensures MembersEnd(['[', c] + rest) ==
            match Known(rest, c) case None => None case Some(k) => Plus(2 + k, MembersEnd(rest[k..]))
  {
    hide Close;
    var t := ['[', c] + rest;
    assert t[2..] == rest;
    match Known(rest, c)
    case None =>
    case Some(k) =>
      assert t[2 + k..] == rest[k..];
  }

  lemma {:induction false} MembersRead(members: seq<Member>, tail: string, length: nat)
    requires NoBracket(members) && IsTail(tail, length)
    ensures MembersEnd(Contents(members) + tail) == Some(|Contents(members)| + length) <==> Unopened(members)
    decreases |members|
  {
    hide Contents, MembersEnd, Close;
    if members == [] {
      ContentsNone();
      assert "" + tail == tail;
      TailEnds(tail, length);
    } else if OpensOne(members) {
      OpenedRead(members, tail, length);
    } else {
      MembersRead(members[1..], tail, length);
      ContentsOfRest(members, tail);
      if members[0].Named? {
        NamedMember(members[0].name, Contents(members[1..]) + tail);
      } else {
        FirstOfRest(members[1..], tail, length);
        PlainMember(members[0].c, Contents(members[1..]) + tail);
      }
    }
  }

  lemma FirstOfRest(members: seq<Member>, tail: string, length: nat)
    requires NoBracket(members) && IsTail(tail, length)
    ensures Contents(members) + tail != ""
    ensures (Contents(members) + tail)[0] ==
            if members == [] then tail[0] else if members[0].Char? then members[0].c else '['
  {
    if members != [] {
      ContentsOfRest(members, tail);
    } else {
      assert Contents(members) + tail == tail;
    }
  }

  // A plain [ before an opener is read as the start of something else.
  lemma OpenedRead(members: seq<Member>, tail: string, length: nat)
    requires NoBracket(members) && IsTail(tail, length) && OpensOne(members)
    ensures MembersEnd(Contents(members) + tail) != Some(|Contents(members)| + length)
  {
    hide Contents, MemberText, MembersEnd, Known, Overruns;
    var c, rest := members[1].c, members[2..];
    OpenedText(members, tail);
    OpenedMember(c, Contents(rest) + tail);
    OpenOverruns(rest, tail, length, c);
    OverrunsIsUnknown(Contents(rest) + tail, c, |Contents(rest)| + length);
  }

  // ----- Reading a class.

  // A class as it is emitted, and what comes after it.
  ghost predicate IsClosedClass(piece: Piece) {
    piece.Class? && piece.closed && NoBracket(piece.members)
  }

  function Tail(piece: Piece, rest: string): string
    requires piece.Class?
  {
    When(piece.hyphen, "-") + "]" + rest
  }

  function TailLength(piece: Piece): nat
    requires piece.Class?
  {
    if piece.hyphen then 2 else 1
  }

  lemma TailIsTail(piece: Piece, rest: string)
    requires piece.Class?
    ensures IsTail(Tail(piece, rest), TailLength(piece))
  {
  }

  // The text after the opening bracket: what comes before the members, they, and the tail.
  lemma ClassTextParts(piece: Piece, before: string, members: seq<Member>, rest: string)
    requires IsClosedClass(piece)
    requires before + Contents(members) == When(piece.negated, "^") + When(piece.bracket, "]") + Contents(piece.members)
    ensures ClassText(piece) + rest == "[" + (before + (Contents(members) + Tail(piece, rest)))
    ensures |ClassText(piece)| == 1 + |before| + |Contents(members)| + TailLength(piece)
  {
    hide Contents, When;
    var head := When(piece.negated, "^") + When(piece.bracket, "]") + Contents(piece.members);
    var end := When(piece.hyphen, "-");
    assert When(piece.closed, "]") == "]" && |end| + 1 == TailLength(piece) by {
      WhenLength(piece.hyphen, '-');
      WhenLength(piece.closed, ']');
    }
    Flatten(When(piece.negated, "^"), When(piece.bracket, "]"), Contents(piece.members), end, rest);
    Assoc(before, Contents(members), end + "]" + rest);
  }

  lemma WhenLength(b: bool, c: char)
    ensures When(b, [c]) == (if b then [c] else "") && |When(b, [c])| == if b then 1 else 0
  {
  }

  lemma Flatten(a: string, b: string, c: string, d: string, rest: string)
    ensures "[" + a + b + c + d + "]" + rest == "[" + ((a + b + c) + (d + "]" + rest))
    ensures |"[" + a + b + c + d + "]"| == 1 + |a + b + c| + |d| + 1
  {
  }

  lemma MembersReadFrom(piece: Piece, before: string, members: seq<Member>, rest: string)
    requires IsClosedClass(piece) && NoBracket(members)
    requires before + Contents(members) == When(piece.negated, "^") + When(piece.bracket, "]") + Contents(piece.members)
    requires LeadLength(before + (Contents(members) + Tail(piece, rest))) == |before|
    ensures TokenLength(ClassText(piece) + rest) == Some(|ClassText(piece)|) <==> Unopened(members)
  {
    hide Contents, MembersEnd, LeadLength, Unopened, When, ClassText, Tail;
    var t := before + (Contents(members) + Tail(piece, rest));
    ClassTextParts(piece, before, members, rest);
    assert t[|before|..] == Contents(members) + Tail(piece, rest);
    TailIsTail(piece, rest);
    MembersRead(members, Tail(piece, rest), TailLength(piece));
    assert (ClassText(piece) + rest)[1..] == t;
  }

  // With no member left, the closing bracket is read as the first member.
  lemma EmptyOverruns(piece: Piece, before: string, rest: string)
    requires IsClosedClass(piece)
    requires before == When(piece.negated, "^") + When(piece.bracket, "]") + Contents(piece.members)
    requires before == "" || before == "^"
    requires !piece.hyphen
    ensures TokenLength(ClassText(piece) + rest) != Some(|ClassText(piece)|)
  {
    hide When, ClassText;
    ContentsNone();
    assert before + "" == before;
    ClassTextParts(piece, before, [], rest);
    WhenLength(piece.hyphen, '-');
    assert Tail(piece, rest) == "]" + rest;
    assert "" + ("]" + rest) == "]" + rest;
    var t := before + ("]" + rest);
    assert (ClassText(piece) + rest)[1..] == t;
    assert t[|before|] == ']';
    assert LeadLength(t) == |before| + 1;
  }

  lemma CaretFirst(piece: Piece)
    requires IsClosedClass(piece) && BareCaret(piece)
    ensures When(piece.negated, "^") + When(piece.bracket, "]") + Contents(piece.members)
            == "^" + Contents(piece.members[1..])
    ensures NoBracket(piece.members[1..])
  {
    ContentsFirst(piece.members);
  }

  // The text of a class is read with exactly its extent if and only if it is readable, whatever
  // comes after it.
  lemma ClassRead(piece: Piece, rest: string)
    requires IsClosedClass(piece)
    ensures TokenLength(ClassText(piece) + rest) == Some(|ClassText(piece)|) <==> Readable(piece)
  {
    hide Contents, ClassText, Unopened, BracketEnd;
    var lead := When(piece.negated, "^") + When(piece.bracket, "]");
    if BareCaret(piece) {
      CaretFirst(piece);
      var members := piece.members[1..];
      if members == [] && !piece.hyphen {
        ContentsNone();
        EmptyOverruns(piece, "^", rest);
      } else {
        FirstOfRest(members, Tail(piece, rest), TailLength(piece));
        MembersReadFrom(piece, "^", members, rest);
      }
    } else if !piece.bracket && !piece.hyphen && piece.members == [] {
      ContentsNone();
      EmptyOverruns(piece, lead, rest);
    } else {
      FirstOfRest(piece.members, Tail(piece, rest), TailLength(piece));
      MembersReadFrom(piece, lead, piece.members, rest);
    }
  }

  // ----- Reading a class back: its negation and its members.

  datatype NativeClass = NativeClass(negated: bool, members: seq<Member>, length: nat)

  // What [: :] names; [. .] and [= =] keep their delimiters.
  function Bracketed(c: char, inner: string): Member {
    if c == ':' then Named(inner) else Named([c] + inner + [c])
  }

  function Before(first: Member, length: nat, rest: Option<NativeClass>): Option<NativeClass> {
    if rest.None? then None
    else Some(NativeClass(false, [first] + rest.value.members, length + rest.value.length))
  }

  // The members up to the closing bracket.
  function ReadMembers(t: string): Option<NativeClass>
    decreases |t|
  {
    if t == "" then None
    else if t[0] == ']' then Some(NativeClass(false, [], 1))
    else if t[0] == '[' && |t| > 1 && Opener(t[1]) then
      match Known(t[2..], t[1])
      case None => None
      case Some(k) => Before(Bracketed(t[1], t[2..2 + k][..k - 2]), 2 + k, ReadMembers(t[2 + k..]))
    else Before(Char(t[0]), 1, ReadMembers(t[1..]))
  }

  // The same, where a closing bracket that comes first is a member.
  function ReadFirst(t: string): Option<NativeClass> {
    if t != "" && t[0] == ']' then Before(Char(']'), 1, ReadMembers(t[1..])) else ReadMembers(t)
  }

  function Negating(negated: bool, read: Option<NativeClass>): Option<NativeClass> {
    if read.None? then None
    else Some(NativeClass(negated, read.value.members, read.value.length + if negated then 1 else 0))
  }

  // The text after an opening bracket.
  function ReadClass(t: string): Option<NativeClass> {
    if t != "" && t[0] == '^' then Negating(true, ReadFirst(t[1..])) else Negating(false, ReadFirst(t))
  }

  lemma ReadNamed(name: string, rest: string)
    requires IsClassName(name)
    ensures ReadMembers(MemberText(Named(name)) + rest)
            == Before(Named(name), |MemberText(Named(name))|, ReadMembers(rest))
  {
    hide Known, IsClassName;
    var t := MemberText(Named(name)) + rest;
    NamedText(name, rest);
    NameIsKnown(name, rest);
    assert t[2..] == name + ":]" + rest;
    assert t[2..2 + (|name| + 2)][..|name|] == name;
    assert t[2 + (|name| + 2)..] == rest;
  }

  lemma ReadPlain(c: char, rest: string)
    requires c != ']' && (c == '[' ==> rest == "" || !Opener(rest[0]))
    ensures ReadMembers([c] + rest) == Before(Char(c), 1, ReadMembers(rest))
  {
    assert ([c] + rest)[1..] == rest;
  }

  // A plain [ before an opener is read as the start of a named member.
  lemma ReadOpened(c: char, rest: string)
    requires Opener(c)
    ensures var read := ReadMembers(['[', c] + rest);
            read.None? || (read.value.members != [] && read.value.members[0].Named?)
  {
  }

  lemma NotNegated(t: string)
    ensures ReadMembers(t).Some? ==> !ReadMembers(t).value.negated
  {
  }

  lemma ReadTail(hyphen: bool, rest: string)
    ensures ReadMembers(When(hyphen, "-") + "]" + rest)
            == Some(NativeClass(false, if hyphen then [Char('-')] else [], if hyphen then 2 else 1))
  {
    if hyphen {
      assert ("-" + "]" + rest)[1..] == "]" + rest;
      assert [Char('-')] + [] == [Char('-')];
    }
  }

  lemma BeforeCancels(first: Member, length: nat, rest: Option<NativeClass>, expected: NativeClass)
    requires !expected.negated && (rest.Some? ==> !rest.value.negated)
    ensures Before(first, length, rest) == Some(NativeClass(false, [first] + expected.members, length + expected.length))
            <==> rest == Some(expected)
  {
    if rest.Some? {
      assert ([first] + rest.value.members)[1..] == rest.value.members;
      assert ([first] + expected.members)[1..] == expected.members;
    }
  }

  // The members are read back as they were written if and only if none is opened by mistake.
  lemma {:induction false} MembersReadBack(members: seq<Member>, hyphen: bool, rest: string)
    requires NoBracket(members)
    ensures ReadMembers(Contents(members) + (When(hyphen, "-") + "]" + rest))
            == Some(NativeClass(false, members + (if hyphen then [Char('-')] else []),
                                |Contents(members)| + (if hyphen then 2 else 1)))
            <==> Unopened(members)
    decreases |members|
  {
    hide Contents, ReadMembers, When;
    var tail := When(hyphen, "-") + "]" + rest;
    var last := if hyphen then [Char('-')] else [];
    if members == [] {
      ContentsNone();
      assert "" + tail == tail && members + last == last;
      ReadTail(hyphen, rest);
    } else if OpensOne(members) {
      OpenedText(members, tail);
      ReadOpened(members[1].c, Contents(members[2..]) + tail);
    } else {
      MembersReadBack(members[1..], hyphen, rest);
      ContentsOfRest(members, tail);
      assert members + last == [members[0]] + (members[1..] + last);
      NotNegated(Contents(members[1..]) + tail);
      BeforeCancels(members[0], |MemberText(members[0])|, ReadMembers(Contents(members[1..]) + tail),
                    NativeClass(false, members[1..] + last, |Contents(members[1..])| + (if hyphen then 2 else 1)));
      if members[0].Named? {
        ReadNamed(members[0].name, Contents(members[1..]) + tail);
      } else {
        WhenLength(hyphen, '-');
        FirstOfRest(members[1..], tail, if hyphen then 2 else 1);
        ReadPlain(members[0].c, Contents(members[1..]) + tail);
      }
    }
  }

  // A class is read back as it was written: with its own negation and members, an escaped
  // bracket first and an escaped hyphen last.
  predicate Faithful(piece: Piece)
    requires piece.Class?
  {
    && !BareCaret(piece) && (piece.bracket || piece.hyphen || piece.members != [])
    && Unopened(piece.members)
  }

  function Listed(piece: Piece): seq<Member>
    requires piece.Class?
  {
    (if piece.bracket then [Char(']')] else []) + piece.members + (if piece.hyphen then [Char('-')] else [])
  }

  // The text of a class after the opening bracket.
  lemma ClassInside(piece: Piece, rest: string)
    requires IsClosedClass(piece)
    ensures (ClassText(piece) + rest)[1..] ==
            When(piece.negated, "^") + (When(piece.bracket, "]") + (Contents(piece.members) + (When(piece.hyphen, "-") + "]" + rest)))
    ensures |ClassText(piece)| == 1 + (if piece.negated then 1 else 0) + (if piece.bracket then 1 else 0)
                                  + |Contents(piece.members)| + TailLength(piece)
  {
    hide Contents;
    WhenLength(piece.negated, '^');
    WhenLength(piece.bracket, ']');
    WhenLength(piece.hyphen, '-');
    WhenLength(piece.closed, ']');
    Inside(When(piece.negated, "^"), When(piece.bracket, "]"), Contents(piece.members), When(piece.hyphen, "-"), rest);
  }

  lemma Inside(a: string, b: string, c: string, d: string, rest: string)
    ensures ("[" + a + b + c + d + "]" + rest)[1..] == a + (b + (c + (d + "]" + rest)))
  {
  }

  lemma ReadBracket(bracket: bool, inner: string)
    requires inner != "" && (!bracket ==> inner[0] != ']')
    ensures ReadFirst(When(bracket, "]") + inner) ==
            if bracket then Before(Char(']'), 1, ReadMembers(inner)) else ReadMembers(inner)
  {
    hide ReadMembers;
    if bracket {
      assert ("]" + inner)[1..] == inner;
    } else {
      assert "" + inner == inner;
    }
  }

  // Reading starts after the caret of a negated class, and a bracket there is a member.
  lemma ReadStart(negated: bool, u: string)
    requires !negated ==> u == "" || u[0] != '^'
    ensures ReadClass(When(negated, "^") + u) == Negating(negated, ReadFirst(u))
  {
    hide ReadFirst;
    if negated {
      assert ("^" + u)[1..] == u;
    } else {
      assert "" + u == u;
    }
  }

  lemma StartsWithout(bracket: bool, inner: string)
    requires inner != "" && (!bracket ==> inner[0] != '^')
    ensures (When(bracket, "]") + inner)[0] != '^'
  {
  }

  lemma EmptyReadBack(negated: bool, rest: string)
    ensures var read := ReadClass(When(negated, "^") + ("" + ("]" + rest)));
            read.Some? ==> read.value.members != []
  {
    hide ReadMembers;
    var u := "" + ("]" + rest);
    if negated {
      assert ("^" + u)[1..] == u;
    }
  }

  lemma CaretReadBack(inner: string)
    requires inner != "" && inner[0] == '^'
    ensures ReadClass("" + ("" + inner)).Some? ==> ReadClass("" + ("" + inner)).value.negated
  {
    assert "" + ("" + inner) == inner;
  }

  lemma ListedParts(piece: Piece)
    requires piece.Class?
    ensures var tail := piece.members + (if piece.hyphen then [Char('-')] else []);
            Listed(piece) == if piece.bracket then [Char(']')] + tail else tail
  {
  }

  // The text of a class is read back as it was written if and only if it is faithful, whatever
  // comes after it.
  lemma ClassReadBack(piece: Piece, rest: string)
    requires IsClosedClass(piece)
    ensures ReadClass((ClassText(piece) + rest)[1..])
            == Some(NativeClass(piece.negated, Listed(piece), |ClassText(piece)| - 1))
            <==> Faithful(piece)
  {
    hide Contents, ReadMembers, ReadFirst, ReadClass, ClassText, Listed, Unopened, When;
    var tail := When(piece.hyphen, "-") + "]" + rest;
    var inner := Contents(piece.members) + tail;
    ClassInside(piece, rest);
    ListedParts(piece);
    WhenLength(piece.hyphen, '-');
    WhenLength(piece.negated, '^');
    WhenLength(piece.bracket, ']');
    FirstOfRest(piece.members, tail, TailLength(piece));
    if BareCaret(piece) {
      CaretReadBack(inner);
    } else if !piece.bracket && !piece.hyphen && piece.members == [] {
      ContentsNone();
      assert inner == "]" + rest;
      assert "" + ("]" + rest) == "]" + rest;
      EmptyReadBack(piece.negated, rest);
    } else {
      ReadBracket(piece.bracket, inner);
      if !piece.negated {
        StartsWithout(piece.bracket, inner);
      }
      ReadStart(piece.negated, When(piece.bracket, "]") + inner);
      MembersReadBack(piece.members, piece.hyphen, rest);
      NotNegated(inner);
      BeforeCancels(Char(']'), 1, ReadMembers(inner),
                    NativeClass(false, piece.members + (if piece.hyphen then [Char('-')] else []),
                                |Contents(piece.members)| + TailLength(piece)));
    }
  }
}
