// When the translator's numbering of the groups is the native one: exactly when the native
// library reads the translated text piece by piece, as it was emitted.

module RegexNumbering {
  import opened RegexTranslate
  import opened Wrappers
  import opened RegexReading

  // ----- What parsing guarantees about pieces.

  predicate PieceOk(piece: Piece, last: bool) {
    match piece
    case Plain(c) => c != '.' && c != '[' && c != '(' && (c == '\\' ==> last)
    case Class(_, _, members, _, _) => NoBracket(members)
    case _ => true
  }

  lemma EscapeNoBracket(c: char)
    requires c != ']'
    ensures NoBracket(EscapeMembers(c))
  {
  }

  lemma {:induction false} ScanNoBracket(s: CString, q: nat, begin: nat)
    requires q <= |s| && ScanClass(s, q, begin).Scan?
    ensures NoBracket(ScanClass(s, q, begin).members)
    decreases |s| - q
  {
    hide EscapeMembers, InRange;
    if q == |s| || s[q] == ']' {
    } else if s[q] != '\\' || q + 1 == |s| {
      ScanNoBracket(s, q + 1, begin);
    } else {
      ScanNoBracket(s, q + 2, begin);
      if s[q + 1] != ']' && s[q + 1] != '-' {
        EscapeNoBracket(s[q + 1]);
      }
    }
  }

  lemma NextOk(s: CString, p: nat)
    requires p < |s| && NextPiece(s, p).Next?
    ensures PieceOk(NextPiece(s, p).piece, NextPiece(s, p).next == |s|)
  {
    if s[p] == '[' {
      ScanNoBracket(s, ClassBegin(s, p), ClassBegin(s, p));
    }
  }

  lemma {:induction false} ParsedOk(s: CString, p: nat, m: nat)
    requires p <= |s| && Parse(s, p).Ok? && m < |Parse(s, p).value|
    ensures PieceOk(Parse(s, p).value[m], m == |Parse(s, p).value| - 1)
    decreases |s| - p
  {
    NextOk(s, p);
    if m > 0 {
      ParsedOk(s, NextPiece(s, p).next, m - 1);
    }
  }

  // ----- Every piece but a class is read as one token.

  lemma ReadableRead(text: string, piece: Piece, rest: string)
    requires IsClosedClass(piece) && Readable(piece) && text == ClassText(piece)
    ensures TokenLength(text + rest) == Some(|text|)
  {
    ClassRead(piece, rest);
  }

  lemma AnyCharText()
    ensures "[^\n\r]" == ClassText(Class(true, false, [Char('\n'), Char('\r')], false, true))
  {
    assert [Char('\n'), Char('\r')][1..] == [Char('\r')];
    OneMember(Char('\r'));
  }

  lemma DigitClassText(negated: bool)
    ensures ClassText(Class(negated, false, [Named("digit")], false, true)) ==
            if negated then "[^[:digit:]]" else "[[:digit:]]"
  {
    OneMember(Named("digit"));
  }

  lemma SpaceClassText(negated: bool)
    ensures ClassText(Class(negated, false, [Named("space")], false, true)) ==
            if negated then "[^[:space:]]" else "[[:space:]]"
  {
    OneMember(Named("space"));
  }

  lemma WordClassText(negated: bool)
    ensures ClassText(Class(negated, false, [Named("alnum"), Char('_')], false, true)) ==
            if negated then "[^[:alnum:]_]" else "[[:alnum:]_]"
  {
    assert [Named("alnum"), Char('_')][1..] == [Char('_')];
    OneMember(Char('_'));
  }

  // The class that a class escape stands for outside a class.
  function ShorthandClass(c: char): Piece {
    Class(c == 'D' || c == 'S' || c == 'W', false,
          if c == 'd' || c == 'D' then [Named("digit")]
          else if c == 's' || c == 'S' then [Named("space")]
          else [Named("alnum"), Char('_')], false, true)
  }

  lemma ShorthandText(c: char)
    requires IsClassEscape(c)
    ensures EscapeText(c, false) == ClassText(ShorthandClass(c))
  {
    hide ClassText;
    match c
    case 'd' => DigitClassText(false);
    case 's' => SpaceClassText(false);
    case 'D' => DigitClassText(true);
    case 'S' => SpaceClassText(true);
    case 'w' => WordClassText(false);
    case 'W' => WordClassText(true);
    case _ =>
  }

  lemma EscapeRead(c: char, rest: string)
    ensures EscapeText(c, false) != "" && TokenLength(EscapeText(c, false) + rest) == Some(|EscapeText(c, false)|)
    ensures EscapeText(c, false)[0] != '('
  {
    if IsClassEscape(c) {
      hide ClassText;
      ShorthandText(c);
      ReadableRead(EscapeText(c, false), ShorthandClass(c), rest);
    }
  }

  lemma PieceRead(piece: Piece, groups: seq<nat>, rest: string)
    requires PieceOk(piece, rest == "") && !piece.Class?
    ensures PieceText(piece, groups) != ""
    ensures TokenLength(PieceText(piece, groups) + rest) == Some(|PieceText(piece, groups)|)
    ensures PieceText(piece, groups)[0] == '(' <==> piece.Group?
  {
    hide EscapeText, ClassText, BracketEnd;
    match piece
    case AnyChar =>
      AnyCharText();
      ReadableRead("[^\n\r]", Class(true, false, [Char('\n'), Char('\r')], false, true), rest);
    case Escape(c) =>
      EscapeRead(c, rest);
    case _ =>
  }

  // A class escape outside a class is read as the named class, or its complement, with the
  // underscore for \w and \W.
  lemma ShorthandReadBack(c: char, rest: string)
    requires IsClassEscape(c)
    ensures EscapeText(c, false) != ""
    ensures ReadClass((EscapeText(c, false) + rest)[1..])
            == Some(NativeClass(c == 'D' || c == 'S' || c == 'W', ShorthandClass(c).members, |EscapeText(c, false)| - 1))
  {
    hide ClassText, ReadClass;
    ShorthandText(c);
    ClassReadBack(ShorthandClass(c), rest);
    var members := ShorthandClass(c).members;
    assert Listed(ShorthandClass(c)) == members;
    assert members[1..] == [] || members[1..] == [Char('_')];
    assert Unopened(members[1..]);
  }

  // Such an escape puts into a class what it means outside if and only if it is no complement:
  // of \D, \S and \W only the letter is left in a class.
  lemma ShorthandInClassExactly(c: char, rest: string)
    requires IsClassEscape(c)
    ensures var outside := ReadClass((EscapeText(c, false) + rest)[1..]);
            && outside.Some?
            && (!outside.value.negated && outside.value.members == EscapeMembers(c) <==> c in {'d', 's', 'w'})
            && (c !in {'d', 's', 'w'} ==> EscapeMembers(c) == [Char(c)])
  {
    hide ReadClass, EscapeText;
    ShorthandReadBack(c, rest);
  }

  predicate IsControlEscape(c: char) {
    c in {'n', 'r', 't', 'f', 'v'}
  }

  // Section 9.4.3 of POSIX.1-2017.
  predicate IsSpecial(c: char) {
    c in {'.', '[', '\\', '(', ')', '*', '+', '?', '{', '|', '^', '$'}
  }

  // The character that a token outside a bracket expression stands for, by sections 9.4.2 and
  // 9.4.3: none where it is special, or where a backslash stands before an ordinary one.
  function Literal(token: string): Option<char> {
    if |token| == 1 && !IsSpecial(token[0]) then Some(token[0])
    else if |token| == 2 && token[0] == '\\' && IsSpecial(token[1]) then Some(token[1])
    else None
  }

  // An escape that is no class escape is one token outside a class.  The standard has it stand
  // there for the very character that it puts into a class if and only if it is a control escape
  // or one of a special character.
  lemma EscapeMeansTheSame(c: char, rest: string)
    requires !IsClassEscape(c)
    ensures TokenLength(EscapeText(c, false) + rest) == Some(|EscapeText(c, false)|)
    ensures |EscapeMembers(c)| == 1 && EscapeMembers(c)[0].Char?
    ensures Literal(EscapeText(c, false)) == Some(EscapeMembers(c)[0].c) <==> IsControlEscape(c) || IsSpecial(c)
    ensures !IsControlEscape(c) && !IsSpecial(c) ==> Literal(EscapeText(c, false)) == None
  {
    EscapeRead(c, rest);
  }

  // ----- The text of the pieces, piece by piece.

  function Offset(pieces: seq<Piece>, m: nat): nat
    requires m <= |pieces|
  {
    |Text(pieces[..m])|
  }

  lemma TextStep(pieces: seq<Piece>, m: nat)
    requires m < |pieces|
    ensures Text(pieces[..m + 1]) == Text(pieces[..m]) + PieceText(pieces[m], Numbers(pieces[..m]))
    ensures Opens(pieces[..m + 1]) == Opens(pieces[..m]) + (if pieces[m].Group? then 1 else 0)
    ensures Numbers(pieces[..m + 1]) ==
            if pieces[m] == Group(true) then Numbers(pieces[..m]) + [Opens(pieces[..m]) + 1] else Numbers(pieces[..m])
  {
    hide Text, Opens, Numbers, PieceText;
    PieceAppended(pieces[..m], pieces[m]);
    assert pieces[..m + 1] == pieces[..m] + [pieces[m]];
  }

  lemma {:induction false} Prefixes(pieces: seq<Piece>, m: nat, n: nat)
    requires m <= n <= |pieces|
    ensures Text(pieces[..m]) <= Text(pieces[..n]) && Numbers(pieces[..m]) <= Numbers(pieces[..n])
    ensures Opens(pieces[..m]) <= Opens(pieces[..n])
    decreases n - m
  {
    hide Text, Opens, Numbers, PieceText;
    if m < n {
      Prefixes(pieces, m, n - 1);
      TextStep(pieces, n - 1);
    }
  }

  // What is left of the text where a piece starts.
  function From(pieces: seq<Piece>, m: nat): string
    requires m <= |pieces|
  {
    Prefixes(pieces, m, |pieces|);
    Text(pieces[..|pieces|])[Offset(pieces, m)..]
  }

  lemma FromStep(pieces: seq<Piece>, m: nat)
    requires m < |pieces|
    ensures From(pieces, m) == PieceText(pieces[m], Numbers(pieces[..m])) + From(pieces, m + 1)
    ensures Offset(pieces, m + 1) == Offset(pieces, m) + |PieceText(pieces[m], Numbers(pieces[..m]))|
  {
    hide Text, Opens, Numbers, PieceText;
    Prefixes(pieces, m, |pieces|);
    Prefixes(pieces, m + 1, |pieces|);
    TextStep(pieces, m);
  }

  lemma FromEnds(pieces: seq<Piece>)
    ensures From(pieces, |pieces|) == "" && From(pieces, 0) == Text(pieces) && Offset(pieces, 0) == 0
  {
    assert pieces[..|pieces|] == pieces;
  }

  // ----- Reading piece by piece.

  predicate TokenAt(pieces: seq<Piece>, m: nat)
    requires m < |pieces|
  {
    From(pieces, m) != "" && TokenLength(From(pieces, m)) == Some(|PieceText(pieces[m], Numbers(pieces[..m]))|)
  }

  predicate ReadAsEmitted(pieces: seq<Piece>) {
    forall m :: 0 <= m < |pieces| ==> TokenAt(pieces, m)
  }

  predicate WellFormed(pieces: seq<Piece>) {
    && (forall m :: 0 <= m < |pieces| ==> PieceOk(pieces[m], m == |pieces| - 1))
    && (forall m :: 0 <= m < |pieces| ==> pieces[m].Class? ==> pieces[m].closed)
  }

  predicate ClassesReadable(pieces: seq<Piece>) {
    forall m :: 0 <= m < |pieces| ==> pieces[m].Class? ==> Readable(pieces[m])
  }

  lemma PieceTokenAt(pieces: seq<Piece>, m: nat)
    requires WellFormed(pieces) && m < |pieces|
    ensures TokenAt(pieces, m) <==> (pieces[m].Class? ==> Readable(pieces[m]))
    ensures From(pieces, m) != "" && (From(pieces, m)[0] == '(' <==> pieces[m].Group?)
  {
    hide Text, From, TokenLength, Readable, ClassText;
    FromStep(pieces, m);
    if pieces[m].Class? {
      ClassRead(pieces[m], From(pieces, m + 1));
      ClassStarts(pieces[m]);
    } else {
      if m == |pieces| - 1 {
        FromEnds(pieces);
      }
      PieceRead(pieces[m], Numbers(pieces[..m]), From(pieces, m + 1));
    }
  }

  lemma ClassStarts(piece: Piece)
    requires piece.Class?
    ensures ClassText(piece) != "" && ClassText(piece)[0] == '['
  {
  }

  // The native library reads the text as it was emitted if and only if it reads every class so.
  lemma ReadAsEmittedExactly(pieces: seq<Piece>)
    requires WellFormed(pieces)
    ensures ReadAsEmitted(pieces) <==> ClassesReadable(pieces)
  {
    hide TokenAt, Readable;
    forall m | 0 <= m < |pieces|
      ensures TokenAt(pieces, m) <==> (pieces[m].Class? ==> Readable(pieces[m]))
    {
      PieceTokenAt(pieces, m);
    }
  }

  // ----- Counting groups.

  function GroupAt(pieces: seq<Piece>, m: nat): nat
    requires m < |pieces|
  {
    if pieces[m].Group? then 1 else 0
  }

  // The text of piece m is the first token, so reading goes on with piece m + 1.
  lemma NativeStep(pieces: seq<Piece>, m: nat, at: nat)
    requires WellFormed(pieces) && ReadAsEmitted(pieces) && m < |pieces|
    ensures NativeGroups(From(pieces, m)) == Plus(GroupAt(pieces, m), NativeGroups(From(pieces, m + 1)))
    ensures NativeBefore(From(pieces, m), |PieceText(pieces[m], Numbers(pieces[..m]))| + at)
            == Plus(GroupAt(pieces, m), NativeBefore(From(pieces, m + 1), at))
  {
    hide Text, From, TokenLength, Readable, PieceText;
    PieceTokenAt(pieces, m);
    FromStep(pieces, m);
    assert TokenAt(pieces, m);
    var k := |PieceText(pieces[m], Numbers(pieces[..m]))|;
    assert From(pieces, m)[k..] == From(pieces, m + 1);
  }

  lemma {:induction false} GroupsCounted(pieces: seq<Piece>, m: nat)
    requires WellFormed(pieces) && ReadAsEmitted(pieces) && m <= |pieces|
    ensures NativeGroups(From(pieces, m)) == Some(Opens(pieces) - Opens(pieces[..m]))
            && Opens(pieces[..m]) <= Opens(pieces)
    decreases |pieces| - m
  {
    hide Text, From, NativeGroups, Opens, Numbers, Readable, PieceText, TokenAt;
    assert pieces[..|pieces|] == pieces;
    if m == |pieces| {
      FromEnds(pieces);
      NoGroups();
    } else {
      GroupsCounted(pieces, m + 1);
      NativeStep(pieces, m, 0);
      TextStep(pieces, m);
    }
  }

  lemma NoGroups()
    ensures NativeGroups("") == Some(0)
  {
  }

  lemma {:induction false} GroupsCountedBefore(pieces: seq<Piece>, m: nat, n: nat)
    requires WellFormed(pieces) && ReadAsEmitted(pieces) && m <= n <= |pieces|
    ensures Offset(pieces, m) <= Offset(pieces, n) && Opens(pieces[..m]) <= Opens(pieces[..n])
    ensures NativeBefore(From(pieces, m), Offset(pieces, n) - Offset(pieces, m))
            == Some(Opens(pieces[..n]) - Opens(pieces[..m]))
    decreases n - m
  {
    hide Text, From, Opens, Numbers, Readable, PieceText, TokenAt, TokenLength, NativeGroups;
    Prefixes(pieces, m, n);
    if m < n {
      GroupsCountedBefore(pieces, m + 1, n);
      NativeStep(pieces, m, Offset(pieces, n) - Offset(pieces, m + 1));
      FromStep(pieces, m);
      TextStep(pieces, m);
    }
  }

  // ----- The numbering.

  // The numbers increase, and are numbers of groups that were opened.
  lemma {:induction false} NumbersIncrease(pieces: seq<Piece>)
    ensures forall k :: 0 <= k < |Numbers(pieces)| ==> 1 <= Numbers(pieces)[k] <= Opens(pieces)
    ensures forall j, k :: 0 <= j < k < |Numbers(pieces)| ==> Numbers(pieces)[j] < Numbers(pieces)[k]
  {
    if pieces != [] {
      NumbersIncrease(pieces[..|pieces| - 1]);
    }
  }

  // The piece that opens the capturing group k + 1.
  lemma {:induction false} CapturingPiece(pieces: seq<Piece>, k: nat) returns (m: nat)
    requires k < |Numbers(pieces)|
    ensures m < |pieces| && pieces[m] == Group(true) && |Numbers(pieces[..m])| == k
    ensures Numbers(pieces)[k] == Opens(pieces[..m]) + 1
  {
    m := |pieces| - 1;
    if k < |Numbers(pieces[..m])| {
      var before := pieces[..m];
      m := CapturingPiece(before, k);
      assert before[..m] == pieces[..m];
    }
  }

  predicate Parsed(pattern: CString, pieces: seq<Piece>) {
    pattern != "" && Parse(pattern, 0) == Ok(pieces)
  }

  predicate AllClosed(pieces: seq<Piece>) {
    forall m :: 0 <= m < |pieces| ==> pieces[m].Class? ==> pieces[m].closed
  }

  lemma ParsedWell(pattern: CString, pieces: seq<Piece>)
    requires Parsed(pattern, pieces) && AllClosed(pieces)
    ensures WellFormed(pieces)
  {
    forall m | 0 <= m < |pieces|
      ensures PieceOk(pieces[m], m == |pieces| - 1)
    {
      ParsedOk(pattern, 0, m);
    }
  }

  // For patterns whose classes are closed: the native library reads the translation token by
  // token as it was emitted if and only if every class is readable.
  lemma TranslationReadExactly(pattern: CString, pieces: seq<Piece>)
    requires Parsed(pattern, pieces) && AllClosed(pieces)
    ensures ReadAsEmitted(pieces) <==> ClassesReadable(pieces)
  {
    ParsedWell(pattern, pieces);
    ReadAsEmittedExactly(pieces);
  }

  // Then the k-th capturing group is the native group it is mapped to: there is a native group
  // opening at its place, after submatches[k] - 1 others.
  lemma GroupsNumberedNatively(pattern: CString, pieces: seq<Piece>, k: nat) returns (m: nat)
    requires Parsed(pattern, pieces) && AllClosed(pieces) && ClassesReadable(pieces)
    requires k < |Numbers(pieces)|
    ensures m < |pieces| && pieces[m] == Group(true) && |Numbers(pieces[..m])| == k
    ensures Offset(pieces, m) < |Text(pieces)| && Text(pieces)[Offset(pieces, m)] == '('
    ensures Numbers(pieces)[k] >= 1
    ensures NativeBefore(Text(pieces), Offset(pieces, m)) == Some(Numbers(pieces)[k] - 1)
  {
    hide Text, Numbers, Opens, From, NativeBefore;
    TranslationReadExactly(pattern, pieces);
    ParsedWell(pattern, pieces);
    NumbersIncrease(pieces);
    m := CapturingPiece(pieces, k);
    FromEnds(pieces);
    NothingOpened(pieces);
    GroupsCountedBefore(pieces, 0, m);
    PieceTokenAt(pieces, m);
    FromIsRest(pieces, m);
  }

  lemma NothingOpened(pieces: seq<Piece>)
    ensures Opens(pieces[..0]) == 0
  {
  }

  lemma FromIsRest(pieces: seq<Piece>, m: nat)
    requires m <= |pieces|
    ensures Offset(pieces, m) <= |Text(pieces)| && From(pieces, m) == Text(pieces)[Offset(pieces, m)..]
  {
    Prefixes(pieces, m, |pieces|);
    assert pieces[..|pieces|] == pieces;
  }

  // The native count is then the number of groups opened.
  lemma GroupsAreCounted(pattern: CString, pieces: seq<Piece>)
    requires Parsed(pattern, pieces) && AllClosed(pieces) && ClassesReadable(pieces)
    ensures NativeGroups(Text(pieces)) == Some(Opens(pieces))
  {
    hide Text, From, NativeGroups;
    TranslationReadExactly(pattern, pieces);
    ParsedWell(pattern, pieces);
    GroupsCounted(pieces, 0);
    FromEnds(pieces);
  }

  // native_submatch, over the number of native groups
  function NativeSubmatch(submatches: seq<nat>, nativeGroups: nat, logical: nat): nat {
    if logical == 0 then 0
    else if logical <= |submatches| then submatches[logical - 1]
    else nativeGroups + 1
  }

  // So regex_search finds every logical group among the native matches, in order.
  lemma SubmatchesAreNative(pattern: CString, pieces: seq<Piece>, i: nat, j: nat)
    requires Parsed(pattern, pieces) && AllClosed(pieces) && ClassesReadable(pieces)
    requires i < j <= |Numbers(pieces)|
    ensures NativeGroups(Text(pieces)) == Some(Opens(pieces))
    ensures NativeSubmatch(Numbers(pieces), Opens(pieces), i) < NativeSubmatch(Numbers(pieces), Opens(pieces), j)
    ensures NativeSubmatch(Numbers(pieces), Opens(pieces), j) <= Opens(pieces)
  {
    GroupsAreCounted(pattern, pieces);
    NumbersIncrease(pieces);
  }

  // ----- Back-references.

  predicate IsBackReference(text: string, native: nat) {
    |text| == 2 && text[0] == '\\' && '1' <= text[1] <= '9' && text[1] as int - '0' as int == native
  }

  lemma DigitExactly(native: nat)
    requires native >= 1
    ensures IsBackReference(['\\', NativeDigit(native)], native) <==> native <= 9
  {
  }

  lemma DigitText(c: char, logical: nat, groups: seq<nat>)
    requires '1' <= c <= '9' && logical == c as int - '0' as int
    ensures PieceText(Escape(c), groups) == ['\\', if logical <= |groups| then NativeDigit(groups[logical - 1]) else c]
  {
  }

  lemma DigitNamesItself(c: char, logical: nat, native: nat)
    requires '1' <= c <= '9' && logical == c as int - '0' as int
    ensures IsBackReference(['\\', c], native) <==> native == logical
  {
  }

  // A back-reference to one of the groups names that group's native number if and only if the group
  // was opened before it and the number has one digit, or it was not, and the number is its own.
  lemma BackReferenceExactly(pieces: seq<Piece>, m: nat, logical: nat)
    requires m < |pieces| && pieces[m].Escape? && '1' <= pieces[m].c <= '9'
    requires logical == pieces[m].c as int - '0' as int && logical <= |Numbers(pieces)|
    ensures var native := Numbers(pieces)[logical - 1];
            IsBackReference(PieceText(pieces[m], Numbers(pieces[..m])), native) <==>
              if logical <= |Numbers(pieces[..m])| then native <= 9 else native == logical
  {
    hide Opens, Numbers, NativeDigit, PieceText, IsBackReference;
    NumbersIncrease(pieces);
    Prefixes(pieces, m, |pieces|);
    assert pieces[..|pieces|] == pieces;
    DigitText(pieces[m].c, logical, Numbers(pieces[..m]));
    DigitNamesItself(pieces[m].c, logical, Numbers(pieces)[logical - 1]);
    DigitExactly(Numbers(pieces)[logical - 1]);
  }

  // ----- Where the numbering fails.

  lemma ThreePieces(s: CString, a: Piece, b: Piece, c: Piece, i: nat, j: nat)
    requires 0 < i < j < |s|
    requires NextPiece(s, 0) == Next(a, i) && NextPiece(s, i) == Next(b, j) && NextPiece(s, j) == Next(c, |s|)
    ensures Parsed(s, [a, b, c])
  {
    assert Parse(s, |s|) == Ok([]);
    assert [c] + [] == [c];
    assert Parse(s, j) == Ok([c]);
    assert [a] + [b, c] == [a, b, c];
    assert [b] + [c] == [b, c];
    assert Parse(s, i) == Ok([b, c]);
    assert Parse(s, 0) == Ok([a, b, c]);
  }

  lemma NoPieces()
    ensures Text([]) == "" && Numbers([]) == [] && Opens([]) == 0
  {
  }

  lemma ThreeTexts(a: Piece, b: Piece, c: Piece)
    requires a.Class? && b == Group(true) && c.Plain?
    ensures Text([a, b, c]) == ClassText(a) + "(" + [c.c]
    ensures Numbers([a, b, c]) == [1] && Opens([a, b, c]) == 1
  {
    hide ClassText, EscapeText, Text, Numbers, Opens;
    NoPieces();
    PieceAppended([], a);
    PieceAppended([a], b);
    PieceAppended([a, b], c);
    assert [] + [a] == [a] && [a] + [b] == [a, b] && [a, b] + [c] == [a, b, c];
    assert "" + ClassText(a) == ClassText(a);
  }

  // The native library takes a class for a negated one if and only if it is one, or starts with
  // an escaped caret.
  lemma NegationReadExactly(piece: Piece, rest: string)
    requires IsClosedClass(piece)
    ensures |ClassText(piece)| > 1
    ensures (ClassText(piece) + rest)[1] == '^' <==> piece.negated || BareCaret(piece)
  {
    hide Contents;
    if !piece.negated && !piece.bracket {
      var tail := When(piece.hyphen, "-") + "]";
      FirstOfRest(piece.members, tail, |tail|);
      assert ClassText(piece)[1..] == Contents(piece.members) + tail;
    }
  }

  function Chars(text: string): seq<Member> {
    if text == "" then [] else [Char(text[0])] + Chars(text[1..])
  }

  lemma {:induction false} CharsText(text: string)
    ensures Contents(Chars(text)) == text
  {
    if text != "" {
      CharsText(text[1..]);
      assert Chars(text)[1..] == Chars(text[1..]);
      assert [text[0]] + text[1..] == text;
    }
  }

  // A class of plain characters ends at its first closing bracket.
  lemma {:induction false} ScanPlain(s: CString, q: nat, end: nat, begin: nat)
    requires q <= end < |s| && s[end] == ']'
    requires forall i :: q <= i < end ==> s[i] != ']' && s[i] != '\\'
    ensures ScanClass(s, q, begin) == Scan(false, Chars(s[q..end]), false, end)
    decreases end - q
  {
    if q < end {
      ScanPlain(s, q + 1, end, begin);
      assert s[q..end][1..] == s[q + 1..end];
    }
  }

  // The pattern [[:name:](], and the class in it as the translator sees it.
  function NamedPattern(name: string): string {
    "[[:" + name + ":](]"
  }

  function NamedClass(name: string): Piece {
    Class(false, false, Chars("[:" + name + ":"), false, true)
  }

  lemma NamedPieces(s: CString, name: string)
    requires IsClassName(name) && s == NamedPattern(name)
    ensures Parsed(s, [NamedClass(name), Group(true), Plain(']')])
  {
    hide IsClassName;
    ClassNamesArePlain(name);
    var end := |name| + 4;
    assert s[end] == ']' && s[end + 1] == '(' && s[end + 2] == ']' && |s| == end + 3;
    assert s[1..end] == "[:" + name + ":";
    ScanPlain(s, 1, end, 1);
    ThreePieces(s, NamedClass(name), Group(true), Plain(']'), end + 1, end + 2);
  }

  lemma NamedClassText(name: string)
    ensures ClassText(NamedClass(name)) == "[[:" + name + ":]"
  {
    CharsText("[:" + name + ":");
  }

  lemma OneThenEnd()
    ensures MembersEnd("(]") == Some(2)
  {
    assert "(]"[1..] == "]";
  }

  // The native library takes the whole pattern for one bracket expression.
  lemma NamedReading(name: string, t: string)
    requires IsClassName(name) && t == NamedPattern(name)
    ensures NativeGroups(t) == Some(0)
  {
    hide IsClassName, MembersEnd;
    assert t[1..] == MemberText(Named(name)) + "(]";
    NamedMember(name, "(]");
    OneThenEnd();
    assert MembersEnd(t[1..]) == Some(|t| - 1);
    assert LeadLength(t[1..]) == 0 && t[1..][0..] == t[1..];
    assert t[|t|..] == "";
  }

  // A named class of the pattern itself, whichever it is: the translator ends the class at its
  // first bracket and takes the parenthesis after it for a group, and the native library does
  // not.  The one submatch entry is beyond the native count.
  lemma NamedClassMisread(name: string, s: CString)
    requires IsClassName(name) && s == NamedPattern(name)
    ensures Parsed(s, [NamedClass(name), Group(true), Plain(']')]) && !Readable(NamedClass(name))
    ensures Translated(s) == Ok(Translation(s, [1])) && NativeGroups(s) == Some(0)
  {
    hide Text, Numbers, ClassText, Parse, NextPiece, NativeGroups, IsClassName;
    NamedPieces(s, name);
    NamedClassText(name);
    ThreeTexts(NamedClass(name), Group(true), Plain(']'));
    NamedReading(name, s);
    assert "[[:" + name + ":]" + "(" + "]" == s;
    var inside := "[:" + name + ":";
    assert inside[1..][0] == ':' && inside[0] == '[';
    assert Chars(inside)[1] == Char(':') by {
      assert Chars(inside)[1..] == Chars(inside[1..]);
    }
  }

  // Nine groups that do not capture, and then one that does and a reference to it.
  function Blocks(n: nat): string {
    if n == 0 then "" else "(?:x)" + Blocks(n - 1)
  }

  const BLOCK: seq<Piece> := [Group(false), Plain('x'), Plain(')')]

  const REFERENCE: seq<Piece> := [Group(true), Plain('a'), Plain(')'), Escape('1')]

  function BlockPieces(n: nat): (pieces: seq<Piece>)
    ensures |pieces| == 3 * n
  {
    if n == 0 then [] else BLOCK + BlockPieces(n - 1)
  }

  lemma ReferenceParsed(s: CString, p: nat)
    requires p <= |s| && s[p..] == "(a)\\1"
    ensures Parse(s, p) == Ok(REFERENCE)
  {
    assert s[p] == s[p..][0] && s[p + 1] == s[p..][1] && s[p + 2] == s[p..][2];
    assert s[p + 3] == s[p..][3] && s[p + 4] == s[p..][4];
    assert Parse(s, |s|) == Ok([]);
    assert Parse(s, p + 3) == Ok([Escape('1')]) by { assert [Escape('1')] + [] == [Escape('1')]; }
    assert Parse(s, p + 2) == Ok([Plain(')')] + [Escape('1')]);
    assert Parse(s, p + 1) == Ok([Plain('a')] + ([Plain(')')] + [Escape('1')]));
    assert [Group(true)] + ([Plain('a')] + ([Plain(')')] + [Escape('1')])) == REFERENCE;
  }

  lemma BlockParsed(s: CString, p: nat, rest: seq<Piece>)
    requires p + 5 <= |s| && s[p..p + 5] == "(?:x)" && Parse(s, p + 5) == Ok(rest)
    ensures Parse(s, p) == Ok(BLOCK + rest)
  {
    assert s[p] == s[p..p + 5][0] && s[p + 1] == s[p..p + 5][1] && s[p + 2] == s[p..p + 5][2];
    assert s[p + 3] == s[p..p + 5][3] && s[p + 4] == s[p..p + 5][4];
    assert Parse(s, p + 4) == Ok([Plain(')')] + rest);
    assert Parse(s, p + 3) == Ok([Plain('x')] + ([Plain(')')] + rest));
    assert [Group(false)] + ([Plain('x')] + ([Plain(')')] + rest)) == BLOCK + rest;
  }

  lemma {:induction false} BlocksParsed(s: CString, p: nat, n: nat)
    requires p <= |s| && s[p..] == Blocks(n) + "(a)\\1"
    ensures Parse(s, p) == Ok(BlockPieces(n) + REFERENCE)
    decreases n
  {
    hide Parse;
    if n == 0 {
      assert "" + "(a)\\1" == "(a)\\1" && [] + REFERENCE == REFERENCE;
      ReferenceParsed(s, p);
    } else {
      var rest := Blocks(n - 1) + "(a)\\1";
      assert s[p..] == "(?:x)" + rest;
      assert s[p..p + 5] == s[p..][..5];
      assert s[p + 5..] == s[p..][5..];
      BlocksParsed(s, p + 5, n - 1);
      BlockParsed(s, p, BlockPieces(n - 1) + REFERENCE);
      assert BLOCK + (BlockPieces(n - 1) + REFERENCE) == BLOCK + BlockPieces(n - 1) + REFERENCE;
    }
  }

  lemma PieceCounted(pieces: seq<Piece>, piece: Piece)
    ensures Opens(pieces + [piece]) == Opens(pieces) + (if piece.Group? then 1 else 0)
    ensures Numbers(pieces + [piece]) ==
            if piece == Group(true) then Numbers(pieces) + [Opens(pieces) + 1] else Numbers(pieces)
  {
    PieceAppended(pieces, piece);
  }

  lemma ThreeCounted(before: seq<Piece>, a: Piece, b: Piece, c: Piece)
    requires a.Group? && !b.Group? && !c.Group?
    ensures Opens(before + [a, b, c]) == Opens(before) + 1
    ensures Numbers(before + [a, b, c]) == if a.capturing then Numbers(before) + [Opens(before) + 1] else Numbers(before)
  {
    hide Opens, Numbers;
    PieceCounted(before, a);
    PieceCounted(before + [a], b);
    PieceCounted(before + [a] + [b], c);
    assert before + [a] + [b] + [c] == before + [a, b, c];
  }

  lemma {:induction false} BlocksOpen(before: seq<Piece>, n: nat)
    ensures Opens(before + BlockPieces(n)) == Opens(before) + n
    ensures Numbers(before + BlockPieces(n)) == Numbers(before)
    decreases n
  {
    hide Opens, Numbers;
    if n == 0 {
      assert before + [] == before;
    } else {
      ThreeCounted(before, Group(false), Plain('x'), Plain(')'));
      BlocksOpen(before + BLOCK, n - 1);
      assert before + BLOCK + BlockPieces(n - 1) == before + (BLOCK + BlockPieces(n - 1));
    }
  }

  lemma ReferenceText(s: CString, n: nat)
    requires s == Blocks(n) + "(a)\\1"
    ensures var pieces := BlockPieces(n) + REFERENCE;
            && Parsed(s, pieces) && pieces[3 * n + 3] == Escape('1')
            && Numbers(pieces[..3 * n + 3]) == [n + 1]
            && PieceText(pieces[3 * n + 3], Numbers(pieces[..3 * n + 3])) == ['\\', NativeDigit(n + 1)]
  {
    hide Parse, Opens, Numbers, Blocks, BlockPieces, NativeDigit, EscapeText;
    var pieces, blocks := BlockPieces(n) + REFERENCE, BlockPieces(n);
    assert s[0..] == s;
    BlocksParsed(s, 0, n);
    NoPieces();
    BlocksOpen([], n);
    assert [] + blocks == blocks;
    ThreeCounted(blocks, Group(true), Plain('a'), Plain(')'));
    assert pieces[..3 * n + 3] == blocks + [Group(true), Plain('a'), Plain(')')];
  }

  // With nine such groups the reference to the capturing one, whose native number is ten, is
  // emitted as an escaped colon.
  lemma TenthGroupMisnamed(s: CString)
    requires s == Blocks(9) + "(a)\\1"
    ensures var pieces := BlockPieces(9) + REFERENCE;
            && Parsed(s, pieces) && pieces[30] == Escape('1')
            && Numbers(pieces[..30]) == [10] && PieceText(pieces[30], Numbers(pieces[..30])) == "\\:"
  {
    hide Blocks, BlockPieces, Parsed, Numbers, PieceText;
    ReferenceText(s, 9);
    assert NativeDigit(10) == ':';
  }

  // A reference in front of its group, behind a group that does not capture, is emitted as it is,
  // and names that other group.
  lemma EarlyReferenceMisnamed(s: CString)
    requires s == "(?:x)\\1(a)"
    ensures var pieces := BLOCK + [Escape('1'), Group(true), Plain('a'), Plain(')')];
            && Parsed(s, pieces) && Numbers(pieces) == [2]
            && PieceText(pieces[3], Numbers(pieces[..3])) == "\\1"
  {
    var before, after := BLOCK, [Group(true), Plain('a'), Plain(')')];
    assert Parse(s, |s|) == Ok([]);
    assert Parse(s, 9) == Ok([Plain(')')]) by { assert [Plain(')')] + [] == [Plain(')')]; }
    assert Parse(s, 8) == Ok([Plain('a')] + [Plain(')')]);
    assert Parse(s, 7) == Ok([Group(true)] + ([Plain('a')] + [Plain(')')]));
    assert Parse(s, 5) == Ok([Escape('1')] + after) by {
      assert [Group(true)] + ([Plain('a')] + [Plain(')')]) == after;
    }
    BlockParsed(s, 0, [Escape('1')] + after);
    hide Opens, Numbers, Parse, EscapeText;
    NoPieces();
    ThreeCounted([], Group(false), Plain('x'), Plain(')'));
    PieceCounted(BLOCK, Escape('1'));
    ThreeCounted(BLOCK + [Escape('1')], Group(true), Plain('a'), Plain(')'));
    assert [] + BLOCK == BLOCK;
    var pieces := BLOCK + [Escape('1'), Group(true), Plain('a'), Plain(')')];
    assert BLOCK + ([Escape('1')] + after) == pieces == BLOCK + [Escape('1')] + after;
    assert pieces[..3] == BLOCK;
    assert PieceText(pieces[3], []) == "\\1" by {
      ReferenceIsKept();
    }
  }

  lemma ReferenceIsKept()
    ensures EscapeText('1', false) == "\\1"
  {
  }
}
