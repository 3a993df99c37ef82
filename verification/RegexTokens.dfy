// What the native library takes the translation for, token by token.

module RegexTokens {
  import opened Wrappers
  import opened RegexTranslate
  import opened RegexReading
  import opened RegexNumbering

  // ----- Tokens of an extended regular expression: section 9.4 of POSIX.1-2017, with the
  // back-references that the library has besides.

  datatype Token =
    | Ordinary(c: char)
    | Operator(c: char)
    | Bracket(negated: bool, members: seq<Member>)
    | BackReference(group: nat)
    // a backslash before an ordinary character
    | Undefined(c: char)

  function FirstToken(t: string): Option<(Token, nat)>
    requires t != ""
  {
    if t[0] == '\\' && |t| > 1 then
      Some((if '1' <= t[1] <= '9' then BackReference(t[1] as int - '0' as int)
            else if IsSpecial(t[1]) then Ordinary(t[1]) else Undefined(t[1]), 2))
    else if t[0] == '[' then
      match ReadClass(t[1..])
      case None => None
      case Some(read) => Some((Bracket(read.negated, read.members), read.length + 1))
    else Some((if IsSpecial(t[0]) then Operator(t[0]) else Ordinary(t[0]), 1))
  }

  // ----- What a piece of an ECMAScript pattern means, section 22.2.1 of ECMA-262.

  predicate IsLineEnd(c: char) {
    c == '\n' || c == '\r'
  }

  function Meaning(piece: Piece, groups: seq<nat>): Token {
    match piece
    case Plain(c) => if IsSpecial(c) then Operator(c) else Ordinary(c)
    case AnyChar => Bracket(true, [Char('\n'), Char('\r')])
    case Group(_) => Operator('(')
    case Class(negated, _, _, _, _) => Bracket(negated, Listed(piece))
    case Escape(c) => EscapeMeaning(c, groups)
  }

  function EscapeMeaning(c: char, groups: seq<nat>): Token {
    if '1' <= c <= '9' then
      var logical := c as int - '0' as int;
      BackReference(if logical <= |groups| then groups[logical - 1] else logical)
    else if IsClassEscape(c) then Bracket(c == 'D' || c == 'S' || c == 'W', ShorthandClass(c).members)
    else match c
      case 'n' => Ordinary(10 as char)
      case 'r' => Ordinary(13 as char)
      case 't' => Ordinary(9 as char)
      case 'f' => Ordinary(12 as char)
      case 'v' => Ordinary(11 as char)
      case _ => if IsSpecial(c) then Ordinary(c) else Undefined(c)
  }

  // What is read back: classes that are faithful, and references to groups of one digit.
  predicate IsKept(piece: Piece, groups: seq<nat>) {
    match piece
    case Class(_, _, _, _, _) => Faithful(piece)
    case Escape(c) =>
      '1' <= c <= '9' && c as int - '0' as int <= |groups| ==> 1 <= groups[c as int - '0' as int - 1] <= 9
    case _ => true
  }

  predicate IsFirst(text: string, rest: string, token: Token) {
    text != "" && FirstToken(text + rest) == Some((token, |text|))
  }

  // The dot is the negated class of the two line ends, whatever follows.
  lemma DotReadBack(rest: string)
    ensures IsFirst("[^\n\r]", rest, Bracket(true, [Char('\n'), Char('\r')]))
  {
    hide ClassText, ReadClass;
    var dot := Class(true, false, [Char('\n'), Char('\r')], false, true);
    AnyCharText();
    ClassReadBack(dot, rest);
    assert [Char('\n'), Char('\r')][1..] == [Char('\r')] && [Char('\r')][1..] == [];
    assert Listed(dot) == [Char('\n'), Char('\r')];
  }

  // What a bracket expression of single characters matches.
  predicate Matches(token: Token, c: char)
    requires token.Bracket? && forall i :: 0 <= i < |token.members| ==> token.members[i].Char?
  {
    token.negated != (Char(c) in token.members)
  }

  // So it matches a character if and only if it is no line end.
  lemma DotMatches(groups: seq<nat>, c: char)
    ensures Meaning(AnyChar, groups).Bracket? && |Meaning(AnyChar, groups).members| == 2
    ensures forall i :: 0 <= i < 2 ==> Meaning(AnyChar, groups).members[i].Char?
    ensures Matches(Meaning(AnyChar, groups), c) <==> !IsLineEnd(c)
  {
  }

  lemma ShorthandFirst(c: char, rest: string)
    requires IsClassEscape(c)
    ensures IsFirst(EscapeText(c, false), rest, Bracket(c == 'D' || c == 'S' || c == 'W', ShorthandClass(c).members))
  {
    ShorthandReadBack(c, rest);
    ShorthandStarts(c);
    hide ReadClass, EscapeText, ShorthandClass;
  }

  lemma ShorthandStarts(c: char)
    requires IsClassEscape(c)
    ensures |EscapeText(c, false)| > 1 && EscapeText(c, false)[0] == '['
  {
  }

  lemma DigitFirst(native: nat, rest: string)
    requires 1 <= native <= 9
    ensures IsFirst(['\\', NativeDigit(native)], rest, BackReference(native))
  {
  }

  lemma EscapeFirst(c: char, groups: seq<nat>, rest: string)
    requires IsKept(Escape(c), groups)
    ensures IsFirst(PieceText(Escape(c), groups), rest, Meaning(Escape(c), groups))
  {
    if '1' <= c <= '9' {
      DigitText(c, c as int - '0' as int, groups);
      if c as int - '0' as int <= |groups| {
        DigitFirst(groups[c as int - '0' as int - 1], rest);
      }
    } else if IsClassEscape(c) {
      ShorthandFirst(c, rest);
    }
  }

  lemma ClassFirst(piece: Piece, rest: string)
    requires IsClosedClass(piece) && Faithful(piece)
    ensures IsFirst(ClassText(piece), rest, Bracket(piece.negated, Listed(piece)))
  {
    hide ReadClass, Listed;
    ClassReadBack(piece, rest);
    ClassStarts(piece);
  }

  // Main lemma: the text of a piece, whatever follows it, is one token, and means what the piece
  // does.
  lemma PieceFirst(piece: Piece, groups: seq<nat>, rest: string)
    requires PieceOk(piece, rest == "") && (piece.Class? ==> piece.closed) && IsKept(piece, groups)
    ensures IsFirst(PieceText(piece, groups), rest, Meaning(piece, groups))
  {
    match piece
    case AnyChar => DotReadBack(rest);
    case Class(_, _, _, _, _) => ClassFirst(piece, rest);
    case Escape(c) => EscapeFirst(c, groups, rest);
    case _ =>
  }

  // ----- The whole translation.

  function Tokens(t: string): Option<seq<Token>>
    decreases |t|
  {
    if t == "" then Some([])
    else match FirstToken(t)
      case None => None
      case Some((token, length)) =>
        if 1 <= length <= |t| then
          match Tokens(t[length..])
          case None => None
          case Some(tokens) => Some([token] + tokens)
        else None
  }

  function Meanings(pieces: seq<Piece>, m: nat): (tokens: seq<Token>)
    requires m <= |pieces|
    ensures |tokens| == |pieces| - m
    decreases |pieces| - m
  {
    if m == |pieces| then [] else [Meaning(pieces[m], Numbers(pieces[..m]))] + Meanings(pieces, m + 1)
  }

  predicate AllKept(pieces: seq<Piece>) {
    forall m :: 0 <= m < |pieces| ==> IsKept(pieces[m], Numbers(pieces[..m]))
  }

  lemma TokensStep(text: string, rest: string, token: Token)
    requires IsFirst(text, rest, token) && Tokens(rest).Some?
    ensures Tokens(text + rest) == Some([token] + Tokens(rest).value)
  {
    hide FirstToken;
    assert (text + rest)[|text|..] == rest;
  }

  lemma {:induction false} TokensFrom(pieces: seq<Piece>, m: nat)
    requires WellFormed(pieces) && AllKept(pieces) && m <= |pieces|
    ensures Tokens(From(pieces, m)) == Some(Meanings(pieces, m))
    decreases |pieces| - m
  {
    hide Text, From, Numbers, PieceText, Meaning, IsKept, PieceOk, IsFirst, Tokens;
    if m == |pieces| {
      FromEnds(pieces);
      NoTokens();
    } else {
      TokensFrom(pieces, m + 1);
      FromStep(pieces, m);
      RestIsNothing(pieces, m);
      PieceFirst(pieces[m], Numbers(pieces[..m]), From(pieces, m + 1));
      TokensStep(PieceText(pieces[m], Numbers(pieces[..m])), From(pieces, m + 1),
                 Meaning(pieces[m], Numbers(pieces[..m])));
    }
  }

  lemma NoTokens()
    ensures Tokens("") == Some([])
  {
  }

  // Only after the last piece is there nothing.
  lemma RestIsNothing(pieces: seq<Piece>, m: nat)
    requires WellFormed(pieces) && m < |pieces|
    ensures PieceOk(pieces[m], From(pieces, m + 1) == "")
  {
    hide From;
    if m == |pieces| - 1 {
      FromEnds(pieces);
    } else {
      PieceTokenAt(pieces, m + 1);
    }
  }

  // Main result: when every class of a pattern is closed and faithful and every reference has one
  // digit, the native library reads the translation as the meanings of the pieces, in order.
  lemma TranslationMeans(pattern: CString, pieces: seq<Piece>)
    requires Parsed(pattern, pieces) && AllClosed(pieces) && AllKept(pieces)
    ensures Translated(pattern) == Ok(Translation(Text(pieces), Numbers(pieces)))
    ensures Tokens(Text(pieces)) == Some(Meanings(pieces, 0))
  {
    hide Text, Numbers, Tokens, AllKept;
    ParsedWell(pattern, pieces);
    TokensFrom(pieces, 0);
    FromEnds(pieces);
  }

  // ----- What a piece is parsed from.

  function Source(piece: Piece): string
    requires !piece.Class?
  {
    match piece
    case Plain(c) => [c]
    case AnyChar => "."
    case Group(capturing) => if capturing then "(" else "(?:"
    case Escape(c) => ['\\', c]
  }

  lemma PieceIsWritten(s: CString, p: nat)
    requires p < |s| && NextPiece(s, p).Next?
    ensures var piece, next := NextPiece(s, p).piece, NextPiece(s, p).next;
            if piece.Class? then
              && s[p] == '[' && (piece.negated <==> p + 1 < |s| && s[p + 1] == '^')
              && (piece.closed ==> next > p + 1 && s[next - 1] == ']')
              && (!piece.closed ==> next == p + 1)
            else s[p..next] == Source(piece)
  {
  }

  predicate IsPlainText(text: string) {
    forall i :: 0 <= i < |text| ==> text[i] != ']' && text[i] != '\\' && text[i] != '\0'
  }

  // A class goes to its first bracket, and has the characters in front of it; an escaped bracket
  // does not end it.
  lemma {:induction false} ScanText(s: CString, q: nat, begin: nat, text: string, rest: string)
    requires q <= |s| && s[q..] == text + rest && IsPlainText(text)
    ensures ScanClass(s, q, begin) == With(false, Chars(text), false, ScanClass(s, q + |text|, begin))
    decreases |text|
  {
    hide With;
    if text == "" {
      WithNothing(ScanClass(s, q, begin));
    } else {
      assert s[q] == s[q..][0] == text[0];
      assert s[q + 1..] == s[q..][1..] == text[1..] + rest;
      ScanText(s, q + 1, begin, text[1..], rest);
      WithChains(false, [Char(text[0])], false, false, Chars(text[1..]), false, ScanClass(s, q + |text|, begin));
    }
  }

  lemma WithNothing(scan: Scan)
    ensures With(false, [], false, scan) == scan
  {
    if scan.Scan? {
      assert [] + scan.members == scan.members;
    }
  }

  lemma PlainClass(s: CString, p: nat, negated: bool, text: string, rest: string)
    requires p <= |s| && IsPlainText(text) && (text == "" || text[0] != '^')
    requires s[p..] == (if negated then "[^" else "[") + text + "]" + rest
    ensures NextPiece(s, p) == Next(Class(negated, false, Chars(text), false, true), |s| - |rest|)
  {
    var begin := p + (if negated then 2 else 1);
    assert s[begin..] == text + ("]" + rest);
    assert s[p] == s[p..][0] && s[p + 1] == s[p..][1];
    var end := begin + |text|;
    assert s[end] == s[begin..][|text|] == ']';
    ScanText(s, begin, begin, text, "]" + rest);
    assert ScanClass(s, end, begin) == Scan(false, [], false, end);
    assert Chars(text) + [] == Chars(text);
  }

  lemma ScanEnds(s: CString, q: nat, begin: nat)
    requires q < |s| && s[q] == ']'
    ensures ScanClass(s, q, begin) == Scan(false, [], false, q)
  {
  }

  lemma ScanBracket(s: CString, q: nat, begin: nat)
    requires q + 1 < |s| && s[q] == '\\' && s[q + 1] == ']'
    ensures ScanClass(s, q, begin) == With(true, [], false, ScanClass(s, q + 2, begin))
  {
  }

  lemma WithBoth(a: seq<Member>, b: seq<Member>, end: nat)
    ensures With(false, a, false, With(true, [], false, With(false, b, false, Scan(false, [], false, end))))
            == Scan(true, a + b, false, end)
  {
    assert b + [] == b && [] + b == b;
  }

  lemma Behind(s: string, q: nat, a: string, tail: string)
    requires q <= |s| && s[q..] == a + tail
    ensures q + |a| <= |s| && s[q + |a|..] == tail && (tail != "" ==> q + |a| < |s| && s[q + |a|] == tail[0])
    ensures |tail| > 1 ==> q + |a| + 1 < |s| && s[q + |a| + 1] == tail[1]
  {
    assert s[q + |a|..] == s[q..][|a|..];
    assert tail != "" ==> s[q + |a|] == s[q + |a|..][0];
    assert |tail| > 1 ==> s[q + |a| + 1] == s[q + |a|..][1];
  }

  // From the escaped bracket on.
  lemma ScanBehind(s: CString, begin: nat, q: nat, b: string, rest: string)
    requires q <= |s| && IsPlainText(b) && s[q..] == "\\]" + (b + ("]" + rest))
    ensures ScanClass(s, q, begin) ==
            With(true, [], false, With(false, Chars(b), false, Scan(false, [], false, |s| - |rest| - 1)))
  {
    hide ScanClass, Chars, With, IsPlainText;
    Behind(s, q, "\\]", b + ("]" + rest));
    Behind(s, q + 2, b, "]" + rest);
    assert s[q] == s[q..][0] && s[q + 1] == s[q..][1];
    ScanBracket(s, q, begin);
    ScanText(s, q + 2, begin, b, "]" + rest);
    ScanEnds(s, q + 2 + |b|, begin);
  }

  lemma ScanBracketed(s: CString, begin: nat, a: string, b: string, rest: string)
    requires begin <= |s| && IsPlainText(a) && IsPlainText(b)
    requires s[begin..] == a + ("\\]" + (b + ("]" + rest)))
    ensures ScanClass(s, begin, begin) == Scan(true, Chars(a) + Chars(b), false, |s| - |rest| - 1)
  {
    hide ScanClass, Chars, With, IsPlainText;
    Behind(s, begin, a, "\\]" + (b + ("]" + rest)));
    ScanText(s, begin, begin, a, "\\]" + (b + ("]" + rest)));
    ScanBehind(s, begin, begin + |a|, b, rest);
    WithBoth(Chars(a), Chars(b), |s| - |rest| - 1);
  }

  lemma BracketClass(s: CString, p: nat, a: string, b: string, rest: string)
    requires p < |s| && s[p] == '[' && IsPlainText(a) && IsPlainText(b) && (a == "" || a[0] != '^')
    requires s[p + 1..] == a + ("\\]" + (b + ("]" + rest)))
    ensures NextPiece(s, p) == Next(Class(false, true, Chars(a) + Chars(b), false, true), |s| - |rest|)
  {
    hide ScanClass, Chars;
    assert s[p + 1] == s[p + 1..][0];
    ScanBracketed(s, p + 1, a, b, rest);
  }

  // ----- The empty pattern.

  // An interval expression, section 9.4.6: how often what is before it is repeated.
  function Interval(t: string): Option<nat> {
    if |t| == 3 && t[0] == '{' && '0' <= t[1] <= '9' && t[2] == '}' then Some(t[1] as int - '0' as int) else None
  }

  // It becomes an x that is repeated no times.
  lemma EmptyPattern()
    ensures Translated("") == Ok(Translation("x{0}", []))
    ensures FirstToken("x{0}") == Some((Ordinary('x'), 1)) && Interval("x{0}"[1..]) == Some(0)
  {
    assert "x{0}"[1..] == "{0}";
  }
}
