// Adapting ECMAScript patterns to POSIX extended regular expressions: translate_ecmascript of
// std::regex, and how the native library reads what it emits.
//
// A pattern is parsed into pieces.  The translator emits the text of each piece and renumbers
// the groups; RegexReading.TokenLength is the reading of that text by sections 9.3.5 and 9.4 of
// POSIX.1-2017.

module RegexTranslate {
  import opened Wrappers

  // regex_constants::error_type, as far as the translator throws it
  datatype RegexError = ErrorRange

  // A C string: everything before the terminating NUL.
  type CString = s: string | forall i :: 0 <= i < |s| ==> s[i] != '\0'

  function At(s: string, i: nat): char {
    if i < |s| then s[i] else '\0'
  }

  // ----- Pieces of a pattern.

  datatype Member = Char(c: char) | Named(name: string)

  datatype Piece =
    | Plain(c: char)
    | AnyChar
    | Group(capturing: bool)
    // bracket and hyphen: whether the class has an escaped ] or -
    | Class(negated: bool, bracket: bool, members: seq<Member>, hyphen: bool, closed: bool)
    | Escape(c: char)

  predicate IsClassEscape(c: char) {
    c in {'d', 'D', 's', 'S', 'w', 'W'}
  }

  // What an escape stands for inside a class.
  function EscapeMembers(c: char): seq<Member> {
    match c
    case 'n' => [Char('\n')]
    case 'r' => [Char('\r')]
    case 't' => [Char('\t')]
    case 'f' => [Char(12 as char)]
    case 'v' => [Char(11 as char)]
    case 'd' => [Named("digit")]
    case 's' => [Named("space")]
    case 'w' => [Named("alnum"), Char('_')]
    case _ => [Char(c)]
  }

  // A class escape whose letter is at q, next to a hyphen that could make a range of it.
  predicate InRange(s: CString, q: nat, begin: nat)
    requires q < |s|
  {
    || (q >= 2 && s[q - 2] == '-' && q - 2 > begin)
    || (At(s, q + 1) == '-' && At(s, q + 2) != '\0' && At(s, q + 2) != ']')
  }

  datatype Scan = BadRange | Scan(bracket: bool, members: seq<Member>, hyphen: bool, end: nat)

  // The members of a class from q up to its closing bracket, or to the end of the pattern.
  function ScanClass(s: CString, q: nat, begin: nat): (scan: Scan)
    requires q <= |s|
    ensures scan.Scan? ==> q <= scan.end <= |s| && (scan.end < |s| ==> s[scan.end] == ']')
    decreases |s| - q
  {
    if q == |s| || s[q] == ']' then Scan(false, [], false, q)
    else if s[q] != '\\' || q + 1 == |s| then With(false, [Char(s[q])], false, ScanClass(s, q + 1, begin))
    else if s[q + 1] == ']' then With(true, [], false, ScanClass(s, q + 2, begin))
    else if s[q + 1] == '-' then With(false, [], true, ScanClass(s, q + 2, begin))
    else if IsClassEscape(s[q + 1]) && InRange(s, q + 1, begin) then BadRange
    else With(false, EscapeMembers(s[q + 1]), false, ScanClass(s, q + 2, begin))
  }

  function With(bracket: bool, members: seq<Member>, hyphen: bool, rest: Scan): Scan {
    if rest.BadRange? then BadRange
    else Scan(bracket || rest.bracket, members + rest.members, hyphen || rest.hyphen, rest.end)
  }

  datatype Next = Bad | Next(piece: Piece, next: nat)

  function ClassBegin(s: CString, p: nat): nat {
    if At(s, p + 1) == '^' then p + 2 else p + 1
  }

  // The piece at p.  An unclosed class leaves its text to be read again as ordinary pieces.
  function NextPiece(s: CString, p: nat): (next: Next)
    requires p < |s|
    ensures next.Next? ==> p < next.next <= |s|
  {
    if s[p] == '.' then Next(AnyChar, p + 1)
    else if s[p] == '(' && At(s, p + 1) == '?' && At(s, p + 2) == ':' then Next(Group(false), p + 3)
    else if s[p] == '(' then Next(Group(true), p + 1)
    else if s[p] == '[' then
      var begin := ClassBegin(s, p);
      match ScanClass(s, begin, begin)
      case BadRange => Bad
      case Scan(bracket, members, hyphen, end) =>
        Next(Class(begin == p + 2, bracket, members, hyphen, end < |s|), if end < |s| then end + 1 else p + 1)
    else if s[p] != '\\' || p + 1 == |s| then Next(Plain(s[p]), p + 1)
    else Next(Escape(s[p + 1]), p + 2)
  }

  function Parse(s: CString, p: nat): Result<seq<Piece>, RegexError>
    requires p <= |s|
    decreases |s| - p
  {
    if p == |s| then Ok([])
    else match NextPiece(s, p)
      case Bad => Err(ErrorRange)
      case Next(piece, next) =>
        match Parse(s, next)
        case Err(error) => Err(error)
        case Ok(rest) => Ok([piece] + rest)
  }

  // ----- What is emitted for them.

  function MemberText(member: Member): string {
    match member
    case Char(c) => [c]
    case Named(name) => "[:" + name + ":]"
  }

  function Contents(members: seq<Member>): string {
    if members == [] then "" else MemberText(members[0]) + Contents(members[1..])
  }

  function When(b: bool, text: string): string {
    if b then text else ""
  }

  function ClassText(piece: Piece): string
    requires piece.Class?
  {
    "[" + When(piece.negated, "^") + When(piece.bracket, "]") + Contents(piece.members)
    + When(piece.hyphen, "-") + When(piece.closed, "]")
  }

  // append_escape
  function EscapeText(c: char, inClass: bool): string {
    match c
    case 'n' => "\n"
    case 'r' => "\r"
    case 't' => "\t"
    case 'f' => [12 as char]
    case 'v' => [11 as char]
    case 'd' => if inClass then "[:digit:]" else "[[:digit:]]"
    case 's' => if inClass then "[:space:]" else "[[:space:]]"
    case 'w' => if inClass then "[:alnum:]_" else "[[:alnum:]_]"
    case 'D' => if inClass then "D" else "[^[:digit:]]"
    case 'S' => if inClass then "S" else "[^[:space:]]"
    case 'W' => if inClass then "W" else "[^[:alnum:]_]"
    case _ => if inClass then [c] else ['\\', c]
  }

  // static_cast<char>('0' + native)
  function NativeDigit(native: nat): char {
    (('0' as int + native) % 256) as char
  }

  // A back-reference to a group that is open or closed by now.
  predicate RefersBack(c: char, groups: seq<nat>) {
    '1' <= c <= '9' && c as int - '0' as int <= |groups|
  }

  function PieceText(piece: Piece, groups: seq<nat>): string {
    match piece
    case Plain(c) => [c]
    case AnyChar => "[^\n\r]"
    case Group(_) => "("
    case Class(_, _, _, _, _) => ClassText(piece)
    case Escape(c) =>
      if RefersBack(c, groups) then ['\\', NativeDigit(groups[c as int - '0' as int - 1])] else EscapeText(c, false)
  }

  // How many groups the pieces open, and the native numbers of the capturing ones.
  function Opens(pieces: seq<Piece>): nat {
    if pieces == [] then 0
    else Opens(pieces[..|pieces| - 1]) + (if pieces[|pieces| - 1].Group? then 1 else 0)
  }

  function Numbers(pieces: seq<Piece>): seq<nat> {
    if pieces == [] then []
    else
      var before := pieces[..|pieces| - 1];
      if pieces[|pieces| - 1] == Group(true) then Numbers(before) + [Opens(before) + 1] else Numbers(before)
  }

  function Text(pieces: seq<Piece>): string {
    if pieces == [] then ""
    else
      var before := pieces[..|pieces| - 1];
      Text(before) + PieceText(pieces[|pieces| - 1], Numbers(before))
  }

  // ----- The translator.

  datatype Translation = Translation(text: string, submatches: seq<nat>)

  function Translated(pattern: CString): Result<Translation, RegexError> {
    if pattern == "" then Ok(Translation("x{0}", []))
    else match Parse(pattern, 0)
      case Err(error) => Err(error)
      case Ok(pieces) => Ok(Translation(Text(pieces), Numbers(pieces)))
  }

  lemma Assoc<T>(a: seq<T>, b: seq<T>, c: seq<T>)
    ensures a + (b + c) == a + b + c
  {
  }

  lemma ContentsNone()
    ensures Contents([]) == ""
  {
  }

  lemma ContentsFirst(members: seq<Member>)
    requires members != []
    ensures Contents(members) == MemberText(members[0]) + Contents(members[1..])
  {
  }

  lemma OneMember(member: Member)
    ensures Contents([member]) == MemberText(member)
  {
    assert [member][1..] == [];
  }

  lemma EscapeInClass(c: char)
    ensures EscapeText(c, true) == Contents(EscapeMembers(c))
  {
    hide Contents;
    if c == 'w' {
      ContentsFirst(EscapeMembers(c));
      OneMember(Char('_'));
      assert EscapeMembers(c)[1..] == [Char('_')];
    } else {
      OneMember(EscapeMembers(c)[0]);
    }
  }

  lemma {:induction false} ContentsAppend(a: seq<Member>, b: seq<Member>)
    ensures Contents(a + b) == Contents(a) + Contents(b)
  {
    hide Contents, MemberText;
    if a == [] {
      ContentsNone();
      assert a + b == b;
    } else {
      ContentsAppend(a[1..], b);
      ContentsFirst(a);
      ContentsFirst(a + b);
      assert (a + b)[1..] == a[1..] + b;
      Assoc(MemberText(a[0]), Contents(a[1..]), Contents(b));
    }
  }

  lemma WithChains(b1: bool, m1: seq<Member>, h1: bool, b2: bool, m2: seq<Member>, h2: bool, rest: Scan)
    ensures With(b1, m1, h1, With(b2, m2, h2, rest)) == With(b1 || b2, m1 + m2, h1 || h2, rest)
  {
    if rest.Scan? {
      assert m1 + (m2 + rest.members) == m1 + m2 + rest.members;
    }
  }

  lemma ContentsAppendChar(members: seq<Member>, c: char)
    ensures Contents(members + [Char(c)]) == Contents(members) + [c]
  {
    ContentsAppend(members, [Char(c)]);
    OneMember(Char(c));
  }

  lemma ContentsAppendEscape(members: seq<Member>, c: char)
    ensures Contents(members + EscapeMembers(c)) == Contents(members) + EscapeText(c, true)
  {
    ContentsAppend(members, EscapeMembers(c));
    EscapeInClass(c);
  }

  // What the loop has seen of the class, in front of what is left of it.
  ghost predicate Scanned(s: CString, begin: nat, q: nat, bracket: bool, members: seq<Member>, hyphen: bool)
    requires begin <= q <= |s|
  {
    ScanClass(s, begin, begin) == With(bracket, members, hyphen, ScanClass(s, q, begin))
  }

  lemma ScansChar(s: CString, begin: nat, q: nat, bracket: bool, members: seq<Member>, hyphen: bool)
    requires begin <= q < |s| && s[q] != ']' && (s[q] != '\\' || q + 1 == |s|)
    requires Scanned(s, begin, q, bracket, members, hyphen)
    ensures Scanned(s, begin, q + 1, bracket, members + [Char(s[q])], hyphen)
  {
    WithChains(bracket, members, hyphen, false, [Char(s[q])], false, ScanClass(s, q + 1, begin));
  }

  lemma ScansBracket(s: CString, begin: nat, q: nat, bracket: bool, members: seq<Member>, hyphen: bool)
    requires begin <= q && q + 1 < |s| && s[q] == '\\' && s[q + 1] == ']'
    requires Scanned(s, begin, q, bracket, members, hyphen)
    ensures Scanned(s, begin, q + 2, true, members, hyphen)
  {
    WithChains(bracket, members, hyphen, true, [], false, ScanClass(s, q + 2, begin));
    assert members + [] == members;
  }

  lemma ScansHyphen(s: CString, begin: nat, q: nat, bracket: bool, members: seq<Member>, hyphen: bool)
    requires begin <= q && q + 1 < |s| && s[q] == '\\' && s[q + 1] == '-'
    requires Scanned(s, begin, q, bracket, members, hyphen)
    ensures Scanned(s, begin, q + 2, bracket, members, true)
  {
    WithChains(bracket, members, hyphen, false, [], true, ScanClass(s, q + 2, begin));
    assert members + [] == members;
  }

  lemma ScansEscape(s: CString, begin: nat, q: nat, bracket: bool, members: seq<Member>, hyphen: bool)
    requires begin <= q && q + 1 < |s| && s[q] == '\\' && s[q + 1] !in {']', '-'}
    requires !(IsClassEscape(s[q + 1]) && InRange(s, q + 1, begin))
    requires Scanned(s, begin, q, bracket, members, hyphen)
    ensures Scanned(s, begin, q + 2, bracket, members + EscapeMembers(s[q + 1]), hyphen)
  {
    WithChains(bracket, members, hyphen, false, EscapeMembers(s[q + 1]), false, ScanClass(s, q + 2, begin));
  }

  // The loop over one class, from its first member: its contents, flags and end.
  method TranslateClass(s: CString, begin: nat)
    returns (ok: bool, bracket: bool, contents: string, hyphen: bool, q: nat)
    requires begin <= |s|
    ensures ok <==> ScanClass(s, begin, begin).Scan?
    ensures ok ==> ScanClass(s, begin, begin).end == q
    ensures ok ==> ScanClass(s, begin, begin).bracket == bracket && ScanClass(s, begin, begin).hyphen == hyphen
    ensures ok ==> Contents(ScanClass(s, begin, begin).members) == contents
  {
    hide Contents, EscapeMembers, EscapeText;
    bracket, contents, hyphen, q := false, "", false, begin;
    ghost var members: seq<Member> := [];
    ContentsNone();
    while q < |s| && s[q] != ']'
      invariant begin <= q <= |s|
      invariant contents == Contents(members)
      invariant Scanned(s, begin, q, bracket, members, hyphen)
    {
      if s[q] != '\\' || At(s, q + 1) == '\0' {
        ScansChar(s, begin, q, bracket, members, hyphen);
        ContentsAppendChar(members, s[q]);
        contents, members := contents + [s[q]], members + [Char(s[q])];
      } else {
        q := q + 1;
        if s[q] == ']' {
          ScansBracket(s, begin, q - 1, bracket, members, hyphen);
          bracket := true;
        } else if s[q] == '-' {
          ScansHyphen(s, begin, q - 1, bracket, members, hyphen);
          hyphen := true;
        } else {
          if IsClassEscape(s[q]) && InRange(s, q, begin) {
            ok := false;
            return;
          }
          ScansEscape(s, begin, q - 1, bracket, members, hyphen);
          ContentsAppendEscape(members, s[q]);
          contents, members := contents + EscapeText(s[q], true), members + EscapeMembers(s[q]);
        }
      }
      q := q + 1;
    }
    assert members + [] == members;
    ok := true;
  }

  lemma ClassAppended(result: string, piece: Piece)
    requires piece.Class?
    ensures result + "[" + When(piece.negated, "^") + When(piece.bracket, "]") + Contents(piece.members)
            + When(piece.hyphen, "-") + When(piece.closed, "]") == result + ClassText(piece)
  {
    hide Contents, When;
  }

  lemma PieceAppended(pieces: seq<Piece>, piece: Piece)
    ensures Text(pieces + [piece]) == Text(pieces) + PieceText(piece, Numbers(pieces))
    ensures Opens(pieces + [piece]) == Opens(pieces) + (if piece.Group? then 1 else 0)
    ensures Numbers(pieces + [piece]) ==
            if piece == Group(true) then Numbers(pieces) + [Opens(pieces) + 1] else Numbers(pieces)
  {
    hide PieceText;
    assert (pieces + [piece])[..|pieces|] == pieces;
  }

  function After(pieces: seq<Piece>, rest: Result<seq<Piece>, RegexError>): Result<seq<Piece>, RegexError> {
    if rest.Ok? then Ok(pieces + rest.value) else rest
  }

  lemma PieceParsed(s: CString, p: nat, pieces: seq<Piece>)
    requires p < |s| && NextPiece(s, p).Next?
    ensures After(pieces, Parse(s, p)) ==
            After(pieces + [NextPiece(s, p).piece], Parse(s, NextPiece(s, p).next))
  {
    var rest := Parse(s, NextPiece(s, p).next);
    if rest.Ok? {
      Assoc(pieces, [NextPiece(s, p).piece], rest.value);
    }
  }

  // What the loop has translated, in front of what is left.
  ghost predicate Progress(
    s: CString, p: nat, pieces: seq<Piece>, result: string, submatches: seq<nat>, nativeSubmatches: nat)
    requires p <= |s|
  {
    && Parse(s, 0) == After(pieces, Parse(s, p))
    && result == Text(pieces) && submatches == Numbers(pieces) && nativeSubmatches == Opens(pieces)
  }

  lemma Progresses(
    s: CString, p: nat, pieces: seq<Piece>, result: string, submatches: seq<nat>, nativeSubmatches: nat,
    piece: Piece, next: nat, result': string, submatches': seq<nat>, nativeSubmatches': nat)
    requires p < |s| && Progress(s, p, pieces, result, submatches, nativeSubmatches)
    requires NextPiece(s, p) == Next(piece, next)
    requires result' == result + PieceText(piece, submatches)
    requires nativeSubmatches' == nativeSubmatches + (if piece.Group? then 1 else 0)
    requires submatches' == if piece == Group(true) then submatches + [nativeSubmatches'] else submatches
    ensures Progress(s, next, pieces + [piece], result', submatches', nativeSubmatches')
  {
    hide PieceText;
    PieceParsed(s, p, pieces);
    PieceAppended(pieces, piece);
  }

  lemma Begins(s: CString)
    ensures Progress(s, 0, [], "", [], 0)
  {
    if Parse(s, 0).Ok? {
      assert [] + Parse(s, 0).value == Parse(s, 0).value;
    }
  }

  lemma Ends(s: CString, pieces: seq<Piece>, result: string, submatches: seq<nat>, nativeSubmatches: nat)
    requires s != "" && Progress(s, |s|, pieces, result, submatches, nativeSubmatches)
    ensures Translated(s) == Ok(Translation(result, submatches))
  {
    assert pieces + [] == pieces;
  }

  lemma Fails(s: CString, p: nat, pieces: seq<Piece>, result: string, submatches: seq<nat>, nativeSubmatches: nat)
    requires s != "" && p < |s| && Progress(s, p, pieces, result, submatches, nativeSubmatches)
    requires NextPiece(s, p).Bad?
    ensures Translated(s) == Err(ErrorRange)
  {
  }

  method Translate(pattern: CString) returns (translation: Result<Translation, RegexError>)
    ensures translation == Translated(pattern)
  {
    if pattern == "" {
      return Ok(Translation("x{0}", []));
    }
    hide Progress, Translated, Contents, EscapeText, When, Parse, ScanClass, InRange;
    Begins(pattern);
    var result, submatches: seq<nat>, nativeSubmatches := "", [], 0;
    var p := 0;
    ghost var pieces: seq<Piece> := [];
    while p < |pattern|
      invariant p <= |pattern|
      invariant Progress(pattern, p, pieces, result, submatches, nativeSubmatches)
      decreases |pattern| - p
    {
      ghost var was, groups, count := result, submatches, nativeSubmatches;
      ghost var next := NextPiece(pattern, p);
      ghost var start := p;
      if pattern[p] == '.' {
        result := result + "[^\n\r]";
        p := p + 1;
      } else if pattern[p] == '(' && At(pattern, p + 1) == '?' && At(pattern, p + 2) == ':' {
        result := result + "(";
        nativeSubmatches := nativeSubmatches + 1;
        p := p + 3;
      } else if pattern[p] == '(' {
        result := result + "(";
        nativeSubmatches := nativeSubmatches + 1;
        submatches := submatches + [nativeSubmatches];
        p := p + 1;
      } else if pattern[p] == '[' {
        var negated := At(pattern, p + 1) == '^';
        var ok, bracket, contents, hyphen, q := TranslateClass(pattern, if negated then p + 2 else p + 1);
        if !ok {
          Fails(pattern, p, pieces, result, submatches, nativeSubmatches);
          return Err(ErrorRange);
        }
        ClassAppended(result, next.piece);
        result := result + "[" + When(negated, "^") + When(bracket, "]") + contents + When(hyphen, "-");
        result := result + When(q < |pattern|, "]");
        p := if q < |pattern| then q + 1 else p + 1;
      } else if pattern[p] != '\\' || At(pattern, p + 1) == '\0' {
        result := result + [pattern[p]];
        p := p + 1;
      } else {
        var escaped := pattern[p + 1];
        if '1' <= escaped <= '9' && escaped as int - '0' as int <= |submatches| {
          result := result + ['\\', NativeDigit(submatches[escaped as int - '0' as int - 1])];
        } else {
          result := result + EscapeText(escaped, false);
        }
        p := p + 2;
      }
      Progresses(pattern, start, pieces, was, groups, count, next.piece, p, result, submatches, nativeSubmatches);
      pieces := pieces + [next.piece];
    }
    Ends(pattern, pieces, result, submatches, nativeSubmatches);
    translation := Ok(Translation(result, submatches));
  }
}
