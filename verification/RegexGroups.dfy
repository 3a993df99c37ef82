// Which group a marker of a replacement stands for, and which one a token is.

module RegexGroups {
  import opened Wrappers
  import opened RegexTranslate
  import RegexReading
  import RegexNumbering
  import opened RegexLoops

  // The piece that opens the capturing group k of the pattern, counted from 1.
  predicate OpensGroup(pieces: seq<Piece>, m: nat, k: nat) {
    m < |pieces| && pieces[m] == Group(true) && |Numbers(pieces[..m])| == k - 1
  }

  // The text that a native group matched; nothing for one that took no part.
  function MatchedText(subject: string, found: Found, n: nat): string
    requires FoundOk(found, |subject|, |found.spans|) && n < |found.spans|
  {
    if found.spans[n].so == -1 then ""
    else subject[found.offset + found.spans[n].so..found.offset + found.spans[n].eo]
  }

  // The native number of the parenthesis that the text has at an offset.
  function NativeAt(text: string, at: nat): nat
    requires RegexReading.NativeBefore(text, at).Some?
  {
    RegexReading.NativeBefore(text, at).value + 1
  }

  function Digit(k: nat): char
    requires k <= 9
  {
    ('0' as int + k) as char
  }

  // Main result: for a pattern whose classes are closed and readable, the marker of the k-th
  // capturing group stands for what the native group matched that this group's own parenthesis
  // opens, and a token of that group is the same.
  lemma MarkerIsGroup(pattern: CString, pieces: seq<Piece>, subject: string, found: Found, k: nat) returns (m: nat)
    requires RegexNumbering.Parsed(pattern, pieces) && RegexNumbering.AllClosed(pieces)
    requires RegexNumbering.ClassesReadable(pieces)
    requires FoundOk(found, |subject|, Opens(pieces) + 1) && 1 <= k <= |Numbers(pieces)| && k <= 9
    ensures OpensGroup(pieces, m, k)
    ensures var text, at := RegexTranslate.Text(pieces), RegexNumbering.Offset(pieces, m);
            && at < |text| && text[at] == '(' && RegexReading.NativeBefore(text, at).Some?
            && NativeAt(text, at) < |found.spans|
            && Expansion(subject, found, Numbers(pieces), ['$', Digit(k)]) == MatchedText(subject, found, NativeAt(text, at))
            && Token(subject, found, Numbers(pieces), k) == MatchedText(subject, found, NativeAt(text, at))
  {
    hide RegexTranslate.Text, Numbers, Opens, RegexReading.NativeBefore, RegexNumbering.Parsed, Expansion;
    m := RegexNumbering.GroupsNumberedNatively(pattern, pieces, k - 1);
    RegexNumbering.NumbersIncrease(pieces);
    GroupTextIs(subject, found, Numbers(pieces), k);
    MarkerAlone(subject, found, Numbers(pieces), Digit(k));
  }

  lemma GroupTextIs(subject: string, found: Found, submatches: seq<nat>, k: nat)
    requires FoundOk(found, |subject|, |found.spans|) && 1 <= k <= |submatches| && submatches[k - 1] < |found.spans|
    ensures GroupText(subject, found, submatches, k) == MatchedText(subject, found, submatches[k - 1])
  {
    assert SpanOk(found.spans[submatches[k - 1]], |subject| - found.offset);
  }

  lemma MarkerAlone(subject: string, found: Found, submatches: seq<nat>, marker: char)
    requires FoundOk(found, |subject|, |found.spans|)
    ensures Expansion(subject, found, submatches, ['$', marker]) == Marker(subject, found, submatches, marker)
  {
    hide Marker;
    assert ['$', marker][2..] == "";
    assert Marker(subject, found, submatches, marker) + "" == Marker(subject, found, submatches, marker);
  }

  // A marker of a group that the pattern does not have stands for nothing, and any other
  // character behind a dollar sign for both.
  lemma OtherMarkers(subject: string, found: Found, submatches: seq<nat>, marker: char)
    requires FoundOk(found, |subject|, |found.spans|)
    ensures '0' <= marker <= '9' && marker as int - '0' as int > |submatches| ==>
              Expansion(subject, found, submatches, ['$', marker]) == ""
    ensures !('0' <= marker <= '9') && marker != '$' && marker != '&' ==>
              Expansion(subject, found, submatches, ['$', marker]) == ['$', marker]
  {
    MarkerAlone(subject, found, submatches, marker);
  }

  // Markers and text are taken one after the other.
  lemma {:induction false} ExpansionSplits(subject: string, found: Found, submatches: seq<nat>, a: string, b: string)
    requires FoundOk(found, |subject|, |found.spans|)
    requires IsWhole(a)
    ensures Expansion(subject, found, submatches, a + b)
            == Expansion(subject, found, submatches, a) + Expansion(subject, found, submatches, b)
  {
    hide Marker;
    if a == "" {
      assert a + b == b;
    } else {
      var n := if a[0] != '$' then 1 else 2;
      ExpansionSplits(subject, found, submatches, a[n..], b);
      assert (a + b)[n..] == a[n..] + b;
    }
  }

  // No marker is cut in two at the end.
  predicate IsWhole(replacement: string) {
    if replacement == "" then true
    else if replacement[0] != '$' then IsWhole(replacement[1..])
    else |replacement| > 1 && IsWhole(replacement[2..])
  }

  // Two groups are swapped by $2$1.
  lemma SwappedGroups(subject: string, found: Found, submatches: seq<nat>)
    requires FoundOk(found, |subject|, |found.spans|) && |submatches| == 2
    requires submatches[0] < |found.spans| && submatches[1] < |found.spans|
    ensures Expansion(subject, found, submatches, "$2$1")
            == MatchedText(subject, found, submatches[1]) + MatchedText(subject, found, submatches[0])
  {
    assert "$2$1" == "$2" + "$1" && "$2"[2..] == "";
    assert IsWhole("$2");
    hide Expansion;
    ExpansionSplits(subject, found, submatches, "$2", "$1");
    MarkerAlone(subject, found, submatches, '2');
    MarkerAlone(subject, found, submatches, '1');
    GroupTextIs(subject, found, submatches, 1);
    GroupTextIs(subject, found, submatches, 2);
  }

  // The i-th token of a group is what the group matched in the i-th match.
  lemma {:induction false} TokenAt(
    subject: string, founds: seq<Found>, count: nat, pos: nat, submatches: seq<nat>, submatch: int, i: nat)
    requires Ordered(founds, |subject|, count, pos) && i < |founds|
    ensures FoundOk(founds[i], |subject|, count)
    ensures |GroupTokens(subject, founds, count, pos, submatches, submatch)| == |founds|
    ensures GroupTokens(subject, founds, count, pos, submatches, submatch)[i] == Token(subject, founds[i], submatches, submatch)
    decreases |founds|
  {
    hide Token;
    if |founds| > 1 {
      TokenAt(subject, founds[1..], count, End(founds[0]), submatches, submatch, if i == 0 then 0 else i - 1);
    } else {
      assert founds[1..] == [];
    }
  }

  // A token of no group is empty.
  lemma NoGroupToken(subject: string, found: Found, submatches: seq<nat>, submatch: int)
    requires FoundOk(found, |subject|, |found.spans|) && (submatch < -1 || submatch > |submatches|)
    ensures Token(subject, found, submatches, submatch) == ""
  {
  }
}
