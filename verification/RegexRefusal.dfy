// When the translator throws: for a class escape at an end of a range, and for some that are not.

module RegexRefusal {
  import opened Wrappers
  import opened RegexTranslate
  import opened RegexRanges

  // ----- On the written class.

  // A class escape right behind a hyphen that is escaped, or does not come first in the class.
  predicate BehindHyphen(w: seq<Atom>, i: nat)
    requires i < |w|
  {
    && w[i].origin.Shorthand? && i > 0 && w[i - 1].member == HYPHEN
    && (w[i - 1].origin.Escaped? || i > 1)
  }

  // A class escape in front of a plain hyphen that does not come last.
  predicate BeforeHyphen(w: seq<Atom>, i: nat)
    requires i < |w|
  {
    w[i].origin.Shorthand? && i + 2 < |w| && IsHyphen(w[i + 1])
  }

  predicate IsRefused(w: seq<Atom>, i: nat)
    requires i < |w|
  {
    BehindHyphen(w, i) || BeforeHyphen(w, i)
  }

  predicate EndsInEscape(item: Item<Atom>) {
    item.Range? && (item.low.origin.Shorthand? || item.high.origin.Shorthand?)
  }

  predicate HasEscapeRange(w: seq<Atom>) {
    exists k :: 0 <= k < |Meant(w)| && EndsInEscape(Meant(w)[k])
  }

  lemma HasEscapeRangeStep(w: seq<Atom>)
    requires w != []
    ensures HasEscapeRange(w) <==>
              if |w| > 2 && IsHyphen(w[1]) then EndsInEscape(Range(w[0], w[2])) || HasEscapeRange(w[3..])
              else HasEscapeRange(w[1..])
  {
    var n := if |w| > 2 && IsHyphen(w[1]) then 3 else 1;
    var first, rest := Meant(w)[0], Meant(w[n..]);
    assert Meant(w) == [first] + rest;
    if HasEscapeRange(w[n..]) {
      var k :| 0 <= k < |rest| && EndsInEscape(rest[k]);
      assert EndsInEscape(Meant(w)[k + 1]);
    }
    if HasEscapeRange(w) && !EndsInEscape(first) {
      var k :| 0 <= k < |Meant(w)| && EndsInEscape(Meant(w)[k]);
      assert EndsInEscape(rest[k - 1]);
    }
    assert EndsInEscape(first) ==> EndsInEscape(Meant(w)[0]);
  }

  // No class escape stands for a hyphen.
  predicate WellWritten(w: seq<Atom>) {
    forall i :: 0 <= i < |w| && w[i].origin.Shorthand? ==> w[i].member != HYPHEN
  }

  // A class escape in front of such a hyphen is an end of a range.
  lemma {:induction false} BeforeIsEnd(w: seq<Atom>, i: nat)
    requires WellWritten(w) && i < |w| && BeforeHyphen(w, i)
    ensures HasEscapeRange(w)
  {
    hide HasEscapeRange;
    HasEscapeRangeStep(w);
    var n := if |w| > 2 && IsHyphen(w[1]) then 3 else 1;
    if i >= n {
      assert w[n..][i - n] == w[i];
      BeforeIsEnd(w[n..], i - n);
    }
  }

  lemma RefusedFurther(w: seq<Atom>, n: nat, i: nat)
    requires n <= |w| && i < |w| - n && IsRefused(w[n..], i)
    ensures IsRefused(w, n + i)
  {
  }

  // At every end of a range that is a class escape the pattern is refused.
  lemma {:induction false} EndIsRefused(w: seq<Atom>) returns (i: nat)
    requires HasEscapeRange(w)
    ensures i < |w| && IsRefused(w, i)
  {
    hide HasEscapeRange;
    if w == [] {
      assert false by { NoRange(); }
    }
    HasEscapeRangeStep(w);
    if |w| > 2 && IsHyphen(w[1]) && EndsInEscape(Range(w[0], w[2])) {
      i := if w[0].origin.Shorthand? then 0 else 2;
    } else {
      var n := if |w| > 2 && IsHyphen(w[1]) then 3 else 1;
      var j := EndIsRefused(w[n..]);
      RefusedFurther(w, n, j);
      i := n + j;
    }
  }

  lemma NoRange()
    ensures !HasEscapeRange([])
  {
  }

  predicate HasRefused(w: seq<Atom>, from: nat) {
    exists i :: from <= i < |w| && IsRefused(w, i)
  }

  predicate HasBehind(w: seq<Atom>) {
    exists i :: 0 <= i < |w| && BehindHyphen(w, i)
  }

  lemma RefusedIsRangeOrBehind(w: seq<Atom>)
    requires WellWritten(w)
    ensures HasRefused(w, 0) <==> HasEscapeRange(w) || HasBehind(w)
  {
    hide HasEscapeRange;
    if HasRefused(w, 0) {
      var i :| 0 <= i < |w| && IsRefused(w, i);
      if BeforeHyphen(w, i) {
        BeforeIsEnd(w, i);
      }
    }
    if HasEscapeRange(w) {
      var i := EndIsRefused(w);
    }
    if HasBehind(w) {
      var i :| 0 <= i < |w| && BehindHyphen(w, i);
      assert IsRefused(w, i);
    }
  }

  // ----- On the pattern.

  // `before` was written from `begin` up to q.
  predicate WrittenUpTo(s: CString, begin: nat, q: nat, before: seq<Atom>) {
    && begin <= q <= |s| && (before == [] <==> q == begin)
    && (before != [] ==>
          var last := before[|before| - 1];
          && (s[q - 1] == '-' <==> last.member == HYPHEN)
          && (last.member == HYPHEN ==> (q - 1 > begin <==> last.origin.Escaped? || |before| > 1)))
  }

  lemma UpToChar(s: CString, begin: nat, q: nat, before: seq<Atom>)
    requires WrittenUpTo(s, begin, q, before) && q < |s|
    ensures WrittenUpTo(s, begin, q + 1, before + [Atom(Char(s[q]), AsIs)])
  {
  }

  lemma UpToEscape(s: CString, begin: nat, q: nat, before: seq<Atom>)
    requires WrittenUpTo(s, begin, q, before) && q + 1 < |s| && s[q] == '\\'
    ensures WrittenUpTo(s, begin, q + 2, before + EscapeAtoms(s[q + 1]))
  {
    var atoms := EscapeAtoms(s[q + 1]);
    assert atoms != [] && (before + atoms)[|before + atoms| - 1] == atoms[|atoms| - 1];
  }

  // The two halves of the translator's test at a class escape, on the atoms around it.
  lemma BehindExactly(s: CString, begin: nat, q: nat, before: seq<Atom>, atoms: seq<Atom>, rest: seq<Atom>)
    requires WrittenUpTo(s, begin, q, before) && IsClassAtoms(atoms)
    ensures var w := before + atoms + rest;
            && (q > 0 && s[q - 1] == '-' && q - 1 > begin <==> BehindHyphen(w, |before|))
            && (|atoms| == 2 ==> !BehindHyphen(w, |before| + 1))
  {
    var w := before + atoms + rest;
    assert before != [] ==> w[|before| - 1] == before[|before| - 1];
  }

  lemma BeforeExactly(s: CString, q: nat, before: seq<Atom>, atoms: seq<Atom>)
    requires q <= |s| && IsClassAtoms(atoms)
    ensures var w := before + atoms + Written(s, q);
            && (At(s, q) == '-' && At(s, q + 1) != '\0' && At(s, q + 1) != ']'
                <==> BeforeHyphen(w, |before| + |atoms| - 1))
            && (|atoms| == 2 ==> !BeforeHyphen(w, |before|))
  {
    var w, rest := before + atoms + Written(s, q), Written(s, q);
    assert |atoms| == 2 ==> w[|before| + 1] == atoms[1];
    assert rest != [] ==> w[|before| + |atoms|] == rest[0];
  }

  predicate IsClassAtoms(atoms: seq<Atom>) {
    && 1 <= |atoms| <= 2
    && forall i :: 0 <= i < |atoms| ==> atoms[i].origin.Shorthand? && atoms[i].member != HYPHEN
  }

  lemma InRangeExactly(s: CString, begin: nat, q: nat, before: seq<Atom>)
    requires WrittenUpTo(s, begin, q, before) && q + 1 < |s| && s[q] == '\\' && IsClassEscape(s[q + 1])
    ensures var atoms := EscapeAtoms(s[q + 1]);
            var w := before + atoms + Written(s, q + 2);
            InRange(s, q + 1, begin) <==>
              IsRefused(w, |before|) || IsRefused(w, |before| + |atoms| - 1)
  {
    var atoms := EscapeAtoms(s[q + 1]);
    assert IsClassAtoms(atoms);
    hide EscapeAtoms, WrittenUpTo, Written, BehindHyphen, BeforeHyphen;
    BehindExactly(s, begin, q, before, atoms, Written(s, q + 2));
    BeforeExactly(s, q + 2, before, atoms);
  }

  lemma OnlyEscapesRefused(before: seq<Atom>, atoms: seq<Atom>, rest: seq<Atom>)
    requires 1 <= |atoms| <= 2
    ensures var w := before + atoms + rest;
            HasRefused(w, |before|) <==>
              || IsRefused(w, |before|) || IsRefused(w, |before| + |atoms| - 1)
              || HasRefused(w, |before + atoms|)
  {
  }

  lemma RefusesChar(s: CString, begin: nat, q: nat, before: seq<Atom>)
    requires q < |s| && s[q] != ']' && (s[q] != '\\' || q + 1 == |s|)
    requires var next := before + [Atom(Char(s[q]), AsIs)];
             ScanClass(s, q + 1, begin).BadRange? <==> HasRefused(next + Written(s, q + 1), |next|)
    ensures ScanClass(s, q, begin).BadRange? <==> HasRefused(before + Written(s, q), |before|)
  {
    hide Written, ScanClass, IsRefused, HasRefused;
    var atoms, rest := [Atom(Char(s[q]), AsIs)], Written(s, q + 1);
    ScanStep(s, q, begin);
    WrittenChar(s, q);
    OnlyEscapesRefused(before, atoms, rest);
    PlainIsAccepted(before + atoms + rest, |before|);
    Assoc(before, atoms, rest);
  }

  lemma RefusesEscape(s: CString, begin: nat, q: nat, before: seq<Atom>)
    requires WrittenUpTo(s, begin, q, before) && q + 1 < |s| && s[q] == '\\'
    requires var next := before + EscapeAtoms(s[q + 1]);
             ScanClass(s, q + 2, begin).BadRange? <==> HasRefused(next + Written(s, q + 2), |next|)
    ensures ScanClass(s, q, begin).BadRange? <==> HasRefused(before + Written(s, q), |before|)
  {
    hide Written, WrittenUpTo, ScanClass, InRange, EscapeMembers, IsRefused, HasRefused, EscapeAtoms;
    var atoms, rest := EscapeAtoms(s[q + 1]), Written(s, q + 2);
    ScanStep(s, q, begin);
    WrittenEscape(s, q);
    EscapeCount(s[q + 1]);
    OnlyEscapesRefused(before, atoms, rest);
    Assoc(before, atoms, rest);
    if IsClassEscape(s[q + 1]) {
      InRangeExactly(s, begin, q, before);
    } else {
      PlainIsAccepted(before + atoms + rest, |before|);
    }
  }

  lemma {:induction false} ScanRefuses(s: CString, begin: nat, q: nat, before: seq<Atom>)
    requires WrittenUpTo(s, begin, q, before)
    ensures ScanClass(s, q, begin).BadRange? <==> HasRefused(before + Written(s, q), |before|)
    decreases |s| - q
  {
    if q < |s| && s[q] != ']' {
      hide Written, ScanClass, IsRefused, HasRefused, EscapeAtoms;
      if s[q] != '\\' || q + 1 == |s| {
        UpToChar(s, begin, q, before);
        ScanRefuses(s, begin, q + 1, before + [Atom(Char(s[q]), AsIs)]);
        RefusesChar(s, begin, q, before);
      } else {
        UpToEscape(s, begin, q, before);
        ScanRefuses(s, begin, q + 2, before + EscapeAtoms(s[q + 1]));
        RefusesEscape(s, begin, q, before);
      }
    } else {
      assert before + [] == before;
    }
  }

  lemma EscapeCount(c: char)
    ensures 1 <= |EscapeAtoms(c)| <= 2
    ensures !IsClassEscape(c) ==> |EscapeAtoms(c)| == 1 && !EscapeAtoms(c)[0].origin.Shorthand?
    ensures WellWritten(EscapeAtoms(c))
  {
  }

  lemma PlainIsAccepted(w: seq<Atom>, i: nat)
    requires i < |w| && !w[i].origin.Shorthand?
    ensures !IsRefused(w, i)
  {
  }

  lemma {:induction false} WrittenWell(s: CString, q: nat)
    requires q <= |s|
    ensures WellWritten(Written(s, q))
    decreases |s| - q
  {
    if q < |s| && s[q] != ']' {
      hide Written, EscapeAtoms;
      if s[q] != '\\' || q + 1 == |s| {
        WrittenChar(s, q);
        WrittenWell(s, q + 1);
      } else {
        WrittenEscape(s, q);
        EscapeCount(s[q + 1]);
        WrittenWell(s, q + 2);
      }
    }
  }

  // Main result: a class makes the translator throw if and only if a range of it ends in a class
  // escape, or a class escape comes right behind a hyphen that is escaped or not the first member.
  lemma RefusedExactly(s: CString, p: nat)
    requires p < |s| && s[p] == '['
    ensures NextPiece(s, p).Bad? <==>
              HasEscapeRange(Written(s, ClassBegin(s, p))) || HasBehind(Written(s, ClassBegin(s, p)))
  {
    hide Written, HasEscapeRange, HasBehind, HasRefused, ScanClass;
    var begin := ClassBegin(s, p);
    assert WrittenUpTo(s, begin, begin, []);
    ScanRefuses(s, begin, begin, []);
    assert [] + Written(s, begin) == Written(s, begin);
    WrittenWell(s, begin);
    RefusedIsRangeOrBehind(Written(s, begin));
  }

  // So a range that ends in a class escape always throws.
  lemma EscapeRangeIsRefused(s: CString, p: nat)
    requires p < |s| && s[p] == '[' && HasEscapeRange(Written(s, ClassBegin(s, p)))
    ensures NextPiece(s, p).Bad?
  {
    RefusedExactly(s, p);
  }

  // [\-\d] is a hyphen and the digits, without a range, and throws all the same.
  lemma RefusedWithoutRange(pattern: CString)
    requires pattern == "[\\-\\d]"
    ensures Translated(pattern) == Err(ErrorRange)
    ensures Meant(Written(pattern, 1)) ==
            [Single(Atom(HYPHEN, Escaped)), Single(Atom(Named("digit"), Shorthand))]
  {
    var w := Written(pattern, 1);
    assert Written(pattern, 5) == [];
    WrittenEscape(pattern, 1);
    WrittenEscape(pattern, 3);
    assert EscapeAtoms('d') == [Atom(Named("digit"), Shorthand)];
    assert w == [Atom(HYPHEN, Escaped), Atom(Named("digit"), Shorthand)];
    MeantSingle(w[1], []);
    MeantSingle(w[0], [w[1]]);
    assert [w[1]] + [] == [w[1]] && [w[0]] + [w[1]] == w;
    assert BehindHyphen(w, 1);
    RefusedExactly(pattern, 0);
  }
}
