// The ranges of a translated class.  The translator takes an escaped bracket or hyphen out of
// its place, so what is next to a hyphen can change; this says exactly when no range does.

module RegexRanges {
  import opened Wrappers
  import opened RegexTranslate
  import RegexReading

  // How a member was written: as it is, behind a backslash, or by a class escape.
  datatype Origin = AsIs | Escaped | Shorthand

  datatype Atom = Atom(member: Member, origin: Origin)

  datatype Item<+T> = Single(one: T) | Range(low: T, high: T)

  const HYPHEN := Char('-')
  const BRACKET := Char(']')

  predicate IsHyphen(atom: Atom) {
    atom.member == HYPHEN && !atom.origin.Escaped?
  }

  // What the translator takes out of its place.
  predicate Displaced(atom: Atom) {
    atom.origin.Escaped? && (atom.member == HYPHEN || atom.member == BRACKET)
  }

  // ----- What is written: the members of a class from q on.

  function Atoms(members: seq<Member>, origin: Origin): seq<Atom> {
    seq(|members|, i requires 0 <= i < |members| => Atom(members[i], origin))
  }

  // The members that an escape stands for.
  function EscapeAtoms(c: char): seq<Atom> {
    Atoms(EscapeMembers(c), if IsClassEscape(c) then Shorthand else Escaped)
  }

  function Written(s: CString, q: nat): seq<Atom>
    requires q <= |s|
    decreases |s| - q
  {
    if q == |s| || s[q] == ']' then []
    else if s[q] != '\\' || q + 1 == |s| then [Atom(Char(s[q]), AsIs)] + Written(s, q + 1)
    else EscapeAtoms(s[q + 1]) + Written(s, q + 2)
  }

  // ClassRanges, section 22.2.1 of ECMA-262: a hyphen between two members makes a range.
  function Meant(w: seq<Atom>): seq<Item<Atom>> {
    if w == [] then []
    else if |w| > 2 && IsHyphen(w[1]) then [Range(w[0], w[2])] + Meant(w[3..])
    else [Single(w[0])] + Meant(w[1..])
  }

  predicate InOrder(low: Member, high: Member) {
    low.Char? && high.Char? && low.c <= high.c
  }

  // ----- What the native library reads: section 9.3.5, item 7, of POSIX.1-2017.  A hyphen stands
  // for itself only first, last, or as the end of a range; anywhere else nothing is said, and a
  // range whose ends are not two characters in order is refused.

  function Front<T>(item: Item<T>, items: Option<seq<Item<T>>>): Option<seq<Item<T>>> {
    if items.Some? then Some([item] + items.value) else None
  }

  function Native(members: seq<Member>, first: bool): Option<seq<Item<Member>>> {
    if members == [] then Some([])
    else if members[0] == HYPHEN && !first && |members| > 1 then None
    else if |members| > 2 && members[1] == HYPHEN then
      if !InOrder(members[0], members[2]) then None
      else Front(Range(members[0], members[2]), Native(members[3..], false))
    else Front(Single(members[0]), Native(members[1..], false))
  }

  // ----- What is emitted, and what it should be read as.

  function Kept(w: seq<Atom>): seq<Member> {
    if w == [] then []
    else if Displaced(w[0]) then Kept(w[1..])
    else [w[0].member] + Kept(w[1..])
  }

  function Optional<T>(b: bool, one: T): seq<T> {
    if b then [one] else []
  }

  predicate Has(w: seq<Atom>, member: Member) {
    Atom(member, Escaped) in w
  }

  function Emitted(w: seq<Atom>): seq<Member> {
    Optional(Has(w, BRACKET), BRACKET) + (Kept(w) + Optional(Has(w, HYPHEN), HYPHEN))
  }

  function Bare(item: Item<Atom>): Item<Member> {
    match item
    case Single(one) => Single(one.member)
    case Range(low, high) => Range(low.member, high.member)
  }

  // The items without the displaced members.
  function Staying(items: seq<Item<Atom>>): seq<Item<Member>> {
    if items == [] then []
    else if items[0].Single? && Displaced(items[0].one) then Staying(items[1..])
    else [Bare(items[0])] + Staying(items[1..])
  }

  // Item by item, the displaced bracket first and the displaced hyphen last.
  function Moved(w: seq<Atom>): seq<Item<Member>> {
    Optional(Has(w, BRACKET), Single(BRACKET)) + (Staying(Meant(w)) + Optional(Has(w, HYPHEN), Single(HYPHEN)))
  }

  // ----- When it is.

  // No range ends in an escaped bracket or hyphen, its ends are characters in order, and each plain hyphen that is no
  // range operator or end comes first or last in what is emitted.
  predicate Plainly(w: seq<Atom>, first: bool, hyphen: bool) {
    if w == [] then true
    else if |w| > 2 && IsHyphen(w[1]) then
      && !Displaced(w[0]) && !Displaced(w[2]) && InOrder(w[0].member, w[2].member)
      && (IsHyphen(w[0]) ==> first) && Plainly(w[3..], false, hyphen)
    else
      && (IsHyphen(w[0]) ==> first || (Kept(w[1..]) == [] && !hyphen))
      && Plainly(w[1..], first && Displaced(w[0]), hyphen)
  }

  // ----- Members are neither lost nor invented.

  function Weight<T>(items: seq<Item<T>>): nat {
    if items == [] then 0 else (if items[0].Single? then 1 else 3) + Weight(items[1..])
  }

  lemma {:induction false} NativeWeight(members: seq<Member>, first: bool)
    requires Native(members, first).Some?
    ensures Weight(Native(members, first).value) == |members|
  {
    if members != [] {
      if |members| > 2 && members[1] == HYPHEN {
        NativeWeight(members[3..], false);
      } else {
        NativeWeight(members[1..], false);
      }
    }
  }

  lemma {:induction false} StayingWeight(w: seq<Atom>)
    ensures Weight(Staying(Meant(w))) >= |Kept(w)|
  {
    if w != [] {
      if |w| > 2 && IsHyphen(w[1]) {
        StayingWeight(w[3..]);
        KeptThree(w);
      } else {
        StayingWeight(w[1..]);
      }
    }
  }

  lemma KeptCons(atom: Atom, w: seq<Atom>)
    ensures Kept([atom] + w) == Optional(!Displaced(atom), atom.member) + Kept(w)
    ensures forall member :: Has([atom] + w, member) <==> atom == Atom(member, Escaped) || Has(w, member)
  {
    assert ([atom] + w)[1..] == w;
  }

  lemma KeptFirst(w: seq<Atom>)
    requires w != []
    ensures Kept(w) == Optional(!Displaced(w[0]), w[0].member) + Kept(w[1..])
  {
  }

  lemma KeptThree(w: seq<Atom>)
    requires |w| > 2 && IsHyphen(w[1])
    ensures Kept(w) == Optional(!Displaced(w[0]), w[0].member)
                       + ([HYPHEN] + (Optional(!Displaced(w[2]), w[2].member) + Kept(w[3..])))
  {
    hide Kept;
    KeptFirst(w);
    KeptFirst(w[1..]);
    KeptFirst(w[2..]);
    assert w[1..][1..] == w[2..] && w[2..][1..] == w[3..];
  }

  lemma {:induction false} WeightAppend<T>(a: seq<Item<T>>, b: seq<Item<T>>)
    ensures Weight(a + b) == Weight(a) + Weight(b)
  {
    if a == [] {
      assert a + b == b;
    } else {
      WeightAppend(a[1..], b);
      assert (a + b)[1..] == a[1..] + b;
    }
  }

  // A range with a displaced end cannot be read back.
  lemma BrokenRange(w: seq<Atom>, first: bool, hyphen: bool)
    requires |w| > 2 && IsHyphen(w[1]) && (Displaced(w[0]) || Displaced(w[2]))
    ensures Native(Kept(w) + Optional(hyphen, HYPHEN), first)
            != Some(Staying(Meant(w)) + Optional(hyphen, Single(HYPHEN)))
  {
    var members := Kept(w) + Optional(hyphen, HYPHEN);
    var expected := Staying(Meant(w));
    KeptThree(w);
    StayingWeight(w[3..]);
    assert Weight(expected) > |Kept(w)|;
    WeightAppend(expected, Optional(hyphen, Single(HYPHEN)));
    if Native(members, first).Some? {
      NativeWeight(members, first);
    }
  }

  // A hyphen that would come next, with something after it.
  lemma {:induction false} HyphenAhead(w: seq<Atom>, hyphen: bool)
    requires var k := Kept(w) + Optional(hyphen, HYPHEN); |k| > 1 && k[0] == HYPHEN
    ensures !Plainly(w, false, hyphen)
  {
    if Displaced(w[0]) && !(|w| > 2 && IsHyphen(w[1])) {
      HyphenAhead(w[1..], hyphen);
    }
  }

  // ----- Item by item.

  lemma ReadSingle(member: Member, k: seq<Member>, first: bool)
    requires member == HYPHEN ==> first || k == []
    requires !(|k| > 1 && k[0] == HYPHEN)
    ensures Native([member] + k, first) == Front(Single(member), Native(k, false))
  {
    assert ([member] + k)[1..] == k;
  }

  lemma ReadOther(member: Member, k: seq<Member>, first: bool, items: seq<Item<Member>>)
    requires |k| > 1 && k[0] == HYPHEN
    ensures Native([member] + k, first) != Some([Single(member)] + items)
  {
    var native := Native([member] + k, first);
    if native.Some? {
      assert native.value[0].Range?;
    }
  }

  lemma ReadRange(low: Member, high: Member, k: seq<Member>, first: bool)
    ensures Native([low, HYPHEN, high] + k, first) ==
            if (low == HYPHEN && !first) || !InOrder(low, high) then None
            else Front(Range(low, high), Native(k, false))
  {
    assert ([low, HYPHEN, high] + k)[3..] == k;
  }

  lemma FrontCancels(item: Item<Member>, native: Option<seq<Item<Member>>>, items: seq<Item<Member>>)
    ensures Front(item, native) == Some([item] + items) <==> native == Some(items)
  {
    if native.Some? && [item] + native.value == [item] + items {
      assert ([item] + native.value)[1..] == native.value && ([item] + items)[1..] == items;
    }
  }

  lemma SingleItem(w: seq<Atom>, first: bool, hyphen: bool)
    requires w != [] && !(|w| > 2 && IsHyphen(w[1])) && !Displaced(w[0])
    requires Native(Kept(w[1..]) + Optional(hyphen, HYPHEN), false)
             == Some(Staying(Meant(w[1..])) + Optional(hyphen, Single(HYPHEN)))
             <==> Plainly(w[1..], false, hyphen)
    ensures Native(Kept(w) + Optional(hyphen, HYPHEN), first)
            == Some(Staying(Meant(w)) + Optional(hyphen, Single(HYPHEN)))
            <==> Plainly(w, first, hyphen)
  {
    hide Native, Staying;
    var member := w[0].member;
    var k := Kept(w[1..]) + Optional(hyphen, HYPHEN);
    var items := Staying(Meant(w[1..])) + Optional(hyphen, Single(HYPHEN));
    assert Kept(w) + Optional(hyphen, HYPHEN) == [member] + k;
    StayingFirst(Single(w[0]), Meant(w[1..]));
    assert Staying(Meant(w)) + Optional(hyphen, Single(HYPHEN)) == [Single(member)] + items;
    if |k| > 1 && k[0] == HYPHEN {
      HyphenAhead(w[1..], hyphen);
      ReadOther(member, k, first, items);
    } else if member == HYPHEN && !first && k != [] {
      ReadNothing(k);
    } else {
      ReadSingle(member, k, first);
      FrontCancels(Single(member), Native(k, false), items);
    }
  }

  lemma ReadNothing(k: seq<Member>)
    requires k != []
    ensures Native([HYPHEN] + k, false) == None
  {
  }

  lemma StayingFirst(item: Item<Atom>, items: seq<Item<Atom>>)
    requires item.Single? ==> !Displaced(item.one)
    ensures Staying([item] + items) == [Bare(item)] + Staying(items)
  {
    assert ([item] + items)[1..] == items;
  }

  lemma StayingNot(atom: Atom, items: seq<Item<Atom>>)
    requires Displaced(atom)
    ensures Staying([Single(atom)] + items) == Staying(items)
  {
    assert ([Single(atom)] + items)[1..] == items;
  }

  lemma RangeItem(w: seq<Atom>, first: bool, hyphen: bool)
    requires |w| > 2 && IsHyphen(w[1]) && !Displaced(w[0]) && !Displaced(w[2])
    requires Native(Kept(w[3..]) + Optional(hyphen, HYPHEN), false)
             == Some(Staying(Meant(w[3..])) + Optional(hyphen, Single(HYPHEN)))
             <==> Plainly(w[3..], false, hyphen)
    ensures Native(Kept(w) + Optional(hyphen, HYPHEN), first)
            == Some(Staying(Meant(w)) + Optional(hyphen, Single(HYPHEN)))
            <==> Plainly(w, first, hyphen)
  {
    hide Native, Staying;
    var low, high := w[0].member, w[2].member;
    var k := Kept(w[3..]) + Optional(hyphen, HYPHEN);
    var items := Staying(Meant(w[3..])) + Optional(hyphen, Single(HYPHEN));
    KeptThree(w);
    assert Kept(w) + Optional(hyphen, HYPHEN) == [low, HYPHEN, high] + k;
    StayingFirst(Range(w[0], w[2]), Meant(w[3..]));
    assert Staying(Meant(w)) + Optional(hyphen, Single(HYPHEN)) == [Range(low, high)] + items;
    ReadRange(low, high, k, first);
    FrontCancels(Range(low, high), Native(k, false), items);
  }

  lemma {:induction false} KeptReadBack(w: seq<Atom>, first: bool, hyphen: bool)
    ensures Native(Kept(w) + Optional(hyphen, HYPHEN), first)
            == Some(Staying(Meant(w)) + Optional(hyphen, Single(HYPHEN)))
            <==> Plainly(w, first, hyphen)
  {
    hide Native, Staying;
    if w == [] {
      NothingKept(first, hyphen);
    } else if |w| > 2 && IsHyphen(w[1]) {
      if Displaced(w[0]) || Displaced(w[2]) {
        BrokenRange(w, first, hyphen);
      } else {
        KeptReadBack(w[3..], false, hyphen);
        RangeItem(w, first, hyphen);
      }
    } else if Displaced(w[0]) {
      KeptReadBack(w[1..], first, hyphen);
      StayingNot(w[0], Meant(w[1..]));
    } else {
      KeptReadBack(w[1..], false, hyphen);
      SingleItem(w, first, hyphen);
    }
  }

  lemma NothingKept(first: bool, hyphen: bool)
    ensures Native([] + Optional(hyphen, HYPHEN), first)
            == Some(Staying([]) + Optional(hyphen, Single(HYPHEN)))
  {
    if hyphen {
      assert [HYPHEN][1..] == [];
      assert [] + [HYPHEN] == [HYPHEN];
      assert Staying([]) + [Single(HYPHEN)] == [Single(HYPHEN)] + [];
    }
  }

  // Main result: what is emitted for a class is read item by item as it is meant if and only if
  // it is plain.
  lemma RangesReadBack(w: seq<Atom>)
    ensures Native(Emitted(w), true) == Some(Moved(w)) <==> Plainly(w, !Has(w, BRACKET), Has(w, HYPHEN))
  {
    hide Native, Staying;
    var hyphen := Has(w, HYPHEN);
    var k := Kept(w) + Optional(hyphen, HYPHEN);
    var items := Staying(Meant(w)) + Optional(hyphen, Single(HYPHEN));
    if Has(w, BRACKET) {
      KeptReadBack(w, false, hyphen);
      if |k| > 1 && k[0] == HYPHEN {
        HyphenAhead(w, hyphen);
        ReadOther(BRACKET, k, true, items);
      } else {
        ReadSingle(BRACKET, k, true);
        FrontCancels(Single(BRACKET), Native(k, false), items);
      }
    } else {
      KeptReadBack(w, true, hyphen);
      assert [] + k == k;
      assert [] + items == items;
    }
  }

  // ----- Then no character is lost or added: the items are those that are meant.

  predicate IsMeant(item: Item<Member>, meant: seq<Item<Atom>>) {
    exists i :: 0 <= i < |meant| && Bare(meant[i]) == item
  }

  lemma IsMeantCons(item: Item<Member>, one: Item<Atom>, more: seq<Item<Atom>>)
    ensures IsMeant(item, [one] + more) <==> Bare(one) == item || IsMeant(item, more)
  {
    var all := [one] + more;
    assert all[0] == one && forall i :: 0 <= i < |more| ==> all[i + 1] == more[i];
    if IsMeant(item, all) && Bare(one) != item {
      var i :| 0 <= i < |all| && Bare(all[i]) == item;
      assert Bare(more[i - 1]) == item;
    }
  }

  lemma {:induction false} StayingItems(item: Item<Member>, meant: seq<Item<Atom>>)
    ensures item in Staying(meant) ==> IsMeant(item, meant)
    ensures IsMeant(item, meant) ==> item in Staying(meant) || item == Single(BRACKET) || item == Single(HYPHEN)
  {
    if meant != [] {
      StayingItems(item, meant[1..]);
      assert meant == [meant[0]] + meant[1..];
      IsMeantCons(item, meant[0], meant[1..]);
    }
  }

  // A displaced member of a plain class is meant on its own.
  lemma {:induction false} DisplacedIsMeant(w: seq<Atom>, member: Member, first: bool, hyphen: bool)
    requires member == BRACKET || member == HYPHEN
    requires Has(w, member) && Plainly(w, first, hyphen)
    ensures IsMeant(Single(member), Meant(w))
  {
    if |w| > 2 && IsHyphen(w[1]) {
      assert w == [w[0], w[1], w[2]] + w[3..];
      DisplacedIsMeant(w[3..], member, false, hyphen);
      IsMeantCons(Single(member), Range(w[0], w[2]), Meant(w[3..]));
    } else {
      IsMeantCons(Single(member), Single(w[0]), Meant(w[1..]));
      if w[0] != Atom(member, Escaped) {
        assert w == [w[0]] + w[1..];
        DisplacedIsMeant(w[1..], member, first && Displaced(w[0]), hyphen);
      }
    }
  }

  // A hyphen or a bracket meant on its own stays, or is displaced.
  lemma {:induction false} MeantIsMoved(w: seq<Atom>, member: Member)
    requires member == BRACKET || member == HYPHEN
    requires IsMeant(Single(member), Meant(w))
    ensures Single(member) in Staying(Meant(w)) || Has(w, member)
  {
    if |w| > 2 && IsHyphen(w[1]) {
      IsMeantCons(Single(member), Range(w[0], w[2]), Meant(w[3..]));
      MeantIsMoved(w[3..], member);
      StayingFirst(Range(w[0], w[2]), Meant(w[3..]));
      assert w == [w[0], w[1], w[2]] + w[3..];
    } else {
      IsMeantCons(Single(member), Single(w[0]), Meant(w[1..]));
      assert w == [w[0]] + w[1..];
      if w[0].member == member {
        if !Displaced(w[0]) {
          StayingFirst(Single(w[0]), Meant(w[1..]));
        }
      } else {
        MeantIsMoved(w[1..], member);
        if Displaced(w[0]) {
          StayingNot(w[0], Meant(w[1..]));
        } else {
          StayingFirst(Single(w[0]), Meant(w[1..]));
        }
      }
    }
  }

  lemma MovedItems(w: seq<Atom>, item: Item<Member>)
    requires Plainly(w, !Has(w, BRACKET), Has(w, HYPHEN))
    ensures item in Moved(w) <==> IsMeant(item, Meant(w))
  {
    hide Staying, Meant, IsMeant, Plainly;
    StayingItems(item, Meant(w));
    if Has(w, BRACKET) {
      DisplacedIsMeant(w, BRACKET, !Has(w, BRACKET), Has(w, HYPHEN));
    }
    if Has(w, HYPHEN) {
      DisplacedIsMeant(w, HYPHEN, !Has(w, BRACKET), Has(w, HYPHEN));
    }
    if IsMeant(item, Meant(w)) && (item == Single(BRACKET) || item == Single(HYPHEN)) {
      MeantIsMoved(w, item.one);
    }
  }

  // ----- What is parsed is what is written.

  lemma {:induction false} AtomsKept(members: seq<Member>, origin: Origin, w: seq<Atom>)
    requires forall i :: 0 <= i < |members| ==> members[i] != BRACKET && members[i] != HYPHEN
    ensures Kept(Atoms(members, origin) + w) == members + Kept(w)
    ensures Has(Atoms(members, origin) + w, BRACKET) == Has(w, BRACKET)
    ensures Has(Atoms(members, origin) + w, HYPHEN) == Has(w, HYPHEN)
  {
    if members == [] {
      assert Atoms(members, origin) + w == w;
    } else {
      AtomsKept(members[1..], origin, w);
      assert Atoms(members, origin) + w == [Atom(members[0], origin)] + (Atoms(members[1..], origin) + w);
    }
  }

  lemma WrittenChar(s: CString, q: nat)
    requires q < |s| && s[q] != ']' && (s[q] != '\\' || q + 1 == |s|)
    ensures Written(s, q) == [Atom(Char(s[q]), AsIs)] + Written(s, q + 1)
  {
  }

  lemma WrittenEscape(s: CString, q: nat)
    requires q + 1 < |s| && s[q] == '\\'
    ensures Written(s, q) == EscapeAtoms(s[q + 1]) + Written(s, q + 2)
    ensures s[q + 1] == ']' || s[q + 1] == '-' ==>
              EscapeAtoms(s[q + 1]) == [Atom(Char(s[q + 1]), Escaped)]
  {
  }

  predicate ReadsAs(scan: Scan, w: seq<Atom>) {
    scan.Scan? ==>
      scan.bracket == Has(w, BRACKET) && scan.members == Kept(w) && scan.hyphen == Has(w, HYPHEN)
  }

  lemma ReadsAsOne(bracket: bool, hyphen: bool, rest: Scan, atom: Atom, w: seq<Atom>)
    requires ReadsAs(rest, w)
    requires bracket == (atom == Atom(BRACKET, Escaped)) && hyphen == (atom == Atom(HYPHEN, Escaped))
    ensures ReadsAs(With(bracket, Optional(!Displaced(atom), atom.member), hyphen, rest), [atom] + w)
  {
    hide Kept, Has;
    KeptCons(atom, w);
  }

  lemma ReadsAsSome(members: seq<Member>, origin: Origin, rest: Scan, w: seq<Atom>)
    requires ReadsAs(rest, w)
    requires BRACKET !in members && HYPHEN !in members
    ensures ReadsAs(With(false, members, false, rest), Atoms(members, origin) + w)
  {
    hide Kept, Has, Atoms;
    AtomsKept(members, origin, w);
  }

  lemma EscapesStay(c: char)
    requires c != ']' && c != '-'
    ensures BRACKET !in EscapeMembers(c) && HYPHEN !in EscapeMembers(c)
  {
  }

  lemma ScanStep(s: CString, q: nat, begin: nat)
    requires q < |s| && s[q] != ']'
    ensures s[q] != '\\' || q + 1 == |s| ==>
              ScanClass(s, q, begin) == With(false, [Char(s[q])], false, ScanClass(s, q + 1, begin))
    ensures s[q] == '\\' && q + 1 < |s| ==>
              var c, rest := s[q + 1], ScanClass(s, q + 2, begin);
              ScanClass(s, q, begin) ==
                if c == ']' then With(true, [], false, rest)
                else if c == '-' then With(false, [], true, rest)
                else if IsClassEscape(c) && InRange(s, q + 1, begin) then BadRange
                else With(false, EscapeMembers(c), false, rest)
  {
  }

  lemma {:induction false} ScanIsWritten(s: CString, q: nat, begin: nat)
    requires q <= |s|
    ensures ReadsAs(ScanClass(s, q, begin), Written(s, q))
    decreases |s| - q
  {
    if q < |s| && s[q] != ']' {
      hide Written, ReadsAs, Atoms, With, ScanClass, EscapeMembers, InRange;
      ScanStep(s, q, begin);
      if s[q] != '\\' || q + 1 == |s| {
        ScanIsWritten(s, q + 1, begin);
        WrittenChar(s, q);
        ReadsAsOne(false, false, ScanClass(s, q + 1, begin), Atom(Char(s[q]), AsIs), Written(s, q + 1));
      } else {
        ScanIsWritten(s, q + 2, begin);
        WrittenEscape(s, q);
        var c, rest, w := s[q + 1], ScanClass(s, q + 2, begin), Written(s, q + 2);
        if c == ']' || c == '-' {
          ReadsAsOne(c == ']', c == '-', rest, Atom(Char(c), Escaped), w);
        } else if !(IsClassEscape(c) && InRange(s, q + 1, begin)) {
          EscapesStay(c);
          ReadsAsSome(EscapeMembers(c), if IsClassEscape(c) then Shorthand else Escaped, rest, w);
        } else {
          BadIsRead(Written(s, q));
        }
      }
    }
  }

  lemma BadIsRead(w: seq<Atom>)
    ensures ReadsAs(BadRange, w)
  {
  }

  // The class of a pattern at p, whatever follows its translation: when its members are read
  // back, they are read item by item as they are meant if and only if the class is plain, and
  // then as the same items.
  lemma ClassRangesReadBack(s: CString, p: nat, piece: Piece, rest: string)
    requires p < |s| && s[p] == '[' && NextPiece(s, p).Next? && piece == NextPiece(s, p).piece
    requires RegexReading.IsClosedClass(piece) && RegexReading.Faithful(piece)
    ensures var w := Written(s, ClassBegin(s, p));
            var read := RegexReading.ReadClass((ClassText(piece) + rest)[1..]);
            && read.Some? && read.value.negated == piece.negated
            && var native := Native(read.value.members, true);
            && (native == Some(Moved(w)) <==> Plainly(w, !Has(w, BRACKET), Has(w, HYPHEN)))
            && (native == Some(Moved(w)) ==> forall item :: item in native.value <==> IsMeant(item, Meant(w)))
  {
    hide Native, Moved, Plainly, Meant, Written, RegexReading.ReadClass, ClassText, Kept, IsMeant;
    var begin := ClassBegin(s, p);
    var w := Written(s, begin);
    ScanIsWritten(s, begin, begin);
    RegexReading.ClassReadBack(piece, rest);
    assert RegexReading.Listed(piece) == Emitted(w);
    RangesReadBack(w);
    if Plainly(w, !Has(w, BRACKET), Has(w, HYPHEN)) {
      forall item
        ensures item in Moved(w) <==> IsMeant(item, Meant(w))
      {
        MovedItems(w, item);
      }
    }
  }

  lemma MeantSingle(atom: Atom, w: seq<Atom>)
    requires |w| > 1 ==> !IsHyphen(w[0])
    ensures Meant([atom] + w) == [Single(atom)] + Meant(w)
  {
    assert ([atom] + w)[1..] == w;
  }

  lemma ThreeMembers(a: Atom, b: Atom, c: Atom)
    requires !IsHyphen(b)
    ensures Meant([a, b, c]) == [Single(a), Single(b), Single(c)]
    ensures Kept([a, b, c]) == Optional(!Displaced(a), a.member) + Optional(!Displaced(b), b.member)
                               + Optional(!Displaced(c), c.member)
  {
    assert Meant([]) == [] && Kept([]) == [];
    hide Meant, Kept, Optional, Displaced;
    assert [b] + [c] == [b, c] && [a] + [b, c] == [a, b, c] && [c] + [] == [c];
    MeantSingle(c, []);
    MeantSingle(b, [c]);
    MeantSingle(a, [b, c]);
    KeptCons(c, []);
    KeptCons(b, [c]);
    KeptCons(a, [b, c]);
  }

  lemma NativeRange(low: Member, high: Member)
    requires low != HYPHEN && InOrder(low, high)
    ensures Native([low, HYPHEN, high], true) == Some([Range(low, high)])
  {
    assert [low, HYPHEN, high] + [] == [low, HYPHEN, high];
    ReadRange(low, high, [], true);
    assert [Range(low, high)] + [] == [Range(low, high)];
  }

  // [\-!-] is a hyphen, a ! and a hyphen, and its translation [!--] is the range from ! to the
  // hyphen; [-\]a] is a hyphen, a bracket and an a, and its translation []-a] is a range as well.
  lemma HyphenMakesRange(pattern: CString)
    requires pattern == "[\\-!-]" || pattern == "[-\\]a]"
    ensures var w := Written(pattern, 1);
            && (forall item :: item in Meant(w) ==> item.Single?)
            && Native(Emitted(w), true)
               == Some([if pattern[1] == '-' then Range(BRACKET, Char('a')) else Range(Char('!'), HYPHEN)])
  {
    hide Native, Meant, Kept;
    var w := Written(pattern, 1);
    var hyphen := Atom(HYPHEN, AsIs);
    assert Written(pattern, 5) == [];
    if pattern[1] == '-' {
      var a := Atom(Char('a'), AsIs);
      WrittenChar(pattern, 1);
      WrittenEscape(pattern, 2);
      WrittenChar(pattern, 4);
      assert w == [hyphen, Atom(BRACKET, Escaped), a];
      ThreeMembers(hyphen, Atom(BRACKET, Escaped), a);
      assert Emitted(w) == [BRACKET, HYPHEN, Char('a')];
      NativeRange(BRACKET, Char('a'));
    } else {
      var mark := Atom(Char('!'), AsIs);
      WrittenEscape(pattern, 1);
      WrittenChar(pattern, 3);
      WrittenChar(pattern, 4);
      assert w == [Atom(HYPHEN, Escaped), mark, hyphen];
      ThreeMembers(Atom(HYPHEN, Escaped), mark, hyphen);
      assert Emitted(w) == [Char('!'), HYPHEN, HYPHEN];
      NativeRange(Char('!'), HYPHEN);
    }
  }
}
