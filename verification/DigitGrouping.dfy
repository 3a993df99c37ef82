// Digit grouping of ios_base::_localize_number: thousands separators by way of a buffer of 40
// characters that is filled from the right, into an output buffer of any size.

module DigitGrouping {

  // A char of numpunct::grouping, as unsigned char.
  type Byte = b: nat | b < 256

  const BUFFER: nat := 40

  predicate IsDigit(c: char) {
    '0' <= c <= '9'
  }

  // ----- Grouping as numpunct means it.

  // The size of group j, counted from the right; the last size repeats, and 0 ends grouping.
  function Size(grouping: seq<Byte>, j: nat): nat
    requires grouping != []
  {
    grouping[if j < |grouping| then j else |grouping| - 1]
  }

  // The groups of the digits, leftmost first, when the rightmost one is group j.
  function Groups(digits: string, grouping: seq<Byte>, j: nat): seq<string>
    requires grouping != []
    decreases |digits|
  {
    var size := Size(grouping, j);
    if size == 0 || |digits| <= size then [digits]
    else Groups(digits[..|digits| - size], grouping, j + 1) + [digits[|digits| - size..]]
  }

  function Join(groups: seq<string>, separator: char): string {
    if groups == [] then ""
    else if |groups| == 1 then groups[0]
    else Join(groups[..|groups| - 1], separator) + [separator] + groups[|groups| - 1]
  }

  function Concat(groups: seq<string>): string {
    if groups == [] then "" else Concat(groups[..|groups| - 1]) + groups[|groups| - 1]
  }

  // Grouping is off without sizes or without a separator.
  predicate Active(grouping: seq<Byte>, separator: char) {
    grouping != [] && separator != '\0'
  }

  function Grouped(digits: string, grouping: seq<Byte>, separator: char): string {
    if Active(grouping, separator) then Join(Groups(digits, grouping, 0), separator) else digits
  }

  // ----- What the groups are.

  lemma ConcatLast(groups: seq<string>, last: string)
    ensures Concat(groups + [last]) == Concat(groups) + last
  {
    assert (groups + [last])[..|groups|] == groups;
  }

  lemma {:induction false} GroupsConcat(digits: string, grouping: seq<Byte>, j: nat)
    requires grouping != []
    ensures Groups(digits, grouping, j) != [] && Concat(Groups(digits, grouping, j)) == digits
    decreases |digits|
  {
    var size := Size(grouping, j);
    if size == 0 || |digits| <= size {
      ConcatLast([], digits);
      assert [] + [digits] == [digits] && "" + digits == digits;
    } else {
      hide Concat;
      var rest, last := digits[..|digits| - size], digits[|digits| - size..];
      GroupsConcat(rest, grouping, j + 1);
      ConcatLast(Groups(rest, grouping, j + 1), last);
      assert rest + last == digits;
    }
  }

  // Counted from the right, group i has the size that the facet says; only the leftmost may be
  // shorter, and it is not limited where the sizes have ended.
  lemma {:induction false} GroupSizes(digits: string, grouping: seq<Byte>, j: nat, i: nat)
    requires grouping != [] && i < |Groups(digits, grouping, j)|
    ensures var groups := Groups(digits, grouping, j);
            var group := groups[|groups| - 1 - i];
            if i < |groups| - 1 then |group| == Size(grouping, j + i) > 0
            else Size(grouping, j + i) == 0 || |group| <= Size(grouping, j + i)
    ensures digits != "" ==> forall k :: 0 <= k < |Groups(digits, grouping, j)| ==> Groups(digits, grouping, j)[k] != ""
    decreases |digits|
  {
    var size := Size(grouping, j);
    if size != 0 && |digits| > size {
      var rest := digits[..|digits| - size];
      if i > 0 {
        GroupSizes(rest, grouping, j + 1, i - 1);
      } else {
        GroupsConcat(rest, grouping, j + 1);
        GroupSizes(rest, grouping, j + 1, 0);
      }
    }
  }

  // In the facet's own terms: group i from the right has the i-th size, or the last one when there
  // are no more; only the leftmost may be shorter, and a size of zero does not limit it.
  lemma GroupSizesExactly(digits: string, grouping: seq<Byte>, i: nat)
    requires grouping != [] && i < |Groups(digits, grouping, 0)|
    ensures var groups := Groups(digits, grouping, 0);
            var length := |groups[|groups| - 1 - i]|;
            var size := if i < |grouping| then grouping[i] else grouping[|grouping| - 1];
            if i < |groups| - 1 then length == size > 0 else size == 0 || length <= size
  {
    hide Groups;
    GroupSizes(digits, grouping, 0, i);
  }

  // ----- Deleting the separators.

  function Deleting(text: string, separator: char): string {
    if text == "" then ""
    else Deleting(text[..|text| - 1], separator) + (if text[|text| - 1] == separator then "" else [text[|text| - 1]])
  }

  lemma {:induction false} DeletingAppend(a: string, b: string, separator: char)
    ensures Deleting(a + b, separator) == Deleting(a, separator) + Deleting(b, separator)
  {
    if b == "" {
      assert a + b == a;
    } else {
      DeletingAppend(a, b[..|b| - 1], separator);
      assert (a + b)[..|a + b| - 1] == a + b[..|b| - 1];
    }
  }

  lemma DeletingOne(separator: char)
    ensures Deleting([separator], separator) == ""
  {
    assert [separator][..0] == "";
  }

  lemma DeletingBetween(a: string, b: string, separator: char)
    ensures Deleting(a + [separator] + b, separator) == Deleting(a, separator) + Deleting(b, separator)
  {
    hide Deleting;
    DeletingAppend(a + [separator], b, separator);
    DeletingAppend(a, [separator], separator);
    DeletingOne(separator);
  }

  lemma {:induction false} DeletingJoin(groups: seq<string>, separator: char)
    ensures Deleting(Join(groups, separator), separator) == Deleting(Concat(groups), separator)
  {
    if |groups| == 1 {
      assert groups[..0] == [] && "" + groups[0] == groups[0];
      assert Concat(groups) == Concat([]) + groups[0];
    } else if groups != [] {
      var before, last := groups[..|groups| - 1], groups[|groups| - 1];
      hide Deleting;
      DeletingJoin(before, separator);
      DeletingBetween(Join(before, separator), last, separator);
      DeletingAppend(Concat(before), last, separator);
    }
  }

  lemma {:induction false} DeletingNothing(text: string, separator: char)
    ensures |Deleting(text, separator)| <= |text|
    ensures Deleting(text, separator) == text <==> forall i :: 0 <= i < |text| ==> text[i] != separator
  {
    if text != "" {
      var front, last := text[..|text| - 1], text[|text| - 1];
      DeletingNothing(front, separator);
      assert text == front + [last];
      if last == separator {
        assert Deleting(text, separator) == Deleting(front, separator);
        assert |Deleting(text, separator)| < |text|;
      } else {
        assert Deleting(text, separator) == Deleting(front, separator) + [last];
        assert Deleting(text, separator) == text <==> Deleting(front, separator) == front;
      }
    }
  }

  // Deleting the separators gives the digits back if and only if the separator is not among them.
  lemma DeletingRestoresExactly(digits: string, grouping: seq<Byte>, separator: char)
    requires Active(grouping, separator)
    ensures Deleting(Grouped(digits, grouping, separator), separator) == digits
            <==> forall i :: 0 <= i < |digits| ==> digits[i] != separator
  {
    GroupsConcat(digits, grouping, 0);
    DeletingJoin(Groups(digits, grouping, 0), separator);
    DeletingNothing(digits, separator);
  }

  // ----- How long the result is.

  lemma {:induction false} JoinLength(groups: seq<string>, separator: char)
    requires groups != []
    ensures |Join(groups, separator)| == |Concat(groups)| + |groups| - 1
  {
    if |groups| == 1 {
      assert Concat(groups) == Concat([]) + groups[0];
    } else {
      JoinLength(groups[..|groups| - 1], separator);
    }
  }

  lemma {:induction false} ConcatLength(groups: seq<string>)
    requires forall k :: 0 <= k < |groups| ==> groups[k] != ""
    ensures |groups| <= |Concat(groups)|
  {
    if groups != [] {
      ConcatLength(groups[..|groups| - 1]);
    }
  }

  lemma GroupedLength(digits: string, grouping: seq<Byte>, separator: char)
    ensures |digits| <= |Grouped(digits, grouping, separator)|
    ensures digits != "" ==> |Grouped(digits, grouping, separator)| <= 2 * |digits| - 1
    ensures digits == "" ==> Grouped(digits, grouping, separator) == ""
  {
    if Active(grouping, separator) {
      GroupsConcat(digits, grouping, 0);
      JoinLength(Groups(digits, grouping, 0), separator);
      if digits != "" {
        GroupSizes(digits, grouping, 0, 0);
        ConcatLength(Groups(digits, grouping, 0));
      }
    }
  }

  // Twenty digits always fit the buffer; twenty-one in groups of one do not.
  lemma TwentyDigitsFit(digits: string, grouping: seq<Byte>, separator: char)
    requires |digits| <= 20
    ensures |Grouped(digits, grouping, separator)| <= BUFFER
  {
    GroupedLength(digits, grouping, separator);
  }

  lemma {:induction false} OnesCount(digits: string, j: nat)
    requires digits != ""
    ensures |Groups(digits, [1], j)| == |digits|
    decreases |digits|
  {
    if |digits| > 1 {
      OnesCount(digits[..|digits| - 1], j + 1);
    }
  }

  lemma TwentyOneDigitsDoNot(digits: string, separator: char)
    requires |digits| == 21 && separator != '\0'
    ensures |Grouped(digits, [1], separator)| == BUFFER + 1
  {
    OnesCount(digits, 0);
    GroupsConcat(digits, [1], 0);
    JoinLength(Groups(digits, [1], 0), separator);
  }

  // ----- The loop from the right.

  // What the remaining digits become when the current group j has taken `count` of its digits.
  ghost function Remaining(digits: string, grouping: seq<Byte>, separator: char, j: nat, count: nat): string
    requires grouping != []
    decreases |digits|
  {
    if digits == "" then ""
    else
      var last, rest := digits[|digits| - 1], digits[..|digits| - 1];
      if Size(grouping, j) > 0 && count == Size(grouping, j) then
        Remaining(rest, grouping, separator, j + 1, 1) + [last] + [separator]
      else Remaining(rest, grouping, separator, j, count + 1) + [last]
  }

  lemma NothingRemains(grouping: seq<Byte>, separator: char, j: nat, count: nat)
    requires grouping != []
    ensures Remaining("", grouping, separator, j, count) == ""
  {
  }

  // A digit of the current group.
  lemma DigitOfGroup(digits: string, grouping: seq<Byte>, separator: char, j: nat, count: nat)
    requires grouping != [] && digits != "" && (Size(grouping, j) > 0 ==> count < Size(grouping, j))
    ensures Remaining(digits, grouping, separator, j, count)
            == Remaining(digits[..|digits| - 1], grouping, separator, j, count + 1) + [digits[|digits| - 1]]
  {
  }

  // The current group takes the digits that it is short of.
  lemma {:induction false} RemainingGroup(digits: string, grouping: seq<Byte>, separator: char, j: nat, count: nat)
    requires grouping != [] && (Size(grouping, j) > 0 ==> count <= Size(grouping, j))
    ensures var short := Size(grouping, j) - count;
            Remaining(digits, grouping, separator, j, count) ==
              if Size(grouping, j) == 0 || |digits| <= short then digits
              else Remaining(digits[..|digits| - short], grouping, separator, j, Size(grouping, j))
                   + digits[|digits| - short..]
    decreases |digits|
  {
    hide Size, Remaining;
    var size := Size(grouping, j);
    if digits == "" {
      NothingRemains(grouping, separator, j, count);
    } else if size > 0 && count == size {
      assert digits[..|digits|] == digits && digits[|digits|..] == "";
      var all := Remaining(digits, grouping, separator, j, count);
      assert all + "" == all;
    } else {
      DigitOfGroup(digits, grouping, separator, j, count);
      RemainingGroup(digits[..|digits| - 1], grouping, separator, j, count + 1);
      OneMoreDigit(digits, size - count);
      if size > 0 && |digits| > size - count {
        var short := size - count;
        var front := Remaining(digits[..|digits| - short], grouping, separator, j, size);
        Assoc(front, digits[..|digits| - 1][|digits| - short..], [digits[|digits| - 1]]);
      }
    }
  }

  lemma Assoc(a: string, b: string, c: string)
    ensures a + (b + c) == a + b + c
  {
  }

  lemma OneMoreDigit(digits: string, short: int)
    requires digits != ""
    ensures digits[..|digits| - 1] + [digits[|digits| - 1]] == digits
    ensures 0 < short < |digits| ==> digits[..|digits| - 1][..|digits| - short] == digits[..|digits| - short]
    ensures 0 < short < |digits| ==>
              digits[..|digits| - 1][|digits| - short..] + [digits[|digits| - 1]] == digits[|digits| - short..]
  {
  }

  // A full group is followed by a separator and the next group.
  lemma FullGroup(digits: string, grouping: seq<Byte>, separator: char, j: nat)
    requires grouping != [] && digits != "" && Size(grouping, j) > 0
    ensures Remaining(digits, grouping, separator, j, Size(grouping, j))
            == Remaining(digits, grouping, separator, j + 1, 0) + [separator]
  {
  }

  // The loop computes the grouping.
  lemma {:induction false} RemainingIsGrouped(digits: string, grouping: seq<Byte>, separator: char, j: nat)
    requires grouping != []
    ensures Remaining(digits, grouping, separator, j, 0) == Join(Groups(digits, grouping, j), separator)
    decreases |digits|
  {
    var size := Size(grouping, j);
    RemainingGroup(digits, grouping, separator, j, 0);
    if size != 0 && |digits| > size {
      var rest := digits[..|digits| - size];
      FullGroup(rest, grouping, separator, j);
      RemainingIsGrouped(rest, grouping, separator, j + 1);
      GroupsConcat(rest, grouping, j + 1);
      JoinLast(Groups(rest, grouping, j + 1), digits[|digits| - size..], separator);
    }
  }

  lemma JoinLast(groups: seq<string>, last: string, separator: char)
    requires groups != []
    ensures Join(groups + [last], separator) == Join(groups, separator) + [separator] + last
  {
    assert (groups + [last])[..|groups|] == groups;
  }

  // ----- The buffers.

  function Reversed(text: string): string {
    if text == "" then "" else [text[|text| - 1]] + Reversed(text[..|text| - 1])
  }

  lemma {:induction false} ReversedAt(text: string, i: nat)
    requires i < |text|
    ensures |Reversed(text)| == |text| && Reversed(text)[i] == text[|text| - 1 - i]
  {
    if |text| > 1 {
      ReversedAt(text[..|text| - 1], if i == 0 then 0 else i - 1);
    }
  }

  lemma {:induction false} ReversedAppend(text: string, c: char)
    ensures Reversed(text + [c]) == [c] + Reversed(text)
  {
    assert (text + [c])[..|text|] == text;
  }

  function Least(a: nat, b: nat): nat {
    if a < b then a else b
  }

  // An array that holds the start of a text, as much of it as it has room for.
  ghost predicate Holds(buffer: array<char>, size: int, text: string)
    reads buffer
  {
    size == Least(|text|, buffer.Length) && buffer[..size] == text[..size]
  }

  // `if (size < sizeof(buffer)) buffer[size++] = value`
  method Emit(buffer: array<char>, size: nat, value: char, ghost text: string) returns (newSize: nat)
    requires Holds(buffer, size, text)
    modifies buffer
    ensures Holds(buffer, newSize, text + [value])
  {
    newSize := size;
    if size < buffer.Length {
      buffer[size] := value;
      newSize := size + 1;
    }
  }

  // The last `length` characters.
  function Last(text: string, length: nat): string {
    if |text| <= length then text else text[|text| - length..]
  }

  // Emitting the buffer backwards emits the end of the text that it was filled with, reversed.
  lemma {:induction false} HeldReversed(text: string, length: nat)
    ensures Reversed(text[..Least(|text|, length)]) == Last(Reversed(text), length)
  {
    if |text| > length {
      HeldReversed(text[..|text| - 1], length);
      assert text[..|text| - 1][..Least(|text| - 1, length)] == text[..length];
      ReversedLength(text);
      ReversedLength(text[..|text| - 1]);
    } else {
      assert text[..|text|] == text;
      ReversedLength(text);
    }
  }

  lemma {:induction false} ReversedLength(text: string)
    ensures |Reversed(text)| == |text|
  {
    if text != "" {
      ReversedLength(text[..|text| - 1]);
    }
  }

  // ----- The parts of a number.

  function SignLength(input: string): nat {
    if input != "" && (input[0] == '-' || input[0] == '+') then 1 else 0
  }

  function DigitsEnd(input: string, start: nat): (end: nat)
    requires start <= |input|
    ensures start <= end <= |input|
    ensures forall i :: start <= i < end ==> IsDigit(input[i])
    ensures end < |input| ==> !IsDigit(input[end])
    decreases |input| - start
  {
    if start == |input| || !IsDigit(input[start]) then start else DigitsEnd(input, start + 1)
  }

  function Sign(input: string): string {
    input[..SignLength(input)]
  }

  function Digits(input: string): string {
    input[SignLength(input)..DigitsEnd(input, SignLength(input))]
  }

  // What follows the integer part, with the facet's decimal point.
  function Fraction(input: string, decimalPoint: char): string {
    Pointed(input[DigitsEnd(input, SignLength(input))..], decimalPoint)
  }

  function Pointed(text: string, decimalPoint: char): string {
    if text == "" then ""
    else Pointed(text[..|text| - 1], decimalPoint)
         + [if text[|text| - 1] == '.' then decimalPoint else text[|text| - 1]]
  }

  lemma {:induction false} PointedAt(text: string, decimalPoint: char)
    ensures |Pointed(text, decimalPoint)| == |text|
    ensures forall i :: 0 <= i < |text| ==>
              Pointed(text, decimalPoint)[i] == if text[i] == '.' then decimalPoint else text[i]
  {
    if text != "" {
      PointedAt(text[..|text| - 1], decimalPoint);
    }
  }

  lemma {:induction false} DigitsEndAt(input: string, start: nat, end: nat)
    requires start <= end <= |input|
    requires forall i :: start <= i < end ==> '0' <= input[i] <= '9'
    requires end < |input| ==> !('0' <= input[end] <= '9')
    ensures DigitsEnd(input, start) == end
    decreases end - start
  {
    if start < end {
      DigitsEndAt(input, start + 1, end);
    }
  }

  // A number is a sign, if it has one, the digits, and what comes after them.
  lemma PartsOfNumber(sign: string, digits: string, tail: string, decimalPoint: char)
    requires sign == "" || sign == "-" || sign == "+"
    requires forall i :: 0 <= i < |digits| ==> '0' <= digits[i] <= '9'
    requires tail != "" ==> !('0' <= tail[0] <= '9')
    requires sign == "" && digits == "" && tail != "" ==> tail[0] != '-' && tail[0] != '+'
    ensures var input := sign + digits + tail;
            && Sign(input) == sign && Digits(input) == digits && Fraction(input, decimalPoint) == Pointed(tail, decimalPoint)
  {
    var input := sign + digits + tail;
    assert SignLength(input) == |sign|;
    assert forall i :: 0 <= i < |digits| ==> input[|sign| + i] == digits[i];
    DigitsEndAt(input, |sign|, |sign| + |digits|);
    assert input[|sign|..|sign| + |digits|] == digits && input[|sign| + |digits|..] == tail;
  }

  lemma IdealOf(
    sign: string, digits: string, tail: string, decimalPoint: char, separator: char, grouping: seq<Byte>)
    requires sign == "" || sign == "-" || sign == "+"
    requires forall i :: 0 <= i < |digits| ==> '0' <= digits[i] <= '9'
    requires tail != "" ==> !('0' <= tail[0] <= '9')
    requires sign == "" && digits == "" && tail != "" ==> tail[0] != '-' && tail[0] != '+'
    ensures Ideal(sign + digits + tail, decimalPoint, separator, grouping)
            == sign + Grouped(digits, grouping, separator) + Pointed(tail, decimalPoint)
  {
    PartsOfNumber(sign, digits, tail, decimalPoint);
  }

  // The locale that groups by threes with dots, and has a decimal comma: 12345.5 is 12.345,5.
  lemma LocalizedExample()
    ensures Ideal("12345" + ".5", ',', '.', [3]) == "12.345,5"
    ensures Ideal("-" + "1234567", ',', '.', [3, 2]) == "-12.34.567"
  {
    PointedExample();
    GroupedByThrees();
    GroupedByThreeAndTwo();
    hide Ideal, Grouped, Pointed;
    IdealOf("", "12345", ".5", ',', '.', [3]);
    IdealOf("-", "1234567", "", ',', '.', [3, 2]);
    assert "" + "12345" + ".5" == "12345" + ".5" && "-" + "1234567" + "" == "-" + "1234567";
    assert "" + "12.345" + ",5" == "12.345,5" && "-" + "12.34.567" + "" == "-12.34.567";
  }

  lemma PointedExample()
    ensures Pointed(".5", ',') == ",5" && Pointed("", ',') == ""
  {
    PointedAt(".5", ',');
  }

  lemma GroupedByThrees()
    ensures Grouped("12345", [3], '.') == "12.345"
  {
    assert "12345"[..2] == "12" && "12345"[2..] == "345";
    assert Groups("12", [3], 1) == ["12"];
    assert Groups("12345", [3], 0) == ["12"] + ["345"] == ["12", "345"];
    assert ["12", "345"][..1] == ["12"] && Join(["12"], '.') == "12";
    assert Join(["12", "345"], '.') == "12" + ['.'] + "345";
  }

  lemma GroupedByThreeAndTwo()
    ensures Grouped("1234567", [3, 2], '.') == "12.34.567"
  {
    assert "1234567"[..4] == "1234" && "1234567"[4..] == "567" && "1234"[..2] == "12" && "1234"[2..] == "34";
    assert Groups("12", [3, 2], 2) == ["12"];
    assert Groups("1234", [3, 2], 1) == ["12"] + ["34"] == ["12", "34"];
    assert Groups("1234567", [3, 2], 0) == ["12", "34"] + ["567"] == ["12", "34", "567"];
    assert ["12", "34", "567"][..2] == ["12", "34"] && ["12", "34"][..1] == ["12"];
    assert Join(["12"], '.') == "12" && Join(["12", "34"], '.') == "12" + ['.'] + "34";
    assert Join(["12", "34", "567"], '.') == "12" + ['.'] + "34" + ['.'] + "567";
  }

  // The localized number, as it should be, and as the buffer of 40 characters leaves it.
  function Ideal(input: string, decimalPoint: char, separator: char, grouping: seq<Byte>): string {
    Sign(input) + Grouped(Digits(input), grouping, separator) + Fraction(input, decimalPoint)
  }

  function Buffered(digits: string, separator: char, grouping: seq<Byte>): string {
    if Active(grouping, separator) then Last(Grouped(digits, grouping, separator), BUFFER) else digits
  }

  function Kept(input: string, decimalPoint: char, separator: char, grouping: seq<Byte>): string {
    Sign(input) + Buffered(Digits(input), separator, grouping) + Fraction(input, decimalPoint)
  }

  // Without sizes or without a separator nothing is grouped, and with both everything is; 41
  // characters are one too many for the buffer.
  lemma WhenGrouped(digits: string, grouping: seq<Byte>, separator: char)
    ensures grouping == [] || separator == '\0' ==>
              Grouped(digits, grouping, separator) == digits && Buffered(digits, separator, grouping) == digits
    ensures grouping != [] && separator != '\0' ==>
              Grouped(digits, grouping, separator) == Join(Groups(digits, grouping, 0), separator)
    ensures |digits| == 21 && separator != '\0' && grouping == [1] ==>
              |Grouped(digits, grouping, separator)| == 41
              && Buffered(digits, separator, grouping) == Grouped(digits, grouping, separator)[1..]
  {
    if |digits| == 21 && separator != '\0' && grouping == [1] {
      TwentyOneDigitsDoNot(digits, separator);
    }
  }

  // The output is the localized number if and only if the grouped integer part fits the inner
  // buffer and the whole fits the output buffer.
  lemma CompleteExactly(input: string, decimalPoint: char, separator: char, grouping: seq<Byte>, room: nat)
    ensures var kept := Kept(input, decimalPoint, separator, grouping);
            var ideal := Ideal(input, decimalPoint, separator, grouping);
            kept[..Least(|kept|, room)] == ideal <==>
            (Active(grouping, separator) ==> |Grouped(Digits(input), grouping, separator)| <= BUFFER) && |ideal| <= room
  {
    hide Grouped, Fraction, Digits, Sign;
    var kept, ideal := Kept(input, decimalPoint, separator, grouping), Ideal(input, decimalPoint, separator, grouping);
    if (Active(grouping, separator) ==> |Grouped(Digits(input), grouping, separator)| <= BUFFER) && |ideal| <= room {
      GroupingOff(Digits(input), separator, grouping);
      assert kept[..|kept|] == kept;
    }
  }

  lemma GroupingOff(digits: string, separator: char, grouping: seq<Byte>)
    ensures !Active(grouping, separator) ==> Grouped(digits, grouping, separator) == digits
  {
  }

  // A number of at most 20 digits is complete whenever the output buffer has room for it.
  lemma ShortNumbersComplete(input: string, decimalPoint: char, separator: char, grouping: seq<Byte>, room: nat)
    requires |Digits(input)| <= 20 && |Ideal(input, decimalPoint, separator, grouping)| <= room
    ensures var kept := Kept(input, decimalPoint, separator, grouping);
            kept[..Least(|kept|, room)] == Ideal(input, decimalPoint, separator, grouping)
  {
    TwentyDigitsFit(Digits(input), grouping, separator);
    CompleteExactly(input, decimalPoint, separator, grouping, room);
  }

  // ----- _localize_number

  // What is in the inner buffer, behind what the remaining digits will become.
  ghost predicate Filled(
    digits: string, left: nat, separator: char, grouping: seq<Byte>, j: nat, count: nat, text: string)
    requires left <= |digits| && Active(grouping, separator)
  {
    Remaining(digits[..left], grouping, separator, j, count) + Reversed(text) == Grouped(digits, grouping, separator)
  }

  lemma FillBegins(digits: string, separator: char, grouping: seq<Byte>)
    requires Active(grouping, separator)
    ensures Filled(digits, |digits|, separator, grouping, 0, 0, "")
  {
    RemainingIsGrouped(digits, grouping, separator, 0);
    assert digits[..|digits|] == digits;
  }

  lemma FillsSeparator(
    digits: string, left: nat, separator: char, grouping: seq<Byte>, j: nat, count: nat, text: string)
    requires 0 < left <= |digits| && Active(grouping, separator)
    requires Filled(digits, left, separator, grouping, j, count, text)
    requires Size(grouping, j) > 0 && count == Size(grouping, j)
    ensures Filled(digits, left, separator, grouping, j + 1, 0, text + [separator])
  {
    hide Remaining, Reversed, Grouped, Size;
    FullGroup(digits[..left], grouping, separator, j);
    ReversedAppend(text, separator);
    Assoc(Remaining(digits[..left], grouping, separator, j + 1, 0), [separator], Reversed(text));
  }

  lemma OneDigit(digits: string, grouping: seq<Byte>, separator: char, j: nat, count: nat)
    requires grouping != [] && digits != "" && !(Size(grouping, j) > 0 && count == Size(grouping, j))
    ensures Remaining(digits, grouping, separator, j, count) ==
            Remaining(digits[..|digits| - 1], grouping, separator, j, count + 1) + [digits[|digits| - 1]]
  {
  }

  lemma FillsDigit(
    digits: string, left: nat, separator: char, grouping: seq<Byte>, j: nat, count: nat, text: string)
    requires 0 < left <= |digits| && Active(grouping, separator)
    requires Filled(digits, left, separator, grouping, j, count, text)
    requires !(Size(grouping, j) > 0 && count == Size(grouping, j))
    ensures Filled(digits, left - 1, separator, grouping, j, count + 1, text + [digits[left - 1]])
  {
    hide Remaining, Reversed, Grouped, Size;
    OneDigit(digits[..left], grouping, separator, j, count);
    assert digits[..left][..left - 1] == digits[..left - 1];
    ReversedAppend(text, digits[left - 1]);
    Assoc(Remaining(digits[..left - 1], grouping, separator, j, count + 1), [digits[left - 1]], Reversed(text));
  }

  lemma FillEnds(digits: string, separator: char, grouping: seq<Byte>, j: nat, count: nat, text: string)
    requires Active(grouping, separator) && Filled(digits, 0, separator, grouping, j, count, text)
    ensures Reversed(text) == Grouped(digits, grouping, separator)
  {
    assert "" + Reversed(text) == Reversed(text);
  }

  // Fills the inner buffer with the grouped digits, from the right.
  method FillReversed(reversed: array<char>, input: string, start: nat, end: nat, separator: char, grouping: seq<Byte>)
    returns (size: nat, ghost text: string)
    requires start <= end <= |input| && Active(grouping, separator)
    modifies reversed
    ensures Holds(reversed, size, text) && Reversed(text) == Grouped(input[start..end], grouping, separator)
  {
    hide Filled, Reversed, Grouped;
    size := 0;
    text := "";
    var groupCount, groupIndex, groupSize := 0, 0, grouping[0];
    var i: int := end - 1;
    ghost var j := 0;
    ghost var digits := input[start..end];
    FillBegins(digits, separator, grouping);
    while i >= start
      invariant start - 1 <= i < end
      invariant Holds(reversed, size, text)
      invariant Filled(digits, i + 1 - start, separator, grouping, j, groupCount, text)
      invariant groupIndex == Least(j, |grouping| - 1) && groupSize == Size(grouping, j)
    {
      if groupSize > 0 && groupCount == groupSize {
        FillsSeparator(digits, i + 1 - start, separator, grouping, j, groupCount, text);
        size := Emit(reversed, size, separator, text);
        text := text + [separator];
        groupCount := 0;
        j := j + 1;
        if groupIndex + 1 < |grouping| {
          groupIndex := groupIndex + 1;
          groupSize := grouping[groupIndex];
        }
      }
      FillsDigit(digits, i + 1 - start, separator, grouping, j, groupCount, text);
      size := Emit(reversed, size, input[i], text);
      text := text + [input[i]];
      groupCount := groupCount + 1;
      i := i - 1;
    }
    FillEnds(digits, separator, grouping, j, groupCount, text);
  }

  // Emits the first `size` characters of the inner buffer, backwards.
  method EmitReversed(
    out: array<char>, outSize: nat, ghost before: string, reversed: array<char>, size: nat, ghost text: string)
    returns (newSize: nat)
    requires out != reversed && Holds(out, outSize, before) && Holds(reversed, size, text)
    modifies out
    ensures Holds(out, newSize, before + Last(Reversed(text), reversed.Length))
  {
    hide Reversed;
    newSize := outSize;
    ghost var held := text[..size];
    ghost var emitted := "";
    NoneReversed();
    assert held[..|held|] == held && before + "" == before && emitted + Reversed(held) == Reversed(held);
    var i: int := size - 1;
    while i >= 0
      invariant -1 <= i < size && Holds(out, newSize, before + emitted)
      invariant reversed[..size] == held
      invariant Reversed(held) == emitted + Reversed(held[..i + 1])
    {
      LastReversed(held[..i + 1]);
      assert held[..i + 1][..i] == held[..i];
      Assoc(emitted, [held[i]], Reversed(held[..i]));
      Assoc(before, emitted, [held[i]]);
      assert reversed[i] == held[i];
      newSize := Emit(out, newSize, reversed[i], before + emitted);
      emitted := emitted + [held[i]];
      i := i - 1;
    }
    assert held[..0] == "" && emitted + "" == emitted;
    HeldReversed(text, reversed.Length);
  }

  lemma NoneReversed()
    ensures Reversed("") == ""
  {
  }

  lemma LastReversed(text: string)
    requires text != ""
    ensures Reversed(text) == [text[|text| - 1]] + Reversed(text[..|text| - 1])
  {
  }

  lemma PointedStep(text: string, k: nat, decimalPoint: char)
    requires k < |text|
    ensures Pointed(text[..k + 1], decimalPoint)
            == Pointed(text[..k], decimalPoint) + [if text[k] == '.' then decimalPoint else text[k]]
  {
    assert text[..k + 1][..k] == text[..k];
  }

  method LocalizeNumber(out: array<char>, input: string, decimalPoint: char, separator: char, grouping: seq<Byte>)
    returns (size: nat)
    modifies out
    ensures Holds(out, size, Kept(input, decimalPoint, separator, grouping))
  {
    size := 0;
    var inputPos := 0;
    if inputPos < |input| && (input[inputPos] == '-' || input[inputPos] == '+') {
      size := Emit(out, size, input[inputPos], "");
      inputPos := inputPos + 1;
    }
    ghost var emitted := Sign(input);
    var digitsStart := inputPos;
    while inputPos < |input| && IsDigit(input[inputPos])
      invariant digitsStart <= inputPos <= |input|
      invariant DigitsEnd(input, digitsStart) == DigitsEnd(input, inputPos)
    {
      inputPos := inputPos + 1;
    }
    if !Active(grouping, separator) {
      size := EmitDigits(out, size, emitted, input, digitsStart, inputPos);
    } else {
      var reversed := new char[BUFFER];
      var reversedSize;
      ghost var text;
      reversedSize, text := FillReversed(reversed, input, digitsStart, inputPos, separator, grouping);
      size := EmitReversed(out, size, emitted, reversed, reversedSize, text);
    }
    emitted := emitted + Buffered(Digits(input), separator, grouping);
    size := EmitFraction(out, size, emitted, input, inputPos, decimalPoint);
  }

  method EmitDigits(out: array<char>, outSize: nat, ghost before: string, input: string, start: nat, end: nat)
    returns (size: nat)
    requires start <= end <= |input| && Holds(out, outSize, before)
    modifies out
    ensures Holds(out, size, before + input[start..end])
  {
    size := outSize;
    assert before + input[start..start] == before;
    for i := start to end
      invariant Holds(out, size, before + input[start..i])
    {
      size := Emit(out, size, input[i], before + input[start..i]);
      assert before + input[start..i] + [input[i]] == before + input[start..i + 1];
    }
  }

  method EmitFraction(
    out: array<char>, outSize: nat, ghost before: string, input: string, start: nat, decimalPoint: char)
    returns (size: nat)
    requires start <= |input| && Holds(out, outSize, before)
    modifies out
    ensures Holds(out, size, before + Pointed(input[start..], decimalPoint))
  {
    size := outSize;
    ghost var rest := input[start..];
    assert before + Pointed(rest[..0], decimalPoint) == before;
    for i := start to |input|
      invariant Holds(out, size, before + Pointed(rest[..i - start], decimalPoint))
    {
      PointedStep(rest, i - start, decimalPoint);
      ghost var c := if input[i] == '.' then decimalPoint else input[i];
      Assoc(before, Pointed(rest[..i - start], decimalPoint), [c]);
      size := Emit(out, size, if input[i] == '.' then decimalPoint else input[i],
                   before + Pointed(rest[..i - start], decimalPoint));
    }
    assert rest[..|rest|] == rest;
  }
}
