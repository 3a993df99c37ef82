// UTF-8 conversion of path text: append_utf8 and decode_utf8 (the encoding of section 3 of
// RFC 3629, kept up to the 21 bits that four bytes can carry).

module Utf8 {

  type Byte = bv8
  type CodePoint = bv32

  const LIMIT: CodePoint := 0x200000

  // static_cast<char>: the low eight bits.
  function Low(value: CodePoint): Byte {
    (value & 0xff) as bv8
  }

  function Encode(value: CodePoint): (bytes: seq<Byte>)
    ensures 1 <= |bytes| <= 4
  {
    if value <= 0x7f then [Low(value)]
    else if value <= 0x7ff then [Low(0xc0 | (value >> 6)), Low(0x80 | (value & 0x3f))]
    else if value <= 0xffff then
      [Low(0xe0 | (value >> 12)), Low(0x80 | ((value >> 6) & 0x3f)), Low(0x80 | (value & 0x3f))]
    else
      [Low(0xf0 | (value >> 18)), Low(0x80 | ((value >> 12) & 0x3f)), Low(0x80 | ((value >> 6) & 0x3f)),
       Low(0x80 | (value & 0x3f))]
  }

  function EncodeAll(values: seq<CodePoint>): seq<Byte> {
    if values == [] then [] else Encode(values[0]) + EncodeAll(values[1..])
  }

  // What the first byte says: its own bits, and how many continuation bytes to read.
  function LeadBits(first: Byte): CodePoint {
    if first & 0xe0 == 0xc0 then (first & 0x1f) as bv32
    else if first & 0xf0 == 0xe0 then (first & 0x0f) as bv32
    else if first & 0xf8 == 0xf0 then (first & 0x07) as bv32
    else first as bv32
  }

  function Continuations(first: Byte): (n: nat)
    ensures n <= 3
  {
    if first & 0xe0 == 0xc0 then 1
    else if first & 0xf0 == 0xe0 then 2
    else if first & 0xf8 == 0xf0 then 3
    else 0
  }

  function AddBits(value: CodePoint, byte: Byte): CodePoint {
    (value << 6) | ((byte & 0x3f) as bv32)
  }

  // The value after reading up to `count` continuation bytes, fewer at the end of the input.
  function Gather(value: CodePoint, count: nat, bytes: seq<Byte>): CodePoint
    decreases count
  {
    if count == 0 || bytes == [] then value else Gather(AddBits(value, bytes[0]), count - 1, bytes[1..])
  }

  function Length(bytes: seq<Byte>): (n: nat)
    requires bytes != []
    ensures 1 <= n <= |bytes|
  {
    if 1 + Continuations(bytes[0]) <= |bytes| then 1 + Continuations(bytes[0]) else |bytes|
  }

  function Decode(bytes: seq<Byte>): seq<CodePoint> {
    if bytes == [] then []
    else
      [Gather(LeadBits(bytes[0]), Continuations(bytes[0]), bytes[1..])] + Decode(bytes[Length(bytes)..])
  }

  // ----- The bytes, as section 3 of RFC 3629 has them.

  predicate IsContinuation(byte: Byte) {
    0x80 <= byte <= 0xbf
  }

  // The first byte says how many follow, by its range, and these are all in one range.  The
  // last byte has the lowest six bits.
  lemma EncodedBytes(value: CodePoint)
    requires value < LIMIT
    ensures var bytes := Encode(value);
            && |bytes| == (if value < 0x80 then 1 else if value < 0x800 then 2 else if value < 0x10000 then 3 else 4)
            && (forall i :: 1 <= i < |bytes| ==> IsContinuation(bytes[i]))
            && (|bytes| == 1 ==> bytes[0] < 0x80)
            && (|bytes| == 2 ==> 0xc2 <= bytes[0] <= 0xdf)
            && (|bytes| == 3 ==> 0xe0 <= bytes[0] <= 0xef)
            && (|bytes| == 4 ==> 0xf0 <= bytes[0] <= 0xf7)
  {
    LeadByte(value);
    ContinuationByte(value);
    ContinuationByte(value >> 6);
    ContinuationByte(value >> 12);
    hide Low, IsContinuation;
    if value < 0x80 {
    } else if value < 0x800 {
    } else if value < 0x10000 {
    } else {
    }
  }

  lemma ContinuationByte(value: CodePoint)
    ensures IsContinuation(Low(0x80 | (value & 0x3f)))
  {
  }

  lemma LeadByte(value: CodePoint)
    requires value < LIMIT
    ensures value < 0x80 ==> Low(value) < 0x80
    ensures 0x80 <= value < 0x800 ==> 0xc2 <= Low(0xc0 | (value >> 6)) <= 0xdf
    ensures 0x800 <= value < 0x10000 ==> 0xe0 <= Low(0xe0 | (value >> 12)) <= 0xef
    ensures 0x10000 <= value ==> 0xf0 <= Low(0xf0 | (value >> 18)) <= 0xf7
  {
  }

  // The examples of that section: a letter, the sign A<NOT IDENTICAL TO><ALPHA>., and a Han
  // character beyond 16 bits.
  lemma EncodedExamples()
    ensures Encode(0x41) == [0x41]
    ensures Encode(0x2262) == [0xe2, 0x89, 0xa2] && Encode(0x391) == [0xce, 0x91]
    ensures Encode(0x233b4) == [0xf0, 0xa3, 0x8e, 0xb4]
  {
  }

  // A byte that starts no sequence stands for itself, wherever it is.
  lemma StrayByte(byte: Byte, rest: seq<Byte>)
    requires byte < 0xc0 || byte >= 0xf8
    ensures Decode([byte] + rest) == [byte as CodePoint] + Decode(rest)
  {
    assert byte & 0xe0 != 0xc0 && byte & 0xf0 != 0xe0 && byte & 0xf8 != 0xf0;
    assert ([byte] + rest)[1..] == rest;
  }

  // A sequence that the input cuts short stands for the bits that are there.
  lemma CutShort()
    ensures Decode([0xe2, 0x89]) == [0x89] && Decode([0xf0]) == [0] && Decode([0xdf]) == [0x1f]
  {
    assert [0xe2, 0x89][1..] == [0x89] && [0x89][1..] == [] && [0xf0][1..] == [] && [0xdf][1..] == [];
  }

  // ----- The methods.

  method AppendUtf8(output: seq<Byte>, value: CodePoint) returns (result: seq<Byte>)
    ensures result == output + Encode(value)
  {
    result := output;
    if value <= 0x7f {
      result := result + [Low(value)];
    } else if value <= 0x7ff {
      result := result + [Low(0xc0 | (value >> 6))];
      result := result + [Low(0x80 | (value & 0x3f))];
    } else if value <= 0xffff {
      result := result + [Low(0xe0 | (value >> 12))];
      result := result + [Low(0x80 | ((value >> 6) & 0x3f))];
      result := result + [Low(0x80 | (value & 0x3f))];
    } else {
      result := result + [Low(0xf0 | (value >> 18))];
      result := result + [Low(0x80 | ((value >> 12) & 0x3f))];
      result := result + [Low(0x80 | ((value >> 6) & 0x3f))];
      result := result + [Low(0x80 | (value & 0x3f))];
    }
  }

  // path::from_u32string (and from_wstring, whose characters are cast to char32_t).
  method FromU32String(values: seq<CodePoint>) returns (result: seq<Byte>)
    ensures result == EncodeAll(values)
  {
    result := [];
    for i := 0 to |values|
      invariant result == EncodeAll(values[..i])
    {
      assert values[..i + 1] == values[..i] + [values[i]];
      EncodeAllConcat(values[..i], [values[i]]);
      EncodeAllSingle(values[i]);
      result := AppendUtf8(result, values[i]);
    }
    assert values[..|values|] == values;
  }

  lemma DecodeNothing()
    ensures Decode([]) == []
  {
  }

  method DecodeUtf8(input: seq<Byte>) returns (result: seq<CodePoint>)
    ensures result == Decode(input)
  {
    hide Decode;
    result := [];
    var i := 0;
    assert input[0..] == input;
    DecodeNothing();
    while i < |input|
      invariant i <= |input|
      invariant result + Decode(input[i..]) == Decode(input)
    {
      var value, next := DecodeOne(input, i);
      assert result + ([value] + Decode(input[next..])) == result + [value] + Decode(input[next..]);
      result := result + [value];
      i := next;
    }
    assert input[i..] == [] && result + [] == result;
  }

  // One turn of the outer loop.
  method DecodeOne(input: seq<Byte>, from: nat) returns (value: CodePoint, next: nat)
    requires from < |input|
    ensures from < next <= |input|
    ensures Decode(input[from..]) == [value] + Decode(input[next..])
  {
    var start, continuation := ReadLead(input[from]);
    assert input[from..][1..] == input[from + 1..];
    value, next := ReadContinuations(input, from + 1, start, continuation);
    assert next - from == Length(input[from..]);
    assert input[from..][next - from..] == input[next..];
  }

  method ReadLead(first: Byte) returns (value: CodePoint, continuation: nat)
    ensures value == LeadBits(first) && continuation == Continuations(first)
  {
    value := first as bv32;
    continuation := 0;
    if first & 0xe0 == 0xc0 {
      value := (first & 0x1f) as bv32;
      continuation := 1;
    } else if first & 0xf0 == 0xe0 {
      value := (first & 0x0f) as bv32;
      continuation := 2;
    } else if first & 0xf8 == 0xf0 {
      value := (first & 0x07) as bv32;
      continuation := 3;
    }
  }

  method ReadContinuations(input: seq<Byte>, from: nat, start: CodePoint, count: nat)
    returns (value: CodePoint, next: nat)
    requires from <= |input|
    ensures value == Gather(start, count, input[from..])
    ensures next == if from + count <= |input| then from + count else |input|
  {
    value := start;
    next := from;
    var continuation := count;
    while continuation > 0 && next < |input|
      invariant from <= next <= |input| && 0 <= continuation
      invariant next + continuation == from + count
      invariant Gather(value, continuation, input[next..]) == Gather(start, count, input[from..])
    {
      assert input[next..][1..] == input[next + 1..];
      value := AddBits(value, input[next]);
      next := next + 1;
      continuation := continuation - 1;
    }
  }

  // ----- Lemmas.

  lemma {:induction false} EncodeAllConcat(a: seq<CodePoint>, b: seq<CodePoint>)
    ensures EncodeAll(a + b) == EncodeAll(a) + EncodeAll(b)
  {
    if a == [] {
      assert a + b == b;
    } else {
      assert (a + b)[1..] == a[1..] + b;
      EncodeAllConcat(a[1..], b);
    }
  }

  lemma EncodeAllSingle(value: CodePoint)
    ensures EncodeAll([value]) == Encode(value)
  {
    assert EncodeAll([value][1..]) == [];
  }

  // A continuation byte brings back the six bits that were shifted out.
  lemma Refill(value: CodePoint)
    ensures AddBits(value >> 6, Low(0x80 | (value & 0x3f))) == value
  {
  }

  lemma ShiftsCompose(value: CodePoint)
    ensures (value >> 6) >> 6 == value >> 12 && (value >> 12) >> 6 == value >> 18
  {
  }

  lemma LeadOfTwo(bits: CodePoint)
    requires bits <= 0x1f
    ensures Continuations(Low(0xc0 | bits)) == 1 && LeadBits(Low(0xc0 | bits)) == bits
  {
  }

  lemma LeadOfThree(bits: CodePoint)
    requires bits <= 0x0f
    ensures Continuations(Low(0xe0 | bits)) == 2 && LeadBits(Low(0xe0 | bits)) == bits
  {
  }

  lemma LeadOfFour(bits: CodePoint)
    requires bits <= 0x07
    ensures Continuations(Low(0xf0 | bits)) == 3 && LeadBits(Low(0xf0 | bits)) == bits
  {
  }

  lemma ShiftsShrink(value: CodePoint)
    ensures value <= 0x7ff ==> value >> 6 <= 0x1f
    ensures value <= 0xffff ==> value >> 12 <= 0x0f
    ensures value < LIMIT ==> value >> 18 <= 0x07
  {
  }

  lemma OneByte(value: CodePoint)
    requires value <= 0x7f
    ensures Continuations(Low(value)) == 0 && LeadBits(Low(value)) == value
  {
  }

  // Gather over a known number of bytes.
  lemma GatherOne(value: CodePoint, a: Byte, rest: seq<Byte>)
    ensures Gather(value, 1, [a] + rest) == AddBits(value, a)
  {
    assert ([a] + rest)[1..] == rest;
  }

  lemma GatherTwo(value: CodePoint, a: Byte, b: Byte, rest: seq<Byte>)
    ensures Gather(value, 2, [a, b] + rest) == AddBits(AddBits(value, a), b)
  {
    assert ([a, b] + rest)[1..] == [b] + rest;
    GatherOne(AddBits(value, a), b, rest);
  }

  lemma GatherThree(value: CodePoint, a: Byte, b: Byte, c: Byte, rest: seq<Byte>)
    ensures Gather(value, 3, [a, b, c] + rest) == AddBits(AddBits(AddBits(value, a), b), c)
  {
    assert ([a, b, c] + rest)[1..] == [b, c] + rest;
    GatherTwo(AddBits(value, a), b, c, rest);
  }

  lemma DecodePrefix(code: seq<Byte>, value: CodePoint, rest: seq<Byte>)
    requires code != [] && |code| == 1 + Continuations(code[0])
    requires Gather(LeadBits(code[0]), Continuations(code[0]), code[1..] + rest) == value
    ensures Decode(code + rest) == [value] + Decode(rest)
  {
    assert (code + rest)[1..] == code[1..] + rest;
    assert (code + rest)[|code|..] == rest;
  }

  lemma DecodeOneByte(value: CodePoint, rest: seq<Byte>)
    requires value <= 0x7f
    ensures Decode(Encode(value) + rest) == [value] + Decode(rest)
  {
    OneByte(value);
    DecodePrefix(Encode(value), value, rest);
  }

  lemma DecodeTwoBytes(value: CodePoint, rest: seq<Byte>)
    requires 0x7f < value <= 0x7ff
    ensures Decode(Encode(value) + rest) == [value] + Decode(rest)
  {
    ShiftsShrink(value);
    var lead, a := Low(0xc0 | (value >> 6)), Low(0x80 | (value & 0x3f));
    LeadOfTwo(value >> 6);
    Refill(value);
    GatherOne(value >> 6, a, rest);
    assert Encode(value) == [lead, a] && [lead, a][1..] == [a];
    DecodePrefix([lead, a], value, rest);
  }

  lemma DecodeThreeBytes(value: CodePoint, rest: seq<Byte>)
    requires 0x7ff < value <= 0xffff
    ensures Decode(Encode(value) + rest) == [value] + Decode(rest)
  {
    ShiftsShrink(value);
    ShiftsCompose(value);
    var lead := Low(0xe0 | (value >> 12));
    var a, b := Low(0x80 | ((value >> 6) & 0x3f)), Low(0x80 | (value & 0x3f));
    LeadOfThree(value >> 12);
    Refill(value >> 6);
    Refill(value);
    GatherTwo(value >> 12, a, b, rest);
    assert Encode(value) == [lead, a, b] && [lead, a, b][1..] == [a, b];
    DecodePrefix([lead, a, b], value, rest);
  }

  lemma DecodeFourBytes(value: CodePoint, rest: seq<Byte>)
    requires 0xffff < value < LIMIT
    ensures Decode(Encode(value) + rest) == [value] + Decode(rest)
  {
    ShiftsShrink(value);
    LeadOfFour(value >> 18);
    FourBytesRefill(value);
    var code := Encode(value);
    GatherThree(value >> 18, code[1], code[2], code[3], rest);
    assert code[1..] == [code[1], code[2], code[3]];
    DecodePrefix(code, value, rest);
  }

  lemma FourBytesRefill(value: CodePoint)
    requires 0xffff < value
    ensures var code := Encode(value);
            && |code| == 4 && code[0] == Low(0xf0 | (value >> 18))
            && AddBits(AddBits(AddBits(value >> 18, code[1]), code[2]), code[3]) == value
  {
    ShiftsCompose(value);
    Refill(value >> 12);
    Refill(value >> 6);
    Refill(value);
  }

  // What a value below the limit reads back as, whatever follows its bytes.
  lemma DecodeEncoded(value: CodePoint, rest: seq<Byte>)
    requires value < LIMIT
    ensures Decode(Encode(value) + rest) == [value] + Decode(rest)
  {
    if value <= 0x7f {
      DecodeOneByte(value, rest);
    } else if value <= 0x7ff {
      DecodeTwoBytes(value, rest);
    } else if value <= 0xffff {
      DecodeThreeBytes(value, rest);
    } else {
      DecodeFourBytes(value, rest);
    }
  }

  // At or above the limit the bits of the first byte run over, and another value is read first.
  lemma DecodeOverrun(value: CodePoint, rest: seq<Byte>)
    requires value >= LIMIT
    ensures Decode(Encode(value) + rest) != [] && Decode(Encode(value) + rest)[0] != value
  {
    var code := Encode(value);
    var bytes := code + rest;
    BeyondFourBytes(value);
    assert bytes[1..] == [code[1], code[2], code[3]] + rest;
    if Continuations(code[0]) == 3 {
      GatherThree(LeadBits(code[0]), code[1], code[2], code[3], rest);
    }
  }

  lemma BeyondFourBytes(value: CodePoint)
    requires value >= LIMIT
    ensures var bytes := Encode(value);
            && |bytes| == 4
            && (Continuations(bytes[0]) == 0 || Continuations(bytes[0]) == 3)
            && (Continuations(bytes[0]) == 0 ==> LeadBits(bytes[0]) != value)
            && (Continuations(bytes[0]) == 3 ==>
                  AddBits(AddBits(AddBits(LeadBits(bytes[0]), bytes[1]), bytes[2]), bytes[3]) != value)
  {
  }

  predicate FitsFourBytes(values: seq<CodePoint>) {
    forall i :: 0 <= i < |values| ==> values[i] < LIMIT
  }

  // Main result: decoding undoes encoding exactly on the sequences whose every value fits in
  // four bytes.
  lemma {:induction false} RoundTripExactly(values: seq<CodePoint>)
    ensures Decode(EncodeAll(values)) == values <==> FitsFourBytes(values)
  {
    if values != [] {
      var first, rest := values[0], values[1..];
      RoundTripExactly(rest);
      assert values == [first] + rest;
      FitsCons(first, rest);
      if first < LIMIT {
        DecodeEncoded(first, EncodeAll(rest));
        ConsEqual(first, Decode(EncodeAll(rest)), rest);
      } else {
        DecodeOverrun(first, EncodeAll(rest));
      }
    }
  }

  lemma FitsCons(first: CodePoint, rest: seq<CodePoint>)
    ensures FitsFourBytes([first] + rest) <==> first < LIMIT && FitsFourBytes(rest)
  {
    var values := [first] + rest;
    assert values[0] == first;
    assert forall i :: 0 <= i < |rest| ==> values[i + 1] == rest[i];
  }

  lemma ConsEqual(first: CodePoint, a: seq<CodePoint>, b: seq<CodePoint>)
    ensures [first] + a == [first] + b <==> a == b
  {
    assert ([first] + a)[1..] == a && ([first] + b)[1..] == b;
  }
}
