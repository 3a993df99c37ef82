// What the word functions of the two Mersenne Twisters compute: what they make of single bits, and
// what the generators return first.

module MersenneWords {
  import opened MersenneTwister

  // ----- mt19937: the twist

  // It is a sum of what it makes of each word, and of each bit of them.
  lemma TwistSums32(far: bv32, near: bv32, next: bv32)
    ensures Twist32(far, near, next) == far ^ Twist32(0, near, 0) ^ Twist32(0, 0, next)
  {
  }

  lemma TwistNearIsLinear32(a: bv32, b: bv32)
    ensures Twist32(0, a ^ b, 0) == Twist32(0, a, 0) ^ Twist32(0, b, 0)
  {
  }

  lemma TwistNextIsLinear32(a: bv32, b: bv32)
    ensures Twist32(0, 0, Xor32(a, b)) == Xor32(Twist32(0, 0, a), Twist32(0, 0, b))
  {
    hide Twist32, Half32, Odd32, Xor32;
    HalvesAreLinear32(a, b);
    OddIsLinear32(a, b);
    NextHalves32(a);
    NextHalves32(b);
    NextHalves32(Xor32(a, b));
    XorSwaps32(Half32(a), Half32(b), Odd32(a), Odd32(b));
  }

  function Half32(next: bv32): bv32 { (next & 0x7fffffff) >> 1 }

  function Odd32(next: bv32): bv32 { if next & 1 == 1 then 0x9908b0df else 0 }

  lemma NextHalves32(next: bv32)
    ensures Twist32(0, 0, next) == Xor32(Half32(next), Odd32(next))
  {
  }

  lemma HalvesAreLinear32(a: bv32, b: bv32)
    ensures Half32(Xor32(a, b)) == Xor32(Half32(a), Half32(b))
  {
  }

  lemma OddIsLinear32(a: bv32, b: bv32)
    ensures Odd32(Xor32(a, b)) == Xor32(Odd32(a), Odd32(b))
  {
  }

  lemma XorAssociates32(a: bv32, b: bv32, c: bv32)
    ensures Xor32(Xor32(a, b), c) == Xor32(a, Xor32(b, c))
  {
    assert (a ^ b) ^ c == a ^ (b ^ c);
  }

  lemma XorCommutes32(a: bv32, b: bv32)
    ensures Xor32(a, b) == Xor32(b, a)
  {
  }

  lemma XorSwaps32(a: bv32, b: bv32, c: bv32, d: bv32)
    ensures Xor32(Xor32(a, b), Xor32(c, d)) == Xor32(Xor32(a, c), Xor32(b, d))
  {
    hide Xor32;
    XorAssociates32(a, b, Xor32(c, d));
    XorAssociates32(b, c, d);
    XorCommutes32(b, c);
    XorAssociates32(c, b, d);
    XorAssociates32(a, c, Xor32(b, d));
  }

  // So it is known by what it makes of single bits: of the word itself the top bit counts, of the
  // next one the others; they move down by one, and the lowest turns into the
  // matrix constant.
  lemma TwistBits32(j: bv32)
    requires j < 32
    ensures Twist32(0, 1 << j, 0) == if j == 31 then 1 << 30 else 0
    ensures Twist32(0, 0, 1 << j) == if j == 0 then 0x9908b0df else if j < 31 then 1 << (j - 1) else 0
  {
  }

  // ----- The seed words

  // Bits 30 and 31 are added without carry to bits 0 and 1, the result is multiplied, and the
  // counter is added, modulo 2^32.
  function Mix32(word: bv32): bv32 { word ^ (word >> 30) }

  function Scale32(word: bv32): bv32 { 1812433253 * word }

  lemma MixIsLinear32(a: bv32, b: bv32)
    ensures Mix32(a ^ b) == Mix32(a) ^ Mix32(b)
  {
  }

  lemma MixBits32(j: bv32)
    requires j < 32
    ensures Mix32(1 << j) == if j < 30 then 1 << j else (1 << j) | (1 << (j - 30))
  {
  }

  lemma ScaleStep32(word: bv32)
    ensures Scale32(0) == 0 && Scale32(word + 1) == Scale32(word) + 1812433253
  {
    assert 1812433253 * (word + 1) == 1812433253 * word + 1812433253;
  }

  function AddMultiplier32(word: bv32): bv32 { word + 1812433253 }

  lemma ScaleBump32(word: bv32)
    ensures Scale32(Bump32(word)) == AddMultiplier32(Scale32(word))
  {
    ScaleStep32(word);
    hide Scale32;
  }

  // n times the multiplier
  function Times32(n: nat): bv32 {
    if n == 0 then 0 else AddMultiplier32(Times32(n - 1))
  }

  lemma {:induction false} ScaleIsTimes32(n: nat)
    ensures Scale32(Count32(n)) == Times32(n)
  {
    if n > 0 {
      hide Scale32, AddMultiplier32, Bump32;
      ScaleBump32(Count32(n - 1));
      ScaleIsTimes32(n - 1);
    }
  }

  lemma GrowSums32(previous: bv32, i: bv32)
    ensures Grow32(previous, 0) == Scale32(Mix32(previous)) && Grow32(0, i) == i
  {
  }

  lemma SeedStep32(seed: bv32, i: nat)
    ensures SeedWord(MT19937, seed, 0) == seed
    ensures SeedWord(MT19937, seed, i + 1) == Grow32(SeedWord(MT19937, seed, i), Bump32(Count32(i)))
  {
    hide Grow32, Bump32;
    assert Count32(i + 1) == Bump32(Count32(i));
  }

  // ----- The tempering

  lemma StepAIsLinear32(a: bv32, b: bv32)
    ensures StepA32(Xor32(a, b)) == Xor32(StepA32(a), StepA32(b))
  {
    ShiftA32IsLinear(a, b);
    hide ShiftA32, Xor32;
    XorSwaps32(a, b, ShiftA32(a), ShiftA32(b));
  }

  lemma StepBIsLinear32(a: bv32, b: bv32)
    ensures StepB32(Xor32(a, b)) == Xor32(StepB32(a), StepB32(b))
  {
    ShiftB32IsLinear(a, b);
    hide ShiftB32, Xor32;
    XorSwaps32(a, b, ShiftB32(a), ShiftB32(b));
  }

  lemma StepCIsLinear32(a: bv32, b: bv32)
    ensures StepC32(Xor32(a, b)) == Xor32(StepC32(a), StepC32(b))
  {
    ShiftC32IsLinear(a, b);
    hide ShiftC32, Xor32;
    XorSwaps32(a, b, ShiftC32(a), ShiftC32(b));
  }

  lemma StepDIsLinear32(a: bv32, b: bv32)
    ensures StepD32(Xor32(a, b)) == Xor32(StepD32(a), StepD32(b))
  {
    ShiftD32IsLinear(a, b);
    hide ShiftD32, Xor32;
    XorSwaps32(a, b, ShiftD32(a), ShiftD32(b));
  }

  lemma TemperIsLinear32(a: bv32, b: bv32)
    ensures Temper32(Xor32(a, b)) == Xor32(Temper32(a), Temper32(b))
  {
    hide Xor32, StepA32, StepB32, StepC32, StepD32;
    StepAIsLinear32(a, b);
    StepBIsLinear32(StepA32(a), StepA32(b));
    StepCIsLinear32(StepB32(StepA32(a)), StepB32(StepA32(b)));
    StepDIsLinear32(StepC32(StepB32(StepA32(a))), StepC32(StepB32(StepA32(b))));
  }

  // What it makes of each single bit.
  lemma TemperBits32From0()
    ensures Temper32(0x1) == 0x400091
    ensures Temper32(0x2) == 0x2
    ensures Temper32(0x4) == 0x1020244
    ensures Temper32(0x8) == 0x2040489
    ensures Temper32(0x10) == 0x10
    ensures Temper32(0x20) == 0x8001220
    ensures Temper32(0x40) == 0x40
    ensures Temper32(0x80) == 0x20404890
    ensures Temper32(0x100) == 0x800120
    ensures Temper32(0x200) == 0x1000240
    ensures Temper32(0x400) == 0x2000480
    ensures Temper32(0x800) == 0x4440990
    ensures Temper32(0x1000) == 0x8081200
    ensures Temper32(0x2000) == 0x1022244
    ensures Temper32(0x4000) == 0x22244c81
    ensures Temper32(0x8000) == 0x40009010
  {
  }

  lemma TemperBits32From16()
    ensures Temper32(0x10000) == 0x88013220
    ensures Temper32(0x20000) == 0x1020000
    ensures Temper32(0x40000) == 0x20444891
    ensures Temper32(0x80000) == 0x4880022
    ensures Temper32(0x100000) == 0x9100044
    ensures Temper32(0x200000) == 0x12200088
    ensures Temper32(0x400000) == 0x4440911
    ensures Temper32(0x800000) == 0x8881222
    ensures Temper32(0x1000000) == 0x81000040
    ensures Temper32(0x2000000) == 0x22204888
    ensures Temper32(0x4000000) == 0x44009100
    ensures Temper32(0x8000000) == 0x88012200
    ensures Temper32(0x10000000) == 0x11020440
    ensures Temper32(0x20000000) == 0x20040801
    ensures Temper32(0x40000000) == 0x44081102
    ensures Temper32(0x80000000) == 0x88102204
  {
  }

  // ----- The first output

  datatype Loop32 = Loop32(word: bv32, counter: bv32)

  // Turns of the loop of seed().
  function Turn32(l: Loop32): Loop32 { Loop32(Grow32(l.word, l.counter), Bump32(l.counter)) }

  function Four32(l: Loop32): Loop32 { Turn32(Turn32(Turn32(Turn32(l)))) }

  function Sixteen32(l: Loop32): Loop32 { Four32(Four32(Four32(Four32(l)))) }

  function SixtyFour32(l: Loop32): Loop32 { Sixteen32(Sixteen32(Sixteen32(Sixteen32(l)))) }

  predicate IsAt32(l: Loop32, seed: bv32, i: nat) {
    l == Loop32(SeedWord(MT19937, seed, i), Bump32(Count32(i)))
  }

  lemma TurnIsSeed32(l: Loop32, seed: bv32, i: nat)
    requires IsAt32(l, seed, i)
    ensures IsAt32(Turn32(l), seed, i + 1)
  {
    hide Grow32, Bump32;
    SeedStep32(seed, i);
  }

  lemma FourIsSeed32(l: Loop32, seed: bv32, i: nat)
    requires IsAt32(l, seed, i)
    ensures IsAt32(Four32(l), seed, i + 4)
  {
    hide Turn32, IsAt32;
    TurnIsSeed32(l, seed, i);
    TurnIsSeed32(Turn32(l), seed, i + 1);
    TurnIsSeed32(Turn32(Turn32(l)), seed, i + 2);
    TurnIsSeed32(Turn32(Turn32(Turn32(l))), seed, i + 3);
  }

  lemma SixteenIsSeed32(l: Loop32, seed: bv32, i: nat)
    requires IsAt32(l, seed, i)
    ensures IsAt32(Sixteen32(l), seed, i + 16)
  {
    hide Four32, IsAt32;
    FourIsSeed32(l, seed, i);
    FourIsSeed32(Four32(l), seed, i + 4);
    FourIsSeed32(Four32(Four32(l)), seed, i + 8);
    FourIsSeed32(Four32(Four32(Four32(l))), seed, i + 12);
  }

  lemma SixtyFourIsSeed32(l: Loop32, seed: bv32, i: nat)
    requires IsAt32(l, seed, i)
    ensures IsAt32(SixtyFour32(l), seed, i + 64)
  {
    hide Sixteen32, IsAt32;
    SixteenIsSeed32(l, seed, i);
    SixteenIsSeed32(Sixteen32(l), seed, i + 16);
    SixteenIsSeed32(Sixteen32(Sixteen32(l)), seed, i + 32);
    SixteenIsSeed32(Sixteen32(Sixteen32(Sixteen32(l))), seed, i + 48);
  }

  lemma SeedFrom0To64In32()
    ensures SixtyFour32(Loop32(5489, 1)) == Loop32(1532957371, 65)
  {
  }

  lemma SeedFrom64To128In32()
    ensures SixtyFour32(Loop32(1532957371, 65)) == Loop32(986875531, 129)
  {
  }

  lemma SeedFrom128To192In32()
    ensures SixtyFour32(Loop32(986875531, 129)) == Loop32(525209271, 193)
  {
  }

  lemma SeedFrom192To256In32()
    ensures SixtyFour32(Loop32(525209271, 193)) == Loop32(2654196643, 257)
  {
  }

  lemma SeedFrom256To320In32()
    ensures SixtyFour32(Loop32(2654196643, 257)) == Loop32(2962920654, 321)
  {
  }

  lemma SeedFrom320To384In32()
    ensures SixtyFour32(Loop32(2962920654, 321)) == Loop32(2878099422, 385)
  {
  }

  lemma SeedFrom384To388In32()
    ensures Four32(Loop32(2878099422, 385)) == Loop32(552370646, 389)
  {
  }

  lemma SeedFrom388To392In32()
    ensures Four32(Loop32(552370646, 389)) == Loop32(2605208763, 393)
  {
  }

  lemma SeedFrom392To396In32()
    ensures Four32(Loop32(2605208763, 393)) == Loop32(1447103986, 397)
  {
  }

  lemma SeedFrom396To397In32()
    ensures Turn32(Loop32(1447103986, 397)) == Loop32(3183906156, 398)
  {
  }

  lemma SeedWords32()
    ensures SeedWord(MT19937, 5489, 1) == 1301868182 && SeedWord(MT19937, 5489, 397) == 3183906156
  {
    hide Turn32, Count32, SeedWord;
    StartOfSeed32();
    SecondWord32();
    TurnIsSeed32(Loop32(5489, 1), 5489, 0);
    EndOfSeed32();
  }

  lemma StartOfSeed32()
    ensures IsAt32(Loop32(5489, 1), 5489, 0)
  {
  }

  lemma EndOfSeed32()
    requires IsAt32(Loop32(5489, 1), 5489, 0)
    ensures IsAt32(Loop32(3183906156, 398), 5489, 397)
  {
    hide *;
    SeedFrom0To64In32();
    SixtyFourIsSeed32(Loop32(5489, 1), 5489, 0);
    SeedFrom64To128In32();
    SixtyFourIsSeed32(Loop32(1532957371, 65), 5489, 64);
    SeedFrom128To192In32();
    SixtyFourIsSeed32(Loop32(986875531, 129), 5489, 128);
    SeedFrom192To256In32();
    SixtyFourIsSeed32(Loop32(525209271, 193), 5489, 192);
    SeedFrom256To320In32();
    SixtyFourIsSeed32(Loop32(2654196643, 257), 5489, 256);
    SeedFrom320To384In32();
    SixtyFourIsSeed32(Loop32(2962920654, 321), 5489, 320);
    SeedFrom384To388In32();
    FourIsSeed32(Loop32(2878099422, 385), 5489, 384);
    SeedFrom388To392In32();
    FourIsSeed32(Loop32(552370646, 389), 5489, 388);
    SeedFrom392To396In32();
    FourIsSeed32(Loop32(2605208763, 393), 5489, 392);
    SeedFrom396To397In32();
    TurnIsSeed32(Loop32(1447103986, 397), 5489, 396);
  }

  lemma SecondWord32()
    ensures Turn32(Loop32(5489, 1)) == Loop32(1301868182, 2)
  {
  }

  lemma FirstWord32(block: seq<bv32>)
    requires block == SeedBlock(MT19937, 5489)
    ensures X(MT19937, block, 624) == 2601187879 && Temper32(2601187879) == 3499211612
  {
    hide SeedWord, Twist32;
    SeedWords32();
    SeedStep32(5489, 0);
    NextWord(MT19937, block, 0);
    assert X(MT19937, block, 397) == 3183906156 && X(MT19937, block, 0) == 5489 && X(MT19937, block, 1) == 1301868182;
    FirstTwist32();
  }

  lemma FirstTwist32()
    ensures Twist32(3183906156, 5489, 1301868182) == 2601187879
  {
  }

  // The first number that a generator with the default seed returns.
  method FirstOutput32() returns (value: bv32)
    ensures value == 3499211612
  {
    var engine := new Engine(MT19937, 5489);
    ghost var block := engine.mt[..];
    hide X, SeedWord, Temper32;
    value := engine.Next();
    FirstWord32(block);
  }

  // ----- mt19937_64: the twist

  // It is a sum of what it makes of each word, and of each bit of them.
  lemma TwistSums64(far: bv64, near: bv64, next: bv64)
    ensures Twist64(far, near, next) == far ^ Twist64(0, near, 0) ^ Twist64(0, 0, next)
  {
  }

  lemma TwistNearIsLinear64(a: bv64, b: bv64)
    ensures Twist64(0, a ^ b, 0) == Twist64(0, a, 0) ^ Twist64(0, b, 0)
  {
  }

  lemma TwistNextIsLinear64(a: bv64, b: bv64)
    ensures Twist64(0, 0, Xor64(a, b)) == Xor64(Twist64(0, 0, a), Twist64(0, 0, b))
  {
    hide Twist64, Half64, Odd64, Xor64;
    HalvesAreLinear64(a, b);
    OddIsLinear64(a, b);
    NextHalves64(a);
    NextHalves64(b);
    NextHalves64(Xor64(a, b));
    XorSwaps64(Half64(a), Half64(b), Odd64(a), Odd64(b));
  }

  function Half64(next: bv64): bv64 { (next & 0x7fffffff) >> 1 }

  function Odd64(next: bv64): bv64 { if next & 1 == 1 then 0xb5026f5aa96619e9 else 0 }

  lemma NextHalves64(next: bv64)
    ensures Twist64(0, 0, next) == Xor64(Half64(next), Odd64(next))
  {
  }

  lemma HalvesAreLinear64(a: bv64, b: bv64)
    ensures Half64(Xor64(a, b)) == Xor64(Half64(a), Half64(b))
  {
  }

  lemma OddIsLinear64(a: bv64, b: bv64)
    ensures Odd64(Xor64(a, b)) == Xor64(Odd64(a), Odd64(b))
  {
  }

  lemma XorAssociates64(a: bv64, b: bv64, c: bv64)
    ensures Xor64(Xor64(a, b), c) == Xor64(a, Xor64(b, c))
  {
    assert (a ^ b) ^ c == a ^ (b ^ c);
  }

  lemma XorCommutes64(a: bv64, b: bv64)
    ensures Xor64(a, b) == Xor64(b, a)
  {
  }

  lemma XorSwaps64(a: bv64, b: bv64, c: bv64, d: bv64)
    ensures Xor64(Xor64(a, b), Xor64(c, d)) == Xor64(Xor64(a, c), Xor64(b, d))
  {
    hide Xor64;
    XorAssociates64(a, b, Xor64(c, d));
    XorAssociates64(b, c, d);
    XorCommutes64(b, c);
    XorAssociates64(c, b, d);
    XorAssociates64(a, c, Xor64(b, d));
  }

  // So it is known by what it makes of single bits: of the word itself the bits from 31 on
  // count, of the next one the lower ones; they move down by one, and the lowest turns into the
  // matrix constant.
  lemma TwistBits64(j: bv64)
    requires j < 64
    ensures Twist64(0, 1 << j, 0) == if j >= 31 then 1 << (j - 1) else 0
    ensures Twist64(0, 0, 1 << j) == if j == 0 then 0xb5026f5aa96619e9 else if j < 31 then 1 << (j - 1) else 0
  {
  }

  // ----- The seed words

  // Bits 62 and 63 are added without carry to bits 0 and 1, the result is multiplied, and the
  // counter is added, modulo 2^64.
  function Mix64(word: bv64): bv64 { word ^ (word >> 62) }

  function Scale64(word: bv64): bv64 { 6364136223846793005 * word }

  lemma MixIsLinear64(a: bv64, b: bv64)
    ensures Mix64(a ^ b) == Mix64(a) ^ Mix64(b)
  {
  }

  lemma MixBits64(j: bv64)
    requires j < 64
    ensures Mix64(1 << j) == if j < 62 then 1 << j else (1 << j) | (1 << (j - 62))
  {
  }

  lemma ScaleStep64(word: bv64)
    ensures Scale64(0) == 0 && Scale64(word + 1) == Scale64(word) + 6364136223846793005
  {
    assert 6364136223846793005 * (word + 1) == 6364136223846793005 * word + 6364136223846793005;
  }

  function AddMultiplier64(word: bv64): bv64 { word + 6364136223846793005 }

  lemma ScaleBump64(word: bv64)
    ensures Scale64(Bump64(word)) == AddMultiplier64(Scale64(word))
  {
    ScaleStep64(word);
    hide Scale64;
  }

  // n times the multiplier
  function Times64(n: nat): bv64 {
    if n == 0 then 0 else AddMultiplier64(Times64(n - 1))
  }

  lemma {:induction false} ScaleIsTimes64(n: nat)
    ensures Scale64(Count64(n)) == Times64(n)
  {
    if n > 0 {
      hide Scale64, AddMultiplier64, Bump64;
      ScaleBump64(Count64(n - 1));
      ScaleIsTimes64(n - 1);
    }
  }

  lemma GrowSums64(previous: bv64, i: bv64)
    ensures Grow64(previous, 0) == Scale64(Mix64(previous)) && Grow64(0, i) == i
  {
  }

  lemma SeedStep64(seed: bv64, i: nat)
    ensures SeedWord(MT19937_64, seed, 0) == seed
    ensures SeedWord(MT19937_64, seed, i + 1) == Grow64(SeedWord(MT19937_64, seed, i), Bump64(Count64(i)))
  {
    hide Grow64, Bump64;
    assert Count64(i + 1) == Bump64(Count64(i));
  }

  // ----- The tempering

  lemma StepAIsLinear64(a: bv64, b: bv64)
    ensures StepA64(Xor64(a, b)) == Xor64(StepA64(a), StepA64(b))
  {
    ShiftA64IsLinear(a, b);
    hide ShiftA64, Xor64;
    XorSwaps64(a, b, ShiftA64(a), ShiftA64(b));
  }

  lemma StepBIsLinear64(a: bv64, b: bv64)
    ensures StepB64(Xor64(a, b)) == Xor64(StepB64(a), StepB64(b))
  {
    ShiftB64IsLinear(a, b);
    hide ShiftB64, Xor64;
    XorSwaps64(a, b, ShiftB64(a), ShiftB64(b));
  }

  lemma StepCIsLinear64(a: bv64, b: bv64)
    ensures StepC64(Xor64(a, b)) == Xor64(StepC64(a), StepC64(b))
  {
    ShiftC64IsLinear(a, b);
    hide ShiftC64, Xor64;
    XorSwaps64(a, b, ShiftC64(a), ShiftC64(b));
  }

  lemma StepDIsLinear64(a: bv64, b: bv64)
    ensures StepD64(Xor64(a, b)) == Xor64(StepD64(a), StepD64(b))
  {
    ShiftD64IsLinear(a, b);
    hide ShiftD64, Xor64;
    XorSwaps64(a, b, ShiftD64(a), ShiftD64(b));
  }

  lemma TemperIsLinear64(a: bv64, b: bv64)
    ensures Temper64(Xor64(a, b)) == Xor64(Temper64(a), Temper64(b))
  {
    hide Xor64, StepA64, StepB64, StepC64, StepD64;
    StepAIsLinear64(a, b);
    StepBIsLinear64(StepA64(a), StepA64(b));
    StepCIsLinear64(StepB64(StepA64(a)), StepB64(StepA64(b)));
    StepDIsLinear64(StepC64(StepB64(StepA64(a))), StepC64(StepB64(StepA64(b))));
  }

  // What it makes of each single bit.
  lemma TemperBits64From0()
    ensures Temper64(0x1) == 0x40002000020801
    ensures Temper64(0x2) == 0x80004000041002
    ensures Temper64(0x4) == 0x8000000004
    ensures Temper64(0x8) == 0x8
    ensures Temper64(0x10) == 0x400020000208010
    ensures Temper64(0x20) == 0x40000000020
    ensures Temper64(0x40) == 0x1000080000820041
    ensures Temper64(0x80) == 0x2000000001040080
    ensures Temper64(0x100) == 0x200000000104
    ensures Temper64(0x200) == 0x8000400004100208
    ensures Temper64(0x400) == 0x800008000410
    ensures Temper64(0x800) == 0x1000000000820
    ensures Temper64(0x1000) == 0x2000020001040
    ensures Temper64(0x2000) == 0x4000040002080
    ensures Temper64(0x4000) == 0x80004000
    ensures Temper64(0x8000) == 0x10000100008200
  {
  }

  lemma TemperBits64From16()
    ensures Temper64(0x10000) == 0x20000200010400
    ensures Temper64(0x20000) == 0x40000400020800
    ensures Temper64(0x40000) == 0x80000800041000
    ensures Temper64(0x80000) == 0x100001000082000
    ensures Temper64(0x100000) == 0x200002000104000
    ensures Temper64(0x200000) == 0x400004000208000
    ensures Temper64(0x400000) == 0x800008000410000
    ensures Temper64(0x800000) == 0x1000010000820000
    ensures Temper64(0x1000000) == 0x2000020001040000
    ensures Temper64(0x2000000) == 0x4000040002080000
    ensures Temper64(0x4000000) == 0x8000080004100001
    ensures Temper64(0x8000000) == 0x100008000002
    ensures Temper64(0x10000000) == 0x200010000004
    ensures Temper64(0x20000000) == 0x40402020020809
    ensures Temper64(0x40000000) == 0x40000000
    ensures Temper64(0x80000000) == 0x8080000004
  {
  }

  lemma TemperBits64From32()
    ensures Temper64(0x100000000) == 0x2000100000040
    ensures Temper64(0x200000000) == 0x404020200208090
    ensures Temper64(0x400000000) == 0x400000000
    ensures Temper64(0x800000000) == 0x1010080800820241
    ensures Temper64(0x1000000000) == 0x1000000000
    ensures Temper64(0x2000000000) == 0x40202000000904
    ensures Temper64(0x4000000000) == 0x80004000001000
    ensures Temper64(0x8000000000) == 0x100808008002410
    ensures Temper64(0x10000000000) == 0x10000000000
    ensures Temper64(0x20000000000) == 0x2020020001040
    ensures Temper64(0x40000000000) == 0x40000000000
    ensures Temper64(0x80000000000) == 0x1000080080024001
    ensures Temper64(0x100000000000) == 0x2000100000040002
    ensures Temper64(0x200000000000) == 0x4020200200090404
    ensures Temper64(0x400000000000) == 0x400000000008
    ensures Temper64(0x800000000000) == 0x80800800041010
  {
  }

  lemma TemperBits64From48()
    ensures Temper64(0x1000000000000) == 0x1000000000020
    ensures Temper64(0x2000000000000) == 0x202002000104040
    ensures Temper64(0x4000000000000) == 0x4000000000080
    ensures Temper64(0x8000000000000) == 0x808008000410100
    ensures Temper64(0x10000000000000) == 0x10000000000200
    ensures Temper64(0x20000000000000) == 0x2020020001040400
    ensures Temper64(0x40000000000000) == 0x40000000000800
    ensures Temper64(0x80000000000000) == 0x8080080004101001
    ensures Temper64(0x100000000000000) == 0x100000000002000
    ensures Temper64(0x200000000000000) == 0x200200010004004
    ensures Temper64(0x400000000000000) == 0x400000000008000
    ensures Temper64(0x800000000000000) == 0x800000040010000
    ensures Temper64(0x1000000000000000) == 0x1000000000020000
    ensures Temper64(0x2000000000000000) == 0x2002000100040040
    ensures Temper64(0x4000000000000000) == 0x4000000000080000
    ensures Temper64(0x8000000000000000) == 0x8000000400100000
  {
  }

  // ----- The first output

  datatype Loop64 = Loop64(word: bv64, counter: bv64)

  // Turns of the loop of seed().
  function Turn64(l: Loop64): Loop64 { Loop64(Grow64(l.word, l.counter), Bump64(l.counter)) }

  function Four64(l: Loop64): Loop64 { Turn64(Turn64(Turn64(Turn64(l)))) }

  function Sixteen64(l: Loop64): Loop64 { Four64(Four64(Four64(Four64(l)))) }

  predicate IsAt64(l: Loop64, seed: bv64, i: nat) {
    l == Loop64(SeedWord(MT19937_64, seed, i), Bump64(Count64(i)))
  }

  lemma TurnIsSeed64(l: Loop64, seed: bv64, i: nat)
    requires IsAt64(l, seed, i)
    ensures IsAt64(Turn64(l), seed, i + 1)
  {
    hide Grow64, Bump64;
    SeedStep64(seed, i);
  }

  lemma FourIsSeed64(l: Loop64, seed: bv64, i: nat)
    requires IsAt64(l, seed, i)
    ensures IsAt64(Four64(l), seed, i + 4)
  {
    hide Turn64, IsAt64;
    TurnIsSeed64(l, seed, i);
    TurnIsSeed64(Turn64(l), seed, i + 1);
    TurnIsSeed64(Turn64(Turn64(l)), seed, i + 2);
    TurnIsSeed64(Turn64(Turn64(Turn64(l))), seed, i + 3);
  }

  lemma SixteenIsSeed64(l: Loop64, seed: bv64, i: nat)
    requires IsAt64(l, seed, i)
    ensures IsAt64(Sixteen64(l), seed, i + 16)
  {
    hide Four64, IsAt64;
    FourIsSeed64(l, seed, i);
    FourIsSeed64(Four64(l), seed, i + 4);
    FourIsSeed64(Four64(Four64(l)), seed, i + 8);
    FourIsSeed64(Four64(Four64(Four64(l))), seed, i + 12);
  }

  lemma SeedFrom0To16In64()
    ensures Sixteen64(Loop64(5489, 1)) == Loop64(7287101680298317085, 17)
  {
  }

  lemma SeedFrom16To32In64()
    ensures Sixteen64(Loop64(7287101680298317085, 17)) == Loop64(9980521080467753324, 33)
  {
  }

  lemma SeedFrom32To48In64()
    ensures Sixteen64(Loop64(9980521080467753324, 33)) == Loop64(213769070704315526, 49)
  {
  }

  lemma SeedFrom48To64In64()
    ensures Sixteen64(Loop64(213769070704315526, 49)) == Loop64(14461854875984255581, 65)
  {
  }

  lemma SeedFrom64To80In64()
    ensures Sixteen64(Loop64(14461854875984255581, 65)) == Loop64(2523212579397444422, 81)
  {
  }

  lemma SeedFrom80To96In64()
    ensures Sixteen64(Loop64(2523212579397444422, 81)) == Loop64(1855653125818638627, 97)
  {
  }

  lemma SeedFrom96To112In64()
    ensures Sixteen64(Loop64(1855653125818638627, 97)) == Loop64(15873501535677970563, 113)
  {
  }

  lemma SeedFrom112To128In64()
    ensures Sixteen64(Loop64(15873501535677970563, 113)) == Loop64(16717695660713672494, 129)
  {
  }

  lemma SeedFrom128To144In64()
    ensures Sixteen64(Loop64(16717695660713672494, 129)) == Loop64(13733309948923027732, 145)
  {
  }

  lemma SeedFrom144To148In64()
    ensures Four64(Loop64(13733309948923027732, 145)) == Loop64(12717629078983493101, 149)
  {
  }

  lemma SeedFrom148To152In64()
    ensures Four64(Loop64(12717629078983493101, 149)) == Loop64(14656296979938373109, 153)
  {
  }

  lemma SeedFrom152To156In64()
    ensures Four64(Loop64(14656296979938373109, 153)) == Loop64(2619718836853156863, 157)
  {
  }

  lemma SeedWords64()
    ensures SeedWord(MT19937_64, 5489, 1) == 13057201162865595358 && SeedWord(MT19937_64, 5489, 156) == 2619718836853156863
  {
    hide Turn64, Count64, SeedWord;
    StartOfSeed64();
    SecondWord64();
    TurnIsSeed64(Loop64(5489, 1), 5489, 0);
    EndOfSeed64();
  }

  lemma StartOfSeed64()
    ensures IsAt64(Loop64(5489, 1), 5489, 0)
  {
  }

  lemma EndOfSeed64()
    requires IsAt64(Loop64(5489, 1), 5489, 0)
    ensures IsAt64(Loop64(2619718836853156863, 157), 5489, 156)
  {
    hide *;
    SeedFrom0To16In64();
    SixteenIsSeed64(Loop64(5489, 1), 5489, 0);
    SeedFrom16To32In64();
    SixteenIsSeed64(Loop64(7287101680298317085, 17), 5489, 16);
    SeedFrom32To48In64();
    SixteenIsSeed64(Loop64(9980521080467753324, 33), 5489, 32);
    SeedFrom48To64In64();
    SixteenIsSeed64(Loop64(213769070704315526, 49), 5489, 48);
    SeedFrom64To80In64();
    SixteenIsSeed64(Loop64(14461854875984255581, 65), 5489, 64);
    SeedFrom80To96In64();
    SixteenIsSeed64(Loop64(2523212579397444422, 81), 5489, 80);
    SeedFrom96To112In64();
    SixteenIsSeed64(Loop64(1855653125818638627, 97), 5489, 96);
    SeedFrom112To128In64();
    SixteenIsSeed64(Loop64(15873501535677970563, 113), 5489, 112);
    SeedFrom128To144In64();
    SixteenIsSeed64(Loop64(16717695660713672494, 129), 5489, 128);
    SeedFrom144To148In64();
    FourIsSeed64(Loop64(13733309948923027732, 145), 5489, 144);
    SeedFrom148To152In64();
    FourIsSeed64(Loop64(12717629078983493101, 149), 5489, 148);
    SeedFrom152To156In64();
    FourIsSeed64(Loop64(14656296979938373109, 153), 5489, 152);
  }

  lemma SecondWord64()
    ensures Turn64(Loop64(5489, 1)) == Loop64(13057201162865595358, 2)
  {
  }

  lemma FirstWord64(block: seq<bv64>)
    requires block == SeedBlock(MT19937_64, 5489)
    ensures X(MT19937_64, block, 312) == 2619718836730839568 && Temper64(2619718836730839568) == 14514284786278117030
  {
    hide SeedWord, Twist64;
    SeedWords64();
    SeedStep64(5489, 0);
    NextWord(MT19937_64, block, 0);
    assert X(MT19937_64, block, 156) == 2619718836853156863 && X(MT19937_64, block, 0) == 5489 && X(MT19937_64, block, 1) == 13057201162865595358;
    FirstTwist64();
  }

  lemma FirstTwist64()
    ensures Twist64(2619718836853156863, 5489, 13057201162865595358) == 2619718836730839568
  {
  }

  // The first number that a generator with the default seed returns.
  method FirstOutput64() returns (value: bv64)
    ensures value == 14514284786278117030
  {
    var engine := new Engine(MT19937_64, 5489);
    ghost var block := engine.mt[..];
    hide X, SeedWord, Temper64;
    value := engine.Next();
    FirstWord64(block);
  }
}
