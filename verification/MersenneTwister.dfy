// The Mersenne Twister engines mt19937 and mt19937_64.
//
// Both engines run the same code over words of different width, so the engine is written once
// over its parameters: the state size n, the shift m, and the three word functions.

module MersenneTwister {

  datatype Parameters<!W> = Parameters(
    n: nat,
    m: nat,
    combine: (W, W, W) -> W,  // x[k + n] from x[k + m], x[k], x[k + 1]
    count: nat -> W,          // a loop counter as a word
    grow: (W, W) -> W,        // the i-th seed word from the one before it and i
    temper: W -> W,
    share: nat,               // how many 32-bit seed numbers make one word
    gather: (bv32, bv32) -> W // a word from the first and the last of its seed numbers
  )
  {
    predicate Valid() {
      0 < m < n && 0 < share
    }
  }

  // ----- Specification: the infinite sequence that a block of n words starts.

  function X<W>(p: Parameters<W>, block: seq<W>, k: nat): W
    requires p.Valid() && |block| == p.n
  {
    if k < p.n then block[k]
    else p.combine(X(p, block, k - p.n + p.m), X(p, block, k - p.n), X(p, block, k - p.n + 1))
  }

  function SeedWord<W>(p: Parameters<W>, value: W, i: nat): W {
    if i == 0 then value else p.grow(SeedWord(p, value, i - 1), p.count(i))
  }

  function SeedBlock<W>(p: Parameters<W>, value: W): (block: seq<W>)
    ensures |block| == p.n
    ensures forall i :: 0 <= i < p.n ==> block[i] == SeedWord(p, value, i)
  {
    seq(p.n, i requires 0 <= i => SeedWord(p, value, i))
  }

  lemma Multiples(i: nat, n: nat, share: nat)
    requires i < n
    ensures 0 <= i * share <= i * share + share <= n * share
  {
    var rest := n - i - 1;
    calc {
      n * share;
      (i + (1 + rest)) * share;
      i * share + (1 + rest) * share;
      i * share + share + rest * share;
    }
    assert 0 <= i * share && 0 <= rest * share;
  }

  lemma ShareIsInside<W>(p: Parameters<W>, i: nat)
    requires p.Valid() && i < p.n
    ensures 0 <= i * p.share <= i * p.share + p.share - 1 < p.n * p.share
  {
    Multiples(i, p.n, p.share);
  }

  function GatheredWord<W>(p: Parameters<W>, numbers: seq<bv32>, i: nat): W
    requires p.Valid() && |numbers| == p.n * p.share && i < p.n
  {
    ShareIsInside(p, i);
    p.gather(numbers[i * p.share], numbers[i * p.share + p.share - 1])
  }

  // The block that the numbers of a seed sequence make.
  function Gathered<W>(p: Parameters<W>, numbers: seq<bv32>): (block: seq<W>)
    requires p.Valid() && |numbers| == p.n * p.share
    ensures |block| == p.n
    ensures forall i :: 0 <= i < p.n ==> block[i] == GatheredWord(p, numbers, i)
  {
    seq(p.n, i requires 0 <= i < p.n => GatheredWord(p, numbers, i))
  }

  lemma NextWord<W>(p: Parameters<W>, block: seq<W>, i: nat)
    requires p.Valid() && |block| == p.n
    ensures X(p, block, p.n + i) == p.combine(X(p, block, i + p.m), X(p, block, i), X(p, block, i + 1))
    ensures i < p.n ==> X(p, block, i) == block[i]
  {
  }

  // Any n consecutive words start the rest of the sequence.
  lemma {:induction false} Restart<W>(p: Parameters<W>, block: seq<W>, later: seq<W>, base: nat, k: nat)
    requires p.Valid() && |block| == p.n && |later| == p.n
    requires forall i :: 0 <= i < p.n ==> later[i] == X(p, block, base + i)
    ensures X(p, later, k) == X(p, block, base + k)
  {
    if k >= p.n {
      Restart(p, block, later, base, k - p.n + p.m);
      Restart(p, block, later, base, k - p.n);
      Restart(p, block, later, base, k - p.n + 1);
    }
  }

  // The k-th word from `index` on.
  function Word<W>(p: Parameters<W>, block: seq<W>, index: nat, k: nat): W
    requires p.Valid() && |block| == p.n
  {
    X(p, block, index + k)
  }

  // The words of `later` from index `j` on are those of `block` from index `i` on.
  ghost predicate Continues<W>(p: Parameters<W>, block: seq<W>, i: nat, later: seq<W>, j: nat)
    requires p.Valid() && |block| == p.n && |later| == p.n
  {
    forall k: nat :: Word(p, later, j, k) == Word(p, block, i, k)
  }

  lemma ContinuesFurther<W>(p: Parameters<W>, a: seq<W>, i: nat, b: seq<W>, j: nat, skip: nat, c: seq<W>, l: nat)
    requires p.Valid() && |a| == p.n && |b| == p.n && |c| == p.n
    requires Continues(p, a, i, b, j) && Continues(p, b, j + skip, c, l)
    ensures Continues(p, a, i + skip, c, l)
  {
    forall k: nat
      ensures Word(p, c, l, k) == Word(p, a, i + skip, k)
    {
      assert Word(p, c, l, k) == Word(p, b, j + skip, k);
      assert j + skip + k == j + (skip + k) && i + skip + k == i + (skip + k);
      assert Word(p, b, j, skip + k) == Word(p, a, i, skip + k);
    }
  }

  lemma NextBlockContinues<W>(p: Parameters<W>, block: seq<W>, later: seq<W>)
    requires p.Valid() && |block| == p.n
    requires Overwritten(p, block, later, p.n)
    ensures Continues(p, block, p.n, later, 0)
  {
    forall k: nat
      ensures Word(p, later, 0, k) == Word(p, block, p.n, k)
    {
      Restart(p, block, later, p.n, k);
    }
  }

  // A block being overwritten in place: below `i` the next block, from `i` on the old one.
  ghost predicate Overwritten<W>(p: Parameters<W>, block: seq<W>, now: seq<W>, i: nat)
    requires p.Valid() && |block| == p.n
  {
    && |now| == p.n
    && (forall j :: 0 <= j < i && j < p.n ==> now[j] == X(p, block, p.n + j))
    && (forall j :: i <= j < p.n ==> now[j] == block[j])
  }

  lemma OverwriteOne<W>(p: Parameters<W>, block: seq<W>, now: seq<W>, i: nat)
    requires p.Valid() && |block| == p.n && i < p.n && Overwritten(p, block, now, i)
    ensures var far := if i < p.n - p.m then now[i + p.m] else now[i + p.m - p.n];
            var next := if i + 1 < p.n then now[i + 1] else now[0];
            Overwritten(p, block, now[i := p.combine(far, now[i], next)], i + 1)
  {
    NextWord(p, block, i);
    assert i + p.m >= p.n ==> X(p, block, i + p.m) == X(p, block, p.n + (i + p.m - p.n));
    assert i + 1 == p.n ==> X(p, block, i + 1) == X(p, block, p.n + 0);
  }

  // ----- The engine.

  class Engine<W(==)> {
    const p: Parameters<W>
    const mt: array<W>
    var index: nat

    ghost predicate Valid()
      reads this
    {
      p.Valid() && mt.Length == p.n && index <= p.n
    }

    constructor (p: Parameters<W>, value: W)
      requires p.Valid()
      ensures Valid() && this.p == p && fresh(mt)
      ensures mt[..] == SeedBlock(p, value) && index == p.n
    {
      this.p := p;
      this.mt := new W[p.n](_ => value);
      this.index := p.n;
      new;
      Seed(value);
    }

    method Seed(value: W)
      requires Valid()
      modifies this`index, mt
      ensures Valid() && mt[..] == SeedBlock(p, value) && index == p.n
    {
      ghost var words := SeedBlock(p, value);
      mt[0] := value;
      for i := 1 to p.n
        invariant mt[..i] == words[..i]
      {
        assert words[i] == p.grow(words[i - 1], p.count(i));
        assert mt[i - 1] == mt[..i][i - 1];
        mt[i] := p.grow(mt[i - 1], p.count(i));
      }
      index := p.n;
      assert mt[..] == words;
    }

    // seed(sseq): the words are put together from the numbers of a seed sequence.
    method SeedFrom(numbers: seq<bv32>)
      requires Valid() && |numbers| == p.n * p.share
      modifies this`index, mt
      ensures Valid() && mt[..] == Gathered(p, numbers) && index == p.n
    {
      ghost var words := Gathered(p, numbers);
      for i := 0 to p.n
        invariant mt[..i] == words[..i]
      {
        ShareIsInside(p, i);
        mt[i] := p.gather(numbers[i * p.share], numbers[i * p.share + p.share - 1]);
        assert mt[i] == GatheredWord(p, numbers, i);
      }
      index := p.n;
      assert mt[..] == words;
    }

    // Three parts overwrite the block in place while still reading it.
    method Generate()
      requires Valid()
      modifies this`index, mt
      ensures Valid() && index == 0
      ensures Overwritten(p, old(mt[..]), mt[..], p.n)
    {
      hide X;
      ghost var block := mt[..];
      for i := 0 to p.n - p.m
        invariant Overwritten(p, block, mt[..], i)
      {
        OverwriteOne(p, block, mt[..], i);
        ghost var now := mt[..];
        mt[i] := p.combine(mt[i + p.m], mt[i], mt[i + 1]);
        assert mt[..] == now[i := mt[i]];
      }
      for i := p.n - p.m to p.n - 1
        invariant Overwritten(p, block, mt[..], i)
      {
        OverwriteOne(p, block, mt[..], i);
        ghost var now := mt[..];
        mt[i] := p.combine(mt[i + p.m - p.n], mt[i], mt[i + 1]);
        assert mt[..] == now[i := mt[i]];
      }
      OverwriteOne(p, block, mt[..], p.n - 1);
      ghost var now := mt[..];
      mt[p.n - 1] := p.combine(mt[p.m - 1], mt[p.n - 1], mt[0]);
      assert mt[..] == now[p.n - 1 := mt[p.n - 1]];
      assert Overwritten(p, block, mt[..], p.n);
      index := 0;
    }

    // operator(): the value is the tempered word at the index, and the words that follow it
    // stay the same even when the block is replaced.
    method Next() returns (value: W)
      requires Valid()
      modifies this`index, mt
      ensures Valid()
      ensures value == p.temper(X(p, old(mt[..]), old(index)))
      ensures Continues(p, old(mt[..]), old(index) + 1, mt[..], index)
    {
      ghost var block, start := mt[..], index;
      if index >= p.n {
        Generate();
        NextBlockContinues(p, block, mt[..]);
      }
      assert Continues(p, block, start, mt[..], index);
      assert Word(p, mt[..], index, 0) == Word(p, block, start, 0);
      ContinuesFurther(p, block, start, mt[..], index, 1, mt[..], index + 1);
      value := p.temper(mt[index]);
      index := index + 1;
    }

    method Discard(count: nat)
      requires Valid()
      modifies this`index, mt
      ensures Valid()
      ensures Continues(p, old(mt[..]), old(index) + count, mt[..], index)
    {
      ghost var block, start := mt[..], index;
      ghost var done: nat := 0;
      var remaining := count;
      while remaining > 0
        invariant Valid() && remaining >= 0 && remaining + done == count
        invariant Continues(p, block, start + done, mt[..], index)
      {
        ghost var before, i := mt[..], index;
        remaining := remaining - 1;
        var _ := Next();
        ContinuesFurther(p, block, start + done, before, i, 1, mt[..], index);
        done := done + 1;
      }
      assert done == count;
    }

    // operator==
    method Equals(other: Engine<W>) returns (equal: bool)
      requires Valid() && other.Valid() && p == other.p
      ensures equal <==> index == other.index && mt[..] == other.mt[..]
    {
      if index != other.index {
        return false;
      }
      for i := 0 to p.n
        invariant forall j :: 0 <= j < i ==> mt[j] == other.mt[j]
      {
        if mt[i] != other.mt[i] {
          assert mt[..][i] != other.mt[..][i];
          return false;
        }
      }
      assert mt[..] == other.mt[..];
      return true;
    }
  }

  // Main result: after seeding and a discard of `skip`, `count` calls return the tempered words
  // n + skip, n + skip + 1, ..., across any number of blocks.
  method DrawAfterSeed<W(==)>(p: Parameters<W>, seed: W, skip: nat, count: nat) returns (drawn: seq<W>)
    requires p.Valid()
    ensures |drawn| == count
    ensures forall k :: 0 <= k < count ==> drawn[k] == p.temper(Word(p, SeedBlock(p, seed), p.n + skip, k))
  {
    hide X, SeedWord;
    var engine := new Engine(p, seed);
    ghost var block := engine.mt[..];
    engine.Discard(skip);
    ghost var from, i := engine.mt[..], engine.index;
    drawn := Draw(engine, count);
    assert forall k :: 0 <= k < count ==> Word(p, from, i, k) == Word(p, block, p.n + skip, k);
  }

  method Draw<W(==)>(engine: Engine<W>, count: nat) returns (drawn: seq<W>)
    requires engine.Valid()
    modifies engine`index, engine.mt
    ensures engine.Valid() && |drawn| == count
    ensures forall k :: 0 <= k < count ==>
              drawn[k] == engine.p.temper(Word(engine.p, old(engine.mt[..]), old(engine.index), k))
    ensures Continues(engine.p, old(engine.mt[..]), old(engine.index) + count, engine.mt[..], engine.index)
  {
    ghost var block, start := engine.mt[..], engine.index;
    drawn := [];
    for k := 0 to count
      invariant engine.Valid() && |drawn| == k
      invariant Continues(engine.p, block, start + k, engine.mt[..], engine.index)
      invariant forall j :: 0 <= j < k ==> drawn[j] == engine.p.temper(Word(engine.p, block, start, j))
    {
      ghost var before, i := engine.mt[..], engine.index;
      var value := engine.Next();
      assert Word(engine.p, before, i, 0) == Word(engine.p, block, start + k, 0);
      ContinuesFurther(engine.p, block, start + k, before, i, 1, engine.mt[..], engine.index);
      drawn := drawn + [value];
    }
  }

  // Engines that compare equal return equal outputs forever.
  method DrawFromEquals<W(==)>(a: Engine<W>, b: Engine<W>, count: nat) returns (equal: bool, x: seq<W>, y: seq<W>)
    requires a.Valid() && b.Valid() && a.p == b.p && a != b && a.mt != b.mt
    modifies a`index, b`index, a.mt, b.mt
    ensures equal == old(a.index == b.index && a.mt[..] == b.mt[..])
    ensures |x| == |y| == count && (equal ==> x == y)
  {
    equal := a.Equals(b);
    x := Draw(a, count);
    y := Draw(b, count);
  }

  // ----- The two engines.

  function Twist32(far: bv32, near: bv32, next: bv32): bv32 {
    var value := (near & 0x80000000) | (next & 0x7fffffff);
    far ^ (value >> 1) ^ (if value & 1 == 1 then 0x9908b0df else 0)
  }

  function Bump32(counter: bv32): bv32 { counter + 1 }

  function Count32(i: nat): bv32 {
    if i == 0 then 0 else Bump32(Count32(i - 1))
  }

  function Grow32(previous: bv32, i: bv32): bv32 {
    1812433253 * (previous ^ (previous >> 30)) + i
  }

  // The four steps of operator()'s tempering: each xors a shifted and masked copy onto the word.
  function Xor32(a: bv32, b: bv32): bv32 { a ^ b }

  function ShiftA32(word: bv32): bv32 { word >> 11 }
  function ShiftB32(word: bv32): bv32 { (word << 7) & 0x9d2c5680 }
  function ShiftC32(word: bv32): bv32 { (word << 15) & 0xefc60000 }
  function ShiftD32(word: bv32): bv32 { word >> 18 }

  function StepA32(word: bv32): bv32 { Xor32(word, ShiftA32(word)) }
  function StepB32(word: bv32): bv32 { Xor32(word, ShiftB32(word)) }
  function StepC32(word: bv32): bv32 { Xor32(word, ShiftC32(word)) }
  function StepD32(word: bv32): bv32 { Xor32(word, ShiftD32(word)) }

  function Temper32(word: bv32): bv32 {
    StepD32(StepC32(StepB32(StepA32(word))))
  }

  // A seed number is a word here.
  function Gather32(first: bv32, last: bv32): bv32 { first }

  const MT19937: Parameters<bv32> := Parameters(624, 397, Twist32, Count32, Grow32, Temper32, 1, Gather32)

  function Twist64(far: bv64, near: bv64, next: bv64): bv64 {
    var value := (near & 0xffffffff80000000) | (next & 0x7fffffff);
    far ^ (value >> 1) ^ (if value & 1 == 1 then 0xb5026f5aa96619e9 else 0)
  }

  function Bump64(counter: bv64): bv64 { counter + 1 }

  function Count64(i: nat): bv64 {
    if i == 0 then 0 else Bump64(Count64(i - 1))
  }

  function Grow64(previous: bv64, i: bv64): bv64 {
    6364136223846793005 * (previous ^ (previous >> 62)) + i
  }

  function Xor64(a: bv64, b: bv64): bv64 { a ^ b }

  function ShiftA64(word: bv64): bv64 { (word >> 29) & 0x5555555555555555 }
  function ShiftB64(word: bv64): bv64 { (word << 17) & 0x71d67fffeda60000 }
  function ShiftC64(word: bv64): bv64 { (word << 37) & 0xfff7eee000000000 }
  function ShiftD64(word: bv64): bv64 { word >> 43 }

  function StepA64(word: bv64): bv64 { Xor64(word, ShiftA64(word)) }
  function StepB64(word: bv64): bv64 { Xor64(word, ShiftB64(word)) }
  function StepC64(word: bv64): bv64 { Xor64(word, ShiftC64(word)) }
  function StepD64(word: bv64): bv64 { Xor64(word, ShiftD64(word)) }

  function Temper64(word: bv64): bv64 {
    StepD64(StepC64(StepB64(StepA64(word))))
  }

  // Two seed numbers make a word, the low half first.
  function Gather64(low: bv32, high: bv32): bv64 { (low as bv64) | ((high as bv64) << 32) }

  const MT19937_64: Parameters<bv64> := Parameters(312, 156, Twist64, Count64, Grow64, Temper64, 2, Gather64)

  // ----- Seed sequences are told apart.

  lemma Gather64KeepsLow(low: bv32, high: bv32)
    ensures (Gather64(low, high) & 0xffffffff) as bv32 == low
  {
  }

  lemma Gather64KeepsHigh(low: bv32, high: bv32)
    ensures (Gather64(low, high) >> 32) as bv32 == high
  {
  }

  lemma Gather64TellsApart(a: bv32, b: bv32, c: bv32, d: bv32)
    requires Gather64(a, b) == Gather64(c, d)
    ensures a == c && b == d
  {
    hide Gather64;
    Gather64KeepsLow(a, b);
    Gather64KeepsLow(c, d);
    Gather64KeepsHigh(a, b);
    Gather64KeepsHigh(c, d);
  }

  // Two seed sequences seed the same block exactly when they are the same numbers.
  lemma SeedSequences64(a: seq<bv32>, b: seq<bv32>)
    requires |a| == |b| == 624
    ensures Gathered(MT19937_64, a) == Gathered(MT19937_64, b) <==> a == b
  {
    hide Gather64;
    if Gathered(MT19937_64, a) == Gathered(MT19937_64, b) {
      forall i | 0 <= i < 312
        ensures a[2 * i] == b[2 * i] && a[2 * i + 1] == b[2 * i + 1]
      {
        assert GatheredWord(MT19937_64, a, i) == GatheredWord(MT19937_64, b, i);
        Gather64TellsApart(a[2 * i], a[2 * i + 1], b[2 * i], b[2 * i + 1]);
      }
      forall k | 0 <= k < 624
        ensures a[k] == b[k]
      {
        assert k == 2 * (k / 2) || k == 2 * (k / 2) + 1;
      }
    }
  }

  // ----- Tempering loses nothing.

  ghost predicate IsInjective<W(!new)>(f: W -> W) {
    forall x, y :: f(x) == f(y) ==> x == y
  }

  // What xor gives: what two words share cancels, and words with no difference are equal.
  ghost predicate IsXor<W(!new)>(xor: (W, W) -> W, zero: W) {
    && (forall a, b, s :: xor(xor(a, s), xor(b, s)) == xor(a, b))
    && (forall a, s, t :: xor(xor(a, t), xor(a, s)) == xor(s, t))
    && (forall a, b :: xor(a, b) == zero ==> a == b)
  }

  // A shift with a mask is linear and, done five times over, leaves nothing.
  ghost predicate IsShift<W(!new)>(shift: W -> W, xor: (W, W) -> W, zero: W) {
    && (forall a, b :: shift(xor(a, b)) == xor(shift(a), shift(b)))
    && (forall a :: shift(shift(shift(shift(shift(a))))) == zero)
  }

  // So a step, which xors a shifted copy onto its word, is injective: a difference that the
  // step hides would be its own shifted copy, five times over, hence nothing.
  lemma StepIsInjective<W(!new)>(step: W -> W, shift: W -> W, xor: (W, W) -> W, zero: W)
    requires IsXor(xor, zero) && IsShift(shift, xor, zero)
    requires forall v :: step(v) == xor(v, shift(v))
    ensures IsInjective(step)
  {
    forall x, y | step(x) == step(y)
      ensures x == y
    {
      var difference := xor(x, y);
      assert xor(x, shift(x)) == xor(y, shift(y));
      assert xor(xor(x, shift(x)), xor(y, shift(x))) == difference;
      assert xor(xor(y, shift(y)), xor(y, shift(x))) == shift(difference);
      assert shift(difference) == difference;
    }
  }

  lemma CompositionIsInjective<W(!new)>(f: W -> W, g: W -> W, h: W -> W)
    requires IsInjective(f) && IsInjective(g)
    requires forall x :: h(x) == g(f(x))
    ensures IsInjective(h)
  {
    forall x, y | h(x) == h(y)
      ensures x == y
    {
      assert g(f(x)) == g(f(y));
    }
  }

  lemma FourStepsAreInjective<W(!new)>(a: W -> W, b: W -> W, c: W -> W, d: W -> W, temper: W -> W)
    requires IsInjective(a) && IsInjective(b) && IsInjective(c) && IsInjective(d)
    requires forall x :: temper(x) == d(c(b(a(x))))
    ensures IsInjective(temper)
  {
    CompositionIsInjective(a, b, x => b(a(x)));
    CompositionIsInjective(x => b(a(x)), c, x => c(b(a(x))));
    CompositionIsInjective(x => c(b(a(x))), d, temper);
  }

  lemma SharedRight32(a: bv32, b: bv32, s: bv32)
    ensures Xor32(Xor32(a, s), Xor32(b, s)) == Xor32(a, b)
  {
    assert (a ^ s) ^ (b ^ s) == (a ^ b) ^ (s ^ s);
  }

  lemma SharedLeft32(a: bv32, s: bv32, t: bv32)
    ensures Xor32(Xor32(a, t), Xor32(a, s)) == Xor32(s, t)
  {
    assert (a ^ t) ^ (a ^ s) == (s ^ t) ^ (a ^ a);
  }

  lemma NoDifference32(a: bv32, b: bv32)
    requires Xor32(a, b) == 0
    ensures a == b
  {
  }

  lemma Xor32IsXor()
    ensures IsXor(Xor32, 0)
  {
    forall a, b, s { SharedRight32(a, b, s); }
    forall a, s, t { SharedLeft32(a, s, t); }
    forall a, b | Xor32(a, b) == 0 { NoDifference32(a, b); }
  }

  lemma ShiftA32IsLinear(a: bv32, b: bv32)
    ensures ShiftA32(Xor32(a, b)) == Xor32(ShiftA32(a), ShiftA32(b))
  {
  }

  lemma ShiftB32IsLinear(a: bv32, b: bv32)
    ensures ShiftB32(Xor32(a, b)) == Xor32(ShiftB32(a), ShiftB32(b))
  {
  }

  lemma ShiftC32IsLinear(a: bv32, b: bv32)
    ensures ShiftC32(Xor32(a, b)) == Xor32(ShiftC32(a), ShiftC32(b))
  {
  }

  lemma ShiftD32IsLinear(a: bv32, b: bv32)
    ensures ShiftD32(Xor32(a, b)) == Xor32(ShiftD32(a), ShiftD32(b))
  {
  }

  lemma ShiftA32Vanishes(a: bv32)
    ensures ShiftA32(ShiftA32(ShiftA32(ShiftA32(ShiftA32(a))))) == 0
  {
  }

  lemma ShiftB32Vanishes(a: bv32)
    ensures ShiftB32(ShiftB32(ShiftB32(ShiftB32(ShiftB32(a))))) == 0
  {
  }

  lemma ShiftC32Vanishes(a: bv32)
    ensures ShiftC32(ShiftC32(ShiftC32(ShiftC32(ShiftC32(a))))) == 0
  {
  }

  lemma ShiftD32Vanishes(a: bv32)
    ensures ShiftD32(ShiftD32(ShiftD32(ShiftD32(ShiftD32(a))))) == 0
  {
  }

  lemma ShiftsAreShifts32()
    ensures IsShift(ShiftA32, Xor32, 0) && IsShift(ShiftB32, Xor32, 0)
    ensures IsShift(ShiftC32, Xor32, 0) && IsShift(ShiftD32, Xor32, 0)
  {
    assert IsShift(ShiftA32, Xor32, 0) by {
      forall a, b { ShiftA32IsLinear(a, b); }
      forall a { ShiftA32Vanishes(a); }
    }
    assert IsShift(ShiftB32, Xor32, 0) by {
      forall a, b { ShiftB32IsLinear(a, b); }
      forall a { ShiftB32Vanishes(a); }
    }
    assert IsShift(ShiftC32, Xor32, 0) by {
      forall a, b { ShiftC32IsLinear(a, b); }
      forall a { ShiftC32Vanishes(a); }
    }
    assert IsShift(ShiftD32, Xor32, 0) by {
      forall a, b { ShiftD32IsLinear(a, b); }
      forall a { ShiftD32Vanishes(a); }
    }
  }

  lemma Temper32IsInjective()
    ensures IsInjective(Temper32)
  {
    Xor32IsXor();
    ShiftsAreShifts32();
    StepIsInjective(StepA32, ShiftA32, Xor32, 0);
    StepIsInjective(StepB32, ShiftB32, Xor32, 0);
    StepIsInjective(StepC32, ShiftC32, Xor32, 0);
    StepIsInjective(StepD32, ShiftD32, Xor32, 0);
    FourStepsAreInjective(StepA32, StepB32, StepC32, StepD32, Temper32);
  }

  lemma SharedRight64(a: bv64, b: bv64, s: bv64)
    ensures Xor64(Xor64(a, s), Xor64(b, s)) == Xor64(a, b)
  {
    assert (a ^ s) ^ (b ^ s) == (a ^ b) ^ (s ^ s);
  }

  lemma SharedLeft64(a: bv64, s: bv64, t: bv64)
    ensures Xor64(Xor64(a, t), Xor64(a, s)) == Xor64(s, t)
  {
    assert (a ^ t) ^ (a ^ s) == (s ^ t) ^ (a ^ a);
  }

  lemma NoDifference64(a: bv64, b: bv64)
    requires Xor64(a, b) == 0
    ensures a == b
  {
  }

  lemma Xor64IsXor()
    ensures IsXor(Xor64, 0)
  {
    forall a, b, s { SharedRight64(a, b, s); }
    forall a, s, t { SharedLeft64(a, s, t); }
    forall a, b | Xor64(a, b) == 0 { NoDifference64(a, b); }
  }

  lemma ShiftA64IsLinear(a: bv64, b: bv64)
    ensures ShiftA64(Xor64(a, b)) == Xor64(ShiftA64(a), ShiftA64(b))
  {
  }

  lemma ShiftB64IsLinear(a: bv64, b: bv64)
    ensures ShiftB64(Xor64(a, b)) == Xor64(ShiftB64(a), ShiftB64(b))
  {
  }

  lemma ShiftC64IsLinear(a: bv64, b: bv64)
    ensures ShiftC64(Xor64(a, b)) == Xor64(ShiftC64(a), ShiftC64(b))
  {
  }

  lemma ShiftD64IsLinear(a: bv64, b: bv64)
    ensures ShiftD64(Xor64(a, b)) == Xor64(ShiftD64(a), ShiftD64(b))
  {
  }

  lemma ShiftA64Vanishes(a: bv64)
    ensures ShiftA64(ShiftA64(ShiftA64(ShiftA64(ShiftA64(a))))) == 0
  {
  }

  lemma ShiftB64Vanishes(a: bv64)
    ensures ShiftB64(ShiftB64(ShiftB64(ShiftB64(ShiftB64(a))))) == 0
  {
  }

  lemma ShiftC64Vanishes(a: bv64)
    ensures ShiftC64(ShiftC64(ShiftC64(ShiftC64(ShiftC64(a))))) == 0
  {
  }

  lemma ShiftD64Vanishes(a: bv64)
    ensures ShiftD64(ShiftD64(ShiftD64(ShiftD64(ShiftD64(a))))) == 0
  {
  }

  lemma ShiftsAreShifts64()
    ensures IsShift(ShiftA64, Xor64, 0) && IsShift(ShiftB64, Xor64, 0)
    ensures IsShift(ShiftC64, Xor64, 0) && IsShift(ShiftD64, Xor64, 0)
  {
    assert IsShift(ShiftA64, Xor64, 0) by {
      forall a, b { ShiftA64IsLinear(a, b); }
      forall a { ShiftA64Vanishes(a); }
    }
    assert IsShift(ShiftB64, Xor64, 0) by {
      forall a, b { ShiftB64IsLinear(a, b); }
      forall a { ShiftB64Vanishes(a); }
    }
    assert IsShift(ShiftC64, Xor64, 0) by {
      forall a, b { ShiftC64IsLinear(a, b); }
      forall a { ShiftC64Vanishes(a); }
    }
    assert IsShift(ShiftD64, Xor64, 0) by {
      forall a, b { ShiftD64IsLinear(a, b); }
      forall a { ShiftD64Vanishes(a); }
    }
  }

  lemma Temper64IsInjective()
    ensures IsInjective(Temper64)
  {
    Xor64IsXor();
    ShiftsAreShifts64();
    StepIsInjective(StepA64, ShiftA64, Xor64, 0);
    StepIsInjective(StepB64, ShiftB64, Xor64, 0);
    StepIsInjective(StepC64, ShiftC64, Xor64, 0);
    StepIsInjective(StepD64, ShiftD64, Xor64, 0);
    FourStepsAreInjective(StepA64, StepB64, StepC64, StepD64, Temper64);
  }

  // n consecutive outputs fix all later ones: the converse of "equal engines agree".
  lemma OutputsFixTheFuture<W(!new)>(p: Parameters<W>, a: seq<W>, i: nat, b: seq<W>, j: nat)
    requires p.Valid() && |a| == p.n && |b| == p.n
    requires IsInjective(p.temper)
    requires forall k :: 0 <= k < p.n ==> p.temper(Word(p, a, i, k)) == p.temper(Word(p, b, j, k))
    ensures Continues(p, a, i, b, j)
  {
    var later := seq(p.n, k requires 0 <= k => Word(p, a, i, k));
    forall k: nat
      ensures Word(p, b, j, k) == Word(p, a, i, k)
    {
      Restart(p, a, later, i, k);
      Restart(p, b, later, j, k);
    }
  }

  lemma TwistersAreObservable(a: seq<bv32>, i: nat, b: seq<bv32>, j: nat, c: seq<bv64>, k: nat, d: seq<bv64>, l: nat)
    requires |a| == |b| == MT19937.n && |c| == |d| == MT19937_64.n
    requires forall t :: 0 <= t < 624 ==> Temper32(Word(MT19937, a, i, t)) == Temper32(Word(MT19937, b, j, t))
    requires forall t :: 0 <= t < 312 ==> Temper64(Word(MT19937_64, c, k, t)) == Temper64(Word(MT19937_64, d, l, t))
    ensures Continues(MT19937, a, i, b, j) && Continues(MT19937_64, c, k, d, l)
  {
    Temper32IsInjective();
    Temper64IsInjective();
    OutputsFixTheFuture(MT19937, a, i, b, j);
    OutputsFixTheFuture(MT19937_64, c, k, d, l);
  }
}
