/** seedToKey: the shift register that computes a security key from a seed. */
module SeedKey {

  /** The mask that server and client use. */
  const MASK: bv32 := 0x7A6B_5C4D

  function Step(s: bv32, mask: bv32): bv32 {
    if s & 0x8000_0000 != 0 then (s << 1) ^ mask else s << 1
  }

  function Steps(s: bv32, mask: bv32, n: nat): bv32
    decreases n
  {
    if n == 0 then s else Steps(Step(s, mask), mask, n - 1)
  }

  /** The key of a seed. */
  function Key(seed: bv32, mask: bv32): bv32 {
    Steps(seed, mask, 32)
  }

  /** Zero stays zero: the source's test for a zero seed changes no key. */
  lemma {:induction false} ZeroStays(mask: bv32, n: nat)
    ensures Steps(0, mask, n) == 0
    decreases n
  {
    if n > 0 {
      ZeroStays(mask, n - 1);
    }
  }

  method SeedToKey(seed: bv32, mask: bv32) returns (key: bv32)
    ensures key == Key(seed, mask)
  {
    key := 0;
    var s := seed;
    if s != 0 {
      for i := 0 to 32
        invariant Steps(s, mask, 32 - i) == Key(seed, mask)
      {
        if s & 0x8000_0000 != 0 {
          s := (s << 1) ^ mask;
        } else {
          s := s << 1;
        }
      }
      key := s;
    } else {
      ZeroStays(mask, 32);
    }
  }

  // ----- the inverse

  function Back(t: bv32, mask: bv32): bv32 {
    if t & 1 != 0 then ((t ^ mask) >> 1) | 0x8000_0000 else t >> 1
  }

  function Backs(t: bv32, mask: bv32, n: nat): bv32
    decreases n
  {
    if n == 0 then t else Backs(Back(t, mask), mask, n - 1)
  }

  lemma HighBitBack(s: bv32, mask: bv32)
    requires mask & 1 == 1 && s & 0x8000_0000 != 0
    ensures ((s << 1) ^ mask) & 1 != 0 && ((((s << 1) ^ mask) ^ mask) >> 1) | 0x8000_0000 == s
  {
  }

  lemma LowBitBack(s: bv32)
    requires s & 0x8000_0000 == 0
    ensures (s << 1) & 1 == 0 && (s << 1) >> 1 == s
  {
  }

  lemma OddForth(s: bv32, mask: bv32)
    requires mask & 1 == 1 && s & 1 != 0
    ensures (((s ^ mask) >> 1) | 0x8000_0000) & 0x8000_0000 != 0
    ensures ((((s ^ mask) >> 1) | 0x8000_0000) << 1) ^ mask == s
  {
  }

  lemma EvenForth(s: bv32)
    requires s & 1 == 0
    ensures (s >> 1) & 0x8000_0000 == 0 && (s >> 1) << 1 == s
  {
  }

  /** With an odd mask the low bit tells which way a step went. */
  lemma StepBack(s: bv32, mask: bv32)
    requires mask & 1 == 1
    ensures Back(Step(s, mask), mask) == s
  {
    if s & 0x8000_0000 != 0 {
      HighBitBack(s, mask);
    } else {
      LowBitBack(s);
    }
  }

  lemma StepForth(s: bv32, mask: bv32)
    requires mask & 1 == 1
    ensures Step(Back(s, mask), mask) == s
  {
    if s & 1 != 0 {
      OddForth(s, mask);
    } else {
      EvenForth(s);
    }
  }

  /** A last step instead of a first one. */
  lemma {:induction false} StepsLast(s: bv32, mask: bv32, n: nat)
    ensures Steps(s, mask, n + 1) == Step(Steps(s, mask, n), mask)
    ensures Backs(s, mask, n + 1) == Back(Backs(s, mask, n), mask)
    decreases n
  {
    if n > 0 {
      StepsLast(Step(s, mask), mask, n - 1);
      StepsLast(Back(s, mask), mask, n - 1);
    }
  }

  lemma {:induction false} Undo(s: bv32, mask: bv32, n: nat)
    requires mask & 1 == 1
    ensures Backs(Steps(s, mask, n), mask, n) == s && Steps(Backs(s, mask, n), mask, n) == s
    decreases n
  {
    if n > 0 {
      Undo(s, mask, n - 1);
      StepsLast(s, mask, n - 1);
      StepBack(Steps(s, mask, n - 1), mask);
      StepForth(Backs(s, mask, n - 1), mask);
    }
  }

  /** The inverse loop: the one seed of a key. */
  method KeyToSeed(key: bv32, mask: bv32) returns (seed: bv32)
    requires mask & 1 == 1
    ensures forall s :: Key(s, mask) == key <==> s == seed
  {
    seed := key;
    for i := 0 to 32
      invariant Backs(seed, mask, 32 - i) == Backs(key, mask, 32)
    {
      seed := if seed & 1 != 0 then ((seed ^ mask) >> 1) | 0x8000_0000 else seed >> 1;
    }
    Undo(key, mask, 32);
    forall s ensures Key(s, mask) == key <==> s == seed {
      Undo(s, mask, 32);
    }
  }

  // ----- which masks give distinct keys

  /** With an even mask two seeds meet after one step. */
  lemma EvenMaskCollides(mask: bv32)
    requires mask & 1 == 0
    ensures 0x8000_0000 != mask >> 1 && Key(0x8000_0000, mask) == Key(mask >> 1, mask)
  {
    assert Step(0x8000_0000, mask) == Step(mask >> 1, mask);
    assert Steps(0x8000_0000, mask, 32) == Steps(Step(0x8000_0000, mask), mask, 31);
  }

  /** Different seeds have different keys exactly if the mask is odd; then every word is a key. */
  lemma DistinctKeysIffOddMask(mask: bv32)
    ensures (forall a, b :: Key(a, mask) == Key(b, mask) ==> a == b) <==> mask & 1 == 1
    ensures mask & 1 == 1 ==> forall k :: Key(Backs(k, mask, 32), mask) == k
  {
    if mask & 1 == 1 {
      forall a, b | Key(a, mask) == Key(b, mask) ensures a == b {
        Undo(a, mask, 32);
        Undo(b, mask, 32);
      }
      forall k ensures Key(Backs(k, mask, 32), mask) == k {
        Undo(k, mask, 32);
      }
    } else {
      assert mask & 1 == 0;
      EvenMaskCollides(mask);
    }
  }

  // ----- linearity

  lemma ShiftLinear(a: bv32, b: bv32)
    ensures (a ^ b) << 1 == (a << 1) ^ (b << 1)
    ensures (a ^ b) & 0x8000_0000 == (a & 0x8000_0000) ^ (b & 0x8000_0000)
  {
  }

  lemma TopBit(a: bv32)
    ensures a & 0x8000_0000 == 0 || a & 0x8000_0000 == 0x8000_0000
  {
  }

  lemma XorLaws(a: bv32, b: bv32, mask: bv32)
    ensures (a ^ mask) ^ b == (a ^ b) ^ mask && a ^ (b ^ mask) == (a ^ b) ^ mask && (a ^ mask) ^ (b ^ mask) == a ^ b
  {
  }

  predicate IsXor(a: bv32, b: bv32, c: bv32) {
    c == a ^ b
  }

  lemma StepOfXor(a: bv32, b: bv32, c: bv32, mask: bv32)
    requires c == a ^ b
    ensures Step(c, mask) == Step(a, mask) ^ Step(b, mask)
  {
    ShiftLinear(a, b);
    TopBit(a);
    TopBit(b);
    XorLaws(a << 1, b << 1, mask);
  }

  lemma StepLinear(a: bv32, b: bv32, c: bv32, mask: bv32)
    requires IsXor(a, b, c)
    ensures IsXor(Step(a, mask), Step(b, mask), Step(c, mask))
  {
    StepOfXor(a, b, c, mask);
  }

  lemma {:induction false} StepsLinear(a: bv32, b: bv32, c: bv32, mask: bv32, n: nat)
    requires IsXor(a, b, c)
    ensures IsXor(Steps(a, mask, n), Steps(b, mask, n), Steps(c, mask, n))
    decreases n
  {
    if n > 0 {
      StepLinear(a, b, c, mask);
      StepsLinear(Step(a, mask), Step(b, mask), Step(c, mask), mask, n - 1);
    }
  }

  /** The key of an exclusive or is the exclusive or of the keys, for every mask. */
  lemma KeyLinear(a: bv32, b: bv32, mask: bv32)
    ensures Key(a ^ b, mask) == Key(a, mask) ^ Key(b, mask)
  {
    StepsLinear(a, b, a ^ b, mask, 32);
  }

  // ----- the key function is determined

  lemma {:induction false} StepsAdd(s: bv32, mask: bv32, n: nat, m: nat)
    ensures Steps(s, mask, n + m) == Steps(Steps(s, mask, n), mask, m)
    decreases n
  {
    if n > 0 {
      StepsAdd(Step(s, mask), mask, n - 1, m);
    }
  }

  lemma PlainShift(s: bv32, mask: bv32)
    requires s & 0x8000_0000 == 0
    ensures Step(s, mask) == s << 1
  {
  }

  lemma FourBits(s: bv32)
    requires s & 0xF000_0000 == 0
    ensures s & 0x8000_0000 == 0 && (s << 1) & 0x8000_0000 == 0
    ensures ((s << 1) << 1) & 0x8000_0000 == 0 && (((s << 1) << 1) << 1) & 0x8000_0000 == 0
    ensures (((s << 1) << 1) << 1) << 1 == s << 4
  {
  }

  lemma TwoSteps(s: bv32, mask: bv32, t: bv32, u: bv32)
    requires Step(s, mask) == t && Step(t, mask) == u
    ensures Steps(s, mask, 2) == u
  {
    assert Steps(s, mask, 2) == Steps(t, mask, 1) == Steps(u, mask, 0);
  }

  /** Four steps of a word with four leading zeros. */
  lemma FourShifts(s: bv32, mask: bv32)
    requires s & 0xF000_0000 == 0
    ensures Steps(s, mask, 4) == s << 4
  {
    FourBits(s);
    var t, u, v := s << 1, (s << 1) << 1, ((s << 1) << 1) << 1;
    PlainShift(s, mask);
    PlainShift(t, mask);
    PlainShift(u, mask);
    PlainShift(v, mask);
    TwoSteps(s, mask, t, u);
    TwoSteps(u, mask, v, s << 4);
    StepsAdd(s, mask, 2, 2);
  }

  lemma TwentyEightShifts(mask: bv32)
    ensures Steps(1, mask, 28) == 0x1000_0000
  {
    FourShifts(1, mask);
    FourShifts(0x10, mask);
    FourShifts(0x100, mask);
    FourShifts(0x1000, mask);
    FourShifts(0x1_0000, mask);
    FourShifts(0x10_0000, mask);
    FourShifts(0x100_0000, mask);
    StepsAdd(1, mask, 4, 24);
    StepsAdd(0x10, mask, 4, 20);
    StepsAdd(0x100, mask, 4, 16);
    StepsAdd(0x1000, mask, 4, 12);
    StepsAdd(0x1_0000, mask, 4, 8);
    StepsAdd(0x10_0000, mask, 4, 4);
  }

  /** The key of 1 is the mask, and one step on the seed is one step on the key: with linearity this determines the key
      of every seed, as the product with x^32 of a polynomial over two elements, modulo x^32 plus the mask. */
  lemma KeyOfOneIsMask(seed: bv32, mask: bv32)
    ensures Key(1, mask) == mask
    ensures Key(Step(seed, mask), mask) == Step(Key(seed, mask), mask)
  {
    TwentyEightShifts(mask);
    StepsAdd(1, mask, 28, 4);
    LastFour(mask);
    StepsLast(seed, mask, 32);
  }

  lemma LastFour(mask: bv32)
    ensures Steps(0x1000_0000, mask, 4) == mask
  {
    PlainShift(0x1000_0000, mask);
    PlainShift(0x2000_0000, mask);
    PlainShift(0x4000_0000, mask);
    assert Step(0x8000_0000, mask) == mask;
    TwoSteps(0x1000_0000, mask, 0x2000_0000, 0x4000_0000);
    TwoSteps(0x4000_0000, mask, 0x8000_0000, mask);
    StepsAdd(0x1000_0000, mask, 2, 2);
  }
}
