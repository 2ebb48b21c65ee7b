/**
 The report checksum: the table-driven form of src/vds_protocol.cc, the bitwise form of
 gui/Ds4BtAudioProtocol.cs, and what the checksum is good for. Words are numbers below 2^32.
 */
module Crc32 {
  import opened Base
  import opened BitMath
  import opened Octets

  const ONES := 0xFFFF_FFFF
  const POLYNOMIAL := 0xEDB8_8320
  const OUTPUT_SEED := 0xEADA_2D49
  const FEATURE_SEED := 0x2060_EFC3
  const OUTPUT_PREFIX: Byte := 0xA2
  const FEATURE_PREFIX: Byte := 0x53

  // Exclusive or -------------------------------------------------------------------------

  /** Bitwise exclusive or. */
  function Xor(a: nat, b: nat): nat
    decreases a + b
  {
    if a == 0 && b == 0 then 0 else 2 * Xor(a / 2, b / 2) + if a % 2 == b % 2 then 0 else 1
  }

  lemma XorHalves(a: nat, b: nat)
    ensures Xor(a, b) / 2 == Xor(a / 2, b / 2) && Xor(a, b) % 2 == if a % 2 == b % 2 then 0 else 1
  {}

  predicate Bit(x: nat, i: nat)
    decreases i
  {
    if i == 0 then x % 2 == 1 else Bit(x / 2, i - 1)
  }

  lemma {:induction false} XorBit(a: nat, b: nat, i: nat)
    ensures Bit(Xor(a, b), i) == (Bit(a, i) != Bit(b, i))
    decreases i
  {
    XorHalves(a, b);
    if i > 0 {
      XorBit(a / 2, b / 2, i - 1);
    }
  }

  /** Numbers with the same bits are equal. */
  lemma {:induction false} SameBits(x: nat, y: nat)
    requires forall i: nat :: Bit(x, i) == Bit(y, i)
    ensures x == y
    decreases x + y
  {
    if x > 0 || y > 0 {
      assert Bit(x, 0) == Bit(y, 0);
      forall i: nat
        ensures Bit(x / 2, i) == Bit(y / 2, i)
      {
        assert Bit(x, i + 1) == Bit(y, i + 1);
      }
      SameBits(x / 2, y / 2);
    }
  }

  lemma XorCommutes(a: nat, b: nat)
    ensures Xor(a, b) == Xor(b, a)
  {
    forall i: nat
      ensures Bit(Xor(a, b), i) == Bit(Xor(b, a), i)
    {
      XorBit(a, b, i);
      XorBit(b, a, i);
    }
    SameBits(Xor(a, b), Xor(b, a));
  }

  lemma LeftBit(a: nat, b: nat, c: nat, i: nat)
    ensures Bit(Xor(Xor(a, b), c), i) == ((Bit(a, i) != Bit(b, i)) != Bit(c, i))
  {
    var ab := Xor(a, b);
    XorBit(ab, c, i);
    XorBit(a, b, i);
  }

  lemma RightBit(a: nat, b: nat, c: nat, i: nat)
    ensures Bit(Xor(a, Xor(b, c)), i) == (Bit(a, i) != (Bit(b, i) != Bit(c, i)))
  {
    var bc := Xor(b, c);
    XorBit(a, bc, i);
    XorBit(b, c, i);
  }

  lemma XorAssociates(a: nat, b: nat, c: nat)
    ensures Xor(Xor(a, b), c) == Xor(a, Xor(b, c))
  {
    forall i: nat
      ensures Bit(Xor(Xor(a, b), c), i) == Bit(Xor(a, Xor(b, c)), i)
    {
      LeftBit(a, b, c, i);
      RightBit(a, b, c, i);
    }
    SameBits(Xor(Xor(a, b), c), Xor(a, Xor(b, c)));
  }

  lemma XorRearranged(a: nat, b: nat, c: nat)
    ensures Xor(Xor(a, b), c) == Xor(Xor(a, c), b)
  {
    XorAssociates(a, b, c);
    XorCommutes(b, c);
    XorAssociates(a, c, b);
  }

  lemma {:induction false} XorZero(a: nat)
    ensures Xor(a, 0) == a
  {
    if a > 0 {
      XorZero(a / 2);
    }
  }

  lemma {:induction false} XorSelf(a: nat)
    ensures Xor(a, a) == 0
  {
    if a > 0 {
      XorSelf(a / 2);
    }
  }

  lemma XorCancels(a: nat, b: nat)
    ensures Xor(Xor(a, b), b) == a
  {
    XorAssociates(a, b, b);
    XorSelf(b);
    XorZero(a);
  }

  lemma {:induction false} XorBelow(a: nat, b: nat, n: nat)
    requires a < Pow2(n) && b < Pow2(n)
    ensures Xor(a, b) < Pow2(n)
    decreases n
  {
    if n > 0 {
      XorBelow(a / 2, b / 2, n - 1);
    }
  }

  /** The bit above all others goes through. */
  lemma {:induction false} XorTop(a: nat, b: nat, n: nat)
    requires a < Pow2(n) && b < Pow2(n)
    ensures Xor(a, Pow2(n) + b) == Pow2(n) + Xor(a, b)
    decreases n
  {
    if n > 0 {
      XorTop(a / 2, b / 2, n - 1);
    }
  }

  // The register -------------------------------------------------------------------------

  /** One bit: the C# code tests the low bit. */
  function Step(c: nat): nat {
    if c % 2 == 1 then Xor(c / 2, POLYNOMIAL) else c / 2
  }

  function Steps(c: nat, n: nat): nat
    decreases n, c
  {
    if n == 0 then c else Steps(Step(c), n - 1)
  }

  function Update(c: nat, b: Byte): nat {
    Steps(Xor(c, b), 8)
  }

  /** The register after the first `n` bytes. */
  function Feed(c: nat, bytes: seq<Byte>, n: nat): nat
    requires n <= |bytes|
  {
    Fold(Update, c, bytes, n)
  }

  /** The reflected CRC-32 of some bytes. */
  function Crc(bytes: seq<Byte>): nat {
    Xor(Feed(ONES, bytes, |bytes|), ONES)
  }

  lemma FeedStep(c: nat, bytes: seq<Byte>, n: nat)
    requires n < |bytes|
    ensures Feed(c, bytes, n + 1) == Update(Feed(c, bytes, n), bytes[n])
  {}

  lemma FeedConcat(c: nat, a: seq<Byte>, b: seq<Byte>)
    ensures Feed(c, a + b, |a| + |b|) == Feed(Feed(c, a, |a|), b, |b|)
  {
    FoldConcat<nat, Byte>(Update, c, a, b, |b|);
  }

  // Linearity ----------------------------------------------------------------------------

  /** A high part that is even goes through a step by being halved. */
  lemma StepXor(a: nat, h: nat)
    requires h % 2 == 0
    ensures Step(Xor(a, h)) == Xor(Step(a), h / 2)
  {
    XorHalves(a, h);
    XorRearranged(a / 2, h / 2, POLYNOMIAL);
  }

  /** Bits that have not reached the low end are only shifted. */
  lemma {:induction false} StepsXor(a: nat, h: nat, n: nat)
    ensures Steps(Xor(a, Shl(h, n)), n) == Xor(Steps(a, n), h)
    decreases n
  {
    if n > 0 {
      StepXor(a, Shl(h, n));
      StepsXor(Step(a), h, n - 1);
    }
  }

  lemma {:induction false} StepsSum(c: nat, m: nat, n: nat)
    ensures Steps(c, m + n) == Steps(Steps(c, m), n)
    decreases m
  {
    if m > 0 {
      StepsSum(Step(c), m - 1, n);
    }
  }

  lemma ShlEight(h: nat)
    ensures Shl(h, 8) == 256 * h
  {
    assert Shl(h, 1) == 2 * h;
    assert Shl(h, 2) == 4 * h;
    assert Shl(h, 3) == 8 * h;
    assert Shl(h, 4) == 16 * h;
    assert Shl(h, 5) == 32 * h;
    assert Shl(h, 6) == 64 * h;
    assert Shl(h, 7) == 128 * h;
  }

  /** Parts that share no bit add up. */
  lemma {:induction false} XorDisjoint(low: nat, high: nat, n: nat)
    requires low < Pow2(n)
    ensures Xor(low, Shl(high, n)) == low + Shl(high, n)
    decreases n
  {
    if n == 0 {
      XorCommutes(0, high);
      XorZero(high);
    } else {
      var x := Shl(high, n);
      assert x / 2 == Shl(high, n - 1) && x % 2 == 0;
      XorDisjoint(low / 2, high, n - 1);
      XorHalves(low, x);
      SameHalvesSum(Xor(low, x), low, x);
    }
  }

  lemma SameHalvesSum(sum: nat, a: nat, b: nat)
    requires sum / 2 == a / 2 + b / 2 && sum % 2 == a % 2 && b % 2 == 0
    ensures sum == a + b
  {}

  /** Eight steps shift the upper bytes down and mix the lowest one in. */
  lemma EightSteps(x: nat)
    ensures Steps(x, 8) == Xor(Steps(x % 256, 8), x / 256)
  {
    var low, high := x % 256, x / 256;
    assert Pow2(8) == 256;
    ShlEight(high);
    XorDisjoint(low, high, 8);
    StepsXor(low, high, 8);
  }

  // The table ----------------------------------------------------------------------------

  function TableEntry(index: nat): nat {
    Steps(index, 8)
  }

  /** One byte as the table-driven code takes it. */
  function TableUpdate(c: nat, b: Byte): nat {
    Xor(c / 256, TableEntry(Xor(c, b) % 256))
  }

  lemma {:induction false} XorUpper(c: nat, b: nat, n: nat)
    requires b < Pow2(n)
    ensures Shr(Xor(c, b), n) == Shr(c, n)
    decreases n
  {
    if n > 0 {
      XorHalves(c, b);
      XorUpper(c / 2, b / 2, n - 1);
    } else {
      XorZero(c);
    }
  }

  lemma ShrEight(x: nat)
    ensures Shr(x, 8) == x / 256
  {
    assert Shr(x / 128, 1) == x / 256;
    assert Shr(x / 64, 2) == x / 256;
    assert Shr(x / 32, 3) == x / 256;
    assert Shr(x / 16, 4) == x / 256;
    assert Shr(x / 8, 5) == x / 256;
    assert Shr(x / 4, 6) == x / 256;
    assert Shr(x / 2, 7) == x / 256;
  }

  /** The table-driven step is the bitwise one. */
  lemma TableStepIsBitwise(c: nat, b: Byte)
    ensures TableUpdate(c, b) == Update(c, b)
  {
    var x := Xor(c, b);
    assert Pow2(8) == 256;
    XorUpper(c, b, 8);
    ShrEight(x);
    ShrEight(c);
    EightSteps(x);
    XorCommutes(Steps(x % 256, 8), x / 256);
  }

  // Seeds and prefixes -------------------------------------------------------------------

  /** Mixing all ones in is complementing. */
  lemma {:induction false} XorWithOnes(x: nat, n: nat)
    requires x < Pow2(n)
    ensures Xor(x, Pow2(n) - 1) == Pow2(n) - 1 - x
    decreases n
  {
    if n > 0 {
      var ones: nat := Pow2(n) - 1;
      assert ones / 2 == Pow2(n - 1) - 1 && ones % 2 == 1;
      XorWithOnes(x / 2, n - 1);
      XorHalves(x, ones);
      SameHalvesDifference(Xor(x, ones), ones, x);
    }
  }

  lemma SameHalvesDifference(d: nat, a: nat, b: nat)
    requires d / 2 == a / 2 - b / 2 && a % 2 == 1 && d % 2 == if b % 2 == 1 then 0 else 1
    ensures d == a - b
  {}

  lemma WordSize()
    ensures Pow2(32) == ONES + 1
  {
    assert Pow2(8) == 256;
    assert Pow2(16) == 65536;
    assert Pow2(24) == 16777216;
  }

  lemma XorOnes(x: nat)
    requires x <= ONES
    ensures Xor(x, ONES) == ONES - x
  {
    WordSize();
    XorWithOnes(x, 32);
  }

  lemma XorLastBit(a: nat, p: bool, b: nat, q: bool, x: nat, y: nat)
    requires x == 2 * a + Weight(p, 1) && y == 2 * b + Weight(q, 1)
    ensures Xor(x, y) == 2 * Xor(a, b) + Weight(p != q, 1)
  {
    assert x / 2 == a && y / 2 == b && x % 2 == Weight(p, 1) && y % 2 == Weight(q, 1);
    XorHalves(x, y);
  }

  lemma XorLastBits(a: nat, p3: bool, p2: bool, p1: bool, p0: bool, b: nat, q3: bool, q2: bool, q1: bool, q0: bool,
                    x: nat, y: nat)
    requires x == 16 * a + Weight(p3, 8) + Weight(p2, 4) + Weight(p1, 2) + Weight(p0, 1)
    requires y == 16 * b + Weight(q3, 8) + Weight(q2, 4) + Weight(q1, 2) + Weight(q0, 1)
    ensures Xor(x, y)
         == 16 * Xor(a, b) + Weight(p3 != q3, 8) + Weight(p2 != q2, 4) + Weight(p1 != q1, 2) + Weight(p0 != q0, 1)
  {
    var a3, b3 := 2 * a + Weight(p3, 1), 2 * b + Weight(q3, 1);
    var a2, b2 := 2 * a3 + Weight(p2, 1), 2 * b3 + Weight(q2, 1);
    var a1, b1 := 2 * a2 + Weight(p1, 1), 2 * b2 + Weight(q1, 1);
    XorLastBit(a, p3, b, q3, a3, b3);
    XorLastBit(a3, p2, b3, q2, a2, b2);
    XorLastBit(a2, p1, b2, q1, a1, b1);
    XorLastBit(a1, p0, b1, q0, x, y);
  }

  lemma XorLastOctet(a: nat, o: Octet, b: nat, p: Octet, x: nat, y: nat)
    requires x == 256 * a + o.ToByte() && y == 256 * b + p.ToByte()
    ensures Xor(x, y) == 256 * Xor(a, b) + o.Xor(p).ToByte()
  {
    var a1, b1 := 16 * a + o.High(), 16 * b + p.High();
    assert Xor(a1, b1) == 16 * Xor(a, b) + o.Xor(p).High() by { XorHighBits(a, o, b, p, a1, b1); }
    assert Xor(x, y) == 16 * Xor(a1, b1) + o.Xor(p).Low() by { XorLowBits(a1, o, b1, p, x, y); }
  }

  lemma XorHighBits(a: nat, o: Octet, b: nat, p: Octet, x: nat, y: nat)
    requires x == 16 * a + o.High() && y == 16 * b + p.High()
    ensures Xor(x, y) == 16 * Xor(a, b) + o.Xor(p).High()
  {
    XorLastBits(a, o.b7, o.b6, o.b5, o.b4, b, p.b7, p.b6, p.b5, p.b4, x, y);
  }

  lemma XorLowBits(a: nat, o: Octet, b: nat, p: Octet, x: nat, y: nat)
    requires x == 16 * a + o.Low() && y == 16 * b + p.Low()
    ensures Xor(x, y) == 16 * Xor(a, b) + o.Xor(p).Low()
  {
    XorLastBits(a, o.b3, o.b2, o.b1, o.b0, b, p.b3, p.b2, p.b1, p.b0, x, y);
  }

  /** On words the exclusive or of numbers is that of their bits. */
  lemma XorOfWords(v: Word, w: Word)
    ensures Xor(v.Value(), w.Value()) == v.Xor(w).Value()
  {
    var a2, b2 := 256 * v.o3.ToByte() + v.o2.ToByte(), 256 * w.o3.ToByte() + w.o2.ToByte();
    var a1, b1 := 256 * a2 + v.o1.ToByte(), 256 * b2 + w.o1.ToByte();
    XorZero(0);
    XorLastOctet(0, v.o3, 0, w.o3, v.o3.ToByte(), w.o3.ToByte());
    XorLastOctet(v.o3.ToByte(), v.o2, w.o3.ToByte(), w.o2, a2, b2);
    XorLastOctet(a2, v.o1, b2, w.o1, a1, b1);
    XorLastOctet(a1, v.o0, b1, w.o0, v.Value(), w.Value());
  }

  function WordStep(w: Word): Word {
    if w.o0.b0 then w.ShiftedRight().Xor(WordOf(0xEDB8_8320)) else w.ShiftedRight()
  }

  lemma PolynomialWord()
    ensures WordOf(0xEDB8_8320).Value() == POLYNOMIAL
  {}

  lemma ShiftedSum(half: Word)
    ensures Xor(half.Value(), POLYNOMIAL) == half.Xor(WordOf(0xEDB8_8320)).Value()
  {
    var polynomial := WordOf(0xEDB8_8320);
    PolynomialWord();
    XorOfWords(half, polynomial);
  }

  lemma StepOfWord(w: Word)
    ensures Step(w.Value()) == WordStep(w).Value()
  {
    WordHalved(w);
    ShiftedSum(w.ShiftedRight());
  }

  lemma EightStepsOf(c: nat)
    ensures Steps(c, 8) == Step(Step(Step(Step(Step(Step(Step(Step(c))))))))
  {
    var c2 := Step(Step(c));
    var c4 := Step(Step(c2));
    var c6 := Step(Step(c4));
    assert Steps(Step(c6), 1) == Step(Step(c6));
    assert Steps(c6, 2) == Steps(Step(c6), 1);
    assert Steps(c4, 4) == Steps(Step(c4), 3);
    assert Steps(c2, 6) == Steps(Step(c2), 5);
  }

  function FourWordSteps(c: Word): Word {
    WordStep(WordStep(WordStep(WordStep(c))))
  }

  function EightWordSteps(c: Word): Word {
    FourWordSteps(FourWordSteps(c))
  }

  lemma WordSteps(c: Word)
    ensures Steps(c.Value(), 8) == EightWordSteps(c).Value()
  {
    var c1 := WordStep(c);
    var c2 := WordStep(c1);
    var c3 := WordStep(c2);
    var c4 := WordStep(c3);
    var c5 := WordStep(c4);
    var c6 := WordStep(c5);
    var c7 := WordStep(c6);
    StepOfWord(c);
    StepOfWord(c1);
    StepOfWord(c2);
    StepOfWord(c3);
    StepOfWord(c4);
    StepOfWord(c5);
    StepOfWord(c6);
    StepOfWord(c7);
    EightStepsOf(c.Value());
  }

  /** The seeds are what the register holds once the transport prefix has gone through. */
  lemma OutputWord()
    ensures EightWordSteps(WordOf(0xFFFF_FF5D)) == WordOf(0x1525_D2B6)
    ensures WordOf(0xFFFF_FF5D).Value() == 0xFFFF_FF5D && WordOf(0x1525_D2B6).Value() == 0x1525_D2B6
  {
    OutputWordFirst();
    OutputWordSecond();
    OutputValues();
  }

  lemma OutputValues()
    ensures WordOf(0xFFFF_FF5D).Value() == 0xFFFF_FF5D && WordOf(0x1525_D2B6).Value() == 0x1525_D2B6
  {}

  lemma OutputWordFirst()
    ensures FourWordSteps(WordOf(0xFFFF_FF5D)) == WordOf(0x892C_2D21)
  {
    assert WordStep(WordOf(0xFFFF_FF5D)) == WordOf(0x9247_7C8E);
    assert WordStep(WordOf(0x9247_7C8E)) == WordOf(0x4923_BE47);
    assert WordStep(WordOf(0x4923_BE47)) == WordOf(0xC929_5C03);
    assert WordStep(WordOf(0xC929_5C03)) == WordOf(0x892C_2D21);
  }

  lemma OutputWordSecond()
    ensures FourWordSteps(WordOf(0x892C_2D21)) == WordOf(0x1525_D2B6)
  {
    assert WordStep(WordOf(0x892C_2D21)) == WordOf(0xA92E_95B0);
    assert WordStep(WordOf(0xA92E_95B0)) == WordOf(0x5497_4AD8);
    assert WordStep(WordOf(0x5497_4AD8)) == WordOf(0x2A4B_A56C);
    assert WordStep(WordOf(0x2A4B_A56C)) == WordOf(0x1525_D2B6);
  }

  lemma OutputSeedIsPrefix()
    ensures Xor(OUTPUT_SEED, ONES) == Update(ONES, OUTPUT_PREFIX)
  {
    OutputWord();
    WordSteps(WordOf(0xFFFF_FF5D));
    XorCommutes(ONES, OUTPUT_PREFIX);
    XorOnes(OUTPUT_PREFIX);
    XorOnes(OUTPUT_SEED);
  }

  lemma FeatureWord()
    ensures EightWordSteps(WordOf(0xFFFF_FFAC)) == WordOf(0xDF9F_103C)
    ensures WordOf(0xFFFF_FFAC).Value() == 0xFFFF_FFAC && WordOf(0xDF9F_103C).Value() == 0xDF9F_103C
  {
    FeatureWordFirst();
    FeatureWordSecond();
    FeatureValues();
  }

  lemma FeatureValues()
    ensures WordOf(0xFFFF_FFAC).Value() == 0xFFFF_FFAC && WordOf(0xDF9F_103C).Value() == 0xDF9F_103C
  {}

  lemma FeatureWordFirst()
    ensures FourWordSteps(WordOf(0xFFFF_FFAC)) == WordOf(0x949B_3D4A)
  {
    assert WordStep(WordOf(0xFFFF_FFAC)) == WordOf(0x7FFF_FFD6);
    assert WordStep(WordOf(0x7FFF_FFD6)) == WordOf(0x3FFF_FFEB);
    assert WordStep(WordOf(0x3FFF_FFEB)) == WordOf(0xF247_7CD5);
    assert WordStep(WordOf(0xF247_7CD5)) == WordOf(0x949B_3D4A);
  }

  lemma FeatureWordSecond()
    ensures FourWordSteps(WordOf(0x949B_3D4A)) == WordOf(0xDF9F_103C)
  {
    assert WordStep(WordOf(0x949B_3D4A)) == WordOf(0x4A4D_9EA5);
    assert WordStep(WordOf(0x4A4D_9EA5)) == WordOf(0xC89E_4C72);
    assert WordStep(WordOf(0xC89E_4C72)) == WordOf(0x644F_2639);
    assert WordStep(WordOf(0x644F_2639)) == WordOf(0xDF9F_103C);
  }

  lemma FeatureSeedIsPrefix()
    ensures Xor(FEATURE_SEED, ONES) == Update(ONES, FEATURE_PREFIX)
  {
    FeatureWord();
    WordSteps(WordOf(0xFFFF_FFAC));
    XorCommutes(ONES, FEATURE_PREFIX);
    XorOnes(FEATURE_PREFIX);
    XorOnes(FEATURE_SEED);
  }

  /** A seeded checksum is the plain CRC-32 of the prefix and the data. */
  lemma SeededIsPrefixed(seed: nat, prefix: Byte, data: seq<Byte>)
    requires Xor(seed, ONES) == Update(ONES, prefix)
    ensures Xor(Feed(Xor(seed, ONES), data, |data|), ONES) == Crc([prefix] + data)
  {
    PrefixFirst(prefix, data);
  }

  // What the checksum is good for --------------------------------------------------------

  /** The four bytes of a word, least significant first. */
  function LittleEndian(w: nat): (bytes: seq<Byte>)
    ensures |bytes| == 4
  {
    [w % 256, w / 256 % 256, w / 256 / 256 % 256, w / 256 / 256 / 256 % 256]
  }

  /** Taking the low byte of a word out first. */
  lemma LowByteFirst(c: nat, w: nat)
    ensures Steps(Xor(c, w), 8) == Xor(Update(c, w % 256), w / 256)
  {
    var low, high := w % 256, w / 256;
    assert Pow2(8) == 256;
    ShlEight(high);
    XorDisjoint(low, high, 8);
    XorAssociates(c, low, Shl(high, 8));
    StepsXor(Xor(c, low), high, 8);
  }

  lemma TwoBytes(c: nat, w: nat, c1: nat, w1: nat, c2: nat)
    requires w1 == w / 256 && c1 == Update(c, w % 256) && c2 == Update(c1, w1 % 256)
    ensures Steps(Xor(c, w), 16) == Xor(c2, w1 / 256)
  {
    LowByteFirst(c, w);
    LowByteFirst(c1, w1);
    StepsSum(Xor(c, w), 8, 8);
  }

  lemma FourUpdates(c: nat, bytes: seq<Byte>, c1: nat, c2: nat, c3: nat)
    requires |bytes| == 4 && c1 == Update(c, bytes[0]) && c2 == Update(c1, bytes[1]) && c3 == Update(c2, bytes[2])
    ensures Feed(c, bytes, 4) == Update(c3, bytes[3])
  {
    FeedStep(c, bytes, 0);
    FeedStep(c, bytes, 1);
    FeedStep(c, bytes, 2);
    FeedStep(c, bytes, 3);
  }

  lemma FourBytes(c: nat, w: nat, c1: nat, w1: nat, c2: nat, w2: nat, c3: nat, w3: nat, c4: nat)
    requires w1 == w / 256 && w2 == w1 / 256 && w3 == w2 / 256 && w3 / 256 == 0
    requires c1 == Update(c, w % 256) && c2 == Update(c1, w1 % 256)
    requires c3 == Update(c2, w2 % 256) && c4 == Update(c3, w3 % 256)
    ensures Steps(Xor(c, w), 32) == c4
  {
    TwoBytes(c, w, c1, w1, c2);
    TwoBytes(c2, w2, c3, w3, c4);
    StepsSum(Xor(c, w), 16, 16);
    XorZero(c4);
  }

  /** Feeding a word's four bytes is mixing it in and taking 32 steps. */
  lemma FourBytesAsWord(c: nat, w: nat)
    requires w <= ONES
    ensures Feed(c, LittleEndian(w), 4) == Steps(Xor(c, w), 32)
  {
    var bytes := LittleEndian(w);
    var c1 := Update(c, bytes[0]);
    var c2 := Update(c1, bytes[1]);
    var c3 := Update(c2, bytes[2]);
    FourUpdates(c, bytes, c1, c2, c3);
    FourBytes(c, w, c1, w / 256, c2, w / 256 / 256, c3, w / 256 / 256 / 256, Update(c3, bytes[3]));
  }

  /** A word complemented and mixed in again leaves all ones. */
  lemma ResidueStep(c: nat)
    requires c <= ONES
    ensures Feed(c, LittleEndian(Xor(c, ONES)), 4) == Steps(ONES, 32)
  {
    XorOnes(c);
    FourBytesAsWord(c, Xor(c, ONES));
    XorAssociates(c, c, ONES);
    XorSelf(c);
    XorCommutes(0, ONES);
    XorZero(ONES);
  }

  lemma StepInWord(c: nat)
    requires c <= ONES
    ensures Step(c) <= ONES
  {
    WordSize();
    XorBelow(c / 2, POLYNOMIAL, 32);
  }

  lemma {:induction false} StepsInWord(c: nat, n: nat)
    requires c <= ONES
    ensures Steps(c, n) <= ONES
    decreases n
  {
    if n > 0 {
      StepInWord(c);
      StepsInWord(Step(c), n - 1);
    }
  }

  lemma UpdateInWord(c: nat, b: Byte)
    requires c <= ONES
    ensures Xor(c, b) <= ONES && Update(c, b) <= ONES
  {
    WordSize();
    XorBelow(c, b, 32);
    StepsInWord(Xor(c, b), 8);
  }

  predicate IsWord(c: nat) {
    c <= ONES
  }

  lemma FeedInWord(c: nat, bytes: seq<Byte>, n: nat)
    requires c <= ONES && n <= |bytes|
    ensures Feed(c, bytes, n) <= ONES
  {
    forall d, b | IsWord(d)
      ensures IsWord(Update(d, b))
    {
      UpdateInWord(d, b);
    }
    FoldKeeps<nat, Byte>(Update, IsWord, c, bytes, n);
  }

  /** Running the register over data and checksum ends at the same value for all data. */
  lemma ResidueIsConstant(data: seq<Byte>)
    ensures Feed(ONES, data + LittleEndian(Crc(data)), |data| + 4) == Steps(ONES, 32)
  {
    var c := Feed(ONES, data, |data|);
    FeedInWord(ONES, data, |data|);
    FeedConcat(ONES, data, LittleEndian(Crc(data)));
    ResidueStep(c);
  }

  lemma PolynomialTop()
    ensures Pow2(31) <= POLYNOMIAL < Pow2(32)
  {
    WordSize();
    assert Pow2(32) == 2 * Pow2(31);
  }

  /** The low bit of a word comes out on top. */
  lemma StepTop(c: nat)
    requires c < Pow2(32)
    ensures Step(c) >= Pow2(31) <==> c % 2 == 1
  {
    PolynomialTop();
    assert c / 2 < Pow2(31);
    if c % 2 == 1 {
      XorTop(c / 2, POLYNOMIAL - Pow2(31), 31);
    }
  }

  lemma StepInjective(c: nat, d: nat)
    requires c < Pow2(32) && d < Pow2(32) && Step(c) == Step(d)
    ensures c == d
  {
    StepTop(c);
    StepTop(d);
    if c % 2 == 1 {
      XorCancels(c / 2, POLYNOMIAL);
      XorCancels(d / 2, POLYNOMIAL);
    }
  }

  lemma {:induction false} StepsInjective(c: nat, d: nat, n: nat)
    requires c <= ONES && d <= ONES && Steps(c, n) == Steps(d, n)
    ensures c == d
    decreases n
  {
    if n > 0 {
      WordSize();
      StepInWord(c);
      StepInWord(d);
      StepsInjective(Step(c), Step(d), n - 1);
      StepInjective(c, d);
    }
  }

  lemma UpdateInjective(e: nat, f: nat, b: Byte)
    requires e <= ONES && f <= ONES && Update(e, b) == Update(f, b)
    ensures e == f
  {
    UpdateInWord(e, b);
    UpdateInWord(f, b);
    StepsInjective(Xor(e, b), Xor(f, b), 8);
    XorCancels(e, b);
    XorCancels(f, b);
  }

  lemma SameChecksumSameRegister(a: seq<Byte>, b: seq<Byte>)
    requires Crc(a) == Crc(b)
    ensures Feed(ONES, a, |a|) == Feed(ONES, b, |b|)
  {
    XorCancels(Feed(ONES, a, |a|), ONES);
    XorCancels(Feed(ONES, b, |b|), ONES);
  }

  lemma SameRegisterSameMiddle(before: seq<Byte>, m: seq<Byte>, n: seq<Byte>, after: seq<Byte>,
                               p: seq<Byte>, q: seq<Byte>, c: nat)
    requires p == before + m + after && q == before + n + after && c == Feed(ONES, before, |before|)
    requires Feed(ONES, p, |p|) == Feed(ONES, q, |q|)
    ensures Feed(c, m, |m|) == Feed(c, n, |n|)
  {
    forall d, b | IsWord(d)
      ensures IsWord(Update(d, b))
    {
      UpdateInWord(d, b);
    }
    forall d, e, b | IsWord(d) && IsWord(e)
      ensures TellsApart(Update, d, e, b)
    {
      if Update(d, b) == Update(e, b) { UpdateInjective(d, e, b); }
    }
    FeedInWord(ONES, before, |before|);
    FeedInWord(c, m, |m|);
    FeedInWord(c, n, |n|);
    FoldThreePartsOf<nat, Byte>(Update, ONES, before, m, after, p, c);
    FoldThreePartsOf<nat, Byte>(Update, ONES, before, n, after, q, c);
    FoldInjective<nat, Byte>(Update, IsWord, Feed(c, m, |m|), Feed(c, n, |n|), after, |after|);
  }

  lemma WordsAreToldApart(c: nat, x: nat, y: nat)
    requires c <= ONES && x <= ONES && y <= ONES
    requires Feed(c, LittleEndian(x), 4) == Feed(c, LittleEndian(y), 4)
    ensures x == y
  {
    FourBytesAsWord(c, x);
    FourBytesAsWord(c, y);
    WordSize();
    XorBelow(c, x, 32);
    XorBelow(c, y, 32);
    StepsInjective(Xor(c, x), Xor(c, y), 32);
    XorCommutes(c, x);
    XorCommutes(c, y);
    XorCancels(x, c);
    XorCancels(y, c);
  }

  /** Any corruption confined to four neighbouring bytes changes the checksum. */
  lemma BurstsAreDetected(before: seq<Byte>, x: nat, y: nat, after: seq<Byte>)
    requires x <= ONES && y <= ONES
    requires Crc(before + LittleEndian(x) + after) == Crc(before + LittleEndian(y) + after)
    ensures x == y
  {
    var c, p, q := Feed(ONES, before, |before|), LittleEndian(x), LittleEndian(y);
    SameChecksumSameRegister(before + p + after, before + q + after);
    SameRegisterSameMiddle(before, p, q, after, before + p + after, before + q + after, c);
    FeedInWord(ONES, before, |before|);
    WordsAreToldApart(c, x, y);
  }

  lemma PrefixFirst(prefix: Byte, data: seq<Byte>)
    ensures Crc([prefix] + data) == Xor(Feed(Update(ONES, prefix), data, |data|), ONES)
  {
    FeedConcat(ONES, [prefix], data);
    FeedStep(ONES, [prefix], 0);
  }

  // The code -----------------------------------------------------------------------------

  /** The report with its last four bytes replaced by the checksum of `prefix` and the rest. */
  function WithChecksum(report: seq<Byte>, prefix: Byte): (r: seq<Byte>)
    requires |report| >= 4
    ensures |r| == |report|
  {
    var data := report[..|report| - 4];
    data + LittleEndian(Crc([prefix] + data))
  }

  method ComputeTableEntry(index: nat) returns (entry: nat)
    ensures entry == TableEntry(index)
  {
    entry := index;
    for bit := 0 to 8
      invariant Steps(entry, 8 - bit) == TableEntry(index)
    {
      var mask := if entry % 2 == 1 then POLYNOMIAL else 0;
      XorZero(entry / 2);
      entry := Xor(entry / 2, mask);
    }
  }

  ghost predicate IsTable(table: array<nat>)
    reads table
  {
    table.Length == 256 && forall i | 0 <= i < 256 :: table[i] == TableEntry(i)
  }

  method MakeTable() returns (table: array<nat>)
    ensures fresh(table) && IsTable(table)
  {
    table := new nat[256];
    for i := 0 to 256
      invariant forall k | 0 <= k < i :: table[k] == TableEntry(k)
    {
      var entry := ComputeTableEntry(i);
      table[i] := entry;
    }
  }

  /** The table-driven checksum computes the bitwise one. */
  method Crc32Seeded(data: seq<Byte>, seed: nat, table: array<nat>) returns (crc: nat)
    requires IsTable(table)
    ensures crc == Xor(Feed(Xor(seed, ONES), data, |data|), ONES)
  {
    crc := Xor(seed, ONES);
    for i := 0 to |data|
      invariant crc == Feed(Xor(seed, ONES), data, i)
    {
      TableStepIsBitwise(crc, data[i]);
      FeedStep(Xor(seed, ONES), data, i);
      crc := Xor(crc / 256, table[Xor(crc, data[i]) % 256]);
    }
    crc := Xor(crc, ONES);
  }

  method StoreWord(report: array<Byte>, offset: nat, crc: nat)
    requires offset + 4 == report.Length
    modifies report
    ensures report[..] == old(report[..offset]) + LittleEndian(crc)
  {
    report[offset + 0] := crc % 256;
    report[offset + 1] := crc / 256 % 256;
    report[offset + 2] := crc / 256 / 256 % 256;
    report[offset + 3] := crc / 256 / 256 / 256 % 256;
  }

  /** `fill_output_report_checksum`; a report too short for a checksum is refused. */
  method FillOutputReportChecksum(report: array<Byte>, table: array<nat>) returns (ok: bool)
    requires IsTable(table)
    modifies report
    ensures ok == (report.Length >= 4)
    ensures report[..] == if ok then WithChecksum(old(report[..]), OUTPUT_PREFIX) else old(report[..])
  {
    if report.Length < 4 { return false; }
    var offset := report.Length - 4;
    ghost var data := report[..offset];
    var crc := Crc32Seeded(report[..offset], OUTPUT_SEED, table);
    OutputSeedIsPrefix();
    SeededIsPrefixed(OUTPUT_SEED, OUTPUT_PREFIX, data);
    assert report[..][..offset] == data;
    StoreWord(report, offset, crc);
    ok := true;
  }

  method FillFeatureReportChecksum(report: array<Byte>, table: array<nat>) returns (ok: bool)
    requires IsTable(table)
    modifies report
    ensures ok == (report.Length >= 4)
    ensures report[..] == if ok then WithChecksum(old(report[..]), FEATURE_PREFIX) else old(report[..])
  {
    if report.Length < 4 { return false; }
    var offset := report.Length - 4;
    ghost var data := report[..offset];
    var crc := Crc32Seeded(report[..offset], FEATURE_SEED, table);
    FeatureSeedIsPrefix();
    SeededIsPrefixed(FEATURE_SEED, FEATURE_PREFIX, data);
    assert report[..][..offset] == data;
    StoreWord(report, offset, crc);
    ok := true;
  }

  /** `UpdateCrc` of the C# code. */
  method UpdateCrc(crc: nat, value: Byte) returns (updated: nat)
    ensures updated == Update(crc, value)
  {
    updated := Xor(crc, value);
    for bit := 0 to 8
      invariant Steps(updated, 8 - bit) == Update(crc, value)
    {
      XorZero(updated / 2);
      updated := Xor(updated / 2, if updated % 2 != 0 then POLYNOMIAL else 0);
    }
  }

  method UpdateCrcOver(start: nat, data: seq<Byte>) returns (crc: nat)
    ensures crc == Feed(start, data, |data|)
  {
    crc := start;
    for index := 0 to |data|
      invariant crc == Feed(start, data, index)
    {
      FeedStep(start, data, index);
      crc := UpdateCrc(crc, data[index]);
    }
  }

  /** `WriteCrc` of the C# code: the same bytes as the table-driven form stores. */
  method WriteCrc(report: array<Byte>)
    requires report.Length >= 4
    modifies report
    ensures report[..] == WithChecksum(old(report[..]), OUTPUT_PREFIX)
  {
    var offset := report.Length - 4;
    ghost var data := report[..offset];
    var crc := UpdateCrc(ONES, OUTPUT_PREFIX);
    crc := UpdateCrcOver(crc, report[..offset]);
    PrefixFirst(OUTPUT_PREFIX, data);
    assert report[..][..offset] == data;
    StoreWord(report, offset, Xor(crc, ONES));
  }
}
