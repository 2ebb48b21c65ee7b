/**
 The frame writer of gui/Sbc/DualShock4SbcEncoder.cs. Quantized samples are the integers the
 floating-point code arrives at before it clamps them.
 */
module SbcFrame {
  import opened Base
  import opened BitMath
  import opened SbcBitStream
  import SbcAllocator

  const FRAME_LENGTH := 109
  const BLOCKS := 16
  const BITPOOL := 48
  const SYNC_WORD := 0x9C
  const HEADER_FIELDS := 28
  const FIELDS := 284
  const ENTRIES := SbcAllocator.ENTRIES
  const SUBBANDS := SbcAllocator.SUBBANDS

  /** A frame's contents; scale factors and bit counts are in the allocator's cursor order. */
  datatype Frame = Frame(
    configuration: Byte, crc: Byte, joined: seq<bool>, scales: seq<nat>, bits: seq<nat>, raw: seq<int>)
  {
    predicate Shape() {
      |joined| == SUBBANDS && |scales| == |bits| == ENTRIES && |raw| == BLOCKS * ENTRIES
    }

    /** Scale factors of four bits, and the allocation that belongs to them. */
    predicate Valid() {
      && Shape() && (forall k | 0 <= k < ENTRIES :: scales[k] < 16)
      && bits == SbcAllocator.Allocation(scales, BITPOOL)
    }

    /** What the layout of a frame rests on. */
    predicate Sized() {
      && Shape() && (forall k | 0 <= k < ENTRIES :: scales[k] < 16 && bits[k] <= 16)
      && RowSum(bits, ENTRIES) == BITPOOL
    }
  }

  /** The cursor position of entry `r` when the channels are written one after the other. */
  function Cell(r: nat): (k: nat)
    requires r < ENTRIES
    ensures k < ENTRIES
  {
    SbcAllocator.CHANNELS * (r % SUBBANDS) + r / SUBBANDS
  }

  /** The entry that sample field `k` belongs to. */
  function EntryOf(k: nat): (entry: nat)
    requires k >= HEADER_FIELDS
    ensures entry < ENTRIES
  {
    Cell((k - HEADER_FIELDS) % ENTRIES)
  }

  function Clamped(raw: int, bits: nat): nat {
    Max(0, Min(raw, Pow2(bits) - 1))
  }

  function FieldAt(f: Frame, k: nat): Field
    requires f.Shape() && k < FIELDS
  {
    if k == 0 then Field(SYNC_WORD, 8)
    else if k == 1 then Field(f.configuration, 8)
    else if k == 2 then Field(BITPOOL, 8)
    else if k == 3 then Field(f.crc, 8)
    else if k < 11 then Field(if f.joined[k - 4] then 1 else 0, 1)
    else if k == 11 then Field(0, 1)
    else if k < HEADER_FIELDS then Field(f.scales[Cell(k - 12)], 4)
    else Field(Clamped(f.raw[k - HEADER_FIELDS], f.bits[EntryOf(k)]), f.bits[EntryOf(k)])
  }

  /** The first `n` fields, one after the other. */
  ghost function FrameBits(f: Frame, n: nat): seq<bool>
    requires f.Shape() && n <= FIELDS
    decreases n, f.crc
  {
    if n == 0 then []
    else FrameBits(f, n - 1) + Bits(FieldAt(f, n - 1).value, FieldAt(f, n - 1).width)
  }

  // Sizes --------------------------------------------------------------------------------

  function RowSum(bits: seq<nat>, n: nat): nat
    requires |bits| == ENTRIES && n <= ENTRIES
  {
    if n == 0 then 0 else RowSum(bits, n - 1) + bits[Cell(n - 1)]
  }

  lemma {:induction false} RowsSumUp(bits: seq<nat>, n: nat)
    requires |bits| == ENTRIES && n <= SUBBANDS
    ensures SbcAllocator.Sum(bits, 2 * n) == RowSum(bits, n) + RowSum(bits, SUBBANDS + n) - RowSum(bits, SUBBANDS)
  {
    if n > 0 {
      RowsSumUp(bits, n - 1);
      assert Cell(n - 1) == 2 * n - 2 && Cell(SUBBANDS + n - 1) == 2 * n - 1;
      assert SbcAllocator.Sum(bits, 2 * n) == SbcAllocator.Sum(bits, 2 * n - 1) + bits[2 * n - 1];
      assert SbcAllocator.Sum(bits, 2 * n - 1) == SbcAllocator.Sum(bits, 2 * n - 2) + bits[2 * n - 2];
    }
  }

  lemma ValidIsSized(f: Frame)
    requires f.Valid()
    ensures f.Sized()
  {
    RowsSumUp(f.bits, SUBBANDS);
    SbcAllocator.AllocationUsesWholePool(f.scales, BITPOOL);
    SbcAllocator.AllocationWithinBounds(f.scales, BITPOOL);
  }

  /** 104 header bits. */
  lemma {:induction false} HeaderLength(f: Frame, n: nat)
    requires f.Shape() && n <= HEADER_FIELDS
    ensures |FrameBits(f, n)| == if n <= 4 then 8 * n else if n <= 12 then 28 + n else 4 * n - 8
  {
    if n > 0 {
      HeaderLength(f, n - 1);
    }
  }

  lemma Remainder(block: nat, r: nat)
    requires r < 16
    ensures (16 * block + r) % 16 == r
  {}

  lemma EntryOfSample(block: nat, r: nat)
    requires r < ENTRIES
    ensures EntryOf(HEADER_FIELDS + ENTRIES * block + r) == Cell(r)
  {
    Remainder(block, r);
  }

  lemma SampleWidth(f: Frame, block: nat, r: nat)
    requires f.Shape() && block < BLOCKS && r < ENTRIES
    ensures FieldAt(f, HEADER_FIELDS + ENTRIES * block + r).width == f.bits[Cell(r)]
  {
    EntryOfSample(block, r);
  }

  lemma OneMoreField(f: Frame, k: nat)
    requires f.Shape() && k < FIELDS
    ensures |FrameBits(f, k + 1)| == |FrameBits(f, k)| + FieldAt(f, k).width
  {}

  /** Then 48 bits a block. */
  lemma {:induction false} SampleLength(f: Frame, block: nat, r: nat)
    requires f.Sized() && block < BLOCKS && r <= ENTRIES
    ensures |FrameBits(f, HEADER_FIELDS + ENTRIES * block + r)| == 104 + BITPOOL * block + RowSum(f.bits, r)
    decreases block, r
  {
    if r > 0 {
      SampleLength(f, block, r - 1);
      SampleWidth(f, block, r - 1);
      OneMoreField(f, HEADER_FIELDS + ENTRIES * block + r - 1);
    } else if block > 0 {
      SampleLength(f, block - 1, ENTRIES);
    } else {
      HeaderLength(f, HEADER_FIELDS);
    }
  }

  /** Every frame fills its 109 bytes to the last bit. */
  lemma FrameFillsItsBytes(f: Frame)
    requires f.Sized()
    ensures |FrameBits(f, FIELDS)| == 8 * FRAME_LENGTH
  {
    SampleLength(f, BLOCKS - 1, ENTRIES);
  }

  lemma {:induction false} FrameBitsPrefix(f: Frame, i: nat, n: nat)
    requires f.Shape() && i <= n <= FIELDS
    ensures FrameBits(f, i) <= FrameBits(f, n)
    decreases n
  {
    if i < n {
      FrameBitsPrefix(f, i, n - 1);
    }
  }

  lemma FieldFits(f: Frame, k: nat)
    requires f.Sized() && k < FIELDS
    ensures FieldAt(f, k).width <= 16 && FieldAt(f, k).value < Pow2(FieldAt(f, k).width)
    ensures InWord(FieldAt(f, k).value, WORD)
  {
    assert Pow2(1) == 2 && Pow2(4) == 16 && Pow2(8) == 256;
    SmallInWord(FieldAt(f, k).value, FieldAt(f, k).width, WORD);
  }

  // Decoding -----------------------------------------------------------------------------

  lemma FieldInside(before: seq<bool>, x: Field, all: seq<bool>)
    requires before + Bits(x.value, x.width) <= all && x.value < Pow2(x.width)
    ensures |before| + x.width <= |all|
    ensures Number(all[|before|..|before| + x.width]) == x.value
  {
    NumberOfBits(x.value, x.width);
    var end := |before| + x.width;
    assert all[|before|..end] == (before + Bits(x.value, x.width))[|before|..end];
    assert all[|before|..end] == Bits(x.value, x.width);
  }

  /** Each field stands at its place in the frame with its own value. */
  lemma FieldReadsBack(f: Frame, k: nat)
    requires f.Sized() && k < FIELDS
    ensures var start, field := |FrameBits(f, k)|, FieldAt(f, k);
      start + field.width <= 8 * FRAME_LENGTH == |FrameBits(f, FIELDS)| &&
      Number(FrameBits(f, FIELDS)[start..start + field.width]) == field.value
  {
    FrameFillsItsBytes(f);
    FieldFits(f, k);
    FrameBitsPrefix(f, k + 1, FIELDS);
    FieldInside(FrameBits(f, k), FieldAt(f, k), FrameBits(f, FIELDS));
  }

  // Unique decoding ----------------------------------------------------------------------

  lemma SplitEqual(a: seq<bool>, b: seq<bool>, c: seq<bool>, d: seq<bool>)
    requires a + b == c + d && |a| == |c|
    ensures a == c && b == d
  {
    assert a == (a + b)[..|a|] && c == (c + d)[..|c|];
    assert b == (a + b)[|a|..] && d == (c + d)[|c|..];
  }

  lemma SameFieldBits(a: seq<bool>, c: seq<bool>, x: Field, y: Field)
    requires a + Bits(x.value, x.width) == c + Bits(y.value, y.width) && x.width == y.width
    requires x.value < Pow2(x.width) && y.value < Pow2(y.width)
    ensures a == c && x == y
  {
    SplitEqual(a, Bits(x.value, x.width), c, Bits(y.value, y.width));
    BitsInjective(x.value, y.value, x.width);
  }

  lemma SameWidths(f: Frame, g: Frame, k: nat)
    requires f.Shape() && g.Shape() && k < FIELDS && (k < HEADER_FIELDS || f.bits == g.bits)
    ensures FieldAt(f, k).width == FieldAt(g, k).width
  {}

  lemma SameLastField(f: Frame, g: Frame, k: nat)
    requires f.Sized() && g.Sized() && k < FIELDS && (k < HEADER_FIELDS || f.bits == g.bits)
    requires FrameBits(f, k + 1) == FrameBits(g, k + 1)
    ensures FrameBits(f, k) == FrameBits(g, k) && FieldAt(f, k) == FieldAt(g, k)
  {
    FieldFits(f, k);
    FieldFits(g, k);
    SameWidths(f, g, k);
    SameFieldBits(FrameBits(f, k), FrameBits(g, k), FieldAt(f, k), FieldAt(g, k));
  }

  /** Equal bits with equal field widths carry equal values. */
  lemma {:induction false} SameBitsSameFields(f: Frame, g: Frame, n: nat, k: nat)
    requires f.Sized() && g.Sized() && n <= FIELDS && FrameBits(f, n) == FrameBits(g, n)
    requires n <= HEADER_FIELDS || f.bits == g.bits
    requires k < n
    ensures FieldAt(f, k) == FieldAt(g, k)
    decreases n
  {
    SameLastField(f, g, n - 1);
    if k < n - 1 {
      SameBitsSameFields(f, g, n - 1, k);
    }
  }

  lemma CellIsOnto(k: nat)
    requires k < ENTRIES
    ensures Cell(k % 2 * SUBBANDS + k / 2) == k
  {}

  /** The header determines the scale factors, and so the allocation. */
  lemma SameHeaderSameAllocation(f: Frame, g: Frame)
    requires f.Valid() && g.Valid()
    requires forall k | 0 <= k < HEADER_FIELDS :: FieldAt(f, k) == FieldAt(g, k)
    ensures f.scales == g.scales && f.bits == g.bits && f.configuration == g.configuration && f.crc == g.crc
  {
    forall k | 0 <= k < ENTRIES
      ensures f.scales[k] == g.scales[k]
    {
      CellIsOnto(k);
      assert FieldAt(f, 12 + (k % 2 * SUBBANDS + k / 2)) == FieldAt(g, 12 + (k % 2 * SUBBANDS + k / 2));
    }
    assert FieldAt(f, 1) == FieldAt(g, 1) && FieldAt(f, 3) == FieldAt(g, 3);
  }

  /**
   A frame can be decoded from its bytes alone although it does not carry the sample widths:
   two frames with the same bits have the same scale factors, allocation and samples.
   */
  lemma FramesDecodeUniquely(f: Frame, g: Frame)
    requires f.Valid() && g.Valid() && FrameBits(f, FIELDS) == FrameBits(g, FIELDS)
    ensures f.configuration == g.configuration && f.crc == g.crc && f.scales == g.scales && f.bits == g.bits
    ensures forall k | 0 <= k < FIELDS :: FieldAt(f, k) == FieldAt(g, k)
  {
    ValidIsSized(f);
    ValidIsSized(g);
    HeaderLength(f, HEADER_FIELDS);
    HeaderLength(g, HEADER_FIELDS);
    FrameBitsPrefix(f, HEADER_FIELDS, FIELDS);
    FrameBitsPrefix(g, HEADER_FIELDS, FIELDS);
    assert FrameBits(f, HEADER_FIELDS) == FrameBits(f, FIELDS)[..104];
    assert FrameBits(g, HEADER_FIELDS) == FrameBits(g, FIELDS)[..104];
    forall k | 0 <= k < HEADER_FIELDS
      ensures FieldAt(f, k) == FieldAt(g, k)
    {
      SameBitsSameFields(f, g, HEADER_FIELDS, k);
    }
    SameHeaderSameAllocation(f, g);
    forall k | 0 <= k < FIELDS
      ensures FieldAt(f, k) == FieldAt(g, k)
    {
      SameBitsSameFields(f, g, FIELDS, k);
    }
  }
}
