/** Where everything stands in a frame, and the check over it: what a receiver of the frame relies on. */
module SbcLayout {
  import opened Base
  import opened BitMath
  import opened SbcBitStream
  import opened SbcFrame
  import SbcCrc
  import SbcGreedy

  /** The `width` bits from `start` on are `value`. */
  ghost predicate Stands(f: Frame, start: nat, width: nat, value: nat)
    requires f.Shape()
  {
    && start + width <= 872 == |FrameBits(f, FIELDS)|
    && Number(FrameBits(f, FIELDS)[start..start + width]) == value
  }

  lemma HeaderFieldStands(f: Frame, k: nat)
    requires f.Sized() && k < HEADER_FIELDS
    ensures Stands(f, if k <= 4 then 8 * k else if k <= 12 then 28 + k else 4 * k - 8, FieldAt(f, k).width, FieldAt(f, k).value)
  {
    HeaderLength(f, k);
    FieldReadsBack(f, k);
  }

  /** Sync word, configuration, pool and check take a byte each. */
  lemma LeadStands(f: Frame)
    requires f.Sized()
    ensures Stands(f, 0, 8, 0x9C) && Stands(f, 8, 8, f.configuration) && Stands(f, 16, 8, 48) && Stands(f, 24, 8, f.crc)
  {
    HeaderFieldStands(f, 0);
    HeaderFieldStands(f, 1);
    HeaderFieldStands(f, 2);
    HeaderFieldStands(f, 3);
  }

  /** Then a joint flag for each subband but the last, whose flag is never set. */
  lemma JointStands(f: Frame, band: nat)
    requires f.Sized() && band < 8
    ensures Stands(f, 32 + band, 1, if band < 7 && f.joined[band] then 1 else 0)
  {
    HeaderFieldStands(f, 4 + band);
  }

  lemma CellOf(channel: nat, band: nat, r: nat)
    requires channel < 2 && band < 8 && r == 8 * channel + band
    ensures r < ENTRIES && Cell(r) == 2 * band + channel
  {
    assert r % 8 == band && r / 8 == channel;
  }

  lemma ScaleStandsAt(f: Frame, r: nat)
    requires f.Sized() && r < 16
    ensures Stands(f, 40 + 4 * r, 4, f.scales[Cell(r)])
  {
    HeaderFieldStands(f, 12 + r);
  }

  /** Then four bits a scale factor, channel by channel. */
  lemma ScaleStands(f: Frame, channel: nat, band: nat)
    requires f.Sized() && channel < 2 && band < 8
    ensures Stands(f, 40 + 4 * (8 * channel + band), 4, f.scales[2 * band + channel])
  {
    CellOf(channel, band, 8 * channel + band);
    ScaleStandsAt(f, 8 * channel + band);
  }

  /** The bits of the first `r` entries of a block, channel by channel. */
  function WidthsAhead(bits: seq<nat>, r: nat): nat
    requires |bits| == 16 && r <= 16
    decreases r, |bits|
  {
    if r == 0 then 0 else WidthsAhead(bits, r - 1) + bits[2 * ((r - 1) % 8) + (r - 1) / 8]
  }

  lemma {:induction false} WidthsAheadIsRow(bits: seq<nat>, r: nat)
    requires |bits| == 16 && r <= 16
    ensures WidthsAhead(bits, r) == RowSum(bits, r)
    decreases r
  {
    if r > 0 {
      WidthsAheadIsRow(bits, r - 1);
    }
  }

  /** A sample cut to what `width` bits hold. */
  function Level(raw: int, width: nat): nat {
    if raw < 0 then 0 else if raw < Pow2(width) then raw else Pow2(width) - 1
  }

  /** Sample `r` of a block stands behind the earlier ones, with the width allocated to `entry`. */
  ghost predicate SampleAt(f: Frame, block: nat, r: nat, entry: nat)
    requires f.Shape() && block < 16 && r < 16 && entry < 16
  {
    Stands(f, 104 + 48 * block + WidthsAhead(f.bits, r), f.bits[entry], Level(f.raw[16 * block + r], f.bits[entry]))
  }

  /** Then the samples, 48 bits a block, each with the width its entry was allocated. */
  lemma SampleStands(f: Frame, block: nat, channel: nat, band: nat)
    requires f.Sized() && block < 16 && channel < 2 && band < 8
    ensures SampleAt(f, block, 8 * channel + band, 2 * band + channel)
  {
    var r := 8 * channel + band;
    CellOf(channel, band, r);
    SampleStandsAt(f, block, r, 28 + 16 * block + r);
  }

  lemma SampleField(f: Frame, block: nat, r: nat, k: nat)
    requires f.Sized() && block < 16 && r < 16 && k == 28 + 16 * block + r
    ensures k < FIELDS && FieldAt(f, k).width == f.bits[Cell(r)]
    ensures FieldAt(f, k).value == Level(f.raw[16 * block + r], f.bits[Cell(r)])
  {
    EntryOfSample(block, r);
  }

  lemma SampleStandsAt(f: Frame, block: nat, r: nat, k: nat)
    requires f.Sized() && block < 16 && r < 16 && k == 28 + 16 * block + r
    ensures SampleAt(f, block, r, Cell(r))
  {
    WidthsAheadIsRow(f.bits, r);
    SampleLength(f, block, r);
    SampleField(f, block, r, k);
    FieldReadsBack(f, k);
  }

  /** The widths a receiver works out from the scale factors are the ones the samples have. */
  lemma WidthsAreKnown(f: Frame, bits: seq<nat>)
    requires f.Valid() && SbcGreedy.IsAllocation(f.scales, 48, bits)
    ensures bits == f.bits
  {
    SbcGreedy.AllocationIsGreedy(f.scales, 48);
    SbcGreedy.AllocationIsUnique(f.scales, 48, f.bits, bits);
  }

  // Bytes ----------------------------------------------------------------------------------

  lemma SplitAt(bytes: seq<Byte>, i: nat)
    requires i < |bytes|
    ensures bytes == bytes[..i] + ([bytes[i]] + bytes[i + 1..])
  {
  }

  lemma ByteParts(a: seq<Byte>, b: Byte, c: seq<Byte>)
    ensures BitsOfBytes(a + ([b] + c)) == BitsOfBytes(a) + (Bits(b, 8) + BitsOfBytes(c))
  {
    BytesConcat(a, [b] + c);
    BytesConcat([b], c);
    OneByte(b);
  }

  lemma MiddleBits(a: seq<bool>, m: seq<bool>, b: seq<bool>, i: nat, j: nat)
    requires i == |a| && j == i + |m|
    ensures (a + (m + b))[i..j] == m
  {
  }

  lemma ByteNumber(bytes: seq<Byte>, i: nat)
    requires i < |bytes|
    ensures Number(BitsOfBytes(bytes)[8 * i..8 * i + 8]) == bytes[i]
  {
    SplitAt(bytes, i);
    ByteParts(bytes[..i], bytes[i], bytes[i + 1..]);
    MiddleBits(BitsOfBytes(bytes[..i]), Bits(bytes[i], 8), BitsOfBytes(bytes[i + 1..]), 8 * i, 8 * i + 8);
    assert Pow2(8) == 256;
    NumberOfBits(bytes[i], 8);
  }

  /** Two neighbouring fields of four bits make a byte, the first one its high half. */
  lemma TwoHalves(bits: seq<bool>, start: nat)
    requires start + 8 <= |bits|
    ensures Number(bits[start..start + 8]) == 16 * Number(bits[start..start + 4]) + Number(bits[start + 4..start + 8])
  {
    assert bits[start..start + 8] == bits[start..start + 4] + bits[start + 4..start + 8];
    NumberOfConcat(bits[start..start + 4], bits[start + 4..start + 8]);
    FourShl(Number(bits[start..start + 4]));
  }

  lemma FourShl(x: nat)
    ensures Shl(x, 4) == 16 * x
  {
    assert Shl(x, 1) == 2 * Shl(x, 0);
    assert Shl(x, 2) == 2 * Shl(x, 1);
    assert Shl(x, 3) == 2 * Shl(x, 2);
  }

  /** The first four bytes of a frame. */
  lemma LeadBytes(bytes: seq<Byte>, f: Frame)
    requires f.Sized() && |bytes| == 109 && BitsOfBytes(bytes) == FrameBits(f, FIELDS)
    ensures bytes[..4] == [0x9C, f.configuration, 48, f.crc]
  {
    LeadStands(f);
    ByteNumber(bytes, 0);
    ByteNumber(bytes, 1);
    ByteNumber(bytes, 2);
    ByteNumber(bytes, 3);
  }

  /** Two scale factors a byte, four bytes a channel. */
  lemma ScaleBytes(bytes: seq<Byte>, f: Frame, channel: nat, pair: nat)
    requires f.Sized() && |bytes| == 109 && BitsOfBytes(bytes) == FrameBits(f, FIELDS)
    requires channel < 2 && pair < 4
    ensures bytes[5 + 4 * channel + pair] == 16 * f.scales[4 * pair + channel] + f.scales[4 * pair + 2 + channel]
  {
    var i := 5 + 4 * channel + pair;
    ScaleStands(f, channel, 2 * pair);
    ScaleStands(f, channel, 2 * pair + 1);
    ByteNumber(bytes, i);
    TwoHalves(BitsOfBytes(bytes), 8 * i);
  }

  // The check ------------------------------------------------------------------------------

  /** One bit of the frame check, in the arithmetic of a byte. */
  function AfterBit(crc: bv8, bit: bool): bv8 {
    if bit != (crc >= 0x80) then (crc << 1) ^ 0x1D else crc << 1
  }

  function AfterBits(bits: seq<bool>): bv8 {
    if bits == [] then 0x0F else AfterBit(AfterBits(bits[..|bits| - 1]), bits[|bits| - 1])
  }

  lemma AfterBitIsStep(crc: bv8, bit: bool)
    ensures SbcCrc.RegisterOf(AfterBit(crc, bit)) == SbcCrc.Step(SbcCrc.RegisterOf(crc), bit)
  {
  }

  lemma StartIsFifteen()
    ensures SbcCrc.RegisterOf(0x0F) == SbcCrc.START
  {
  }

  lemma {:induction false} AfterBitsIsFeed(bits: seq<bool>)
    ensures SbcCrc.RegisterOf(AfterBits(bits)) == SbcCrc.Feed(SbcCrc.START, bits, |bits|)
    decreases |bits|
  {
    if bits == [] {
      StartIsFifteen();
    } else {
      var front, last := bits[..|bits| - 1], bits[|bits| - 1];
      AfterBitsIsFeed(front);
      AfterBitIsStep(AfterBits(front), last);
      SbcCrc.FeedPrefix(SbcCrc.START, front, [last], |front|);
      assert front + [last] == bits;
    }
  }

  /** A frame whose check comes out is one whose fourth byte is the check of the header behind the sync word. */
  lemma CheckIs(bytes: seq<Byte>)
    requires |bytes| >= 13
    requires SbcCrc.FeedBytes(SbcCrc.START, SbcCrc.Checked(bytes) + [bytes[3]]) == SbcCrc.ZERO
    ensures Bits(bytes[3], 8)
         == SbcCrc.OctetBits(SbcCrc.RegisterOf(AfterBits(BitsOfBytes([bytes[1], bytes[2]] + bytes[4..13]))))
  {
    var checked := [bytes[1], bytes[2]] + bytes[4..13];
    var c := SbcCrc.FeedBytes(SbcCrc.START, checked);
    AfterBitsIsFeed(BitsOfBytes(checked));
    SbcCrc.ResidueIsZero(checked);
    SbcCrc.FeedBytesConcat(SbcCrc.START, checked, [bytes[3]]);
    SbcCrc.FeedBytesConcat(SbcCrc.START, checked, [SbcCrc.CheckByte(c)]);
    SbcCrc.OneByteInjective(c, bytes[3], SbcCrc.CheckByte(c));
  }
}
