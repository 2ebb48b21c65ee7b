/** The frame writer of gui/Sbc/DualShock4SbcEncoder.cs, from scale factors and integer samples. */
module SbcEncoder {
  import opened Base
  import opened BitMath
  import opened SbcBitStream
  import opened SbcFrame
  import SbcAllocator
  import SbcCrc

  // The check byte in place --------------------------------------------------------------

  lemma {:induction false} FirstFieldsWithoutCrc(f: Frame, c: Byte, n: nat)
    requires f.Shape() && n <= 3
    ensures FrameBits(f.(crc := c), n) == FrameBits(f, n)
  {
    if n > 0 {
      FirstFieldsWithoutCrc(f, c, n - 1);
    }
  }

  lemma FourFieldsWithCrc(f: Frame, c: Byte)
    requires f.Shape()
    ensures FrameBits(f.(crc := c), 4) == FrameBits(f, 3) + Bits(c, 8)
    ensures |FrameBits(f, 4)| == 32
  {
    FirstFieldsWithoutCrc(f, c, 3);
    HeaderLength(f, 4);
  }

  lemma AppendBehind(front: seq<bool>, f: seq<bool>, g: seq<bool>, x: seq<bool>)
    requires |f| >= 32 && g == front + f[32..]
    ensures g + x == front + (f + x)[32..]
  {}

  lemma LaterFieldsWithoutCrc(f: Frame, c: Byte, k: nat)
    requires f.Shape() && 4 <= k < FIELDS
    ensures FieldAt(f.(crc := c), k) == FieldAt(f, k)
  {}

  /** Only the fourth field depends on the check. */
  lemma {:induction false} FrameBitsWithCrc(f: Frame, c: Byte, n: nat)
    requires f.Shape() && 4 <= n <= FIELDS
    ensures |FrameBits(f, n)| >= 32
    ensures FrameBits(f.(crc := c), n) == (FrameBits(f, 3) + Bits(c, 8)) + FrameBits(f, n)[32..]
    decreases n
  {
    FourFieldsWithCrc(f, c);
    if n > 4 {
      FrameBitsWithCrc(f, c, n - 1);
      LaterFieldsWithoutCrc(f, c, n - 1);
      AppendBehind(FrameBits(f, 3) + Bits(c, 8), FrameBits(f, n - 1), FrameBits(f.(crc := c), n - 1),
        Bits(FieldAt(f, n - 1).value, FieldAt(f, n - 1).width));
    }
  }

  /** Storing a byte at offset 3 replaces exactly the check field. */
  lemma StoreCheck(bytes: seq<Byte>, f: Frame, c: Byte)
    requires f.Sized() && |bytes| == FRAME_LENGTH && BitsOfBytes(bytes) == FrameBits(f, FIELDS)
    ensures BitsOfBytes(bytes[3 := c]) == FrameBits(f.(crc := c), FIELDS)
  {
    FrameBitsWithCrc(f, c, FIELDS);
    FrameBitsPrefix(f, 3, FIELDS);
    HeaderLength(f, 3);
    SplitAtThree(bytes, bytes[3]);
    SplitAtThree(bytes, c);
    assert bytes[3 := bytes[3]] == bytes;
    var all := BitsOfBytes(bytes);
    assert all[..24] == BitsOfBytes(bytes[..3]);
    assert all[32..] == BitsOfBytes(bytes[4..]);
    assert FrameBits(f, 3) == all[..24];
  }

  lemma SplitAtThree(bytes: seq<Byte>, c: Byte)
    requires |bytes| == FRAME_LENGTH
    ensures BitsOfBytes(bytes[3 := c]) == BitsOfBytes(bytes[..3]) + Bits(c, 8) + BitsOfBytes(bytes[4..])
  {
    assert bytes[3 := c] == bytes[..3] + [c] + bytes[4..];
    BytesConcat(bytes[..3] + [c], bytes[4..]);
    BytesConcat(bytes[..3], [c]);
    OneByte(c);
  }

  // Writing ------------------------------------------------------------------------------

  /** The first `k` fields of `f` are written. */
  ghost predicate Reached(writer: BitStream, f: Frame, k: nat)
    reads writer, writer.data
  {
    && writer.Valid() && !writer.isReader && !writer.error && writer.maxBytes == FRAME_LENGTH
    && f.Sized() && k <= FIELDS && writer.Written() == FrameBits(f, k)
  }

  method Put(writer: BitStream, value: nat, width: nat, ghost f: Frame, ghost k: nat)
    requires Reached(writer, f, k) && k < FIELDS && Field(value, width) == FieldAt(f, k)
    modifies writer`bytePosition, writer`accumulator, writer`bitsInAccumulator, writer`error, writer.data
    ensures Reached(writer, f, k + 1)
  {
    FieldFits(f, k);
    FrameFillsItsBytes(f);
    FrameBitsPrefix(f, k + 1, FIELDS);
    ghost var done := BitsOfBytes(writer.data[..writer.bytePosition]);
    if width > 0 {
      ShortStored(done, writer.accumulator, writer.bitsInAccumulator, value, width);
    } else {
      assert FrameBits(f, k + 1) == FrameBits(f, k);
    }
    writer.PutBits(value, width);
  }

  lemma CellAt(a: array2<nat>, channel: nat, band: nat)
    requires a.Length0 == SbcAllocator.CHANNELS && a.Length1 == SUBBANDS
    requires channel < SbcAllocator.CHANNELS && band < SUBBANDS
    ensures Cell(SUBBANDS * channel + band) == SbcAllocator.CHANNELS * band + channel
    ensures SbcAllocator.Cells(a)[Cell(SUBBANDS * channel + band)] == a[channel, band]
  {}

  lemma ScaleField(a: array2<nat>, f: Frame, channel: nat, band: nat)
    requires a.Length0 == SbcAllocator.CHANNELS && a.Length1 == SUBBANDS && f.Shape()
    requires channel < SbcAllocator.CHANNELS && band < SUBBANDS && f.scales == SbcAllocator.Cells(a)
    ensures FieldAt(f, 12 + SUBBANDS * channel + band) == Field(a[channel, band], 4)
  {
    CellAt(a, channel, band);
  }

  lemma SampleField(a: array2<nat>, f: Frame, block: nat, channel: nat, band: nat)
    requires a.Length0 == SbcAllocator.CHANNELS && a.Length1 == SUBBANDS && f.Shape() && block < BLOCKS
    requires channel < SbcAllocator.CHANNELS && band < SUBBANDS && f.bits == SbcAllocator.Cells(a)
    ensures var index, bits := ENTRIES * block + SUBBANDS * channel + band, a[channel, band];
      index < |f.raw| && FieldAt(f, HEADER_FIELDS + index) == Field(Clamped(f.raw[index], bits), bits)
  {
    CellAt(a, channel, band);
    EntryOfSample(block, SUBBANDS * channel + band);
  }

  class Encoder {
    const configuration: Byte
    const allocator: SbcAllocator.Allocator
    const joined: array<bool>

    /** Scale factors and their allocation are in place. */
    ghost predicate Ready()
      reads allocator.scaleFactors, allocator.allocatedBits
    {
      && allocator.Valid() && allocator.bitpool == BITPOOL && joined.Length == SUBBANDS
      && (forall k | 0 <= k < ENTRIES :: allocator.Needs()[k] < 16)
      && SbcAllocator.Cells(allocator.allocatedBits) == SbcAllocator.Allocation(allocator.Needs(), BITPOOL)
    }

    /** What the frame is to carry. */
    ghost function Contents(raw: seq<int>, crc: Byte): (f: Frame)
      requires Ready() && |raw| == BLOCKS * ENTRIES
      reads allocator.scaleFactors, allocator.allocatedBits, joined
      ensures f.Valid()
    {
      Frame(configuration, crc, joined[..], allocator.Needs(), SbcAllocator.Cells(allocator.allocatedBits), raw)
    }

    constructor (configurationByte: Byte)
      ensures configuration == configurationByte && allocator.Valid() && allocator.bitpool == BITPOOL
      ensures joined.Length == SUBBANDS && fresh(joined) && fresh(allocator)
    {
      configuration := configurationByte;
      allocator := new SbcAllocator.Allocator(BITPOOL);
      joined := new bool[SUBBANDS](i => false);
    }

    method WriteJoined(writer: BitStream, ghost f: Frame)
      requires joined.Length == SUBBANDS && f.joined == joined[..] && Reached(writer, f, 4)
      modifies writer, writer.data
      ensures Reached(writer, f, 12)
    {
      var band := 0;
      while band < SUBBANDS - 1
        invariant band <= SUBBANDS - 1 && f.joined == joined[..] && Reached(writer, f, 4 + band)
      {
        PutJoined(writer, band, f);
        band := band + 1;
      }
      Put(writer, 0, 1, f, 11);
    }

    method PutJoined(writer: BitStream, band: nat, ghost f: Frame)
      requires joined.Length == SUBBANDS && f.joined == joined[..] && band < SUBBANDS - 1 && Reached(writer, f, 4 + band)
      modifies writer`bytePosition, writer`accumulator, writer`bitsInAccumulator, writer`error, writer.data
      ensures Reached(writer, f, 4 + band + 1)
    {
      Put(writer, if joined[band] then 1 else 0, 1, f, 4 + band);
    }

    method PutScale(writer: BitStream, channel: nat, band: nat, ghost f: Frame, ghost k: nat)
      requires allocator.Valid() && f.scales == allocator.Needs()
      requires channel < SbcAllocator.CHANNELS && band < SUBBANDS
      requires k == 12 + SUBBANDS * channel + band && Reached(writer, f, k)
      modifies writer, writer.data
      ensures Reached(writer, f, k + 1)
    {
      ScaleField(allocator.scaleFactors, f, channel, band);
      Put(writer, allocator.scaleFactors[channel, band], 4, f, k);
    }

    method WriteScaleRow(writer: BitStream, channel: nat, ghost f: Frame, ghost start: nat)
      requires allocator.Valid() && f.scales == allocator.Needs() && channel < SbcAllocator.CHANNELS
      requires start == 12 + SUBBANDS * channel && Reached(writer, f, start)
      modifies writer, writer.data
      ensures Reached(writer, f, start + SUBBANDS)
    {
      for band := 0 to SUBBANDS
        invariant f.scales == allocator.Needs() && Reached(writer, f, start + band)
      {
        PutScale(writer, channel, band, f, start + band);
      }
    }

    method WriteScales(writer: BitStream, ghost f: Frame)
      requires allocator.Valid() && f.scales == allocator.Needs() && Reached(writer, f, 12)
      modifies writer, writer.data
      ensures Reached(writer, f, HEADER_FIELDS)
    {
      for channel := 0 to SbcAllocator.CHANNELS
        invariant f.scales == allocator.Needs() && Reached(writer, f, 12 + SUBBANDS * channel)
      {
        WriteScaleRow(writer, channel, f, 12 + SUBBANDS * channel);
      }
    }

    method PutSample(writer: BitStream, raw: seq<int>, block: nat, channel: nat, band: nat, ghost f: Frame, ghost k: nat)
      requires allocator.Valid() && f.raw == raw && f.bits == SbcAllocator.Cells(allocator.allocatedBits)
      requires block < BLOCKS && channel < SbcAllocator.CHANNELS && band < SUBBANDS
      requires k == HEADER_FIELDS + ENTRIES * block + SUBBANDS * channel + band && Reached(writer, f, k)
      modifies writer, writer.data
      ensures Reached(writer, f, k + 1)
    {
      SampleField(allocator.allocatedBits, f, block, channel, band);
      var bits := allocator.allocatedBits[channel, band];
      var quantized := raw[ENTRIES * block + SUBBANDS * channel + band];
      var levels := Pow2(bits) - 1;
      Put(writer, Max(0, Min(quantized, levels)), bits, f, k);
    }

    method WriteChannel(writer: BitStream, raw: seq<int>, block: nat, channel: nat, ghost f: Frame, ghost start: nat)
      requires allocator.Valid() && f.raw == raw && block < BLOCKS && channel < SbcAllocator.CHANNELS
      requires f.bits == SbcAllocator.Cells(allocator.allocatedBits)
      requires start == HEADER_FIELDS + ENTRIES * block + SUBBANDS * channel && Reached(writer, f, start)
      modifies writer, writer.data
      ensures Reached(writer, f, start + SUBBANDS)
    {
      for band := 0 to SUBBANDS
        invariant f.bits == SbcAllocator.Cells(allocator.allocatedBits) && Reached(writer, f, start + band)
      {
        PutSample(writer, raw, block, channel, band, f, start + band);
      }
    }

    method WriteSamples(writer: BitStream, raw: seq<int>, ghost f: Frame)
      requires allocator.Valid() && f.raw == raw && Reached(writer, f, HEADER_FIELDS)
      requires f.bits == SbcAllocator.Cells(allocator.allocatedBits)
      modifies writer, writer.data
      ensures Reached(writer, f, FIELDS)
    {
      for block := 0 to BLOCKS
        invariant f.bits == SbcAllocator.Cells(allocator.allocatedBits)
        invariant Reached(writer, f, HEADER_FIELDS + ENTRIES * block)
      {
        for channel := 0 to SbcAllocator.CHANNELS
          invariant f.bits == SbcAllocator.Cells(allocator.allocatedBits)
          invariant Reached(writer, f, HEADER_FIELDS + ENTRIES * block + SUBBANDS * channel)
        {
          WriteChannel(writer, raw, block, channel, f, HEADER_FIELDS + ENTRIES * block + SUBBANDS * channel);
        }
      }
    }

    method OpenFrame(output: array<Byte>, ghost f: Frame) returns (writer: BitStream)
      requires output.Length >= FRAME_LENGTH && f.Sized()
      modifies output
      ensures fresh(writer) && writer.data == output && Reached(writer, f, 0)
    {
      for i := 0 to FRAME_LENGTH {
        output[i] := 0;
      }
      writer := new BitStream(output, FRAME_LENGTH, false);
    }

    /** The frame with a zero check byte. */
    method WriteUnchecked(raw: seq<int>, output: array<Byte>, ghost f: Frame) returns (ok: bool)
      requires allocator.Valid() && joined.Length == SUBBANDS && output.Length >= FRAME_LENGTH
      requires f.Sized() && f.crc == 0 && f.configuration == configuration && f.joined == joined[..] && f.raw == raw
      requires f.scales == allocator.Needs() && f.bits == SbcAllocator.Cells(allocator.allocatedBits)
      modifies output
      ensures ok && BitsOfBytes(output[..FRAME_LENGTH]) == FrameBits(f, FIELDS)
    {
      var writer := OpenFrame(output, f);
      WriteLead(writer, f);
      WriteJoined(writer, f);
      WriteScales(writer, f);
      WriteSamples(writer, raw, f);
      FinishFrame(writer, f);
      ok := !writer.error;
    }

    method WriteLead(writer: BitStream, ghost f: Frame)
      requires Reached(writer, f, 0) && f.crc == 0 && f.configuration == configuration
      modifies writer, writer.data
      ensures Reached(writer, f, 4)
    {
      Put(writer, SYNC_WORD, 8, f, 0);
      Put(writer, configuration, 8, f, 1);
      Put(writer, BITPOOL, 8, f, 2);
      Put(writer, 0, 8, f, 3);
    }

    /** Nothing is left to flush. */
    method FinishFrame(writer: BitStream, ghost f: Frame)
      requires Reached(writer, f, FIELDS)
      modifies writer, writer.data
      ensures !writer.error && FRAME_LENGTH <= writer.data.Length
      ensures BitsOfBytes(writer.data[..FRAME_LENGTH]) == FrameBits(f, FIELDS)
    {
      FrameFillsItsBytes(f);
      writer.Flush();
      assert writer.Written() == BitsOfBytes(writer.data[..FRAME_LENGTH]);
    }

    /** The check byte goes in last. */
    method StoreCrc(output: array<Byte>, ghost f: Frame)
      requires output.Length >= FRAME_LENGTH && f.Sized()
      requires BitsOfBytes(output[..FRAME_LENGTH]) == FrameBits(f, FIELDS)
      modifies output
      ensures BitsOfBytes(output[..FRAME_LENGTH]) == FrameBits(f.(crc := output[3]), FIELDS)
      ensures SbcCrc.FeedBytes(SbcCrc.START, SbcCrc.Checked(output[..]) + [output[3]]) == SbcCrc.ZERO
    {
      ghost var before := output[..FRAME_LENGTH];
      var crc := SbcCrc.CalculateCrc(output);
      ghost var checked := SbcCrc.Checked(output[..]);
      var b := SbcCrc.CheckByte(SbcCrc.RegisterOf(crc));
      StoreCheck(before, f, b);
      SbcCrc.ResidueIsZero(checked);
      output[3] := b;
      assert output[..FRAME_LENGTH] == before[3 := b];
      assert SbcCrc.Checked(output[..]) == checked;
    }

    /** The whole of `WriteFrame`. */
    method WriteFrame(raw: seq<int>, output: array<Byte>) returns (ok: bool)
      requires Ready() && |raw| == BLOCKS * ENTRIES && output.Length >= FRAME_LENGTH
      modifies output
      ensures ok
      ensures BitsOfBytes(output[..FRAME_LENGTH]) == FrameBits(Contents(raw, output[3]), FIELDS)
      ensures SbcCrc.FeedBytes(SbcCrc.START, SbcCrc.Checked(output[..]) + [output[3]]) == SbcCrc.ZERO
    {
      ghost var f := Contents(raw, 0);
      ValidIsSized(f);
      ok := WriteUnchecked(raw, output, f);
      if ok {
        StoreCrc(output, f);
      }
    }
  }
}
