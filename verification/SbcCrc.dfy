/** The frame check of gui/Sbc/DualShock4SbcEncoder.cs: an eight-bit CRC, one bit at a time. */
module SbcCrc {
  import opened Base
  import opened BitMath
  import opened Octets
  import opened SbcBitStream

  const INITIAL: bv8 := 0x0F
  const POLYNOMIAL: bv8 := 0x1D

  /** One step of the CRC with polynomial x^8 + x^4 + x^3 + x^2 + 1. */
  function Step(r: Octet, bit: bool): Octet {
    var h := bit != r.b7;
    Octet(r.b6, r.b5, r.b4, r.b3 != h, r.b2 != h, r.b1 != h, r.b0, h)
  }

  function OctetBits(r: Octet): (bits: seq<bool>)
    ensures |bits| == 8
  {
    [r.b7, r.b6, r.b5, r.b4, r.b3, r.b2, r.b1, r.b0]
  }

  /** The register as the byte stored in the frame. */
  function CheckByte(r: Octet): (b: Byte)
    ensures Bits(b, 8) == OctetBits(r)
  {
    BitsOfNumber(OctetBits(r));
    NumberBelow(OctetBits(r));
    assert Pow2(8) == 256;
    Number(OctetBits(r))
  }

  const ZERO := Octet(false, false, false, false, false, false, false, false)
  const START := Octet(false, false, false, false, true, true, true, true)

  function FromBits(bits: seq<bool>): (r: Octet)
    requires |bits| == 8
    ensures OctetBits(r) == bits
  {
    Octet(bits[0], bits[1], bits[2], bits[3], bits[4], bits[5], bits[6], bits[7])
  }

  /** The register after the first `n` bits. */
  function Feed(r: Octet, bits: seq<bool>, n: nat): Octet
    requires n <= |bits|
  {
    if n == 0 then r else Step(Feed(r, bits, n - 1), bits[n - 1])
  }

  function FeedBytes(r: Octet, bytes: seq<Byte>): Octet {
    Feed(r, BitsOfBytes(bytes), 8 * |bytes|)
  }

  function FeedZeros(r: Octet, n: nat): Octet
    decreases n, r
  {
    if n == 0 then r else Step(FeedZeros(r, n - 1), false)
  }

  function ShiftedBy(r: Octet, n: nat): Octet
    decreases n, r
  {
    if n == 0 then r else ShiftedBy(r, n - 1).ShiftedLeft()
  }

  // Feeding in parts ---------------------------------------------------------------------

  lemma {:induction false} FeedPrefix(r: Octet, a: seq<bool>, b: seq<bool>, n: nat)
    requires n <= |a|
    ensures Feed(r, a + b, n) == Feed(r, a, n)
  {
    if n > 0 {
      FeedPrefix(r, a, b, n - 1);
    }
  }

  lemma {:induction false} FeedConcat(r: Octet, a: seq<bool>, b: seq<bool>, n: nat)
    requires n <= |b|
    ensures Feed(r, a + b, |a| + n) == Feed(Feed(r, a, |a|), b, n)
    decreases n
  {
    if n == 0 {
      FeedPrefix(r, a, b, |a|);
    } else {
      FeedConcat(r, a, b, n - 1);
      assert (a + b)[|a| + n - 1] == b[n - 1];
    }
  }

  lemma FeedBytesConcat(r: Octet, a: seq<Byte>, b: seq<Byte>)
    ensures FeedBytes(r, a + b) == FeedBytes(FeedBytes(r, a), b)
  {
    BytesConcat(a, b);
    FeedConcat(r, BitsOfBytes(a), BitsOfBytes(b), 8 * |b|);
  }

  lemma ByteShiftsOut(p: Octet, n: nat)
    requires n < 8
    ensures ShiftedBy(p, n).b7 == OctetBits(p)[n] && ShiftedBy(p, 8) == ZERO
  {
    assert ShiftedBy(p, 1) == p.ShiftedLeft();
    assert ShiftedBy(p, 2) == ShiftedBy(p, 1).ShiftedLeft();
    assert ShiftedBy(p, 3) == ShiftedBy(p, 2).ShiftedLeft();
    assert ShiftedBy(p, 4) == ShiftedBy(p, 3).ShiftedLeft();
    assert ShiftedBy(p, 5) == ShiftedBy(p, 4).ShiftedLeft();
    assert ShiftedBy(p, 6) == ShiftedBy(p, 5).ShiftedLeft();
    assert ShiftedBy(p, 7) == ShiftedBy(p, 6).ShiftedLeft();
  }

  /** A bit fed in is a bit already in the register. */
  lemma StepXor(c: Octet, p: Octet)
    ensures Step(c.Xor(p), false) == Step(c, p.b7).Xor(p.ShiftedLeft())
  {}

  /** Feeding a byte is mixing it in and feeding zeros. */
  lemma {:induction false} ByteAsXor(c: Octet, p: Octet, n: nat)
    requires n <= 8
    ensures FeedZeros(c.Xor(p), n) == Feed(c, OctetBits(p), n).Xor(ShiftedBy(p, n))
    decreases n
  {
    if n > 0 {
      ByteAsXor(c, p, n - 1);
      ByteShiftsOut(p, n - 1);
      StepXor(Feed(c, OctetBits(p), n - 1), ShiftedBy(p, n - 1));
    }
  }

  lemma FeedByte(c: Octet, b: Byte)
    ensures FeedBytes(c, [b]) == FeedZeros(c.Xor(FromBits(Bits(b, 8))), 8)
  {
    OneByte(b);
    var p := FromBits(Bits(b, 8));
    ByteAsXor(c, p, 8);
    ByteShiftsOut(p, 0);
    assert Feed(c, OctetBits(p), 8).Xor(ZERO) == Feed(c, OctetBits(p), 8);
  }

  // What the check detects ---------------------------------------------------------------

  lemma {:induction false} ZerosStay(n: nat)
    ensures FeedZeros(ZERO, n) == ZERO
  {
    if n > 0 {
      ZerosStay(n - 1);
    }
  }

  /** A receiver that runs the check byte through the register as well ends at zero. */
  lemma ResidueIsZero(bytes: seq<Byte>)
    ensures FeedBytes(START, bytes + [CheckByte(FeedBytes(START, bytes))]) == ZERO
  {
    var c := FeedBytes(START, bytes);
    FeedBytesConcat(START, bytes, [CheckByte(c)]);
    FeedByte(c, CheckByte(c));
    assert c.Xor(FromBits(OctetBits(c))) == ZERO;
    ZerosStay(8);
  }

  lemma StepInjective(c: Octet, d: Octet, bit: bool)
    requires Step(c, bit) == Step(d, bit)
    ensures c == d
  {}

  lemma {:induction false} FeedInjective(c: Octet, d: Octet, bits: seq<bool>, n: nat)
    requires n <= |bits| && Feed(c, bits, n) == Feed(d, bits, n)
    ensures c == d
  {
    if n > 0 {
      StepInjective(Feed(c, bits, n - 1), Feed(d, bits, n - 1), bits[n - 1]);
      FeedInjective(c, d, bits, n - 1);
    }
  }

  lemma {:induction false} FeedZerosInjective(c: Octet, d: Octet, n: nat)
    requires FeedZeros(c, n) == FeedZeros(d, n)
    ensures c == d
    decreases n
  {
    if n > 0 {
      StepInjective(FeedZeros(c, n - 1), FeedZeros(d, n - 1), false);
      FeedZerosInjective(c, d, n - 1);
    }
  }

  lemma OneByteInjective(c: Octet, x: Byte, y: Byte)
    requires FeedBytes(c, [x]) == FeedBytes(c, [y])
    ensures x == y
  {
    FeedByte(c, x);
    FeedByte(c, y);
    var p, q := FromBits(Bits(x, 8)), FromBits(Bits(y, 8));
    FeedZerosInjective(c.Xor(p), c.Xor(q), 8);
    assert p == q;
    assert Pow2(8) == 256;
    BitsInjective(x, y, 8);
  }

  /** Any corruption of one checked byte changes the check. */
  lemma ByteErrorsAreDetected(before: seq<Byte>, x: Byte, y: Byte, after: seq<Byte>)
    requires x != y
    ensures FeedBytes(START, before + [x] + after) != FeedBytes(START, before + [y] + after)
  {
    var c := FeedBytes(START, before);
    FeedBytesConcat(START, before + [x], after);
    FeedBytesConcat(START, before + [y], after);
    FeedBytesConcat(START, before, [x]);
    FeedBytesConcat(START, before, [y]);
    if FeedBytes(FeedBytes(c, [x]), after) == FeedBytes(FeedBytes(c, [y]), after) {
      FeedInjective(FeedBytes(c, [x]), FeedBytes(c, [y]), BitsOfBytes(after), 8 * |after|);
      OneByteInjective(c, x, y);
    }
  }

  // The code -----------------------------------------------------------------------------

  /** The bits of the code's `byte crc`. */
  function RegisterOf(crc: bv8): Octet {
    Octet(crc & 0x80 != 0, crc & 0x40 != 0, crc & 0x20 != 0, crc & 0x10 != 0,
             crc & 0x08 != 0, crc & 0x04 != 0, crc & 0x02 != 0, crc & 0x01 != 0)
  }

  function StepByte(crc: bv8, bit: bool): bv8 {
    if bit != (crc >> 7 != 0) then (crc << 1) ^ POLYNOMIAL else crc << 1
  }

  /** The shift and exclusive-or of the code is one register step. */
  lemma StepByteIsStep(crc: bv8, bit: bool)
    ensures RegisterOf(StepByte(crc, bit)) == Step(RegisterOf(crc), bit)
  {}

  lemma {:induction false} BitAt(value: nat, width: nat, shift: nat)
    requires shift < width
    ensures Bits(value, width)[width - 1 - shift] == (Shr(value, shift) % 2 == 1)
    decreases width
  {
    if shift > 0 {
      BitAt(value / 2, width - 1, shift - 1);
    }
  }

  method ShiftIn(crc: bv8, bit: bool) returns (updated: bv8)
    ensures RegisterOf(updated) == Step(RegisterOf(crc), bit)
  {
    StepByteIsStep(crc, bit);
    var highBit := bit != (crc >> 7 != 0);
    updated := crc << 1;
    if highBit {
      updated := updated ^ POLYNOMIAL;
    }
  }

  lemma FeedOneMore(r: Octet, value: Byte, shift: nat)
    requires shift < 8
    ensures Feed(r, Bits(value, 8), 8 - shift) == Step(Feed(r, Bits(value, 8), 7 - shift), Shr(value, shift) % 2 == 1)
  {
    BitAt(value, 8, shift);
  }

  method UpdateCrc(crc: bv8, value: Byte) returns (updated: bv8)
    ensures RegisterOf(updated) == FeedBytes(RegisterOf(crc), [value])
  {
    ghost var r := RegisterOf(crc);
    OneByte(value);
    updated := crc;
    var shift := 7;
    while shift >= 0
      invariant -1 <= shift <= 7
      invariant RegisterOf(updated) == Feed(r, Bits(value, 8), 7 - shift)
    {
      FeedOneMore(r, value, shift);
      updated := ShiftIn(updated, Shr(value, shift) % 2 == 1);
      shift := shift - 1;
    }
  }

  /** The checked bytes of a frame: everything in the header but the sync word and the check. */
  function Checked(frame: seq<Byte>): seq<Byte>
    requires |frame| >= 13
  {
    [frame[1], frame[2]] + frame[4..13]
  }

  method CalculateCrc(frame: array<Byte>) returns (crc: bv8)
    requires frame.Length >= 13
    ensures RegisterOf(crc) == FeedBytes(START, Checked(frame[..]))
  {
    ghost var first := [frame[1], frame[2]];
    assert RegisterOf(INITIAL) == START;
    crc := UpdateCrc(INITIAL, frame[1]);
    FeedBytesConcat(START, [frame[1]], [frame[2]]);
    assert [frame[1]] + [frame[2]] == first;
    crc := UpdateCrc(crc, frame[2]);
    assert first + frame[4..4] == first;
    var index := 4;
    while index <= 12
      invariant 4 <= index <= 13
      invariant RegisterOf(crc) == FeedBytes(START, first + frame[4..index])
    {
      FeedBytesConcat(START, first + frame[4..index], [frame[index]]);
      assert first + frame[4..index + 1] == first + frame[4..index] + [frame[index]];
      crc := UpdateCrc(crc, frame[index]);
      index := index + 1;
    }
    assert frame[..][4..13] == frame[4..13];
  }
}
