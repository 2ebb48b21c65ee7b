/**
 The bit writer and reader of gui/Sbc/SbcBitStream.cs. The accumulator is a 32-bit word; shift
 counts are taken modulo 32, as C# does.
 */
module SbcBitStream {
  import opened Base
  import opened BitMath

  const WORD := 32

  /** The `width` low bits of `value`, most significant first. */
  function Bits(value: nat, width: nat): (bits: seq<bool>)
    ensures |bits| == width
    decreases width, value
  {
    if width == 0 then [] else Bits(value / 2, width - 1) + [value % 2 == 1]
  }

  function Number(bits: seq<bool>): nat {
    if bits == [] then 0 else 2 * Number(bits[..|bits| - 1]) + if bits[|bits| - 1] then 1 else 0
  }

  function BitsOfBytes(bytes: seq<Byte>): (bits: seq<bool>)
    ensures |bits| == 8 * |bytes|
  {
    if bytes == [] then [] else BitsOfBytes(bytes[..|bytes| - 1]) + Bits(bytes[|bytes| - 1], 8)
  }

  // Numbers and bits ---------------------------------------------------------------------

  lemma {:induction false} BitsOfShl(x: nat, a: nat, low: nat, b: nat)
    requires low < Pow2(b)
    ensures Bits(Shl(x, b) + low, a + b) == Bits(x, a) + Bits(low, b)
    decreases b
  {
    if b == 0 {
      assert Bits(x, a) + [] == Bits(x, a);
    } else {
      BitsOfShl(x, a, low / 2, b - 1);
      var value := Shl(x, b) + low;
      assert value / 2 == Shl(x, b - 1) + low / 2 && value % 2 == low % 2;
      Assoc(Bits(x, a), Bits(low / 2, b - 1), [low % 2 == 1]);
    }
  }

  /** A value is its high bits followed by its low bits. */
  lemma {:induction false} BitsSplit(x: nat, a: nat, b: nat)
    ensures Bits(x, a + b) == Bits(Shr(x, b), a) + Bits(Low(x, b), b)
    decreases b
  {
    if b == 0 {
      assert Bits(x, a) + [] == Bits(x, a);
    } else {
      BitsSplit(x / 2, a, b - 1);
      assert Low(x, b) / 2 == Low(x / 2, b - 1) && Low(x, b) % 2 == x % 2;
      Assoc(Bits(Shr(x, b), a), Bits(Low(x / 2, b - 1), b - 1), [x % 2 == 1]);
    }
  }

  /** Only the low bits count. */
  lemma {:induction false} BitsOfLow(x: nat, width: nat, m: nat)
    requires width <= m
    ensures Bits(Low(x, m), width) == Bits(x, width)
    decreases width
  {
    if width > 0 {
      assert Low(x, m) / 2 == Low(x / 2, m - 1) && Low(x, m) % 2 == x % 2;
      BitsOfLow(x / 2, width - 1, m - 1);
    }
  }

  lemma {:induction false} NumberOfBits(value: nat, width: nat)
    requires value < Pow2(width)
    ensures Number(Bits(value, width)) == value
    decreases width
  {
    if width > 0 {
      var bits := Bits(value, width);
      assert bits[..width - 1] == Bits(value / 2, width - 1);
      NumberOfBits(value / 2, width - 1);
    }
  }

  lemma BitsInjective(x: nat, y: nat, width: nat)
    requires x < Pow2(width) && y < Pow2(width)
    ensures Bits(x, width) == Bits(y, width) <==> x == y
  {
    NumberOfBits(x, width);
    NumberOfBits(y, width);
  }

  lemma {:induction false} NumberBelow(bits: seq<bool>)
    ensures Number(bits) < Pow2(|bits|)
  {
    if bits != [] {
      NumberBelow(bits[..|bits| - 1]);
    }
  }

  lemma {:induction false} BitsOfNumber(bits: seq<bool>)
    ensures Bits(Number(bits), |bits|) == bits
  {
    if bits != [] {
      BitsOfNumber(bits[..|bits| - 1]);
    }
  }

  lemma {:induction false} NumberOfConcat(a: seq<bool>, b: seq<bool>)
    ensures Number(a + b) == Shl(Number(a), |b|) + Number(b)
    decreases |b|
  {
    if b == [] {
      assert a + b == a;
    } else {
      var shorter := b[..|b| - 1];
      assert (a + b)[..|a + b| - 1] == a + shorter;
      NumberOfConcat(a, shorter);
    }
  }

  lemma {:induction false} BytesConcat(a: seq<Byte>, b: seq<Byte>)
    ensures BitsOfBytes(a + b) == BitsOfBytes(a) + BitsOfBytes(b)
    decreases |b|
  {
    if b == [] {
      assert a + b == a;
    } else {
      var shorter := b[..|b| - 1];
      assert (a + b)[..|a + b| - 1] == a + shorter;
      BytesConcat(a, shorter);
      Assoc(BitsOfBytes(a), BitsOfBytes(shorter), Bits(b[|b| - 1], 8));
    }
  }

  lemma OneByte(b: Byte)
    ensures BitsOfBytes([b]) == Bits(b, 8)
  {
    assert [b][..0] == [];
    assert [] + Bits(b, 8) == Bits(b, 8);
  }

  // Words of `w` bits --------------------------------------------------------------------

  /** A number that fits a word of `w` bits. */
  predicate InWord(x: nat, w: nat) {
    Low(x, w) == x
  }

  lemma ShiftInWord(acc: nat, low: nat, n: nat, w: nat)
    requires n <= w && low < Pow2(n)
    ensures Low(Shl(acc, n), w) + low == Shl(Low(acc, w - n), n) + low
    ensures InWord(Low(Shl(acc, n), w) + low, w)
  {
    ShlBelow(0, 0, 0, n);
    LowOfShl(acc, n, 0, w);
    LowBelow(acc, w - n);
    ShlBelow(Low(acc, w - n), w - n, low, n);
    LowOfSmall(Low(Shl(acc, n), w) + low, w);
  }

  /** A field joined to the pending bits in a word: what is shifted out of the word is lost. */
  lemma ShiftKeeps(acc: nat, pending: nat, value: nat, n: nat, w: nat)
    requires n <= w && acc < Pow2(pending)
    ensures var joined := Low(Shl(acc, n), w) + Low(value, n);
      InWord(joined, w) && joined < Pow2(pending + n) &&
      Bits(joined, pending + n) == Bits(Low(acc, w - n), pending) + Bits(value, n)
  {
    var low, kept := Low(value, n), Low(acc, w - n);
    LowBelow(value, n);
    ShiftInWord(acc, low, n, w);
    BitsOfShl(kept, pending, low, n);
    BitsOfLow(value, n, n);
    LowAtMost(acc, w - n);
    ShlBelow(kept, pending, low, n);
  }

  lemma ShiftIntact(acc: nat, pending: nat, value: nat, n: nat, w: nat)
    requires n <= w && acc < Pow2(pending)
    ensures Bits(Low(Shl(acc, n), w) + Low(value, n), pending + n) == Bits(acc, pending) + Bits(value, n)
       <==> acc < Pow2(w - n)
  {
    var kept := Low(acc, w - n);
    ShiftKeeps(acc, pending, value, n, w);
    LowOfSmall(acc, w - n);
    LowAtMost(acc, w - n);
    if Bits(kept, pending) + Bits(value, n) == Bits(acc, pending) + Bits(value, n) {
      assert Bits(kept, pending) == (Bits(kept, pending) + Bits(value, n))[..pending];
      assert Bits(acc, pending) == (Bits(acc, pending) + Bits(value, n))[..pending];
      NumberOfBits(acc, pending);
      NumberOfBits(kept, pending);
    }
  }

  /** Shifting nothing in where a whole word should go loses the field. */
  lemma FullWidthLost(acc: nat, pending: nat, value: nat, w: nat)
    requires acc < Pow2(pending) && InWord(value, w) && w > 0
    ensures Bits(acc, pending + w) == Bits(acc, pending) + Bits(value, w) <==> acc == 0 && value == 0
  {
    LowOfSmall(value, w);
    BitsOfShl(acc, pending, value, w);
    ShlBelow(acc, pending, value, w);
    Pow2Monotone(pending, pending + w);
    BitsInjective(acc, Shl(acc, w) + value, pending + w);
    ShlGrows(acc, w);
  }

  lemma {:induction false} ShlGrows(x: nat, n: nat)
    ensures Shl(x, n) >= x && (x > 0 && n > 0 ==> Shl(x, n) > x)
    ensures x == 0 ==> Shl(x, n) == 0
    decreases n
  {
    if n > 0 {
      ShlGrows(x, n - 1);
    }
  }

  lemma ReadInWord(number: nat, n: nat, k: nat, w: nat)
    requires k < w && number < Pow2(n + k)
    ensures Low(Shr(Low(number, w), k), n) == Shr(number, k) <==> InWord(number, w)
  {
    LowOfSmall(number, w);
    if InWord(number, w) {
      ShrBelow(number, n, k);
      LowOfSmall(Shr(number, k), n);
    } else {
      ShrOfLow(number, k, w - k);
      ShrAtLeast(number, w - k, k);
      LowBelow(Shr(number, k), w - k);
      LowAtMost(Low(Shr(number, k), w - k), n);
    }
  }

  // The C# operators ---------------------------------------------------------------------

  function ShiftCount(n: nat): nat {
    if n < WORD then n else n % WORD
  }

  /** `x << n` on a 32-bit word. */
  function ShlWord(x: nat, n: nat): nat {
    Low(Shl(x, ShiftCount(n)), WORD)
  }

  function ShrWord(x: nat, n: nat): nat {
    Shr(x, ShiftCount(n))
  }

  /** `x & ((1u << n) - 1)`: a width of 32 keeps nothing. */
  function Masked(x: nat, n: nat): nat {
    Low(x, ShiftCount(n))
  }

  /** `(acc << n) | value` for a masked value: the two share no bit. */
  function Appended(acc: nat, value: nat, n: nat): nat {
    ShlWord(acc, n) + Masked(value, n)
  }

  // What PutBits stores ------------------------------------------------------------------

  /** The pending bits right after `n` bits of `value` joined `pending` bits of `acc`. */
  function Stored(acc: nat, pending: nat, value: nat, n: nat): (bits: seq<bool>)
    ensures |bits| == pending + n
  {
    Bits(Appended(acc, value, n), pending + n)
  }

  lemma AppendedInWord(acc: nat, pending: nat, value: nat, n: nat)
    requires acc < Pow2(pending) && InWord(acc, WORD) && n <= WORD
    ensures InWord(Appended(acc, value, n), WORD) && Appended(acc, value, n) < Pow2(pending + n)
  {
    if n < WORD {
      ShiftKeeps(acc, pending, value, n, WORD);
    } else {
      Pow2Monotone(pending, pending + n);
    }
  }

  /**
   A call stores its field intact exactly when no pending bit is shifted out of the word; a
   full-width field is lost unless everything is zero.
   */
  lemma StoredIntact(acc: nat, pending: nat, value: nat, n: nat)
    requires acc < Pow2(pending) && InWord(acc, WORD) && InWord(value, WORD) && n <= WORD
    ensures Stored(acc, pending, value, n) == Bits(acc, pending) + Bits(value, n) <==>
      if n < WORD then acc < Pow2(WORD - n) else acc == 0 && value == 0
  {
    if n < WORD {
      ShiftIntact(acc, pending, value, n, WORD);
    } else {
      FullWidthLost(acc, pending, value, WORD);
    }
  }

  lemma SmallInWord(acc: nat, pending: nat, w: nat)
    requires acc < Pow2(pending) && pending <= w
    ensures InWord(acc, w)
  {
    Pow2Monotone(pending, w);
    LowOfSmall(acc, w);
  }

  /** The widths that are safe whatever is pending and whatever is written. */
  lemma SafeWriteWidths(pending: nat, n: nat)
    requires pending < 8 && 1 <= n <= WORD
    ensures (forall acc: nat, value: nat | acc < Pow2(pending) && InWord(value, WORD) ::
              Stored(acc, pending, value, n) == Bits(acc, pending) + Bits(value, n))
       <==> pending + n <= WORD && n < WORD
  {
    if pending + n <= WORD && n < WORD {
      forall acc: nat, value: nat | acc < Pow2(pending) && InWord(value, WORD)
        ensures Stored(acc, pending, value, n) == Bits(acc, pending) + Bits(value, n)
      {
        SmallInWord(acc, pending, WORD);
        Pow2Monotone(pending, WORD - n);
        StoredIntact(acc, pending, value, n);
      }
    } else {
      var full: nat := Pow2(pending) - 1;
      SmallInWord(1, 1, WORD);
      SmallInWord(full, pending, WORD);
      if n < WORD {
        Pow2Monotone(WORD - n + 1, pending);
      }
      StoredIntact(full, pending, 1, n);
    }
  }

  // What GetBits returns -----------------------------------------------------------------

  /** How many bits the accumulator holds once it has been refilled for a read of `n`. */
  function Refilled(pending: nat, n: nat): nat {
    if pending >= n then pending else pending + 8 * ((n - pending + 7) / 8)
  }

  lemma RefilledAfter(pending: nat, turns: nat, n: nat)
    requires n <= pending + 8 * turns && (turns > 0 ==> pending + 8 * (turns - 1) < n)
    ensures Refilled(pending, n) == pending + 8 * turns
  {}

  /** The `n` bits above the lowest `k` of a word into which `number` was shifted. */
  function WordValue(number: nat, k: nat, n: nat): nat {
    Masked(ShrWord(Low(number, WORD), k), n)
  }

  lemma WordValueIntact(number: nat, k: nat, n: nat)
    requires 1 <= n <= WORD && k < 8 && number < Pow2(n + k)
    ensures WordValue(number, k, n) == Shr(number, k) <==>
      if n < WORD then InWord(number, WORD) else Shr(number, k) == 0
  {
    if n < WORD {
      ReadInWord(number, n, k, WORD);
    }
  }

  /** The value of a read of `n` bits when the accumulator holds `held`. */
  function HeldValue(held: seq<bool>, n: nat): nat
    requires n <= |held|
  {
    WordValue(Number(held), |held| - n, n)
  }

  /** The value of a read of `n` bits with `f` bits in the accumulator. */
  function ReadValue(bits: seq<bool>, f: nat, n: nat): nat
    requires n <= f <= |bits|
  {
    HeldValue(bits[..f], n)
  }

  /** The value of a read of `n` bits when only `left` are left: they end up on top. */
  function LastValue(left: seq<bool>, n: nat): nat
    requires |left| < n
  {
    if n < WORD then Shl(Number(left), n - |left|) else 0
  }

  lemma NumberOfFirst(first: seq<bool>, tail: seq<bool>)
    ensures Number(first) == Shr(Number(first + tail), |tail|)
  {
    NumberBelow(tail);
    NumberOfConcat(first, tail);
    ShrOfShl(Number(first), Number(tail), |tail|);
  }

  lemma NumberOfPrefix(bits: seq<bool>, n: nat, f: nat)
    requires n <= f <= |bits|
    ensures Number(bits[..n]) == Shr(Number(bits[..f]), f - n)
    ensures Number(bits[..f]) < Pow2(f)
  {
    var first, tail := bits[..n], bits[n..f];
    assert bits[..f] == first + tail;
    NumberOfFirst(first, tail);
    NumberBelow(bits[..f]);
  }

  /**
   A read returns the next `n` bits exactly when the refilled accumulator fits its word; a
   full-width read always returns zero.
   */
  lemma ReadIntact(bits: seq<bool>, f: nat, n: nat)
    requires 1 <= n <= WORD && n <= f <= |bits| && f < n + 8
    ensures ReadValue(bits, f, n) == Number(bits[..n]) <==>
      if n < WORD then InWord(Number(bits[..f]), WORD) else Number(bits[..n]) == 0
  {
    NumberOfPrefix(bits, n, f);
    WordValueIntact(Number(bits[..f]), f - n, n);
  }

  /** Fields of up to 25 bits are always read back. */
  lemma ShortReadIntact(bits: seq<bool>, pending: nat, n: nat)
    requires pending < 8 && 1 <= n <= 25 && Refilled(pending, n) <= |bits|
    ensures ReadValue(bits, Refilled(pending, n), n) == Number(bits[..n])
  {
    var f := Refilled(pending, n);
    NumberBelow(bits[..f]);
    SmallInWord(Number(bits[..f]), f, WORD);
    ReadIntact(bits, f, n);
  }

  /** The widths that are read back whatever is pending and whatever follows. */
  lemma SafeReadWidths(pending: nat, n: nat)
    requires pending < 8 && 1 <= n <= WORD
    ensures (forall bits: seq<bool> | Refilled(pending, n) <= |bits| ::
              ReadValue(bits, Refilled(pending, n), n) == Number(bits[..n]))
       <==> Refilled(pending, n) <= WORD && n < WORD
  {
    var f := Refilled(pending, n);
    if f <= WORD && n < WORD {
      forall bits: seq<bool> | f <= |bits|
        ensures ReadValue(bits, f, n) == Number(bits[..n])
      {
        NumberBelow(bits[..f]);
        SmallInWord(Number(bits[..f]), f, WORD);
        ReadIntact(bits, f, n);
      }
    } else {
      var bits := UnsafeBits(f, n);
      ReadIntact(bits, f, n);
      assert ReadValue(bits, f, n) != Number(bits[..n]);
    }
  }

  /** Bits that are not read back: all ones, or a one in front of zeros. */
  lemma UnsafeBits(f: nat, n: nat) returns (bits: seq<bool>)
    requires 1 <= n <= WORD && n <= f && (f > WORD || n == WORD)
    ensures |bits| == f
    ensures if n < WORD then !InWord(Number(bits[..f]), WORD) else Number(bits[..n]) != 0
  {
    if n < WORD {
      var ones: nat := Pow2(f) - 1;
      bits := Bits(ones, f);
      assert bits[..f] == bits;
      NumberOfBits(ones, f);
      Pow2Monotone(WORD + 1, f);
      LowOfSmall(ones, WORD);
    } else {
      bits := Bits(1, n) + Bits(0, f - n);
      assert bits[..n] == Bits(1, n);
      Pow2Monotone(1, n);
      NumberOfBits(1, n);
    }
  }

  // One step of each loop ----------------------------------------------------------------

  /** Moving the top eight of `k + 8` pending bits out as a byte. */
  lemma EmitByte(acc: nat, k: nat)
    requires acc < Pow2(k + 8) && k < WORD
    ensures ShrWord(acc, k) < 256 && Masked(acc, k) < Pow2(k)
    ensures Bits(acc, k + 8) == Bits(ShrWord(acc, k), 8) + Bits(Masked(acc, k), k)
  {
    assert Pow2(8) == 256;
    ShrBelow(acc, 8, k);
    LowBelow(acc, k);
    BitsSplit(acc, 8, k);
  }

  /** The last byte of a flush, cut to a byte. */
  function Padded(acc: nat, pending: nat): nat
    requires pending <= 8
  {
    Low(ShlWord(acc, 8 - pending), 8)
  }

  /** Flushing pads the pending bits with zeros on the right. */
  lemma PadByte(acc: nat, pending: nat)
    requires acc < Pow2(pending) && 0 < pending < 8
    ensures Padded(acc, pending) < 256
    ensures Bits(Padded(acc, pending), 8) == Bits(acc, pending) + Bits(0, 8 - pending)
  {
    var pad := 8 - pending;
    assert Pow2(8) == 256;
    ShlBelow(0, 0, 0, pad);
    ShlBelow(acc, pending, 0, pad);
    SmallInWord(Shl(acc, pad), 8, WORD);
    LowOfSmall(Shl(acc, pad), 8);
    BitsOfShl(acc, pending, 0, pad);
  }

  /** The bits held and those still in the buffer, before and after a byte is taken. */
  lemma TakeByteFirst(held: seq<bool>, b: Byte, rest: seq<Byte>)
    ensures held + BitsOfBytes([b] + rest) == (held + Bits(b, 8)) + BitsOfBytes(rest)
  {
    BytesConcat([b], rest);
    OneByte(b);
    Assoc(held, Bits(b, 8), BitsOfBytes(rest));
  }

  /** Taking a byte into the accumulator keeps it the low word of all the bits held. */
  lemma TakeByte(held: seq<bool>, b: Byte)
    ensures ShlWord(Low(Number(held), WORD), 8) + b == Low(Number(held + Bits(b, 8)), WORD)
  {
    TakeByteInWord(Number(held), b, WORD);
    assert Pow2(8) == 256;
    NumberOfConcat(held, Bits(b, 8));
    NumberOfBits(b, 8);
  }

  lemma TakeByteInWord(number: nat, b: Byte, w: nat)
    requires w >= 8
    ensures Low(Shl(Low(number, w), 8), w) + b == Low(Shl(number, 8) + b, w)
  {
    assert Pow2(8) == 256;
    LowOfShl(number, 8, b, w);
    LowOfShl(Low(number, w), 8, 0, w);
    LowOfLow(number, w, w - 8);
  }

  lemma LowOfConcat(high: nat, low: nat, k: nat, w: nat)
    requires k <= w && low < Pow2(k)
    ensures Low(Low(Shl(high, k) + low, w), k) == low
  {
    LowOfLow(Shl(high, k) + low, w, k);
    LowOfShl(high, k, low, k);
    ShlGrows(0, k);
  }

  /** The `k` low bits of a word into which `number` was shifted. */
  function WordRest(number: nat, k: nat): nat {
    Masked(Low(number, WORD), k)
  }

  lemma TailOfConcat(first: seq<bool>, tail: seq<bool>)
    requires |tail| < WORD
    ensures WordRest(Number(first + tail), |tail|) == Number(tail) < Pow2(|tail|)
  {
    NumberBelow(tail);
    NumberOfConcat(first, tail);
    LowOfConcat(Number(first), Number(tail), |tail|, WORD);
  }

  lemma BitsOfEqual(value: nat, bits: seq<bool>)
    requires value == Number(bits)
    ensures Bits(value, |bits|) == bits
  {
    BitsOfNumber(bits);
  }

  /** What a read leaves behind are the bits after those it returned. */
  lemma KeepTail(first: seq<bool>, tail: seq<bool>)
    requires |tail| < 8
    ensures var rest := WordRest(Number(first + tail), |tail|);
      rest < Pow2(|tail|) && Bits(rest, |tail|) == tail
  {
    TailOfConcat(first, tail);
    BitsOfEqual(WordRest(Number(first + tail), |tail|), tail);
  }

  /** A read past the end returns what is left, padded with zeros on the right. */
  lemma ShortRead(acc: nat, pending: nat, n: nat)
    requires acc < Pow2(pending) && InWord(acc, WORD) && pending < n <= WORD
    ensures Masked(ShlWord(acc, n - pending), n) == if n < WORD then Shl(acc, n - pending) else 0
  {
    if n < WORD {
      ShlBelow(0, 0, 0, n - pending);
      ShlBelow(acc, pending, 0, n - pending);
      SmallInWord(Shl(acc, n - pending), n, WORD);
      LowOfSmall(Shl(acc, n - pending), n);
    }
  }

  lemma LastRead(held: seq<bool>, n: nat)
    requires |held| < n <= WORD
    ensures Masked(ShlWord(Low(Number(held), WORD), n - |held|), n) == LastValue(held, n)
  {
    NumberBelow(held);
    SmallInWord(Number(held), |held|, WORD);
    ShortRead(Number(held), |held|, n);
  }

  lemma HeldIsPrefix(held: seq<bool>, rest: seq<bool>, all: seq<bool>, n: nat)
    requires held + rest == all && n <= |held|
    ensures all[..|held|] == held && held[n..] + rest == all[n..]
  {}

  // The stream ---------------------------------------------------------------------------

  class BitStream {
    const data: array<Byte>
    const maxBytes: nat
    const isReader: bool
    var bytePosition: nat
    var accumulator: nat
    var bitsInAccumulator: nat
    var error: bool

    /** A writer that ran out of room keeps its surplus bits and its error. */
    ghost predicate Valid()
      reads this
    {
      && bytePosition <= maxBytes <= data.Length
      && InWord(accumulator, WORD) && accumulator < Pow2(bitsInAccumulator)
      && (bitsInAccumulator < 8 || (!isReader && error && bytePosition == maxBytes))
    }

    /** Every bit put so far. */
    ghost function Written(): seq<bool>
      requires Valid()
      reads this, data
    {
      BitsOfBytes(data[..bytePosition]) + Bits(accumulator, bitsInAccumulator)
    }

    /** Every bit not read yet. */
    ghost function Remaining(): seq<bool>
      requires Valid()
      reads this, data
    {
      Bits(accumulator, bitsInAccumulator) + BitsOfBytes(data[bytePosition..maxBytes])
    }

    constructor (buffer: array<Byte>, size: nat, reader: bool)
      requires size <= buffer.Length
      ensures Valid() && data == buffer && maxBytes == size && isReader == reader && !error
      ensures bytePosition == bitsInAccumulator == 0
    {
      data, maxBytes, isReader := buffer, size, reader;
      bytePosition, accumulator, bitsInAccumulator, error := 0, 0, 0, false;
      new;
      SmallInWord(0, 0, WORD);
    }

    /** Bits consumed by a reader, bits put by a writer. */
    function BitPosition(): (position: int)
      requires Valid()
      reads this, data
      ensures !isReader ==> position == |Written()|
      ensures isReader ==> position + |Remaining()| == 8 * maxBytes
    {
      if isReader then bytePosition * 8 - bitsInAccumulator else bytePosition * 8 + bitsInAccumulator
    }

    method PutBits(value: nat, numBits: int)
      requires Valid() && !isReader && InWord(value, WORD)
      modifies this`bytePosition, this`accumulator, this`bitsInAccumulator, this`error, data
      ensures Valid()
      ensures numBits == 0 ==> error == old(error) && Written() == old(Written())
      ensures numBits < 0 || numBits > WORD ==> error && Written() == old(Written())
      ensures 1 <= numBits <= WORD && !old(error) ==>
        error == (old(bytePosition) + (old(bitsInAccumulator) + numBits) / 8 > maxBytes)
      ensures 1 <= numBits <= WORD && !error ==>
        Written() == BitsOfBytes(old(data[..bytePosition])) + Stored(old(accumulator), old(bitsInAccumulator), value, numBits)
      ensures old(error) ==> error
      ensures forall i | maxBytes <= i < data.Length :: data[i] == old(data[i])
    {
      if numBits == 0 { return; }
      if numBits < 0 || numBits > WORD {
        error := true;
        return;
      }
      AppendedInWord(accumulator, bitsInAccumulator, value, numBits);
      accumulator := Appended(accumulator, value, numBits);
      bitsInAccumulator := bitsInAccumulator + numBits;
      ghost var start := bytePosition;
      ghost var all := BitsOfBytes(data[..bytePosition]) + Bits(accumulator, bitsInAccumulator);
      while bitsInAccumulator >= 8
        invariant start <= bytePosition <= maxBytes && error == old(error)
        invariant InWord(accumulator, WORD) && accumulator < Pow2(bitsInAccumulator)
        invariant bitsInAccumulator < 8 + WORD || bytePosition == maxBytes
        invariant 8 * (bytePosition - start) + bitsInAccumulator == old(bitsInAccumulator) + numBits
        invariant BitsOfBytes(data[..bytePosition]) + Bits(accumulator, bitsInAccumulator) == all
        invariant forall i | maxBytes <= i < data.Length :: data[i] == old(data[i])
        decreases bitsInAccumulator
      {
        if bytePosition >= maxBytes {
          error := true;
          return;
        }
        EmitPending();
      }
    }

    method AppendByte(b: Byte)
      requires bytePosition < maxBytes <= data.Length
      modifies this`bytePosition, data
      ensures bytePosition == old(bytePosition) + 1
      ensures BitsOfBytes(data[..bytePosition]) == BitsOfBytes(old(data[..bytePosition])) + Bits(b, 8)
      ensures forall i | bytePosition <= i < data.Length :: data[i] == old(data[i])
    {
      ghost var done := data[..bytePosition];
      data[bytePosition] := b;
      assert data[..bytePosition + 1] == done + [b];
      BytesConcat(done, [b]);
      OneByte(b);
      bytePosition := bytePosition + 1;
    }

    /** One turn of the draining loop. */
    method EmitPending()
      requires bytePosition < maxBytes <= data.Length && 8 <= bitsInAccumulator < 8 + WORD
      requires accumulator < Pow2(bitsInAccumulator)
      modifies this`bytePosition, this`accumulator, this`bitsInAccumulator, data
      ensures bytePosition == old(bytePosition) + 1 && bitsInAccumulator == old(bitsInAccumulator) - 8
      ensures InWord(accumulator, WORD) && accumulator < Pow2(bitsInAccumulator)
      ensures BitsOfBytes(data[..bytePosition]) + Bits(accumulator, bitsInAccumulator)
           == BitsOfBytes(old(data[..bytePosition])) + Bits(old(accumulator), old(bitsInAccumulator))
      ensures forall i | bytePosition <= i < data.Length :: data[i] == old(data[i])
    {
      bitsInAccumulator := bitsInAccumulator - 8;
      EmitByte(accumulator, bitsInAccumulator);
      ghost var rest := Masked(accumulator, bitsInAccumulator);
      SmallInWord(rest, bitsInAccumulator, WORD);
      Assoc(BitsOfBytes(data[..bytePosition]), Bits(ShrWord(accumulator, bitsInAccumulator), 8), Bits(rest, bitsInAccumulator));
      AppendByte(ShrWord(accumulator, bitsInAccumulator));
      accumulator := Masked(accumulator, bitsInAccumulator);
    }

    method Flush()
      requires Valid() && !isReader
      modifies this`bytePosition, this`accumulator, this`bitsInAccumulator, this`error, data
      ensures Valid()
      ensures error == (old(error) || (old(bitsInAccumulator) > 0 && old(bytePosition) == maxBytes))
      ensures old(bitsInAccumulator) == 0 || old(bytePosition) == maxBytes ==> Written() == old(Written())
      ensures old(bitsInAccumulator) > 0 && old(bytePosition) < maxBytes ==>
        bitsInAccumulator == 0 && bytePosition == old(bytePosition) + 1 &&
        Written() == old(Written()) + Bits(0, 8 - old(bitsInAccumulator))
      ensures forall i | maxBytes <= i < data.Length :: data[i] == old(data[i])
    {
      if bitsInAccumulator > 0 {
        if bytePosition >= maxBytes {
          error := true;
          return;
        }
        AppendPadded();
        bitsInAccumulator, accumulator := 0, 0;
        SmallInWord(0, 0, WORD);
        assert Written() == BitsOfBytes(data[..bytePosition]);
      }
    }

    /** The pending bits as one last byte. */
    method AppendPadded()
      requires 0 < bitsInAccumulator < 8 && accumulator < Pow2(bitsInAccumulator) && bytePosition < maxBytes <= data.Length
      modifies this`bytePosition, data
      ensures bytePosition == old(bytePosition) + 1
      ensures BitsOfBytes(data[..bytePosition]) ==
              (BitsOfBytes(old(data[..bytePosition])) + Bits(accumulator, bitsInAccumulator)) + Bits(0, 8 - bitsInAccumulator)
      ensures forall i | bytePosition <= i < data.Length :: data[i] == old(data[i])
    {
      PadByte(accumulator, bitsInAccumulator);
      Assoc(BitsOfBytes(data[..bytePosition]), Bits(accumulator, bitsInAccumulator), Bits(0, 8 - bitsInAccumulator));
      AppendByte(Padded(accumulator, bitsInAccumulator));
    }

    /** Refills the accumulator, giving the bits it holds. */
    method Refill(numBits: nat) returns (ghost held: seq<bool>)
      requires Valid() && isReader && 1 <= numBits <= WORD
      modifies this`bytePosition, this`accumulator, this`bitsInAccumulator
      ensures old(bytePosition) <= bytePosition <= maxBytes && |held| == bitsInAccumulator
      ensures held + BitsOfBytes(data[bytePosition..maxBytes]) == old(Remaining())
      ensures accumulator == Low(Number(held), WORD)
      ensures numBits <= |old(Remaining())| ==> bitsInAccumulator == Refilled(old(bitsInAccumulator), numBits)
      ensures numBits > |old(Remaining())| ==> bitsInAccumulator < numBits && bytePosition == maxBytes
    {
      held := Bits(accumulator, bitsInAccumulator);
      NumberOfBits(accumulator, bitsInAccumulator);
      ghost var all, first, turns: nat := Remaining(), bitsInAccumulator, 0;
      while bitsInAccumulator < numBits && bytePosition < maxBytes
        invariant old(bytePosition) <= bytePosition <= maxBytes && |held| == bitsInAccumulator == first + 8 * turns
        invariant turns > 0 ==> first + 8 * (turns - 1) < numBits
        invariant accumulator == Low(Number(held), WORD)
        invariant held + BitsOfBytes(data[bytePosition..maxBytes]) == all
        decreases maxBytes - bytePosition
      {
        held := TakePending(held);
        turns := turns + 1;
      }
      assert |all| == bitsInAccumulator + 8 * (maxBytes - bytePosition);
      if bitsInAccumulator >= numBits {
        RefilledAfter(first, turns, numBits);
      }
    }

    /** One turn of the refilling loop. */
    method TakePending(ghost held: seq<bool>) returns (ghost more: seq<bool>)
      requires bytePosition < maxBytes <= data.Length && accumulator == Low(Number(held), WORD)
      modifies this`bytePosition, this`accumulator, this`bitsInAccumulator
      ensures bytePosition == old(bytePosition) + 1 && bitsInAccumulator == old(bitsInAccumulator) + 8
      ensures |more| == |held| + 8 && accumulator == Low(Number(more), WORD)
      ensures more + BitsOfBytes(data[bytePosition..maxBytes]) == held + BitsOfBytes(old(data[bytePosition..maxBytes]))
    {
      var b := data[bytePosition];
      ghost var rest := data[bytePosition + 1..maxBytes];
      TakeByte(held, b);
      TakeByteFirst(held, b, rest);
      assert data[bytePosition..maxBytes] == [b] + rest;
      accumulator := ShlWord(accumulator, 8) + b;
      bytePosition := bytePosition + 1;
      bitsInAccumulator := bitsInAccumulator + 8;
      more := held + Bits(b, 8);
    }

    method GetBits(numBits: int) returns (value: nat)
      requires Valid() && isReader
      modifies this`bytePosition, this`accumulator, this`bitsInAccumulator, this`error
      ensures Valid()
      ensures numBits <= 0 || numBits > WORD ==> value == 0 && Remaining() == old(Remaining())
      ensures 1 <= numBits <= |old(Remaining())| && numBits <= WORD ==>
        Refilled(old(bitsInAccumulator), numBits) <= |old(Remaining())| &&
        value == ReadValue(old(Remaining()), Refilled(old(bitsInAccumulator), numBits), numBits) &&
        Remaining() == old(Remaining())[numBits..]
      ensures |old(Remaining())| < numBits <= WORD ==>
        value == LastValue(old(Remaining()), numBits) && Remaining() == []
      ensures error == (old(error) || numBits < 0 || numBits > Min(WORD, |old(Remaining())|))
    {
      if numBits == 0 { return 0; }
      if numBits < 0 || numBits > WORD {
        error := true;
        return 0;
      }
      ghost var all := Remaining();
      ghost var held := Refill(numBits);
      if bitsInAccumulator < numBits {
        assert held == all;
        value := ReadLast(held, numBits);
      } else {
        HeldIsPrefix(held, BitsOfBytes(data[bytePosition..maxBytes]), all, numBits);
        value := Extract(held, numBits);
      }
    }

    /** The refilled accumulator holds enough bits. */
    method Extract(ghost held: seq<bool>, numBits: nat) returns (value: nat)
      requires |held| == bitsInAccumulator && accumulator == Low(Number(held), WORD)
      requires numBits <= bitsInAccumulator < numBits + 8 && bytePosition <= maxBytes <= data.Length
      modifies this`accumulator, this`bitsInAccumulator
      ensures Valid() && value == HeldValue(held, numBits)
      ensures Remaining() == held[numBits..] + BitsOfBytes(data[bytePosition..maxBytes])
    {
      KeepTail(held[..numBits], held[numBits..]);
      assert held[..numBits] + held[numBits..] == held;
      bitsInAccumulator := bitsInAccumulator - numBits;
      SmallInWord(WordRest(Number(held), bitsInAccumulator), bitsInAccumulator, WORD);
      value := Masked(ShrWord(accumulator, bitsInAccumulator), numBits);
      accumulator := Masked(accumulator, bitsInAccumulator);
    }

    /** It does not, and the buffer is exhausted. */
    method ReadLast(ghost held: seq<bool>, numBits: nat) returns (value: nat)
      requires |held| == bitsInAccumulator && accumulator == Low(Number(held), WORD)
      requires bitsInAccumulator < numBits <= WORD && bytePosition == maxBytes <= data.Length
      modifies this`accumulator, this`bitsInAccumulator, this`error
      ensures Valid() && error && Remaining() == []
      ensures value == LastValue(held, numBits)
    {
      LastRead(held, numBits);
      SmallInWord(0, 0, WORD);
      value := Masked(ShlWord(accumulator, numBits - bitsInAccumulator), numBits);
      bitsInAccumulator, accumulator := 0, 0;
      error := true;
    }
  }

  // Writing, then reading ----------------------------------------------------------------

  datatype Field = Field(value: nat, width: nat) {
    predicate Short() { 1 <= width <= 25 && InWord(value, WORD) }
  }

  /** The bits of the first `n` fields. */
  function FieldsBits(fields: seq<Field>, n: nat): seq<bool>
    requires n <= |fields|
  {
    if n == 0 then [] else FieldsBits(fields, n - 1) + Bits(fields[n - 1].value, fields[n - 1].width)
  }

  /** The first `n` values, each cut to its width. */
  function Cut(fields: seq<Field>, n: nat): (values: seq<nat>)
    requires n <= |fields|
    ensures |values| == n
  {
    if n == 0 then [] else Cut(fields, n - 1) + [Low(fields[n - 1].value, fields[n - 1].width)]
  }

  lemma {:induction false} FieldsBitsPrefix(fields: seq<Field>, i: nat, n: nat)
    requires i <= n <= |fields|
    ensures |FieldsBits(fields, i)| <= |FieldsBits(fields, n)|
    ensures FieldsBits(fields, n)[..|FieldsBits(fields, i)|] == FieldsBits(fields, i)
    decreases n
  {
    if i < n {
      FieldsBitsPrefix(fields, i, n - 1);
    }
  }

  /** The `n` low bits are the remainder of a division by `2^n`. */
  lemma {:induction false} LowIsRemainder(x: nat, n: nat)
    ensures x == Shr(x, n) * Pow2(n) + Low(x, n) && Low(x, n) < Pow2(n)
    decreases n
  {
    LowBelow(x, n);
    if n > 0 {
      LowIsRemainder(x / 2, n - 1);
      var q, p := Shr(x, n), Pow2(n - 1);
      assert q * (2 * p) == 2 * (q * p);
    }
  }

  lemma BytesPrefix(bytes: seq<Byte>, k: nat)
    requires k <= |bytes|
    ensures BitsOfBytes(bytes[..k]) <= BitsOfBytes(bytes)
  {
    assert bytes == bytes[..k] + bytes[k..];
    BytesConcat(bytes[..k], bytes[k..]);
  }

  /** A short field goes in intact. */
  lemma ShortStored(done: seq<bool>, acc: nat, pending: nat, value: nat, n: nat)
    requires pending < 8 && acc < Pow2(pending) && 1 <= n <= 25 && InWord(value, WORD)
    ensures done + Stored(acc, pending, value, n) == (done + Bits(acc, pending)) + Bits(value, n)
  {
    SmallInWord(acc, pending, WORD);
    Pow2Monotone(pending, WORD - n);
    StoredIntact(acc, pending, value, n);
    Assoc(done, Bits(acc, pending), Bits(value, n));
  }

  /** It comes out as the low bits of its value. */
  lemma ShortFieldRead(bits: seq<bool>, fields: seq<Field>, i: nat, pending: nat)
    requires i < |fields| && fields[i].Short() && pending < 8
    requires FieldsBits(fields, |fields|) <= bits
    ensures var start, f := |FieldsBits(fields, i)|, fields[i];
      start + f.width == |FieldsBits(fields, i + 1)| <= |bits| &&
      (Refilled(pending, f.width) <= |bits| - start ==>
        ReadValue(bits[start..], Refilled(pending, f.width), f.width) == Low(f.value, f.width))
  {
    var start, f := |FieldsBits(fields, i)|, fields[i];
    FieldsBitsPrefix(fields, i + 1, |fields|);
    assert bits[..start + f.width] == FieldsBits(fields, i + 1);
    assert bits[start..][..f.width] == Bits(f.value, f.width);
    BitsOfLow(f.value, f.width, f.width);
    LowBelow(f.value, f.width);
    NumberOfBits(Low(f.value, f.width), f.width);
    if Refilled(pending, f.width) <= |bits| - start {
      ShortReadIntact(bits[start..], pending, f.width);
    }
  }

  method WriteFields(fields: seq<Field>, buffer: array<Byte>) returns (ok: bool)
    requires forall i | 0 <= i < |fields| :: fields[i].Short()
    modifies buffer
    ensures ok == (|FieldsBits(fields, |fields|)| <= 8 * buffer.Length)
    ensures ok ==> FieldsBits(fields, |fields|) <= BitsOfBytes(buffer[..])
  {
    var writer := new BitStream(buffer, buffer.Length, false);
    var i := 0;
    while i < |fields|
      invariant i <= |fields| && writer.Valid() && fresh(writer) && !writer.isReader
      invariant writer.data == buffer && writer.maxBytes == buffer.Length
      invariant writer.error == (|FieldsBits(fields, i)| >= 8 * buffer.Length + 8)
      invariant !writer.error ==> writer.Written() == FieldsBits(fields, i)
    {
      ghost var done := BitsOfBytes(buffer[..writer.bytePosition]);
      ghost var acc, pending := writer.accumulator, writer.bitsInAccumulator;
      var f := fields[i];
      if pending < 8 { ShortStored(done, acc, pending, f.value, f.width); }
      writer.PutBits(f.value, f.width);
      i := i + 1;
    }
    writer.Flush();
    ok := !writer.error;
    if ok {
      assert FieldsBits(fields, |fields|) <= writer.Written();
      assert writer.Written() == BitsOfBytes(buffer[..writer.bytePosition]);
      BytesPrefix(buffer[..], writer.bytePosition);
      assert buffer[..][..writer.bytePosition] == buffer[..writer.bytePosition];
    }
  }

  /** The reader stands where field `i` starts. */
  ghost predicate At(reader: BitStream, bits: seq<bool>, fields: seq<Field>, i: nat)
    reads reader, reader.data
  {
    && reader.Valid() && reader.isReader && !reader.error && i <= |fields|
    && |FieldsBits(fields, i)| <= |bits| && reader.Remaining() == bits[|FieldsBits(fields, i)|..]
  }

  method ReadField(reader: BitStream, width: nat, ghost bits: seq<bool>, ghost fields: seq<Field>, ghost i: nat)
    returns (value: nat)
    requires At(reader, bits, fields, i) && i < |fields| && fields[i].Short() && width == fields[i].width
    requires FieldsBits(fields, |fields|) <= bits
    modifies reader`bytePosition, reader`accumulator, reader`bitsInAccumulator, reader`error
    ensures At(reader, bits, fields, i + 1) && value == Low(fields[i].value, width)
  {
    ghost var start := |FieldsBits(fields, i)|;
    ShortFieldRead(bits, fields, i, reader.bitsInAccumulator);
    value := reader.GetBits(width);
    assert bits[start..][width..] == bits[start + width..];
  }

  method OpenReader(ghost fields: seq<Field>, buffer: array<Byte>) returns (reader: BitStream)
    ensures fresh(reader) && reader.data == buffer && At(reader, BitsOfBytes(buffer[..]), fields, 0)
  {
    reader := new BitStream(buffer, buffer.Length, true);
    assert buffer[0..buffer.Length] == buffer[..];
    assert reader.Remaining() == BitsOfBytes(buffer[..]);
  }

  method ReadFields(ghost fields: seq<Field>, widths: seq<nat>, buffer: array<Byte>)
    returns (values: seq<nat>, ok: bool)
    requires |widths| == |fields|
    requires forall i | 0 <= i < |fields| :: fields[i].Short() && widths[i] == fields[i].width
    requires FieldsBits(fields, |fields|) <= BitsOfBytes(buffer[..])
    ensures ok && values == Cut(fields, |fields|)
  {
    ghost var bits := BitsOfBytes(buffer[..]);
    var reader := OpenReader(fields, buffer);
    values := [];
    while |values| < |widths|
      invariant |values| <= |widths| && fresh(reader) && reader.data == buffer && At(reader, bits, fields, |values|)
      invariant values == Cut(fields, |values|)
    {
      ghost var done := |values|;
      var value := ReadField(reader, widths[|values|], bits, fields, done);
      assert Cut(fields, done + 1) == Cut(fields, done) + [value];
      values := values + [value];
    }
    ok := !reader.error;
  }

  /** Whatever list of short fields fits the buffer is read back, each cut to its width. */
  method RoundTrip(fields: seq<Field>, widths: seq<nat>, size: nat) returns (ok: bool, values: seq<nat>)
    requires |widths| == |fields|
    requires forall i | 0 <= i < |fields| :: fields[i].Short() && widths[i] == fields[i].width
    ensures ok == (|FieldsBits(fields, |fields|)| <= 8 * size)
    ensures ok ==> values == Cut(fields, |fields|)
  {
    var buffer := new Byte[size];
    ok := WriteFields(fields, buffer);
    values := [];
    if ok {
      var fine;
      values, fine := ReadFields(fields, widths, buffer);
    }
  }
}
