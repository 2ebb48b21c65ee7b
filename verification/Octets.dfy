/** Bytes and 32-bit words bit by bit. */
module Octets {
  import opened Base

  function Weight(bit: bool, weight: nat): nat {
    if bit then weight else 0
  }

  datatype Octet = Octet(b7: bool, b6: bool, b5: bool, b4: bool, b3: bool, b2: bool, b1: bool, b0: bool) {
    function Xor(o: Octet): Octet {
      Octet(b7 != o.b7, b6 != o.b6, b5 != o.b5, b4 != o.b4, b3 != o.b3, b2 != o.b2, b1 != o.b1, b0 != o.b0)
    }

    function ShiftedLeft(): Octet {
      Octet(b6, b5, b4, b3, b2, b1, b0, false)
    }

    /** `top` comes in from the octet above. */
    function ShiftedRight(top: bool): Octet {
      Octet(top, b7, b6, b5, b4, b3, b2, b1)
    }

    function High(): nat {
      Weight(b7, 8) + Weight(b6, 4) + Weight(b5, 2) + Weight(b4, 1)
    }

    function Low(): nat {
      Weight(b3, 8) + Weight(b2, 4) + Weight(b1, 2) + Weight(b0, 1)
    }

    function ToByte(): Byte {
      16 * High() + Low()
    }
  }

  /** A 32-bit word, most significant octet first. */
  datatype Word = Word(o3: Octet, o2: Octet, o1: Octet, o0: Octet) {
    function Xor(w: Word): Word {
      Word(o3.Xor(w.o3), o2.Xor(w.o2), o1.Xor(w.o1), o0.Xor(w.o0))
    }

    function ShiftedRight(): Word {
      Word(o3.ShiftedRight(false), o2.ShiftedRight(o3.b0), o1.ShiftedRight(o2.b0), o0.ShiftedRight(o1.b0))
    }

    function Value(): nat {
      256 * (256 * (256 * o3.ToByte() + o2.ToByte()) + o1.ToByte()) + o0.ToByte()
    }
  }

  /** The octet of `c` whose highest bit is `top`. */
  function OctetOf(c: bv32, top: bv32): Octet {
    Octet(c & top != 0, c & (top >> 1) != 0, c & (top >> 2) != 0, c & (top >> 3) != 0,
          c & (top >> 4) != 0, c & (top >> 5) != 0, c & (top >> 6) != 0, c & (top >> 7) != 0)
  }

  function WordOf(c: bv32): Word {
    Word(OctetOf(c, 0x8000_0000), OctetOf(c, 0x0080_0000), OctetOf(c, 0x0000_8000), OctetOf(c, 0x0000_0080))
  }

  lemma OctetHalved(o: Octet, top: bool)
    ensures 2 * o.ShiftedRight(top).ToByte() + Weight(o.b0, 1) == o.ToByte() + Weight(top, 256)
  {}

  lemma Halves(x: nat, half: nat, odd: bool)
    requires x == 2 * half + Weight(odd, 1)
    ensures x / 2 == half && x % 2 == Weight(odd, 1)
  {}

  lemma WordHalved(w: Word)
    ensures w.ShiftedRight().Value() == w.Value() / 2 && w.Value() % 2 == Weight(w.o0.b0, 1)
  {
    OctetHalved(w.o3, false);
    OctetHalved(w.o2, w.o3.b0);
    OctetHalved(w.o1, w.o2.b0);
    OctetHalved(w.o0, w.o1.b0);
    SumHalved(w);
    Halves(w.Value(), w.ShiftedRight().Value(), w.o0.b0);
  }

  lemma SumHalved(w: Word)
    requires 2 * w.o3.ShiftedRight(false).ToByte() + Weight(w.o3.b0, 1) == w.o3.ToByte()
    requires 2 * w.o2.ShiftedRight(w.o3.b0).ToByte() + Weight(w.o2.b0, 1) == w.o2.ToByte() + Weight(w.o3.b0, 256)
    requires 2 * w.o1.ShiftedRight(w.o2.b0).ToByte() + Weight(w.o1.b0, 1) == w.o1.ToByte() + Weight(w.o2.b0, 256)
    requires 2 * w.o0.ShiftedRight(w.o1.b0).ToByte() + Weight(w.o0.b0, 1) == w.o0.ToByte() + Weight(w.o1.b0, 256)
    ensures w.Value() == 2 * w.ShiftedRight().Value() + Weight(w.o0.b0, 1)
  {}
}
