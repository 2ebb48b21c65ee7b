/** Four-channel 16-bit frames as the host sends them: speaker left and right, then the two haptics channels. */
module PcmFrames {
  import opened Base
  import opened Resample

  datatype Quad = Quad(left: Sample, right: Sample, hapticLeft: Sample, hapticRight: Sample)

  /** The two bytes of a sample in two's complement. */
  function Low(s: Sample): Byte { s % 65536 % 256 }

  function High(s: Sample): Byte { s % 65536 / 256 }

  function FrameBytes(q: Quad): (b: seq<Byte>)
    ensures |b| == 8
  {
    [Low(q.left), High(q.left), Low(q.right), High(q.right),
     Low(q.hapticLeft), High(q.hapticLeft), Low(q.hapticRight), High(q.hapticRight)]
  }

  /** The frames one after the other. */
  function Encoded(quads: seq<Quad>): (b: seq<Byte>)
    ensures |b| == 8 * |quads|
  {
    if quads == [] then [] else Encoded(quads[..|quads| - 1]) + FrameBytes(quads[|quads| - 1])
  }

  function SpeakerPcm(quads: seq<Quad>): (pcm: seq<Sample>)
    ensures |pcm| == 2 * |quads|
  {
    if quads == [] then []
    else SpeakerPcm(quads[..|quads| - 1]) + [quads[|quads| - 1].left, quads[|quads| - 1].right]
  }

  function HapticsPcm(quads: seq<Quad>): (pcm: seq<Sample>)
    ensures |pcm| == 2 * |quads|
  {
    if quads == [] then []
    else HapticsPcm(quads[..|quads| - 1]) + [quads[|quads| - 1].hapticLeft, quads[|quads| - 1].hapticRight]
  }

  predicate Shakes(q: Quad) { q.hapticLeft != 0 || q.hapticRight != 0 }

  predicate Sounds(q: Quad) { q.left != 0 || q.right != 0 || Shakes(q) }

  /** Some sample of the window is not silence. */
  predicate AnySound(quads: seq<Quad>) { exists q | q in quads :: Sounds(q) }

  predicate AnyShake(quads: seq<Quad>) { exists q | q in quads :: Shakes(q) }

  lemma AnyLast(quads: seq<Quad>)
    requires quads != []
    ensures AnySound(quads) <==> AnySound(quads[..|quads| - 1]) || Sounds(quads[|quads| - 1])
    ensures AnyShake(quads) <==> AnyShake(quads[..|quads| - 1]) || Shakes(quads[|quads| - 1])
  {
    var front, last := quads[..|quads| - 1], quads[|quads| - 1];
    assert front + [last] == quads;
    assert forall q :: q in quads <==> q in front || q == last;
  }

  lemma {:induction false} EncodedConcat(a: seq<Quad>, b: seq<Quad>)
    ensures Encoded(a + b) == Encoded(a) + Encoded(b)
    decreases |b|
  {
    if b == [] {
      assert a + b == a;
    } else {
      var front, last := b[..|b| - 1], b[|b| - 1];
      EncodedConcat(a, front);
      assert (a + b)[..|a + b| - 1] == a + front;
      Assoc(Encoded(a), Encoded(front), FrameBytes(last));
    }
  }

  lemma EncodedParts(a: seq<Quad>, m: seq<Quad>, b: seq<Quad>)
    ensures Encoded(a + (m + b)) == Encoded(a) + (Encoded(m) + Encoded(b))
  {
    EncodedConcat(a, m + b);
    EncodedConcat(m, b);
  }

  lemma Middle(bytes: seq<Byte>, a: seq<Byte>, m: seq<Byte>, b: seq<Byte>, tail: seq<Byte>)
    requires bytes == a + (m + b)
    ensures (bytes + tail)[|a|..|a| + |m|] == m
  {
  }

  lemma SplitThree(quads: seq<Quad>, from: nat, n: nat)
    requires from + n <= |quads|
    ensures quads == quads[..from] + (quads[from..from + n] + quads[from + n..])
  {
  }

  lemma PartsStretch(quads: seq<Quad>, a: seq<Quad>, m: seq<Quad>, b: seq<Quad>, tail: seq<Byte>, i: nat, j: nat)
    requires quads == a + (m + b) && i == 8 * |a| && j == i + 8 * |m|
    ensures j <= |Encoded(quads)| && (Encoded(quads) + tail)[i..j] == Encoded(m)
  {
    EncodedParts(a, m, b);
    Middle(Encoded(quads), Encoded(a), Encoded(m), Encoded(b), tail);
  }

  /** A stretch of whole frames is the stretch of their bytes. */
  lemma EncodedStretch(quads: seq<Quad>, tail: seq<Byte>, from: nat, n: nat)
    requires from + n <= |quads|
    ensures (Encoded(quads) + tail)[8 * from..8 * from + 8 * n] == Encoded(quads[from..from + n])
  {
    SplitThree(quads, from, n);
    PartsStretch(quads, quads[..from], quads[from..from + n], quads[from + n..], tail, 8 * from, 8 * from + 8 * n);
  }

  /** The sample two bytes stand for. */
  function Sample16(low: Byte, high: Byte): Sample {
    if high < 128 then 256 * high + low else 256 * high + low - 65536
  }

  lemma Sample16Bytes(low: Byte, high: Byte)
    ensures Low(Sample16(low, high)) == low && High(Sample16(low, high)) == high
  {
  }

  function QuadOf(b: seq<Byte>): Quad
    requires |b| == 8
  {
    Quad(Sample16(b[0], b[1]), Sample16(b[2], b[3]), Sample16(b[4], b[5]), Sample16(b[6], b[7]))
  }

  lemma QuadReadsBack(b: seq<Byte>)
    requires |b| == 8
    ensures FrameBytes(QuadOf(b)) == b
  {
    Sample16Bytes(b[0], b[1]);
    Sample16Bytes(b[2], b[3]);
    Sample16Bytes(b[4], b[5]);
    Sample16Bytes(b[6], b[7]);
  }

  /** Every stream is whole frames and less than one more. */
  lemma {:induction false} EveryStreamIsFrames(bytes: seq<Byte>) returns (quads: seq<Quad>, tail: seq<Byte>)
    ensures bytes == Encoded(quads) + tail && |tail| < 8
    decreases |bytes|
  {
    if |bytes| < 8 {
      quads, tail := [], bytes;
    } else {
      var rest;
      rest, tail := EveryStreamIsFrames(bytes[8..]);
      var first := [QuadOf(bytes[..8])];
      QuadReadsBack(bytes[..8]);
      assert first[..0] == [] && Encoded(first) == bytes[..8];
      EncodedConcat(first, rest);
      quads := first + rest;
      Assoc(bytes[..8], Encoded(rest), tail);
    }
  }
}
