/**
 The incremental re-chunker of src/vds_protocol.cc. USB audio arrives in pieces of any size and
 leaves in windows of `window` frames of four 16-bit channels.
 */
module PcmExtractor {
  import opened Base
  import PcmFrames
  import Resample

  const FRAME_SIZE := 8
  const MAX_WINDOW := 512
  const DECIMATION := 16

  /** A finished window: haptics and speaker PCM, and whether they are anything but silence. */
  datatype Chunk = Chunk(
    haptics: seq<Resample.Sample>, speaker: seq<Resample.Sample>, hasSignal: bool, hasHapticsSignal: bool)

  /** What a window becomes: its haptics samples and the block handed to the speaker's encoder. */
  datatype Output = Output(
    haptics: seq<int>, speaker: seq<Resample.Sample>, hasSignal: bool, hasHapticsSignal: bool)

  predicate GoodWindow(window: int) {
    0 < window <= MAX_WINDOW && window % DECIMATION == 0
  }

  // The stream ---------------------------------------------------------------------------

  function LittleEndian16(low: Byte, high: Byte): Resample.Sample {
    var value := low + 256 * high;
    if value >= 32768 then value - 65536 else value
  }

  /** Channel `channel` of frame `frame`. */
  function SampleAt(bytes: seq<Byte>, frame: nat, channel: nat): Resample.Sample
    requires channel < 4 && FRAME_SIZE * frame + FRAME_SIZE <= |bytes|
  {
    LittleEndian16(bytes[FRAME_SIZE * frame + 2 * channel], bytes[FRAME_SIZE * frame + 2 * channel + 1])
  }

  /** Channels `first` and `first + 1` of the first `n` frames, interleaved. */
  function Pair(bytes: seq<Byte>, first: nat, n: nat): (pcm: seq<Resample.Sample>)
    requires first <= 2 && FRAME_SIZE * n <= |bytes|
    ensures |pcm| == 2 * n
  {
    if n == 0 then []
    else Pair(bytes, first, n - 1) + [SampleAt(bytes, n - 1, first), SampleAt(bytes, n - 1, first + 1)]
  }

  /** Whether frame `frame` holds a sample other than zero from channel `first` (0 or 2) on. */
  predicate FrameSignal(bytes: seq<Byte>, first: nat, frame: nat)
    requires FRAME_SIZE * frame + FRAME_SIZE <= |bytes|
  {
    || (first == 0 && (SampleAt(bytes, frame, 0) != 0 || SampleAt(bytes, frame, 1) != 0))
    || SampleAt(bytes, frame, 2) != 0 || SampleAt(bytes, frame, 3) != 0
  }

  predicate Signal(bytes: seq<Byte>, first: nat, n: nat)
    requires FRAME_SIZE * n <= |bytes|
  {
    n > 0 && (Signal(bytes, first, n - 1) || FrameSignal(bytes, first, n - 1))
  }

  function ChunkOf(bytes: seq<Byte>, window: nat): Chunk
    requires window > 0 && |bytes| == FRAME_SIZE * window
  {
    Chunk(Pair(bytes, 2, window), Pair(bytes, 0, window), Signal(bytes, 0, window), Signal(bytes, 2, window))
  }

  predicate AllOfSize(blocks: seq<seq<Byte>>, size: nat) {
    forall i | 0 <= i < |blocks| :: |blocks[i]| == size
  }

  function ChunksOf(blocks: seq<seq<Byte>>, window: nat): (chunks: seq<Chunk>)
    requires window > 0 && AllOfSize(blocks, FRAME_SIZE * window)
    ensures |chunks| == |blocks|
  {
    if blocks == [] then []
    else ChunksOf(blocks[..|blocks| - 1], window) + [ChunkOf(blocks[|blocks| - 1], window)]
  }

  // Cutting the stream -------------------------------------------------------------------

  /** The whole blocks of `size` bytes. */
  function Blocks(bytes: seq<Byte>, size: nat): (blocks: seq<seq<Byte>>)
    requires size > 0
    ensures AllOfSize(blocks, size)
    decreases |bytes|
  {
    if |bytes| < size then [] else [bytes[..size]] + Blocks(bytes[size..], size)
  }

  /** The bytes after the last whole block. */
  function Rest(bytes: seq<Byte>, size: nat): (rest: seq<Byte>)
    requires size > 0
    ensures |rest| < size
    decreases |bytes|
  {
    if |bytes| < size then bytes else Rest(bytes[size..], size)
  }

  /** Reading on from the rest is reading the whole. */
  lemma {:induction false} BlocksConcat(a: seq<Byte>, b: seq<Byte>, size: nat)
    requires size > 0
    ensures Blocks(a + b, size) == Blocks(a, size) + Blocks(Rest(a, size) + b, size)
    ensures Rest(a + b, size) == Rest(Rest(a, size) + b, size)
    decreases |a|
  {
    if |a| < size {
      assert Blocks(a, size) == [];
    } else {
      BlocksConcat(a[size..], b, size);
      assert (a + b)[..size] == a[..size] && (a + b)[size..] == a[size..] + b;
      Assoc([a[..size]], Blocks(a[size..], size), Blocks(Rest(a[size..], size) + b, size));
    }
  }

  /** The blocks a push of `bytes` completes after `history` has been pushed. */
  function Yield(history: seq<Byte>, bytes: seq<Byte>, size: nat): (blocks: seq<seq<Byte>>)
    requires size > 0
    ensures AllOfSize(blocks, size)
  {
    Blocks(Rest(history, size) + bytes, size)
  }

  function Joined(parts: seq<seq<Byte>>): seq<Byte> {
    if parts == [] then [] else parts[0] + Joined(parts[1..])
  }

  function YieldAll(history: seq<Byte>, parts: seq<seq<Byte>>, size: nat): seq<seq<Byte>>
    requires size > 0
    decreases |parts|
  {
    if parts == [] then [] else Yield(history, parts[0], size) + YieldAll(history + parts[0], parts[1..], size)
  }

  lemma {:induction false} SameBlocks(history: seq<Byte>, parts: seq<seq<Byte>>, size: nat)
    requires size > 0
    ensures YieldAll(history, parts, size) == Yield(history, Joined(parts), size)
    decreases |parts|
  {
    if parts == [] {
      assert Rest(history, size) + [] == Rest(history, size);
    } else {
      var first, more := parts[0], Joined(parts[1..]);
      var held := Rest(history, size);
      SameBlocks(history + first, parts[1..], size);
      BlocksConcat(history, first, size);
      BlocksConcat(held + first, more, size);
      Assoc(held, first, more);
    }
  }

  /** Block `k` is the bytes from `size * k` on. */
  lemma {:induction false} BlockIsItsBytes(bytes: seq<Byte>, size: nat, k: nat, start: nat)
    requires size > 0 && k < |Blocks(bytes, size)| && start == size * k
    ensures start + size <= |bytes| && Blocks(bytes, size)[k] == bytes[start..start + size]
    decreases k
  {
    if k > 0 {
      assert size * k == size * (k - 1) + size;
      BlockIsItsBytes(bytes[size..], size, k - 1, start - size);
      assert bytes[size..][start - size..start] == bytes[start..start + size];
    }
  }

  /** Nothing is lost: the blocks and the rest make up the stream. */
  lemma {:induction false} NothingIsLost(bytes: seq<Byte>, size: nat)
    requires size > 0
    ensures Joined(Blocks(bytes, size)) + Rest(bytes, size) == bytes
    decreases |bytes|
  {
    if |bytes| < size {
      assert [] + bytes == bytes;
    } else {
      var blocks := Blocks(bytes[size..], size);
      NothingIsLost(bytes[size..], size);
      assert ([bytes[..size]] + blocks)[1..] == blocks;
      Assoc(bytes[..size], Joined(blocks), Rest(bytes[size..], size));
      assert bytes[..size] + bytes[size..] == bytes;
    }
  }

  // One frame more -----------------------------------------------------------------------

  lemma SampleOfPrefix(a: seq<Byte>, b: seq<Byte>, frame: nat, channel: nat)
    requires channel < 4 && FRAME_SIZE * frame + FRAME_SIZE <= |a|
    ensures SampleAt(a + b, frame, channel) == SampleAt(a, frame, channel)
  {}

  lemma {:induction false} PairOfPrefix(a: seq<Byte>, b: seq<Byte>, first: nat, n: nat)
    requires first <= 2 && FRAME_SIZE * n <= |a|
    ensures Pair(a + b, first, n) == Pair(a, first, n)
    decreases n
  {
    if n > 0 {
      PairOfPrefix(a, b, first, n - 1);
      SampleOfPrefix(a, b, n - 1, first);
      SampleOfPrefix(a, b, n - 1, first + 1);
    }
  }

  lemma {:induction false} SignalOfPrefix(a: seq<Byte>, b: seq<Byte>, first: nat, n: nat)
    requires FRAME_SIZE * n <= |a|
    ensures Signal(a + b, first, n) == Signal(a, first, n)
    decreases n
  {
    if n > 0 {
      SignalOfPrefix(a, b, first, n - 1);
      SampleOfPrefix(a, b, n - 1, 0);
      SampleOfPrefix(a, b, n - 1, 1);
      SampleOfPrefix(a, b, n - 1, 2);
      SampleOfPrefix(a, b, n - 1, 3);
    }
  }

  lemma FrameAppended(framed: seq<Byte>, frame: seq<Byte>, n: nat, channel: nat)
    requires |framed| == FRAME_SIZE * n && |frame| == FRAME_SIZE && channel < 4
    ensures SampleAt(framed + frame, n, channel) == SampleAt(frame, 0, channel)
  {}

  /** What a frame adds to the window being collected. */
  lemma OneFrameMore(framed: seq<Byte>, frame: seq<Byte>, n: nat)
    requires |framed| == FRAME_SIZE * n && |frame| == FRAME_SIZE
    ensures Pair(framed + frame, 0, n + 1) == Pair(framed, 0, n) + [SampleAt(frame, 0, 0), SampleAt(frame, 0, 1)]
    ensures Pair(framed + frame, 2, n + 1) == Pair(framed, 2, n) + [SampleAt(frame, 0, 2), SampleAt(frame, 0, 3)]
    ensures Signal(framed + frame, 0, n + 1) == (Signal(framed, 0, n) || FrameSignal(frame, 0, 0))
    ensures Signal(framed + frame, 2, n + 1) == (Signal(framed, 2, n) || FrameSignal(frame, 2, 0))
  {
    PairOfPrefix(framed, frame, 0, n);
    PairOfPrefix(framed, frame, 2, n);
    SignalOfPrefix(framed, frame, 0, n);
    SignalOfPrefix(framed, frame, 2, n);
    FrameAppended(framed, frame, n, 0);
    FrameAppended(framed, frame, n, 1);
    FrameAppended(framed, frame, n, 2);
    FrameAppended(framed, frame, n, 3);
  }

  lemma LastChunk(blocks: seq<seq<Byte>>, window: nat, shorter: seq<seq<Byte>>, last: seq<Byte>)
    requires window > 0 && AllOfSize(blocks, FRAME_SIZE * window) && blocks != []
    requires shorter == blocks[..|blocks| - 1] && last == blocks[|blocks| - 1]
    ensures ChunksOf(blocks, window) == ChunksOf(shorter, window) + [ChunkOf(last, window)]
  {}

  lemma {:induction false} ChunksConcat(a: seq<seq<Byte>>, b: seq<seq<Byte>>, window: nat)
    requires window > 0 && AllOfSize(a, FRAME_SIZE * window) && AllOfSize(b, FRAME_SIZE * window)
    ensures AllOfSize(a + b, FRAME_SIZE * window)
    ensures ChunksOf(a + b, window) == ChunksOf(a, window) + ChunksOf(b, window)
    decreases |b|
  {
    if b == [] {
      assert a + b == a;
    } else {
      var shorter, last := b[..|b| - 1], b[|b| - 1];
      ChunksConcat(a, shorter, window);
      assert (a + b)[..|a + b| - 1] == a + shorter;
      LastChunk(a + b, window, a + shorter, last);
      LastChunk(b, window, shorter, last);
      Assoc(ChunksOf(a, window), ChunksOf(shorter, window), [ChunkOf(last, window)]);
    }
  }

  /** However the stream is cut into pushes, the blocks, samples and signal flags are those of the whole. */
  lemma SplitDoesNotMatter(history: seq<Byte>, parts: seq<seq<Byte>>, window: nat)
    requires window > 0
    ensures YieldAll(history, parts, FRAME_SIZE * window) == Yield(history, Joined(parts), FRAME_SIZE * window)
    ensures AllOfSize(YieldAll(history, parts, FRAME_SIZE * window), FRAME_SIZE * window)
    ensures ChunksOf(YieldAll(history, parts, FRAME_SIZE * window), window)
         == ChunksOf(Yield(history, Joined(parts), FRAME_SIZE * window), window)
  {
    SameBlocks(history, parts, FRAME_SIZE * window);
  }

  /** A frame either fills the block being collected or lengthens it. */
  lemma TakeFrame(framed: seq<Byte>, frame: seq<Byte>, rest: seq<Byte>, size: nat)
    requires size > 0 && |framed + frame| <= size
    ensures var whole := framed + (frame + rest);
      if |framed + frame| == size then
        Blocks(whole, size) == [framed + frame] + Blocks(rest, size) && Rest(whole, size) == Rest(rest, size)
      else whole == (framed + frame) + rest
  {
    var whole := framed + (frame + rest);
    Assoc(framed, frame, rest);
    if |framed + frame| == size {
      assert whole[..size] == framed + frame && whole[size..] == rest;
    }
  }

  /** What taking a frame leaves of a stream that was read up to `framed`. */
  lemma FrameTaken(all: seq<Byte>, before: seq<Byte>, frame: seq<Byte>, rest: seq<Byte>,
                   done: seq<seq<Byte>>, one: seq<seq<Byte>>, after: seq<Byte>, size: nat)
    requires size > 0 && |before + frame| <= size
    requires Blocks(all, size) == done + Blocks(before + (frame + rest), size)
    requires Rest(all, size) == Rest(before + (frame + rest), size)
    requires if |before + frame| == size then after == [] && one == [before + frame]
             else after == before + frame && one == []
    ensures Blocks(all, size) == (done + one) + Blocks(after + rest, size) && Rest(all, size) == Rest(after + rest, size)
  {
    TakeFrame(before, frame, rest, size);
    Assoc(done, one, Blocks(after + rest, size));
    assert [] + rest == rest && done + [] == done;
  }

  // Frames of samples --------------------------------------------------------------------

  /** The bytes of a sample read back as the sample. */
  lemma SampleReadsBack(s: Resample.Sample)
    ensures LittleEndian16(PcmFrames.Low(s), PcmFrames.High(s)) == s
  {
  }

  /** The chunk is made of exactly these frames: their haptics and speaker channels and whether any sample is not 0. */
  predicate Holds(chunk: Chunk, quads: seq<PcmFrames.Quad>) {
    && chunk.haptics == PcmFrames.HapticsPcm(quads) && chunk.speaker == PcmFrames.SpeakerPcm(quads)
    && chunk.hasSignal == PcmFrames.AnySound(quads) && chunk.hasHapticsSignal == PcmFrames.AnyShake(quads)
  }

  lemma QuadSamples(framed: seq<Byte>, q: PcmFrames.Quad, n: nat)
    requires |framed| == FRAME_SIZE * n
    ensures var bytes := framed + PcmFrames.FrameBytes(q);
      && SampleAt(bytes, n, 0) == q.left && SampleAt(bytes, n, 1) == q.right
      && SampleAt(bytes, n, 2) == q.hapticLeft && SampleAt(bytes, n, 3) == q.hapticRight
  {
    SampleReadsBack(q.left);
    SampleReadsBack(q.right);
    SampleReadsBack(q.hapticLeft);
    SampleReadsBack(q.hapticRight);
  }

  lemma {:induction false} PairsAreChannels(quads: seq<PcmFrames.Quad>, n: nat)
    requires n == |quads|
    ensures var bytes := PcmFrames.Encoded(quads);
      && Pair(bytes, 0, n) == PcmFrames.SpeakerPcm(quads) && Pair(bytes, 2, n) == PcmFrames.HapticsPcm(quads)
      && Signal(bytes, 0, n) == PcmFrames.AnySound(quads) && Signal(bytes, 2, n) == PcmFrames.AnyShake(quads)
    decreases n
  {
    if n > 0 {
      var front, last := quads[..n - 1], quads[n - 1];
      var framed, frame := PcmFrames.Encoded(front), PcmFrames.FrameBytes(last);
      PairsAreChannels(front, n - 1);
      PairOfPrefix(framed, frame, 0, n - 1);
      PairOfPrefix(framed, frame, 2, n - 1);
      SignalOfPrefix(framed, frame, 0, n - 1);
      SignalOfPrefix(framed, frame, 2, n - 1);
      QuadSamples(framed, last, n - 1);
      PcmFrames.AnyLast(quads);
    }
  }

  lemma ChunkHolds(quads: seq<PcmFrames.Quad>, window: nat)
    requires |quads| == window > 0
    ensures Holds(ChunkOf(PcmFrames.Encoded(quads), window), quads)
  {
    PairsAreChannels(quads, window);
  }

  predicate HoldsAt(chunks: seq<Chunk>, quads: seq<PcmFrames.Quad>, window: nat, k: nat)
    requires k < |chunks|
  {
    window * k + window <= |quads| && Holds(chunks[k], quads[window * k..window * k + window])
  }

  /** The chunks are the windows of the frames, in order, and all that are full. */
  predicate AreWindows(chunks: seq<Chunk>, quads: seq<PcmFrames.Quad>, window: nat) {
    && window * |chunks| <= |quads| < window * |chunks| + window
    && forall k: nat | k < |chunks| :: HoldsAt(chunks, quads, window, k)
  }

  /** Whatever frames the stream is made of, the chunks are their windows. */
  ghost predicate WindowsOf(chunks: seq<Chunk>, stream: seq<Byte>, window: nat) {
    forall quads, tail | stream == PcmFrames.Encoded(quads) + tail && |tail| < FRAME_SIZE ::
      AreWindows(chunks, quads, window)
  }

  lemma {:induction false} BlockCount(bytes: seq<Byte>, size: nat)
    requires size > 0
    ensures size * |Blocks(bytes, size)| <= |bytes| < size * |Blocks(bytes, size)| + size
    decreases |bytes|
  {
    if |bytes| >= size {
      BlockCount(bytes[size..], size);
      assert size * |Blocks(bytes, size)| == size * |Blocks(bytes[size..], size)| + size;
    }
  }

  lemma WindowCount(window: nat, chunks: nat, frames: nat, tail: nat)
    requires tail < FRAME_SIZE
    requires FRAME_SIZE * window * chunks <= FRAME_SIZE * frames + tail < FRAME_SIZE * window * chunks + FRAME_SIZE * window
    ensures window * chunks <= frames < window * chunks + window
  {
    assert FRAME_SIZE * window * chunks == FRAME_SIZE * (window * chunks);
  }

  lemma WindowHolds(blocks: seq<seq<Byte>>, quads: seq<PcmFrames.Quad>, window: nat, k: nat, from: nat)
    requires window > 0 && AllOfSize(blocks, FRAME_SIZE * window) && k < |blocks|
    requires from == window * k && from + window <= |quads|
    requires blocks[k] == PcmFrames.Encoded(quads[from..from + window])
    ensures HoldsAt(ChunksOf(blocks, window), quads, window, k)
  {
    ChunkAt(blocks, window, k);
    ChunkHolds(quads[from..from + window], window);
  }

  lemma BlockStart(window: nat, k: nat)
    ensures FRAME_SIZE * (window * k) == FRAME_SIZE * window * k
  {
  }

  lemma BlockIsFrames(quads: seq<PcmFrames.Quad>, tail: seq<Byte>, window: nat, k: nat, from: nat)
    requires window > 0 && from == window * k && from + window <= |quads|
    requires k < |Blocks(PcmFrames.Encoded(quads) + tail, FRAME_SIZE * window)|
    ensures Blocks(PcmFrames.Encoded(quads) + tail, FRAME_SIZE * window)[k] == PcmFrames.Encoded(quads[from..from + window])
  {
    BlockStart(window, k);
    BlockIsItsBytes(PcmFrames.Encoded(quads) + tail, FRAME_SIZE * window, k, FRAME_SIZE * from);
    PcmFrames.EncodedStretch(quads, tail, from, window);
  }

  lemma WindowOrder(window: nat, k: nat, chunks: nat)
    requires k < chunks
    ensures window * k + window <= window * chunks
  {
    assert window * (chunks - k - 1) >= 0;
  }

  lemma FramesAreWindows(quads: seq<PcmFrames.Quad>, tail: seq<Byte>, window: nat)
    requires window > 0 && |tail| < FRAME_SIZE
    ensures AreWindows(ChunksOf(Blocks(PcmFrames.Encoded(quads) + tail, FRAME_SIZE * window), window), quads, window)
  {
    var stream, size := PcmFrames.Encoded(quads) + tail, FRAME_SIZE * window;
    var chunks := ChunksOf(Blocks(stream, size), window);
    BlockCount(stream, size);
    WindowCount(window, |chunks|, |quads|, |tail|);
    forall k: nat | k < |chunks|
      ensures HoldsAt(chunks, quads, window, k)
    {
      WindowOrder(window, k, |chunks|);
      BlockIsFrames(quads, tail, window, k, window * k);
      WindowHolds(Blocks(stream, size), quads, window, k, window * k);
    }
  }

  /** A pushed stream comes out as the windows of its samples, channel by channel. */
  lemma StreamWindows(stream: seq<Byte>, window: nat)
    requires window > 0
    ensures WindowsOf(ChunksOf(Blocks(stream, FRAME_SIZE * window), window), stream, window)
  {
    forall quads, tail | stream == PcmFrames.Encoded(quads) + tail && |tail| < FRAME_SIZE
      ensures AreWindows(ChunksOf(Blocks(stream, FRAME_SIZE * window), window), quads, window)
    {
      FramesAreWindows(quads, tail, window);
    }
  }

  // Resampling ---------------------------------------------------------------------------

  /** `output` is the block's channels, resampled, with its signal flags. */
  predicate IsResampled(output: Output, bytes: seq<Byte>, window: nat)
    requires window > 0 && |bytes| == FRAME_SIZE * window
  {
    && output.haptics == Resample.Haptics(Pair(bytes, 2, window), window, Resample.HAPTICS_SAMPLE_SIZE)
    && output.speaker ==
       Resample.Speaker(Pair(bytes, 0, window), window, Resample.CHANNELS * Resample.OPUS_FRAMES)
    && output.hasSignal == Signal(bytes, 0, window) && output.hasHapticsSignal == Signal(bytes, 2, window)
  }

  predicate ResampledAt(outputs: seq<Output>, blocks: seq<seq<Byte>>, window: nat, k: nat)
    requires window > 0 && AllOfSize(blocks, FRAME_SIZE * window) && k < |blocks| && k < |outputs|
  {
    IsResampled(outputs[k], blocks[k], window)
  }

  predicate AllResampled(outputs: seq<Output>, blocks: seq<seq<Byte>>, window: nat)
    requires window > 0 && AllOfSize(blocks, FRAME_SIZE * window)
  {
    |outputs| == |blocks| && forall k: nat | k < |blocks| :: ResampledAt(outputs, blocks, window, k)
  }

  lemma {:induction false} ChunkAt(blocks: seq<seq<Byte>>, window: nat, k: nat)
    requires window > 0 && AllOfSize(blocks, FRAME_SIZE * window) && k < |blocks|
    ensures ChunksOf(blocks, window)[k] == ChunkOf(blocks[k], window)
    decreases |blocks|
  {
    if k < |blocks| - 1 {
      ChunkAt(blocks[..|blocks| - 1], window, k);
    }
  }

  /** `output` is the frames' channels, resampled, with their signal flags. */
  predicate ResampledFrom(output: Output, quads: seq<PcmFrames.Quad>, window: nat)
    requires |quads| == window > 0
  {
    && output.haptics == Resample.Haptics(PcmFrames.HapticsPcm(quads), window, Resample.HAPTICS_SAMPLE_SIZE)
    && output.speaker ==
       Resample.Speaker(PcmFrames.SpeakerPcm(quads), window, Resample.CHANNELS * Resample.OPUS_FRAMES)
    && output.hasSignal == PcmFrames.AnySound(quads) && output.hasHapticsSignal == PcmFrames.AnyShake(quads)
  }

  predicate ResampledWindow(outputs: seq<Output>, quads: seq<PcmFrames.Quad>, window: nat, k: nat)
    requires window > 0 && k < |outputs|
  {
    window * k + window <= |quads| && ResampledFrom(outputs[k], quads[window * k..window * k + window], window)
  }

  predicate AreResampledWindows(outputs: seq<Output>, quads: seq<PcmFrames.Quad>, window: nat)
    requires window > 0
  {
    && window * |outputs| <= |quads| < window * |outputs| + window
    && forall k: nat | k < |outputs| :: ResampledWindow(outputs, quads, window, k)
  }

  ghost predicate ResampledWindowsOf(outputs: seq<Output>, stream: seq<Byte>, window: nat)
    requires window > 0
  {
    forall quads, tail | stream == PcmFrames.Encoded(quads) + tail && |tail| < FRAME_SIZE ::
      AreResampledWindows(outputs, quads, window)
  }

  lemma FramesResampled(output: Output, bytes: seq<Byte>, quads: seq<PcmFrames.Quad>, window: nat)
    requires |quads| == window > 0 && bytes == PcmFrames.Encoded(quads) && IsResampled(output, bytes, window)
    ensures ResampledFrom(output, quads, window)
  {
    PairsAreChannels(quads, window);
  }

  predicate Resampled(output: Output, bytes: seq<Byte>, window: nat) {
    window > 0 && |bytes| == FRAME_SIZE * window && IsResampled(output, bytes, window)
  }

  lemma ResampledBlock(outputs: seq<Output>, blocks: seq<seq<Byte>>, window: nat, k: nat)
    requires window > 0 && AllOfSize(blocks, FRAME_SIZE * window) && AllResampled(outputs, blocks, window) && k < |blocks|
    ensures k < |outputs| && Resampled(outputs[k], blocks[k], window)
  {
    assert ResampledAt(outputs, blocks, window, k);
  }

  lemma WindowResampled(outputs: seq<Output>, output: Output, bytes: seq<Byte>, quads: seq<PcmFrames.Quad>,
                        part: seq<PcmFrames.Quad>, window: nat, k: nat)
    requires k < |outputs| && output == outputs[k] && Resampled(output, bytes, window)
    requires window * k + window <= |quads| && part == quads[window * k..window * k + window]
    requires |part| == window && bytes == PcmFrames.Encoded(part)
    ensures ResampledWindow(outputs, quads, window, k)
  {
    FramesResampled(output, bytes, part, window);
  }

  lemma StreamWindowResampled(outputs: seq<Output>, quads: seq<PcmFrames.Quad>, tail: seq<Byte>, window: nat, k: nat, from: nat)
    requires window > 0 && |tail| < FRAME_SIZE && from == window * k && from + window <= |quads|
    requires AllResampled(outputs, Blocks(PcmFrames.Encoded(quads) + tail, FRAME_SIZE * window), window)
    requires k < |Blocks(PcmFrames.Encoded(quads) + tail, FRAME_SIZE * window)|
    ensures k < |outputs| && ResampledWindow(outputs, quads, window, k)
  {
    var blocks := Blocks(PcmFrames.Encoded(quads) + tail, FRAME_SIZE * window);
    BlockIsFrames(quads, tail, window, k, from);
    ResampledBlock(outputs, blocks, window, k);
    WindowResampled(outputs, outputs[k], blocks[k], quads, quads[from..from + window], window, k);
  }

  lemma FramesAreResampled(outputs: seq<Output>, quads: seq<PcmFrames.Quad>, tail: seq<Byte>, window: nat)
    requires window > 0 && |tail| < FRAME_SIZE
    requires AllResampled(outputs, Blocks(PcmFrames.Encoded(quads) + tail, FRAME_SIZE * window), window)
    ensures AreResampledWindows(outputs, quads, window)
  {
    var stream, size := PcmFrames.Encoded(quads) + tail, FRAME_SIZE * window;
    BlockCount(stream, size);
    WindowCount(window, |outputs|, |quads|, |tail|);
    forall k: nat | k < |outputs|
      ensures ResampledWindow(outputs, quads, window, k)
    {
      WindowOrder(window, k, |outputs|);
      StreamWindowResampled(outputs, quads, tail, window, k, window * k);
    }
  }

  /** What a pushed stream becomes: the windows of its samples, resampled. */
  lemma StreamResampled(outputs: seq<Output>, stream: seq<Byte>, window: nat)
    requires window > 0 && AllResampled(outputs, Blocks(stream, FRAME_SIZE * window), window)
    ensures ResampledWindowsOf(outputs, stream, window)
  {
    forall quads, tail | stream == PcmFrames.Encoded(quads) + tail && |tail| < FRAME_SIZE
      ensures AreResampledWindows(outputs, quads, window)
    {
      FramesAreResampled(outputs, quads, tail, window);
    }
  }

  method ResampleOne(chunk: Chunk, ghost bytes: seq<Byte>, window: nat) returns (output: Output)
    requires window > 0 && |bytes| == FRAME_SIZE * window && chunk == ChunkOf(bytes, window)
    ensures IsResampled(output, bytes, window)
  {
    var haptics := Resample.ResampleHaptics(chunk.haptics, window);
    var speaker := Resample.ResampleSpeaker(chunk.speaker, window);
    output := Output(haptics, speaker, chunk.hasSignal, chunk.hasHapticsSignal);
  }

  method ResampleAll(chunks: seq<Chunk>, ghost blocks: seq<seq<Byte>>, window: nat) returns (outputs: seq<Output>)
    requires window > 0 && AllOfSize(blocks, FRAME_SIZE * window) && chunks == ChunksOf(blocks, window)
    ensures AllResampled(outputs, blocks, window)
  {
    outputs := [];
    for i := 0 to |chunks|
      invariant |outputs| == i
      invariant forall k: nat | k < i :: ResampledAt(outputs, blocks, window, k)
    {
      ChunkAt(blocks, window, i);
      var output := ResampleOne(chunks[i], blocks[i], window);
      ghost var before := outputs;
      outputs := outputs + [output];
      KeepResampled(before, output, blocks, window);
    }
  }

  lemma KeepResampled(outputs: seq<Output>, output: Output, blocks: seq<seq<Byte>>, window: nat)
    requires window > 0 && AllOfSize(blocks, FRAME_SIZE * window) && |outputs| < |blocks|
    requires forall k: nat | k < |outputs| :: ResampledAt(outputs, blocks, window, k)
    requires IsResampled(output, blocks[|outputs|], window)
    ensures forall k: nat | k < |outputs| + 1 :: ResampledAt(outputs + [output], blocks, window, k)
  {
    forall k: nat | k < |outputs| + 1
      ensures ResampledAt(outputs + [output], blocks, window, k)
    {
      if k < |outputs| { assert ResampledAt(outputs, blocks, window, k); }
    }
  }

  class Extractor {
    const window: nat
    const pendingFrame: array<Byte>
    const speakerPcm: array<Resample.Sample>
    const hapticsPcm: array<Resample.Sample>
    var pendingPos: nat
    var windowPos: nat
    var hasSignal: bool
    var hasHapticsSignal: bool

    /** The whole frames of the window being collected. */
    ghost var framed: seq<Byte>

    ghost predicate Shaped() {
      && GoodWindow(window) && pendingFrame.Length == FRAME_SIZE && speakerPcm != hapticsPcm
      && speakerPcm.Length == hapticsPcm.Length == 2 * MAX_WINDOW
    }

    /** The arrays and flags hold what the collected frames say. */
    ghost predicate Collected()
      reads this, speakerPcm, hapticsPcm
    {
      && Shaped() && windowPos <= window && |framed| == FRAME_SIZE * windowPos
      && speakerPcm[..2 * windowPos] == Pair(framed, 0, windowPos)
      && hapticsPcm[..2 * windowPos] == Pair(framed, 2, windowPos)
      && hasSignal == Signal(framed, 0, windowPos) && hasHapticsSignal == Signal(framed, 2, windowPos)
    }

    ghost predicate Valid()
      reads this, speakerPcm, hapticsPcm
    {
      Collected() && windowPos < window && pendingPos < FRAME_SIZE
    }

    /** The bytes taken in that no finished window holds yet. */
    ghost function Held(): (held: seq<Byte>)
      requires Valid()
      reads this, speakerPcm, hapticsPcm, pendingFrame
      ensures |held| < FRAME_SIZE * window
    {
      framed + pendingFrame[..pendingPos]
    }

    /** Construction fails for a window the resamplers do not support. */
    static method Create(frames: int) returns (r: Option<Extractor>)
      ensures r.Some? <==> GoodWindow(frames)
      ensures r.Some? ==> r.value.Valid() && r.value.window == frames && r.value.Held() == []
    {
      if frames <= 0 || frames > MAX_WINDOW || frames % DECIMATION != 0 {
        return None;
      }
      var e := new Extractor(frames);
      r := Some(e);
    }

    constructor (frames: nat)
      requires GoodWindow(frames)
      ensures fresh(pendingFrame) && fresh(speakerPcm) && fresh(hapticsPcm)
      ensures Valid() && window == frames && Held() == []
    {
      window := frames;
      pendingFrame := new Byte[FRAME_SIZE](i => 0);
      speakerPcm := new Resample.Sample[2 * MAX_WINDOW](i => 0);
      hapticsPcm := new Resample.Sample[2 * MAX_WINDOW](i => 0);
      pendingPos, windowPos, hasSignal, hasHapticsSignal := 0, 0, false, false;
      framed := [];
    }

    method CollectSamples(frame: seq<Byte>)
      requires Collected() && windowPos < window && |frame| == FRAME_SIZE
      modifies speakerPcm, hapticsPcm
      ensures speakerPcm[..2 * windowPos + 2] == Pair(framed + frame, 0, windowPos + 1)
      ensures hapticsPcm[..2 * windowPos + 2] == Pair(framed + frame, 2, windowPos + 1)
    {
      OneFrameMore(framed, frame, windowPos);
      StorePair(speakerPcm, 2 * windowPos, SampleAt(frame, 0, 0), SampleAt(frame, 0, 1));
      StorePair(hapticsPcm, 2 * windowPos, SampleAt(frame, 0, 2), SampleAt(frame, 0, 3));
    }

    static method StorePair(pcm: array<Resample.Sample>, at: nat, left: Resample.Sample, right: Resample.Sample)
      requires at + 2 <= pcm.Length
      modifies pcm
      ensures pcm[..at + 2] == old(pcm[..at]) + [left, right]
    {
      pcm[at + 0] := left;
      pcm[at + 1] := right;
    }

    method NoteSignals(frame: seq<Byte>)
      requires |frame| == FRAME_SIZE && |framed| == FRAME_SIZE * windowPos
      requires hasSignal == Signal(framed, 0, windowPos) && hasHapticsSignal == Signal(framed, 2, windowPos)
      modifies this`hasSignal, this`hasHapticsSignal
      ensures hasSignal == Signal(framed + frame, 0, windowPos + 1)
      ensures hasHapticsSignal == Signal(framed + frame, 2, windowPos + 1)
    {
      OneFrameMore(framed, frame, windowPos);
      hasSignal := hasSignal || FrameSignal(frame, 0, 0);
      hasHapticsSignal := hasHapticsSignal || FrameSignal(frame, 2, 0);
    }

    method AddFrame(frame: seq<Byte>)
      requires Collected() && windowPos < window && |frame| == FRAME_SIZE
      modifies this`windowPos, this`hasSignal, this`hasHapticsSignal, this`framed, speakerPcm, hapticsPcm
      ensures Collected() && windowPos == old(windowPos) + 1 && framed == old(framed) + frame
    {
      CollectSamples(frame);
      NoteSignals(frame);
      Advance(frame);
    }

    method Advance(ghost frame: seq<Byte>)
      requires Shaped() && windowPos < window && |framed| == FRAME_SIZE * windowPos && |frame| == FRAME_SIZE
      requires speakerPcm[..2 * windowPos + 2] == Pair(framed + frame, 0, windowPos + 1)
      requires hapticsPcm[..2 * windowPos + 2] == Pair(framed + frame, 2, windowPos + 1)
      requires hasSignal == Signal(framed + frame, 0, windowPos + 1)
      requires hasHapticsSignal == Signal(framed + frame, 2, windowPos + 1)
      modifies this`windowPos, this`framed
      ensures Collected() && windowPos == old(windowPos) + 1 && framed == old(framed) + frame
    {
      windowPos := windowPos + 1;
      framed := framed + frame;
    }

    /** A full window is given out, to be resampled. */
    method FinishWindow() returns (chunk: Chunk)
      requires Collected() && windowPos == window
      modifies this`windowPos, this`hasSignal, this`hasHapticsSignal, this`framed
      ensures Collected() && framed == [] && windowPos == 0 && chunk == ChunkOf(old(framed), window)
    {
      windowPos := 0;
      chunk := Chunk(hapticsPcm[..2 * window], speakerPcm[..2 * window], hasSignal, hasHapticsSignal);
      hasSignal, hasHapticsSignal := false, false;
      framed := [];
    }

    /** Takes a frame into the window. */
    method ConsumeFrame(frame: seq<Byte>) returns (chunks: seq<Chunk>, ghost blocks: seq<seq<Byte>>)
      requires Collected() && windowPos < window && |frame| == FRAME_SIZE
      modifies this`windowPos, this`hasSignal, this`hasHapticsSignal, this`framed, speakerPcm, hapticsPcm
      ensures Collected() && windowPos < window
      ensures AllOfSize(blocks, FRAME_SIZE * window) && chunks == ChunksOf(blocks, window)
      ensures if |old(framed) + frame| == FRAME_SIZE * window
        then framed == [] && blocks == [old(framed) + frame]
        else framed == old(framed) + frame && blocks == []
    {
      AddFrame(frame);
      chunks, blocks := [], [];
      if windowPos == window {
        blocks := [framed];
        assert blocks[..0] == [];
        var chunk := FinishWindow();
        chunks := [chunk];
      }
    }

    /** All the whole frames of `bytes`, when none is pending. */
    method TakeFrames(bytes: seq<Byte>) returns (chunks: seq<Chunk>, left: seq<Byte>, ghost blocks: seq<seq<Byte>>)
      requires Valid() && pendingPos == 0
      modifies this`windowPos, this`hasSignal, this`hasHapticsSignal, this`framed, speakerPcm, hapticsPcm
      ensures Valid() && |left| < FRAME_SIZE && |left| <= |bytes|
      ensures AllOfSize(blocks, FRAME_SIZE * window) && chunks == ChunksOf(blocks, window)
      ensures Blocks(old(Held()) + bytes, FRAME_SIZE * window) == blocks + Blocks(Held() + left, FRAME_SIZE * window)
      ensures Rest(old(Held()) + bytes, FRAME_SIZE * window) == Rest(Held() + left, FRAME_SIZE * window)
    {
      ghost var size := FRAME_SIZE * window;
      ghost var all := framed + bytes;
      assert Held() == framed;
      chunks, blocks := [], [];
      left := bytes;
      while |left| >= FRAME_SIZE
        invariant Valid() && pendingPos == 0 && |left| <= |bytes|
        invariant AllOfSize(blocks, size) && chunks == ChunksOf(blocks, window)
        invariant Blocks(all, size) == blocks + Blocks(framed + left, size)
        invariant Rest(all, size) == Rest(framed + left, size)
        decreases |left|
      {
        ghost var before, done := framed, blocks;
        var frame, rest := left[..FRAME_SIZE], left[FRAME_SIZE..];
        assert left == frame + rest;
        var more;
        ghost var one;
        more, one := ConsumeFrame(frame);
        ChunksConcat(done, one, window);
        FrameTaken(all, before, frame, rest, done, one, framed, size);
        chunks, blocks, left := chunks + more, done + one, rest;
      }
      assert Held() == framed;
    }

    /** Bytes go to the pending frame until it is whole. */
    method CopyPending(bytes: seq<Byte>) returns (copySize: nat)
      requires Shaped() && pendingPos < FRAME_SIZE
      modifies this`pendingPos, pendingFrame
      ensures copySize == Min(|bytes|, FRAME_SIZE - old(pendingPos)) && pendingPos == old(pendingPos) + copySize
      ensures pendingFrame[..pendingPos] == old(pendingFrame[..pendingPos]) + bytes[..copySize]
    {
      copySize := Min(|bytes|, FRAME_SIZE - pendingPos);
      for i := 0 to copySize
        invariant pendingPos == old(pendingPos)
        invariant pendingFrame[..pendingPos + i] == old(pendingFrame[..pendingPos]) + bytes[..i]
      {
        pendingFrame[pendingPos + i] := bytes[i];
        assert pendingFrame[..pendingPos + i + 1] == pendingFrame[..pendingPos + i] + [bytes[i]];
        assert bytes[..i + 1] == bytes[..i] + [bytes[i]];
      }
      pendingPos := pendingPos + copySize;
    }

    /** One turn with a frame pending, or with less than a frame at hand. */
    method TakePending(bytes: seq<Byte>) returns (chunks: seq<Chunk>, left: seq<Byte>, ghost blocks: seq<seq<Byte>>)
      requires Valid() && bytes != []
      modifies this, pendingFrame, speakerPcm, hapticsPcm
      ensures Valid() && |left| < |bytes|
      ensures AllOfSize(blocks, FRAME_SIZE * window) && chunks == ChunksOf(blocks, window)
      ensures Blocks(old(Held()) + bytes, FRAME_SIZE * window) == blocks + Blocks(Held() + left, FRAME_SIZE * window)
      ensures Rest(old(Held()) + bytes, FRAME_SIZE * window) == Rest(Held() + left, FRAME_SIZE * window)
    {
      ghost var before, pending := framed, pendingFrame[..pendingPos];
      ghost var all := Held() + bytes;
      var copySize := CopyPending(bytes);
      left := bytes[copySize..];
      ghost var frame := pendingFrame[..pendingPos];
      PendingSplits(before, pending, bytes, copySize);
      assert all == before + (frame + left);
      chunks, blocks := [], [];
      if pendingPos == FRAME_SIZE {
        TakeFrame(before, frame, left, FRAME_SIZE * window);
        assert frame == pendingFrame[..];
        chunks, blocks := ConsumeFrame(pendingFrame[..]);
        pendingPos := 0;
        assert Held() == framed;
        assert framed == [] ==> framed + left == left;
      } else {
        Assoc(before, frame, left);
      }
    }

    /** The whole of `push_usb_audio`. */
    method PushUsbAudio(bytes: seq<Byte>) returns (chunks: seq<Chunk>)
      requires Valid()
      modifies this, pendingFrame, speakerPcm, hapticsPcm
      ensures Valid() && Held() == Rest(old(Held()) + bytes, FRAME_SIZE * window)
      ensures chunks == ChunksOf(Blocks(old(Held()) + bytes, FRAME_SIZE * window), window)
      ensures WindowsOf(chunks, old(Held()) + bytes, window)
    {
      ghost var size := FRAME_SIZE * window;
      ghost var all := Held() + bytes;
      ghost var blocks: seq<seq<Byte>> := [];
      chunks := [];
      var left := bytes;
      while left != []
        invariant Valid() && AllOfSize(blocks, size) && chunks == ChunksOf(blocks, window)
        invariant Blocks(all, size) == blocks + Blocks(Held() + left, size)
        invariant Rest(all, size) == Rest(Held() + left, size)
        decreases |left|
      {
        ghost var done := blocks;
        var more;
        ghost var taken;
        if pendingPos == 0 && |left| >= FRAME_SIZE {
          more, left, taken := TakeFrames(left);
        } else {
          more, left, taken := TakePending(left);
        }
        ChunksConcat(done, taken, window);
        Assoc(done, taken, Blocks(Held() + left, size));
        chunks, blocks := chunks + more, done + taken;
      }
      assert Held() + left == Held();
      assert blocks + [] == blocks;
      StreamWindows(all, window);
    }

    /** The chunks as the program returns them: every window resampled for haptics and speaker. */
    method PushAndResample(bytes: seq<Byte>) returns (outputs: seq<Output>)
      requires Valid()
      modifies this, pendingFrame, speakerPcm, hapticsPcm
      ensures Valid() && Held() == Rest(old(Held()) + bytes, FRAME_SIZE * window)
      ensures AllResampled(outputs, Blocks(old(Held()) + bytes, FRAME_SIZE * window), window)
      ensures ResampledWindowsOf(outputs, old(Held()) + bytes, window)
    {
      ghost var stream := Held() + bytes;
      var chunks := PushUsbAudio(bytes);
      outputs := ResampleAll(chunks, Blocks(stream, FRAME_SIZE * window), window);
      StreamResampled(outputs, stream, window);
    }

    /** A stream pushed part by part, as the frames of the host come in. */
    method PushInParts(parts: seq<seq<Byte>>) returns (chunks: seq<Chunk>)
      requires Valid()
      modifies this, pendingFrame, speakerPcm, hapticsPcm
      ensures Valid() && Held() == Rest(old(Held()) + Joined(parts), FRAME_SIZE * window)
      ensures chunks == ChunksOf(Blocks(old(Held()) + Joined(parts), FRAME_SIZE * window), window)
      ensures WindowsOf(chunks, old(Held()) + Joined(parts), window)
    {
      ghost var size := FRAME_SIZE * window;
      ghost var all := Held() + Joined(parts);
      ghost var blocks: seq<seq<Byte>> := [];
      chunks := [];
      assert parts[0..] == parts;
      for i := 0 to |parts|
        invariant Valid() && AllOfSize(blocks, size) && chunks == ChunksOf(blocks, window)
        invariant Blocks(all, size) == blocks + Blocks(Held() + Joined(parts[i..]), size)
        invariant Rest(all, size) == Rest(Held() + Joined(parts[i..]), size)
      {
        ghost var held, later := Held(), Joined(parts[i + 1..]);
        ghost var taken := Blocks(held + parts[i], size);
        assert parts[i..][1..] == parts[i + 1..];
        Assoc(held, parts[i], later);
        BlocksConcat(held + parts[i], later, size);
        ChunksConcat(blocks, taken, window);
        Assoc(blocks, taken, Blocks(Rest(held + parts[i], size) + later, size));
        var more := PushUsbAudio(parts[i]);
        chunks, blocks := chunks + more, blocks + taken;
      }
      assert Held() + [] == Held() && blocks + [] == blocks;
      StreamWindows(all, window);
    }
  }

  lemma PendingSplits(framed: seq<Byte>, pending: seq<Byte>, bytes: seq<Byte>, n: nat)
    requires n <= |bytes|
    ensures (framed + pending) + bytes == framed + ((pending + bytes[..n]) + bytes[n..])
  {
    assert bytes == bytes[..n] + bytes[n..];
  }
}
