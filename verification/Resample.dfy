/** The integer resamplers of src/vds_protocol.cc. PCM is interleaved stereo. */
module Resample {
  import opened Base

  const CHANNELS := 2
  const OPUS_FRAMES := 480
  const HAPTICS_SAMPLE_SIZE := 64
  const HAPTICS_FRAMES := 32

  type Sample = s: int | -32768 <= s <= 32767

  /** Division as C++ does it, towards zero. */
  function DivTrunc(a: int, b: int): int
    requires b > 0
  {
    if a >= 0 then a / b else -((-a) / b)
  }

  function Clamp(x: int, low: int, high: int): int
    requires low <= high
  {
    if x < low then low else if x > high then high else x
  }

  // Means --------------------------------------------------------------------------------

  lemma QuotientBounds(a: nat, b: nat)
    requires b > 0
    ensures (a / b) * b <= a < (a / b) * b + b
  {}

  lemma ProductOrder(p: int, q: int, b: nat)
    requires p < q
    ensures p * b + b <= q * b
  {
    assert (q - p - 1) * b >= 0;
  }

  lemma QuotientBetween(a: nat, b: nat, low: int, high: int)
    requires b > 0 && low * b <= a <= high * b
    ensures low <= a / b <= high
  {
    var q := a / b;
    QuotientBounds(a, b);
    if q > high { ProductOrder(high, q, b); }
    if q < low { ProductOrder(q, low, b); }
  }

  /** The quotient of a sum of `count` values between two bounds lies between the bounds. */
  lemma MeanBetween(sum: int, count: nat, low: int, high: int)
    requires count > 0 && low * count <= sum <= high * count
    ensures low <= DivTrunc(sum, count) <= high
  {
    if sum >= 0 {
      QuotientBetween(sum, count, low, high);
    } else {
      assert -high * count <= -sum <= -low * count;
      QuotientBetween(-sum, count, -high, -low);
    }
  }

  // The speaker --------------------------------------------------------------------------

  function Mix(left: Sample, right: Sample, numerator: nat, denominator: nat): int
    requires numerator <= denominator
  {
    left * (denominator - numerator) + right * numerator
  }

  function Lerp(left: Sample, right: Sample, numerator: nat, denominator: nat): Sample
    requires numerator <= denominator && denominator > 0
  {
    Clamp(DivTrunc(Mix(left, right, numerator, denominator), denominator), -32768, 32767)
  }

  /** An interpolated sample lies between its neighbours, so the clamp never acts. */
  lemma LerpBetween(left: Sample, right: Sample, numerator: nat, denominator: nat)
    requires numerator <= denominator && denominator > 0
    ensures Min(left, right) <= Lerp(left, right, numerator, denominator) <= Max(left, right)
    ensures Lerp(left, right, numerator, denominator) == DivTrunc(Mix(left, right, numerator, denominator), denominator)
  {
    var low, high := Min(left, right), Max(left, right);
    var a, b := denominator - numerator, numerator;
    assert low * a <= left * a <= high * a && low * b <= right * b <= high * b;
    assert low * a + low * b == low * denominator && high * a + high * b == high * denominator;
    MeanBetween(Mix(left, right, numerator, denominator), denominator, low, high);
  }

  /** The 32-bit products and their sum cannot overflow. */
  lemma MixFitsInt32(left: Sample, right: Sample, numerator: nat)
    requires numerator <= OPUS_FRAMES
    ensures -0x8000_0000 <= left * (OPUS_FRAMES - numerator) < 0x8000_0000
    ensures -0x8000_0000 <= right * numerator < 0x8000_0000
    ensures -0x8000_0000 <= Mix(left, right, numerator, OPUS_FRAMES) < 0x8000_0000
  {
    ProductFits(left, OPUS_FRAMES - numerator);
    ProductFits(right, numerator);
  }

  lemma ProductFits(sample: Sample, weight: nat)
    requires weight <= OPUS_FRAMES
    ensures -32768 * OPUS_FRAMES <= -32768 * weight <= sample * weight <= 32768 * weight <= 32768 * OPUS_FRAMES
  {
    ScaleKeepsOrder(-32768, sample, weight);
    ScaleKeepsOrder(sample, 32768, weight);
  }

  lemma ScaleKeepsOrder(a: int, b: int, weight: nat)
    requires a <= b
    ensures a * weight <= b * weight
  {}

  /** The source frame of an output frame exists. */
  lemma SourceFrameInRange(frame: nat, n: nat)
    requires frame < OPUS_FRAMES && n > 0
    ensures frame * n / OPUS_FRAMES < n
  {
    assert frame * n < OPUS_FRAMES * n;
  }

  function SourceFrame(frame: nat, n: nat): (source: nat)
    requires frame < OPUS_FRAMES && n > 0
    ensures source < n
  {
    SourceFrameInRange(frame, n);
    frame * n / OPUS_FRAMES
  }

  /** Output sample `k`; even positions are left. */
  function SpeakerSample(pcm: seq<Sample>, n: nat, k: nat): Sample
    requires |pcm| == CHANNELS * n && n > 0 && k < CHANNELS * OPUS_FRAMES
  {
    var frame, channel := k / CHANNELS, k % CHANNELS;
    var source := SourceFrame(frame, n);
    var next := Min(source + 1, n - 1);
    Lerp(pcm[source * CHANNELS + channel], pcm[next * CHANNELS + channel], frame * n % OPUS_FRAMES, OPUS_FRAMES)
  }

  function Speaker(pcm: seq<Sample>, n: nat, m: nat): (r: seq<Sample>)
    requires |pcm| == CHANNELS * n && n > 0 && m <= CHANNELS * OPUS_FRAMES
    ensures |r| == m && forall k | 0 <= k < m :: r[k] == SpeakerSample(pcm, n, k)
    decreases |pcm|, m
  {
    if m == 0 then [] else Speaker(pcm, n, m - 1) + [SpeakerSample(pcm, n, m - 1)]
  }

  lemma SpeakerAt(pcm: seq<Sample>, n: nat, frame: nat, channel: nat)
    requires |pcm| == CHANNELS * n && n > 0 && frame < OPUS_FRAMES && channel < CHANNELS
    ensures var source := SourceFrame(frame, n);
      SpeakerSample(pcm, n, CHANNELS * frame + channel) ==
        Lerp(pcm[source * CHANNELS + channel], pcm[Min(source + 1, n - 1) * CHANNELS + channel],
             frame * n % OPUS_FRAMES, OPUS_FRAMES)
  {
    var k := CHANNELS * frame + channel;
    assert k / CHANNELS == frame && k % CHANNELS == channel;
  }

  lemma ExactMix(left: Sample, right: Sample)
    ensures Lerp(left, right, 0, OPUS_FRAMES) == left
  {
    LerpBetween(left, right, 0, OPUS_FRAMES);
    MeanBetween(left * OPUS_FRAMES, OPUS_FRAMES, left, left);
  }

  lemma SameRateSample(pcm: seq<Sample>, frame: nat, channel: nat)
    requires |pcm| == CHANNELS * OPUS_FRAMES && frame < OPUS_FRAMES && channel < CHANNELS
    ensures SpeakerSample(pcm, OPUS_FRAMES, CHANNELS * frame + channel) == pcm[CHANNELS * frame + channel]
  {
    SpeakerAt(pcm, OPUS_FRAMES, frame, channel);
    ExactMix(pcm[frame * CHANNELS + channel], pcm[Min(frame + 1, OPUS_FRAMES - 1) * CHANNELS + channel]);
  }

  /** A window of exactly one Opus block goes through unchanged. */
  lemma SameRateIsIdentity(pcm: seq<Sample>)
    requires |pcm| == CHANNELS * OPUS_FRAMES
    ensures Speaker(pcm, OPUS_FRAMES, CHANNELS * OPUS_FRAMES) == pcm
  {
    forall k | 0 <= k < CHANNELS * OPUS_FRAMES
      ensures SpeakerSample(pcm, OPUS_FRAMES, k) == pcm[k]
    {
      SameRateSample(pcm, k / CHANNELS, k % CHANNELS);
    }
  }

  method ResampleSpeaker(pcm: seq<Sample>, n: nat) returns (opus: seq<Sample>)
    requires |pcm| == CHANNELS * n && n > 0
    ensures opus == Speaker(pcm, n, CHANNELS * OPUS_FRAMES)
  {
    opus := [];
    for frame := 0 to OPUS_FRAMES
      invariant opus == Speaker(pcm, n, CHANNELS * frame)
    {
      var numerator := frame * n;
      SourceFrameInRange(frame, n);
      var source, fraction := numerator / OPUS_FRAMES, numerator % OPUS_FRAMES;
      var next := Min(source + 1, n - 1);
      for channel := 0 to CHANNELS
        invariant opus == Speaker(pcm, n, CHANNELS * frame + channel)
      {
        SpeakerAt(pcm, n, frame, channel);
        var sample := Lerp(pcm[source * CHANNELS + channel], pcm[next * CHANNELS + channel], fraction, OPUS_FRAMES);
        opus := opus + [sample];
      }
    }
  }

  // The haptics --------------------------------------------------------------------------

  /** The first frame of haptics interval `f`. */
  function Begin(f: nat, n: nat): nat {
    f * n / HAPTICS_FRAMES
  }

  /** The intervals cover the window without gap or overlap, whatever its length. */
  lemma IntervalsPartition(f: nat, n: nat)
    ensures Begin(0, n) == 0 && Begin(HAPTICS_FRAMES, n) == n
    ensures Begin(f, n) <= Begin(f + 1, n) <= Begin(f, n) + n / HAPTICS_FRAMES + 1
    ensures f <= HAPTICS_FRAMES ==> Begin(f, n) <= n
  {
    assert (f + 1) * n == f * n + n;
    if f <= HAPTICS_FRAMES {
      assert f * n <= HAPTICS_FRAMES * n;
    }
  }

  /** The sum of one channel over frames `begin` to `end`. */
  function ChannelSum(pcm: seq<Sample>, channel: nat, begin: nat, end: nat): int
    requires channel < CHANNELS && begin <= end && CHANNELS * end <= |pcm|
  {
    if begin == end then 0 else ChannelSum(pcm, channel, begin, end - 1) + pcm[(end - 1) * CHANNELS + channel]
  }

  lemma {:induction false} SumBounds(pcm: seq<Sample>, channel: nat, begin: nat, end: nat)
    requires channel < CHANNELS && begin <= end && CHANNELS * end <= |pcm|
    ensures -32768 * (end - begin) <= ChannelSum(pcm, channel, begin, end) <= 32767 * (end - begin)
    decreases end
  {
    if begin < end {
      SumBounds(pcm, channel, begin, end - 1);
    }
  }

  lemma {:induction false} SumSplits(pcm: seq<Sample>, channel: nat, begin: nat, mid: nat, end: nat)
    requires channel < CHANNELS && begin <= mid <= end && CHANNELS * end <= |pcm|
    ensures ChannelSum(pcm, channel, begin, end)
         == ChannelSum(pcm, channel, begin, mid) + ChannelSum(pcm, channel, mid, end)
    decreases end
  {
    if mid < end {
      SumSplits(pcm, channel, begin, mid, end - 1);
    }
  }

  /** The interval sums of the first `f` intervals, added up. */
  function AllSums(pcm: seq<Sample>, channel: nat, n: nat, f: nat): int
    requires channel < CHANNELS && |pcm| == CHANNELS * n && f <= HAPTICS_FRAMES
    decreases |pcm|, f
  {
    if f == 0 then 0
    else
      IntervalsPartition(f - 1, n);
      IntervalsPartition(f, n);
      AllSums(pcm, channel, n, f - 1) + ChannelSum(pcm, channel, Begin(f - 1, n), Begin(f, n))
  }

  /** Every sample of the window is counted in exactly one interval. */
  lemma {:induction false} EverySampleCountedOnce(pcm: seq<Sample>, channel: nat, n: nat, f: nat)
    requires channel < CHANNELS && |pcm| == CHANNELS * n && f <= HAPTICS_FRAMES
    ensures Begin(f, n) <= n && AllSums(pcm, channel, n, f) == ChannelSum(pcm, channel, 0, Begin(f, n))
    decreases f
  {
    IntervalsPartition(f, n);
    if f > 0 {
      IntervalsPartition(f - 1, n);
      EverySampleCountedOnce(pcm, channel, n, f - 1);
      SumSplits(pcm, channel, 0, Begin(f - 1, n), Begin(f, n));
    }
  }

  /** The value of one haptics sample: the interval's mean, then its high byte. */
  function HapticsValue(sum: int, count: nat): int
    requires count > 0
  {
    Clamp(DivTrunc(DivTrunc(sum, count), 256), -128, 127)
  }

  function HapticsSample(pcm: seq<Sample>, n: nat, k: nat): int
    requires |pcm| == CHANNELS * n && k < HAPTICS_SAMPLE_SIZE
  {
    var f, channel := k / CHANNELS, k % CHANNELS;
    IntervalsPartition(f, n);
    IntervalsPartition(f + 1, n);
    var begin, end := Begin(f, n), Begin(f + 1, n);
    HapticsValue(ChannelSum(pcm, channel, begin, end), Max(1, end - begin))
  }

  function Haptics(pcm: seq<Sample>, n: nat, m: nat): (r: seq<int>)
    requires |pcm| == CHANNELS * n && m <= HAPTICS_SAMPLE_SIZE
    ensures |r| == m && forall k | 0 <= k < m :: r[k] == HapticsSample(pcm, n, k)
    decreases |pcm|, m
  {
    if m == 0 then [] else Haptics(pcm, n, m - 1) + [HapticsSample(pcm, n, m - 1)]
  }

  /** The mean fits 16 bits and its high byte 8, so neither the cast nor the clamp acts. */
  lemma HapticsFits(pcm: seq<Sample>, channel: nat, begin: nat, end: nat)
    requires channel < CHANNELS && begin <= end && CHANNELS * end <= |pcm|
    ensures var sum, count := ChannelSum(pcm, channel, begin, end), Max(1, end - begin);
      -32768 <= DivTrunc(sum, count) <= 32767 &&
      HapticsValue(sum, count) == DivTrunc(DivTrunc(sum, count), 256)
  {
    var sum, count := ChannelSum(pcm, channel, begin, end), Max(1, end - begin);
    SumBounds(pcm, channel, begin, end);
    MeanBetween(sum, count, -32768, 32767);
  }

  /** The 32-bit sums cannot overflow for any window the extractor accepts. */
  lemma SumsFitInt32(pcm: seq<Sample>, n: nat, f: nat, channel: nat)
    requires |pcm| == CHANNELS * n && n <= 512 && f < HAPTICS_FRAMES && channel < CHANNELS
    ensures Begin(f, n) <= Begin(f + 1, n) <= n
    ensures -0x8000_0000 <= ChannelSum(pcm, channel, Begin(f, n), Begin(f + 1, n)) < 0x8000_0000
  {
    IntervalsPartition(f, n);
    IntervalsPartition(f + 1, n);
    SumBounds(pcm, channel, Begin(f, n), Begin(f + 1, n));
  }

  method ResampleHaptics(pcm: seq<Sample>, n: nat) returns (chunk: seq<int>)
    requires |pcm| == CHANNELS * n
    ensures chunk == Haptics(pcm, n, HAPTICS_SAMPLE_SIZE)
  {
    chunk := [];
    for frame := 0 to HAPTICS_FRAMES
      invariant chunk == Haptics(pcm, n, CHANNELS * frame)
    {
      IntervalsPartition(frame, n);
      IntervalsPartition(frame + 1, n);
      var begin, end := frame * n / HAPTICS_FRAMES, (frame + 1) * n / HAPTICS_FRAMES;
      var count := Max(1, end - begin);
      var leftSum: int, rightSum: int := 0, 0;
      for sample := begin to end
        invariant leftSum == ChannelSum(pcm, 0, begin, sample)
        invariant rightSum == ChannelSum(pcm, 1, begin, sample)
      {
        leftSum := leftSum + pcm[sample * CHANNELS + 0];
        rightSum := rightSum + pcm[sample * CHANNELS + 1];
      }
      var left, right := DivTrunc(leftSum, count), DivTrunc(rightSum, count);
      TwoMore(pcm, n, frame);
      chunk := chunk + [Clamp(DivTrunc(left, 256), -128, 127), Clamp(DivTrunc(right, 256), -128, 127)];
    }
  }

  lemma HapticsAt(pcm: seq<Sample>, n: nat, frame: nat, channel: nat)
    requires |pcm| == CHANNELS * n && frame < HAPTICS_FRAMES && channel < CHANNELS
    ensures Begin(frame, n) <= Begin(frame + 1, n) <= n
    ensures var begin, end := Begin(frame, n), Begin(frame + 1, n);
      HapticsSample(pcm, n, CHANNELS * frame + channel)
        == HapticsValue(ChannelSum(pcm, channel, begin, end), Max(1, end - begin))
  {
    IntervalsPartition(frame, n);
    IntervalsPartition(frame + 1, n);
    var k := CHANNELS * frame + channel;
    assert k / CHANNELS == frame && k % CHANNELS == channel;
  }

  lemma TwoMore(pcm: seq<Sample>, n: nat, frame: nat)
    requires |pcm| == CHANNELS * n && frame < HAPTICS_FRAMES
    ensures Begin(frame, n) <= Begin(frame + 1, n) <= n
    ensures var begin, end := Begin(frame, n), Begin(frame + 1, n);
      Haptics(pcm, n, CHANNELS * (frame + 1)) == Haptics(pcm, n, CHANNELS * frame)
        + [HapticsValue(ChannelSum(pcm, 0, begin, end), Max(1, end - begin)),
           HapticsValue(ChannelSum(pcm, 1, begin, end), Max(1, end - begin))]
  {
    HapticsAt(pcm, n, frame, 0);
    HapticsAt(pcm, n, frame, 1);
    NextTwo(pcm, n, CHANNELS * frame, HapticsSample(pcm, n, CHANNELS * frame), HapticsSample(pcm, n, CHANNELS * frame + 1));
  }

  lemma NextTwo(pcm: seq<Sample>, n: nat, k: nat, x: int, y: int)
    requires |pcm| == CHANNELS * n && k + 1 < HAPTICS_SAMPLE_SIZE
    requires x == HapticsSample(pcm, n, k) && y == HapticsSample(pcm, n, k + 1)
    ensures Haptics(pcm, n, k + 2) == Haptics(pcm, n, k) + [x, y]
  {
    assert Haptics(pcm, n, k + 1) == Haptics(pcm, n, k) + [x];
    assert Haptics(pcm, n, k + 2) == Haptics(pcm, n, k + 1) + [y];
  }

  // Exact values -------------------------------------------------------------------------

  /** `q` is `a / b` cut towards zero. */
  predicate Truncated(q: int, a: int, b: int) {
    if a >= 0 then q * b <= a < q * b + b else q * b - b < a <= q * b
  }

  lemma DivTruncates(a: int, b: int)
    requires b > 0
    ensures Truncated(DivTrunc(a, b), a, b)
  {
    if a >= 0 {
      QuotientBounds(a, b);
    } else {
      QuotientBounds(-a, b);
      NegatedProduct((-a) / b, b);
    }
  }

  lemma NegatedProduct(q: int, b: int)
    ensures (-q) * b == -(q * b)
  {
  }

  lemma By480(a: nat, q: nat, r: nat)
    requires a == 480 * q + r && r < 480
    ensures a / 480 == q && a % 480 == r
  {
  }

  lemma By32(a: nat, q: nat)
    requires 32 * q <= a < 32 * q + 32
    ensures a / 32 == q
  {
  }

  /**
   Output frame `f` is `fraction / 480` of the way from source frame `source` to the one after it, where
   `480 * source + fraction` is `f * n`; the last frame stands still. Values are cut towards zero.
   */
  lemma SpeakerIsInterpolated(pcm: seq<Sample>, n: nat, f: nat, channel: nat, source: nat, fraction: nat)
    requires |pcm| == 2 * n && n > 0 && f < 480 && channel < 2
    requires f * n == 480 * source + fraction && fraction < 480
    ensures source < n
    ensures var next := if source + 1 < n then source + 1 else source;
      Truncated(Speaker(pcm, n, 960)[2 * f + channel],
                pcm[2 * source + channel] * (480 - fraction) + pcm[2 * next + channel] * fraction, 480)
  {
    By480(f * n, source, fraction);
    SourceFrameInRange(f, n);
    SpeakerAt(pcm, n, f, channel);
    var next := Min(source + 1, n - 1);
    var left, right := pcm[source * 2 + channel], pcm[next * 2 + channel];
    LerpBetween(left, right, fraction, 480);
    DivTruncates(Mix(left, right, fraction, 480), 480);
  }

  /** One channel of frames `begin` to `end`, added up. */
  function Added(pcm: seq<Sample>, channel: nat, begin: nat, end: nat): int
    requires channel < 2 && begin <= end && 2 * end <= |pcm|
    decreases end - begin
  {
    if begin == end then 0 else pcm[2 * begin + channel] + Added(pcm, channel, begin + 1, end)
  }

  lemma {:induction false} SumIsAdded(pcm: seq<Sample>, channel: nat, begin: nat, end: nat)
    requires channel < 2 && begin <= end && 2 * end <= |pcm|
    ensures ChannelSum(pcm, channel, begin, end) == Added(pcm, channel, begin, end)
    decreases end - begin
  {
    if begin < end {
      SumIsAdded(pcm, channel, begin + 1, end);
      SumSplits(pcm, channel, begin, begin + 1, end);
      assert ChannelSum(pcm, channel, begin, begin + 1) == ChannelSum(pcm, channel, begin, begin) + pcm[2 * begin + channel];
    }
  }

  /**
   Haptics frame `f` is the mean of the frames from `begin` to `end`, the 32nds `f` and `f + 1` of the window,
   cut towards zero, and of that the high byte, cut towards zero.
   */
  lemma HapticsIsMean(pcm: seq<Sample>, n: nat, f: nat, channel: nat, begin: nat, end: nat) returns (mean: int)
    requires |pcm| == 2 * n && f < 32 && channel < 2
    requires 32 * begin <= f * n < 32 * begin + 32 && 32 * end <= (f + 1) * n < 32 * end + 32
    ensures begin <= end <= n
    ensures Truncated(mean, Added(pcm, channel, begin, end), if end > begin then end - begin else 1)
    ensures Truncated(Haptics(pcm, n, 64)[2 * f + channel], mean, 256)
  {
    By32(f * n, begin);
    By32((f + 1) * n, end);
    HapticsAt(pcm, n, f, channel);
    SumIsAdded(pcm, channel, begin, end);
    HapticsFits(pcm, channel, begin, end);
    var sum, count := ChannelSum(pcm, channel, begin, end), Max(1, end - begin);
    mean := DivTrunc(sum, count);
    DivTruncates(sum, count);
    DivTruncates(mean, 256);
  }
}
