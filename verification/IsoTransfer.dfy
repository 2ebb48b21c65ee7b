/**
 Isochronous transfers of module/vds_hcd_core.c: how the descriptors of an OUT transfer are
 coalesced into frames, and how long a transfer occupies the paced stream.
 */
module IsoTransfer {
  import opened Base

  const FRAME_MAX_PAYLOAD := 4096
  const OUT_BYTES_PER_MS := 384
  const IN_BYTES_PER_MS := 192

  /** One packet descriptor: a window of the transfer buffer. */
  datatype Desc = Desc(offset: nat, length: nat)

  /** A window of the transfer buffer about to be sent as one frame. */
  datatype Span = Span(start: nat, length: nat)

  predicate Fits(d: Desc, size: nat) {
    d.offset <= size && d.length <= size - d.offset
  }

  function Bytes(s: Span, buffer: seq<Byte>): seq<Byte>
    requires s.start + s.length <= |buffer|
  {
    buffer[s.start..s.start + s.length]
  }

  /** What the host played: the data of every descriptor inside the buffer, in order. */
  function PlayedData(descs: seq<Desc>, buffer: seq<Byte>): seq<Byte> {
    if descs == [] then []
    else
      (if Fits(descs[0], |buffer|) then Bytes(Span(descs[0].offset, descs[0].length), buffer) else [])
      + PlayedData(descs[1..], buffer)
  }

  function ErrorCount(descs: seq<Desc>, size: nat): nat {
    if descs == [] then 0
    else (if Fits(descs[0], size) then 0 else 1) + ErrorCount(descs[1..], size)
  }

  /** Descriptor `d` extends the window being collected. */
  predicate Joins(open: Span, d: Desc) {
    d.offset == open.start + open.length && open.length + d.length <= FRAME_MAX_PAYLOAD
  }

  /** The windows sent for `descs` when `open` is the window being collected. */
  function Spans(descs: seq<Desc>, size: nat, open: Option<Span>): seq<Span> {
    if descs == [] then
      (if open.Some? then [open.value] else [])
    else
      var d := descs[0];
      if !Fits(d, size) || d.length == 0 then Spans(descs[1..], size, open)
      else if open.None? then Spans(descs[1..], size, Some(Span(d.offset, d.length)))
      else if Joins(open.value, d) then
        Spans(descs[1..], size, Some(Span(open.value.start, open.value.length + d.length)))
      else [open.value] + Spans(descs[1..], size, Some(Span(d.offset, d.length)))
  }

  predicate Inside(spans: seq<Span>, size: nat) {
    forall i | 0 <= i < |spans| :: spans[i].start + spans[i].length <= size
  }

  function Concat(spans: seq<Span>, buffer: seq<Byte>): seq<Byte>
    requires Inside(spans, |buffer|)
  {
    if spans == [] then [] else Bytes(spans[0], buffer) + Concat(spans[1..], buffer)
  }

  predicate OpenInside(open: Option<Span>, size: nat) {
    open.Some? ==> open.value.start + open.value.length <= size
  }

  function OpenSpans(open: Option<Span>): seq<Span> {
    if open.Some? then [open.value] else []
  }

  /** The frames an event queue with room accepts: a frame over 4096 bytes is refused. */
  function Accepted(spans: seq<Span>): seq<Span> {
    if spans == [] then []
    else (if spans[0].length <= FRAME_MAX_PAYLOAD then [spans[0]] else []) + Accepted(spans[1..])
  }

  lemma {:induction false} SpansInside(descs: seq<Desc>, size: nat, open: Option<Span>)
    requires OpenInside(open, size)
    ensures Inside(Spans(descs, size, open), size)
  {
    if descs != [] {
      var d := descs[0];
      if !Fits(d, size) || d.length == 0 {
        SpansInside(descs[1..], size, open);
      } else if open.Some? && Joins(open.value, d) {
        SpansInside(descs[1..], size, Some(Span(open.value.start, open.value.length + d.length)));
      } else {
        SpansInside(descs[1..], size, Some(Span(d.offset, d.length)));
      }
    }
  }

  lemma ConcatCons(s: Span, rest: seq<Span>, buffer: seq<Byte>)
    requires s.start + s.length <= |buffer| && Inside(rest, |buffer|)
    ensures Inside([s] + rest, |buffer|)
    ensures Concat([s] + rest, buffer) == Bytes(s, buffer) + Concat(rest, buffer)
  {
    assert ([s] + rest)[1..] == rest;
  }

  lemma ConcatOne(s: Span, buffer: seq<Byte>)
    requires s.start + s.length <= |buffer|
    ensures Inside([s], |buffer|) && Concat([s], buffer) == Bytes(s, buffer)
  {
    ConcatCons(s, [], buffer);
    assert [s] + [] == [s];
  }

  lemma JoinedBytes(o: Span, d: Desc, buffer: seq<Byte>)
    requires o.start + o.length <= |buffer| && Fits(d, |buffer|) && Joins(o, d)
    ensures Bytes(Span(o.start, o.length + d.length), buffer)
         == Bytes(o, buffer) + Bytes(Span(d.offset, d.length), buffer)
  {
  }

  function Played(d: Desc, buffer: seq<Byte>): seq<Byte> {
    if Fits(d, |buffer|) then Bytes(Span(d.offset, d.length), buffer) else []
  }

  /** The window being collected after `d`, and the windows sent because of it. */
  function Collect(open: Option<Span>, d: Desc, size: nat): (Option<Span>, seq<Span>) {
    if !Fits(d, size) || d.length == 0 then (open, [])
    else if open.None? then (Some(Span(d.offset, d.length)), [])
    else if Joins(open.value, d) then (Some(Span(open.value.start, open.value.length + d.length)), [])
    else (Some(Span(d.offset, d.length)), [open.value])
  }

  lemma SpansUnfold(descs: seq<Desc>, size: nat, open: Option<Span>)
    requires descs != []
    ensures var (next, sent) := Collect(open, descs[0], size);
      Spans(descs, size, open) == sent + Spans(descs[1..], size, next)
  {
  }

  function OpenBytes(open: Option<Span>, buffer: seq<Byte>): seq<Byte>
    requires OpenInside(open, |buffer|)
  {
    if open.Some? then Bytes(open.value, buffer) else []
  }

  lemma CollectPreserves(open: Option<Span>, d: Desc, buffer: seq<Byte>)
    requires OpenInside(open, |buffer|)
    ensures var (next, sent) := Collect(open, d, |buffer|);
      OpenInside(next, |buffer|) && Inside(sent, |buffer|) &&
      Concat(sent, buffer) + OpenBytes(next, buffer) == OpenBytes(open, buffer) + Played(d, buffer)
  {
    if !Fits(d, |buffer|) || d.length == 0 {
      assert Played(d, buffer) == [];
    } else if open.Some? {
      if Joins(open.value, d) {
        JoinedBytes(open.value, d, buffer);
      } else {
        ConcatOne(open.value, buffer);
      }
    }
  }

  lemma ConcatAppend(a: seq<Span>, b: seq<Span>, buffer: seq<Byte>)
    requires |a| <= 1 && Inside(a, |buffer|) && Inside(b, |buffer|)
    ensures Inside(a + b, |buffer|) && Concat(a + b, buffer) == Concat(a, buffer) + Concat(b, buffer)
  {
    if a == [] {
      assert a + b == b;
    } else {
      assert a == [a[0]];
      ConcatOne(a[0], buffer);
      ConcatCons(a[0], b, buffer);
    }
  }

  /** Coalescing loses, repeats and reorders nothing. */
  lemma {:induction false} CoalescingPreservesStream(descs: seq<Desc>, buffer: seq<Byte>, open: Option<Span>)
    requires OpenInside(open, |buffer|)
    ensures Inside(Spans(descs, |buffer|, open), |buffer|)
    ensures Concat(Spans(descs, |buffer|, open), buffer) == OpenBytes(open, buffer) + PlayedData(descs, buffer)
  {
    if descs == [] {
      if open.Some? {
        ConcatOne(open.value, buffer);
      }
    } else {
      var (next, sent) := Collect(open, descs[0], |buffer|);
      var played := PlayedData(descs[1..], buffer);
      SpansUnfold(descs, |buffer|, open);
      CollectPreserves(open, descs[0], buffer);
      CoalescingPreservesStream(descs[1..], buffer, next);
      ConcatAppend(sent, Spans(descs[1..], |buffer|, next), buffer);
      Assoc(Concat(sent, buffer), OpenBytes(next, buffer), played);
      Assoc(OpenBytes(open, buffer), Played(descs[0], buffer), played);
    }
  }

  predicate AllSmall(spans: seq<Span>) {
    forall i | 0 <= i < |spans| :: spans[i].length <= FRAME_MAX_PAYLOAD
  }

  /** The guard a caller can check before submitting. */
  predicate DescsSmall(descs: seq<Desc>, size: nat) {
    forall i | 0 <= i < |descs| && Fits(descs[i], size) :: descs[i].length <= FRAME_MAX_PAYLOAD
  }

  /** Joining never makes a frame too long: only a descriptor that is itself too long does. */
  lemma {:induction false} FramesSmallIffDescsSmall(descs: seq<Desc>, size: nat, open: Option<Span>)
    ensures AllSmall(Spans(descs, size, open)) <==> AllSmall(OpenSpans(open)) && DescsSmall(descs, size)
  {
    if descs == [] {
    } else {
      var d := descs[0];
      var rest := descs[1..];
      assert forall i | 0 <= i < |rest| :: rest[i] == descs[i + 1];
      assert DescsSmall(descs, size) <==>
        (Fits(d, size) ==> d.length <= FRAME_MAX_PAYLOAD) && DescsSmall(rest, size) by {
        if DescsSmall(rest, size) {
          forall i | 0 <= i < |descs| && Fits(descs[i], size) && (Fits(d, size) ==> d.length <= FRAME_MAX_PAYLOAD)
            ensures descs[i].length <= FRAME_MAX_PAYLOAD
          {
            if i > 0 { assert descs[i] == rest[i - 1]; }
          }
        }
      }
      if !Fits(d, size) || d.length == 0 {
        FramesSmallIffDescsSmall(rest, size, open);
      } else if open.Some? && Joins(open.value, d) {
        assert OpenSpans(open)[0] == open.value;
        var joined := Some(Span(open.value.start, open.value.length + d.length));
        assert OpenSpans(joined)[0] == joined.value;
        FramesSmallIffDescsSmall(rest, size, joined);
      } else {
        var next := Some(Span(d.offset, d.length));
        assert OpenSpans(next)[0] == next.value;
        FramesSmallIffDescsSmall(rest, size, next);
        if open.Some? {
          var tail := Spans(rest, size, next);
          assert OpenSpans(open)[0] == open.value;
          assert ([open.value] + tail)[0] == open.value;
          assert forall i | 0 <= i < |tail| :: ([open.value] + tail)[i + 1] == tail[i];
        }
      }
    }
  }

  lemma {:induction false} AcceptedLength(spans: seq<Span>, buffer: seq<Byte>)
    requires Inside(spans, |buffer|)
    ensures Inside(Accepted(spans), |buffer|)
    ensures |Concat(Accepted(spans), buffer)| <= |Concat(spans, buffer)|
    ensures AllSmall(spans) ==> Accepted(spans) == spans
    ensures !AllSmall(spans) ==> |Concat(Accepted(spans), buffer)| < |Concat(spans, buffer)|
  {
    if spans != [] {
      AcceptedLength(spans[1..], buffer);
      var kept := Accepted(spans[1..]);
      assert Concat(spans, buffer) == Bytes(spans[0], buffer) + Concat(spans[1..], buffer);
      assert |Bytes(spans[0], buffer)| == spans[0].length;
      if spans[0].length <= FRAME_MAX_PAYLOAD {
        ConcatCons(spans[0], kept, buffer);
        assert Accepted(spans) == [spans[0]] + kept;
        assert AllSmall(spans[1..]) ==> AllSmall(spans) by {
          assert forall i | 1 <= i < |spans| :: spans[i] == spans[1..][i - 1];
        }
      } else {
        assert Accepted(spans) == kept;
      }
    }
  }

  /**
   With room in the event queue, the accepted frames carry exactly the played stream if and
   only if no descriptor inside the buffer is longer than one frame.
   */
  lemma OutStreamExact(descs: seq<Desc>, buffer: seq<Byte>)
    ensures var spans := Spans(descs, |buffer|, None);
      Inside(spans, |buffer|) && Inside(Accepted(spans), |buffer|) &&
      (Concat(Accepted(spans), buffer) == PlayedData(descs, buffer) <==> DescsSmall(descs, |buffer|))
  {
    CoalescingPreservesStream(descs, buffer, None);
    FramesSmallIffDescsSmall(descs, |buffer|, None);
    AcceptedLength(Spans(descs, |buffer|, None), buffer);
  }

  /** A single over-long descriptor is played by the host and lost: the guard is needed. */
  lemma LongDescriptorIsLost(buffer: seq<Byte>)
    requires |buffer| == 4097
    ensures Accepted(Spans([Desc(0, 4097)], 4097, None)) == []
    ensures PlayedData([Desc(0, 4097)], buffer) == buffer
  {
    assert [Desc(0, 4097)][1..] == [];
    assert Spans([Desc(0, 4097)], 4097, None) == [Span(0, 4097)];
    assert PlayedData([], buffer) == [];
  }

  // Joining -----------------------------------------------------------------------------

  /** The descriptors that are played: inside the buffer and not empty. */
  function Usable(descs: seq<Desc>, size: nat): seq<Desc> {
    if descs == [] then []
    else
      var d := descs[0];
      (if d.length > 0 && d.offset + d.length <= size then [d] else []) + Usable(descs[1..], size)
  }

  function Length(descs: seq<Desc>): nat {
    if descs == [] then 0 else Length(descs[..|descs| - 1]) + descs[|descs| - 1].length
  }

  /** The descriptors lie one behind the other. */
  predicate Adjacent(descs: seq<Desc>, i: nat)
    requires 0 < i < |descs|
  {
    descs[i].offset == descs[0].offset + Length(descs[..i])
  }

  /** `s` is one frame made of all of `descs`: neighbours in the buffer, together no longer than a frame may be. */
  predicate OneFrame(descs: seq<Desc>, s: Span) {
    && descs != [] && s.start == descs[0].offset && s.length == Length(descs)
    && (forall i: nat | 0 < i < |descs| :: Adjacent(descs, i))
    && (|descs| == 1 || s.length <= 4096)
  }

  /** The next descriptor does not belong to the frame: it lies elsewhere or would make it too long. */
  predicate Parts(s: Span, rest: seq<Desc>) {
    rest != [] ==> rest[0].offset != s.start + s.length || s.length + rest[0].length > 4096
  }

  /** `spans` cuts `descs` into frames, each as long as it can be. */
  ghost predicate Coalesced(descs: seq<Desc>, spans: seq<Span>)
    decreases |spans|
  {
    if spans == [] then descs == []
    else exists n: nat :: n <= |descs| && OneFrame(descs[..n], spans[0]) && Parts(spans[0], descs[n..])
                          && Coalesced(descs[n..], spans[1..])
  }

  lemma LengthAppend(descs: seq<Desc>, d: Desc)
    ensures Length(descs + [d]) == Length(descs) + d.length
  {
    assert (descs + [d])[..|descs|] == descs;
  }

  lemma OneFrameGrows(held: seq<Desc>, s: Span, d: Desc)
    requires OneFrame(held, s) && Joins(s, d)
    ensures OneFrame(held + [d], Span(s.start, s.length + d.length))
  {
    LengthAppend(held, d);
    forall i: nat | 0 < i < |held + [d]|
      ensures Adjacent(held + [d], i)
    {
      if i < |held| {
        assert Adjacent(held, i) && (held + [d])[..i] == held[..i];
      } else {
        assert (held + [d])[..i] == held;
      }
    }
  }

  lemma OneFrameStarts(d: Desc)
    ensures OneFrame([d], Span(d.offset, d.length))
  {
    LengthAppend([], d);
    assert [] + [d] == [d];
  }

  lemma FirstFrame(held: seq<Desc>, rest: seq<Desc>, s: Span, spans: seq<Span>)
    requires OneFrame(held, s) && Parts(s, rest) && Coalesced(rest, spans)
    ensures Coalesced(held + rest, [s] + spans)
  {
    var all, n := held + rest, |held|;
    assert all[..n] == held && all[n..] == rest && ([s] + spans)[1..] == spans;
  }

  /** What is being collected is a frame of the descriptors held so far. */
  predicate Holds(held: seq<Desc>, open: Option<Span>) {
    if open.None? then held == [] else OneFrame(held, open.value)
  }

  /** What is held once `d` was collected. */
  function Held(held: seq<Desc>, open: Option<Span>, d: Desc): seq<Desc> {
    if open.Some? && Joins(open.value, d) then held + [d] else [d]
  }

  lemma CollectHolds(held: seq<Desc>, open: Option<Span>, d: Desc, size: nat)
    requires Holds(held, open) && Fits(d, size) && d.length > 0
    ensures Holds(Held(held, open, d), Collect(open, d, size).0)
  {
    OneFrameStarts(d);
    if open.Some? && Joins(open.value, d) { OneFrameGrows(held, open.value, d); }
  }

  lemma CollectCoalesces(held: seq<Desc>, open: Option<Span>, d: Desc, size: nat, rest: seq<Desc>, spans: seq<Span>)
    requires Holds(held, open) && Fits(d, size) && d.length > 0
    requires Coalesced(Held(held, open, d) + rest, spans)
    ensures Coalesced(held + ([d] + rest), Collect(open, d, size).1 + spans)
  {
    Assoc(held, [d], rest);
    if open.None? {
      assert held + ([d] + rest) == [d] + rest && [] + spans == spans;
    } else if Joins(open.value, d) {
      assert [] + spans == spans;
    } else {
      FirstFrame(held, [d] + rest, open.value, spans);
    }
  }

  lemma {:induction false} SpansCoalesce(descs: seq<Desc>, size: nat, held: seq<Desc>, open: Option<Span>)
    requires Holds(held, open)
    ensures Coalesced(held + Usable(descs, size), Spans(descs, size, open))
    decreases |descs|
  {
    if descs == [] {
      LastFrame(held, open);
    } else {
      var d := descs[0];
      SpansUnfold(descs, size, open);
      if !Fits(d, size) || d.length == 0 {
        SpansCoalesce(descs[1..], size, held, open);
        UsableSkips(descs, size);
      } else {
        var (next, sent) := Collect(open, d, size);
        CollectHolds(held, open, d, size);
        SpansCoalesce(descs[1..], size, Held(held, open, d), next);
        CollectCoalesces(held, open, d, size, Usable(descs[1..], size), Spans(descs[1..], size, next));
      }
    }
  }

  lemma UsableSkips(descs: seq<Desc>, size: nat)
    requires descs != [] && (!Fits(descs[0], size) || descs[0].length == 0)
    ensures Usable(descs, size) == Usable(descs[1..], size)
  {
  }

  lemma LastFrame(held: seq<Desc>, open: Option<Span>)
    requires Holds(held, open)
    ensures Coalesced(held + [], OpenSpans(open))
  {
    assert held + [] == held;
    if open.Some? {
      FirstFrame(held, [], open.value, []);
      assert [open.value] + [] == [open.value];
    }
  }

  /** The frames of a transfer join neighbouring descriptors as far as 4096 bytes, and join nothing else. */
  lemma FramesAreCoalesced(descs: seq<Desc>, size: nat)
    ensures Coalesced(Usable(descs, size), Spans(descs, size, None))
  {
    SpansCoalesce(descs, size, [], None);
    assert [] + Usable(descs, size) == Usable(descs, size);
  }

  // Pacing ------------------------------------------------------------------------------

  function RoundUpDiv(n: nat, d: nat): nat
    requires d > 0
  {
    (n + d - 1) / d
  }

  /** Bytes one descriptor contributes to the pacing of its transfer. */
  function PacedLength(d: Desc, input: bool): nat {
    if input then Min(d.length, IN_BYTES_PER_MS) else d.length
  }

  function PacedBytes(descs: seq<Desc>, input: bool): nat {
    if descs == [] then 0 else PacedLength(descs[0], input) + PacedBytes(descs[1..], input)
  }

  function Rate(input: bool): nat {
    if input then IN_BYTES_PER_MS else OUT_BYTES_PER_MS
  }

  /** The duration in microseconds, with the 32-bit wrap-around and truncation of the code. */
  function DurationUs(descs: seq<Desc>, input: bool): nat {
    var total := PacedBytes(descs, input) % U32_LIMIT;
    if total != 0 then Max(RoundUpDiv(total * 1000, Rate(input)) % U32_LIMIT, 1000)
    else (Max(|descs|, 1) * 1000) % U32_LIMIT
  }

  lemma RoundUpBounds(n: nat, d: nat)
    requires d > 0
    ensures n <= RoundUpDiv(n, d) * d < n + d
  {
    var q := (n + d - 1) / d;
    assert n + d - 1 == q * d + (n + d - 1) % d;
  }

  lemma MulMono(a: int, b: int, d: nat)
    requires a <= b
    ensures a * d <= b * d
  {
  }

  lemma RoundUpFits(n: nat, d: nat)
    requires d > 0
    ensures RoundUpDiv(n, d) < U32_LIMIT <==> n <= (U32_LIMIT - 1) * d
  {
    RoundUpBounds(n, d);
    if RoundUpDiv(n, d) < U32_LIMIT {
      MulMono(RoundUpDiv(n, d), U32_LIMIT - 1, d);
    } else {
      MulMono(U32_LIMIT, RoundUpDiv(n, d), d);
    }
  }

  lemma LongEnough(n: nat, d: nat, us: nat)
    requires d > 0 && us >= RoundUpDiv(n, d)
    ensures us * d >= n
  {
    RoundUpBounds(n, d);
    MulMono(RoundUpDiv(n, d), us, d);
  }

  /**
   A transfer occupies at least the playing time of its bytes, `bytes * 1000 / rate`
   microseconds, exactly when that time fits 32 bits.
   */
  lemma DurationCoversBytesExactly(descs: seq<Desc>, input: bool)
    ensures DurationUs(descs, input) * Rate(input) >= PacedBytes(descs, input) * 1000
       <==> PacedBytes(descs, input) * 1000 <= (U32_LIMIT - 1) * Rate(input)
  {
    DurationCovers(PacedBytes(descs, input), |descs|, Rate(input), DurationUs(descs, input));
  }

  lemma DurationCovers(bytes: nat, count: nat, rate: nat, us: nat)
    requires 0 < rate <= OUT_BYTES_PER_MS
    requires var total := bytes % U32_LIMIT;
      us == if total != 0 then Max(RoundUpDiv(total * 1000, rate) % U32_LIMIT, 1000)
            else (Max(count, 1) * 1000) % U32_LIMIT
    ensures us * rate >= bytes * 1000 <==> bytes * 1000 <= (U32_LIMIT - 1) * rate
  {
    if bytes * 1000 <= (U32_LIMIT - 1) * rate {
      MulMono(rate, OUT_BYTES_PER_MS, U32_LIMIT - 1);
      assert bytes < U32_LIMIT && bytes % U32_LIMIT == bytes;
      if bytes != 0 {
        RoundUpFits(bytes * 1000, rate);
        LongEnough(bytes * 1000, rate, us);
      } else {
        MulMono(0, us, rate);
      }
    } else {
      MulMono(us, U32_LIMIT - 1, rate);
    }
  }

  /** The bytes all descriptors of a transfer are paced by: recording takes at most a millisecond's worth each. */
  function Volume(descs: seq<Desc>, input: bool): nat {
    if descs == [] then 0
    else
      var last := descs[|descs| - 1];
      Volume(descs[..|descs| - 1], input) + (if input && last.length > 192 then 192 else last.length)
  }

  lemma {:induction false} PacedBytesAppend(descs: seq<Desc>, d: Desc, input: bool)
    ensures PacedBytes(descs + [d], input) == PacedBytes(descs, input) + PacedLength(d, input)
  {
    if descs == [] {
      assert [d][1..] == [];
    } else {
      assert (descs + [d])[1..] == descs[1..] + [d];
      PacedBytesAppend(descs[1..], d, input);
    }
  }

  lemma {:induction false} VolumeIsPaced(descs: seq<Desc>, input: bool)
    ensures PacedBytes(descs, input) == Volume(descs, input)
    decreases |descs|
  {
    if descs != [] {
      var front, last := descs[..|descs| - 1], descs[|descs| - 1];
      VolumeIsPaced(front, input);
      PacedBytesAppend(front, last, input);
      assert front + [last] == descs;
    }
  }

  /** `us` is the least whole number of microseconds, of at least a millisecond, that covers the bytes. */
  predicate LeastCover(us: nat, bytes: nat, rate: nat) {
    us >= 1000 && us * rate >= bytes * 1000 && (us > 1000 ==> (us - 1) * rate < bytes * 1000)
  }

  lemma LeastIsRounded(bytes: nat, rate: nat)
    requires rate > 0
    ensures LeastCover(Max(RoundUpDiv(bytes * 1000, rate), 1000), bytes, rate)
  {
    var n, q := bytes * 1000, RoundUpDiv(bytes * 1000, rate);
    RoundUpBounds(n, rate);
    LongEnough(n, rate, Max(q, 1000));
    if q > 1000 { LessOne(q, rate); }
  }

  lemma LessOne(q: nat, rate: nat)
    requires q > 0
    ensures (q - 1) * rate == q * rate - rate
  {
  }

  /**
   A transfer's duration is the shortest that covers its bytes at 384 bytes a millisecond played or 192
   recorded, at least a millisecond; without bytes it is a millisecond a descriptor, at least one.
   */
  lemma DurationIsLeast(descs: seq<Desc>, input: bool)
    requires Volume(descs, input) * 1000 <= 0xFFFF_FFFF * (if input then 192 else 384) && |descs| * 1000 <= 0xFFFF_FFFF
    ensures Volume(descs, input) > 0 ==>
            LeastCover(DurationUs(descs, input), Volume(descs, input), if input then 192 else 384)
    ensures Volume(descs, input) == 0 ==> DurationUs(descs, input) == 1000 * (if |descs| == 0 then 1 else |descs|)
  {
    VolumeIsPaced(descs, input);
    DurationRounds(PacedBytes(descs, input), |descs|, Rate(input), DurationUs(descs, input));
  }

  lemma DurationRounds(bytes: nat, count: nat, rate: nat, us: nat)
    requires 0 < rate <= OUT_BYTES_PER_MS && bytes * 1000 <= (U32_LIMIT - 1) * rate && count * 1000 < U32_LIMIT
    requires var total := bytes % U32_LIMIT;
      us == if total != 0 then Max(RoundUpDiv(total * 1000, rate) % U32_LIMIT, 1000)
            else (Max(count, 1) * 1000) % U32_LIMIT
    ensures if bytes > 0 then LeastCover(us, bytes, rate) else us == 1000 * Max(count, 1)
  {
    MulMono(rate, OUT_BYTES_PER_MS, U32_LIMIT - 1);
    assert bytes < U32_LIMIT && bytes % U32_LIMIT == bytes;
    if bytes > 0 {
      RoundUpFits(bytes * 1000, rate);
      LeastIsRounded(bytes, rate);
    }
  }

  /** Every transfer with a plausible number of descriptors takes at least one millisecond. */
  lemma DurationAtLeastOneMs(descs: seq<Desc>, input: bool)
    requires |descs| * 1000 < U32_LIMIT
    ensures DurationUs(descs, input) >= 1000
  {
  }

  /** A gigabyte-sized transfer is paced as one millisecond: the bound is needed. */
  lemma HugeTransferIsMispaced()
    ensures DurationUs([Desc(0, 1649267442)], false) == 1000
    ensures PacedBytes([Desc(0, 1649267442)], false) * 1000 > 1000 * OUT_BYTES_PER_MS
  {
    assert [Desc(0, 1649267442)][1..] == [];
    assert PacedBytes([], false) == 0;
    assert PacedBytes([Desc(0, 1649267442)], false) == 1649267442;
    assert RoundUpDiv(1649267442000, 384) == 4294967297;
  }
}
