/**
 The controller itself. `dev` is the driver's `struct vds_hcd_dev`, updated in place by the
 sections the driver runs under its lock; the counters the driver keeps beside its lists are
 fields of their own. Each method is proved to do exactly what the state machine does.
 */
module HcdDevice {
  import opened Base
  import opened HcdSpec
  import opened HcdQueue
  import opened HcdInvariant
  import opened HcdSteps
  import HcdOutcome
  import MicQueue
  import IsoTransfer

  lemma {:induction false} SlotIsUnique(c: Context, queue: seq<Context>, i: nat)
    requires i <= |queue|
    requires forall j | 0 <= j < i :: !Before(c, queue[j])
    requires i < |queue| ==> Before(c, queue[i])
    ensures Slot(c, queue) == i
  {
    if i > 0 {
      SlotIsUnique(c, queue[1..], i - 1);
    }
  }

  lemma WrapStep(total: nat, length: nat, rest: nat)
    ensures ((total + length) % U32_LIMIT + rest) % U32_LIMIT == (total + (length + rest)) % U32_LIMIT
  {}

  /** Buffer, queue, byte total and error count once the descriptors `descs` are served as well. */
  function Served(descs: seq<IsoTransfer.Desc>, filled: seq<Byte>, mic: MicQueue.Queue, total: nat, errors: nat):
    (seq<Byte>, MicQueue.Queue, nat, nat)
  {
    (FillIn(descs, filled, mic).0, FillIn(descs, filled, mic).1,
     total + TransferTotal(descs, |filled|, true), errors + IsoTransfer.ErrorCount(descs, |filled|))
  }

  /** One descriptor more in the 32-bit total of a transfer's length. */
  lemma PacedStep(descs: seq<IsoTransfer.Desc>, i: nat, input: bool, total: nat, length: nat)
    requires i < |descs| && length == IsoTransfer.PacedLength(descs[i], input)
    ensures ((total + length) % U32_LIMIT + IsoTransfer.PacedBytes(descs[i + 1..], input)) % U32_LIMIT
         == (total + IsoTransfer.PacedBytes(descs[i..], input)) % U32_LIMIT
  {
    assert descs[i..][0] == descs[i] && descs[i..][1..] == descs[i + 1..];
    WrapStep(total, length, IsoTransfer.PacedBytes(descs[i + 1..], input));
  }

  lemma PacedEnd(descs: seq<IsoTransfer.Desc>, input: bool, total: nat)
    requires total < U32_LIMIT
    requires (total + IsoTransfer.PacedBytes(descs[|descs|..], input)) % U32_LIMIT
          == IsoTransfer.PacedBytes(descs, input) % U32_LIMIT
    ensures total == IsoTransfer.PacedBytes(descs, input) % U32_LIMIT
  {
  }

  lemma ServedStep(descs: seq<IsoTransfer.Desc>, i: nat, filled: seq<Byte>, mic: MicQueue.Queue, total: nat, errors: nat)
    requires i < |descs|
    ensures Served(descs[i..], filled, mic, total, errors) ==
      var d := descs[i];
      if IsoTransfer.Fits(d, |filled|) then
        var n := Min(d.length, MicQueue.BYTES_PER_MS);
        Served(descs[i + 1..], filled[..d.offset] + MicQueue.Taken(mic, n) + filled[d.offset + n..],
          MicQueue.Consume(mic, n), total + n, errors)
      else Served(descs[i + 1..], filled, mic, total, errors + 1)
  {
    assert descs[i..][0] == descs[i] && descs[i..][1..] == descs[i + 1..];
  }

  /** One waiter of the loop over them. */
  lemma AnswerStep(waiting: seq<Context>, i: nat, payload: seq<Byte>, queue: seq<Context>, kept: seq<Context>)
    requires i < |waiting| && payload != []
    ensures var c := waiting[i];
      if Waits(c, payload[0]) then
        && Answer(waiting[i..], payload, queue) ==
           Answer(waiting[i + 1..], payload, QueueGiveback(FillFeature(c, payload), FillFeatureStatus(c.urb, payload), queue))
        && Others(waiting[i..], payload[0]) == Others(waiting[i + 1..], payload[0])
      else
        && Answer(waiting[i..], payload, queue) == Answer(waiting[i + 1..], payload, queue)
        && kept + Others(waiting[i..], payload[0]) == (kept + [waiting[i]]) + Others(waiting[i + 1..], payload[0])
  {
    var c, rest := waiting[i], Others(waiting[i + 1..], payload[0]);
    assert waiting[i..][0] == c && waiting[i..][1..] == waiting[i + 1..];
    assert kept + ([c] + rest) == (kept + [c]) + rest && [] + rest == rest;
  }

  lemma ServedNone(filled: seq<Byte>, mic: MicQueue.Queue, total: nat, errors: nat)
    ensures Served([], filled, mic, total, errors) == (filled, mic, total, errors)
  {}

  lemma SubmitIsDispatch(d: Dev, urb: Urb, linked: int, now: Time)
    requires SubmitStatus(d, linked) == 0
    ensures Submit(d, urb, linked, now) == Dispatch(Accepting(d), NewContext(d, urb), now)
  {}

  class Device {
    var dev: Dev
    var eventCount: nat
    var inputPacketCount: nat
    var audioInPacketCount: nat
    var audioInQueuedBytes: int

    /** Every counter agrees with the list it counts. */
    ghost predicate Counted()
      reads this
    {
      && eventCount == |dev.events| && inputPacketCount == |dev.input| && audioInPacketCount == |dev.mic|
      && audioInQueuedBytes == |MicQueue.Unread(dev.mic)|
    }

    ghost predicate Valid()
      reads this
    {
      Counted() && Inv(dev)
    }

    constructor (profile: Profile)
      ensures Valid() && dev == Init(profile)
    {
      dev := Init(profile);
      eventCount, inputPacketCount, audioInPacketCount, audioInQueuedBytes := 0, 0, 0, 0;
      new;
      InitInv(profile);
    }

    // The completion queue ---------------------------------------------------------------

    method QueueUrbGiveback(context: Context, status: int) returns (queued: bool)
      modifies this`dev
      ensures dev == Complete(old(dev), context, status)
      ensures queued == !(context.state == PendingGiveback || context.state == GivingBack)
    {
      if context.state == PendingGiveback || context.state == GivingBack {
        return false;
      }
      var done := context.(status := status, state := PendingGiveback);
      var queue := dev.completed;
      var pos := 0;
      if done.ready == 0 {
        while pos < |queue| && queue[pos].ready == 0
          invariant pos <= |queue|
          invariant forall j | 0 <= j < pos :: !Before(done, queue[j])
        {
          pos := pos + 1;
        }
      } else {
        while pos < |queue| && !(queue[pos].ready != 0 && queue[pos].ready > done.ready)
          invariant pos <= |queue|
          invariant forall j | 0 <= j < pos :: !Before(done, queue[j])
        {
          pos := pos + 1;
        }
      }
      SlotIsUnique(done, queue, pos);
      dev := dev.(completed := queue[..pos] + [done] + queue[pos..]);
      queued := true;
    }

    method CancelPendingUrbs(status: int)
      modifies this`dev
      ensures dev == CancelPending(old(dev), status)
    {
      while dev.pendingHidIn != []
        invariant CancelPending(dev, status) == CancelPending(old(dev), status)
        decreases |dev.pendingHidIn|
      {
        var context := dev.pendingHidIn[0];
        dev := dev.(pendingHidIn := dev.pendingHidIn[1..]);
        var queued := QueueUrbGiveback(context, status);
      }
      while dev.pendingFeature != []
        invariant dev.pendingHidIn == [] && CancelPending(dev, status) == CancelPending(old(dev), status)
        decreases |dev.pendingFeature|
      {
        var context := dev.pendingFeature[0];
        dev := dev.(pendingFeature := dev.pendingFeature[1..]);
        var queued := QueueUrbGiveback(context, status);
      }
    }

    method FlushBufferedFrames()
      modifies this
      ensures Counted() && dev == FlushBuffered(old(dev))
    {
      dev := dev.(input := []);
      inputPacketCount := 0;
      dev := dev.(mic := []);
      audioInPacketCount, audioInQueuedBytes := 0, 0;
      dev := dev.(events := []);
      eventCount := 0;
    }

    // Frames towards the daemon -----------------------------------------------------------

    method Enqueue(kind: FrameKind, payload: seq<Byte>) returns (status: int)
      requires Counted()
      modifies this`dev, this`eventCount
      ensures Counted() && status == EnqueueStatus(old(dev), payload)
      ensures dev == EnqueueFrame(old(dev), kind, payload)
    {
      if |payload| > IsoTransfer.FRAME_MAX_PAYLOAD { return EMSGSIZE; }
      if dev.stopping { return ESHUTDOWN; }
      if eventCount >= MAX_EVENTS { return ENOSPC; }
      var event := Frame(kind, dev.nextSequence, payload);
      dev := dev.(events := dev.events + [event], nextSequence := dev.nextSequence + 1);
      eventCount := eventCount + 1;
      dev := dev.(framesToUser := dev.framesToUser + 1);
      status := 0;
    }

    method ReadFrame(count: nat) returns (status: int, frame: Option<Frame>)
      requires Valid()
      modifies this`dev, this`eventCount
      ensures Valid() && dev == Read(old(dev), count) && status == ReadStatus(old(dev), count)
      ensures frame == if status == 0 then Some(old(dev).events[0]) else None
    {
      ReadKeeps(dev, count);
      frame := None;
      if dev.events == [] {
        status := if dev.stopping then ESHUTDOWN else EAGAIN;
      } else if count < HEADER_SIZE + |dev.events[0].payload| {
        status := EMSGSIZE;
      } else {
        frame := Some(dev.events[0]);
        dev := dev.(events := dev.events[1..]);
        eventCount := eventCount - 1;
        status := 0;
      }
    }

    /** The frames of one OUT transfer: adjacent descriptors are sent as one frame. */
    method IsoOutUrb(descs: seq<IsoTransfer.Desc>, buffer: seq<Byte>) returns (actual: nat, errors: nat)
      requires Counted()
      modifies this`dev, this`eventCount
      ensures Counted()
      ensures IsoTransfer.Inside(IsoTransfer.Spans(descs, |buffer|, None), |buffer|)
      ensures dev == EnqueueSpans(old(dev), IsoTransfer.Spans(descs, |buffer|, None), buffer)
      ensures actual == TransferTotal(descs, |buffer|, false) % U32_LIMIT
      ensures errors == IsoTransfer.ErrorCount(descs, |buffer|)
    {
      var chunk: Option<IsoTransfer.Span> := None;
      var total, i := 0, 0;
      errors := 0;
      IsoTransfer.SpansInside(descs, |buffer|, None);
      assert descs[0..] == descs;
      while i < |descs|
        invariant i <= |descs| && Counted()
        invariant IsoTransfer.OpenInside(chunk, |buffer|)
        invariant IsoTransfer.Inside(IsoTransfer.Spans(descs[i..], |buffer|, chunk), |buffer|)
        invariant EnqueueSpans(dev, IsoTransfer.Spans(descs[i..], |buffer|, chunk), buffer)
               == EnqueueSpans(old(dev), IsoTransfer.Spans(descs, |buffer|, None), buffer)
        invariant total + TransferTotal(descs[i..], |buffer|, false) == TransferTotal(descs, |buffer|, false)
        invariant errors + IsoTransfer.ErrorCount(descs[i..], |buffer|) == IsoTransfer.ErrorCount(descs, |buffer|)
      {
        var d := descs[i];
        assert descs[i..][0] == d && descs[i..][1..] == descs[i + 1..];
        i := i + 1;
        if !IsoTransfer.Fits(d, |buffer|) {
          errors := errors + 1;
        } else {
          total := total + d.length;
          if d.length != 0 {
            if chunk.None? {
              chunk := Some(IsoTransfer.Span(d.offset, d.length));
            } else if IsoTransfer.Joins(chunk.value, d) {
              chunk := Some(IsoTransfer.Span(chunk.value.start, chunk.value.length + d.length));
            } else {
              ghost var next := Some(IsoTransfer.Span(d.offset, d.length));
              IsoTransfer.SpansInside(descs[i..], |buffer|, next);
              var status := Enqueue(AudioOutFrame, IsoTransfer.Bytes(chunk.value, buffer));
              chunk := Some(IsoTransfer.Span(d.offset, d.length));
            }
          }
        }
      }
      if chunk.Some? {
        var status := Enqueue(AudioOutFrame, IsoTransfer.Bytes(chunk.value, buffer));
      }
      actual := total % U32_LIMIT;
    }

    // The microphone ----------------------------------------------------------------------

    /** One packet read: all of what is asked for, or all the packet has left. */
    method ReadPacket(length: nat) returns (data: seq<Byte>)
      requires Counted() && dev.mic != []
      modifies this`dev, this`audioInPacketCount, this`audioInQueuedBytes
      ensures Counted() && |data| == Min(length, |old(dev).mic[0].payload| - old(dev).mic[0].offset)
      ensures dev == old(dev).(mic := MicQueue.Consume(old(dev).mic, |data|))
      ensures data == old(dev).mic[0].payload[old(dev).mic[0].offset..old(dev).mic[0].offset + |data|]
      ensures length > |data| ==> |dev.mic| < |old(dev).mic|
    {
      var packet := dev.mic[0];
      var available := |packet.payload| - packet.offset;
      var copyLength := Min(length, available);
      MicQueue.ConsumeDropsOldest(dev.mic, copyLength);
      data := packet.payload[packet.offset..packet.offset + copyLength];
      audioInQueuedBytes := if audioInQueuedBytes > copyLength then audioInQueuedBytes - copyLength else 0;
      if copyLength == available {
        dev := dev.(mic := dev.mic[1..]);
        audioInPacketCount := audioInPacketCount - 1;
      } else if copyLength > 0 {
        dev := dev.(mic := [packet.(offset := packet.offset + copyLength)] + dev.mic[1..]);
      }
    }

    /** Oldest queued bytes first, then silence. */
    method FillAudioIn(length: nat) returns (data: seq<Byte>)
      requires Counted()
      modifies this`dev, this`audioInPacketCount, this`audioInQueuedBytes
      ensures Counted() && dev == old(dev).(mic := MicQueue.Consume(old(dev).mic, length))
      ensures data == MicQueue.Taken(old(dev).mic, length)
    {
      data := [];
      var left: nat := length;
      while left > 0 && dev.mic != []
        invariant Counted() && dev == old(dev).(mic := dev.mic)
        invariant data + MicQueue.Taken(dev.mic, left) == MicQueue.Taken(old(dev).mic, length)
        invariant MicQueue.Consume(dev.mic, left) == MicQueue.Consume(old(dev).mic, length)
        decreases left, |dev.mic|
      {
        ghost var before := dev.mic;
        var bytes := ReadPacket(left);
        MicQueue.ReadsJoinAfter(data, before, bytes, left);
        data, left := data + bytes, left - |bytes|;
      }
      data := data + Zeros(left);
    }

    /** One valid descriptor filled with what the queue has, then silence. */
    method FillDescriptor(d: IsoTransfer.Desc, buffer: seq<Byte>) returns (filled: seq<Byte>, n: nat)
      requires Counted() && IsoTransfer.Fits(d, |buffer|)
      modifies this`dev, this`audioInPacketCount, this`audioInQueuedBytes
      ensures Counted() && n == Min(d.length, MicQueue.BYTES_PER_MS) && |filled| == |buffer|
      ensures dev == old(dev).(mic := MicQueue.Consume(old(dev).mic, n))
      ensures filled == buffer[..d.offset] + MicQueue.Taken(old(dev).mic, n) + buffer[d.offset + n..]
    {
      n := Min(d.length, MicQueue.BYTES_PER_MS);
      var data := FillAudioIn(n);
      filled := buffer[..d.offset] + data + buffer[d.offset + n..];
    }

    method IsoInUrb(descs: seq<IsoTransfer.Desc>, buffer: seq<Byte>)
      returns (filled: seq<Byte>, actual: nat, errors: nat)
      requires Counted()
      modifies this`dev, this`audioInPacketCount, this`audioInQueuedBytes
      ensures Counted() && filled == FillIn(descs, buffer, old(dev).mic).0
      ensures dev == old(dev).(mic := FillIn(descs, buffer, old(dev).mic).1)
      ensures actual == TransferTotal(descs, |buffer|, true) % U32_LIMIT
      ensures errors == IsoTransfer.ErrorCount(descs, |buffer|)
    {
      var total: nat, i: nat := 0, 0;
      errors, filled := 0, buffer;
      assert descs[0..] == descs;
      while i < |descs|
        invariant i <= |descs| && Counted() && dev == old(dev).(mic := dev.mic) && |filled| == |buffer|
        invariant Served(descs[i..], filled, dev.mic, total, errors) == Served(descs, buffer, old(dev).mic, 0, 0)
      {
        ServedStep(descs, i, filled, dev.mic, total, errors);
        if !IsoTransfer.Fits(descs[i], |buffer|) {
          errors := errors + 1;
        } else {
          var n;
          filled, n := FillDescriptor(descs[i], filled);
          total := total + n;
        }
        i := i + 1;
      }
      ServedNone(filled, dev.mic, total, errors);
      actual := total % U32_LIMIT;
    }

    /** Whole oldest packets go until the new one fits. */
    method DropOldest(length: nat)
      requires Counted()
      modifies this`dev, this`audioInPacketCount, this`audioInQueuedBytes
      ensures Counted() && dev == old(dev).(mic := MicQueue.Trim(old(dev).mic, length))
    {
      while dev.mic != [] && audioInQueuedBytes + length > MicQueue.MAX_BYTES
        invariant Counted() && dev == old(dev).(mic := dev.mic)
        invariant MicQueue.Trim(dev.mic, length) == MicQueue.Trim(old(dev).mic, length)
        decreases |dev.mic|
      {
        var available := |dev.mic[0].payload| - dev.mic[0].offset;
        dev := dev.(mic := dev.mic[1..]);
        audioInPacketCount := audioInPacketCount - 1;
        audioInQueuedBytes := if audioInQueuedBytes > available then audioInQueuedBytes - available else 0;
      }
    }

    method WriteAudioIn(payload: seq<Byte>) returns (status: int)
      requires Valid() && !TooLong(payload)
      modifies this
      ensures Valid() && dev == WriteAudio(old(dev), payload) && status == WriteAudioStatus(old(dev), payload)
    {
      WriteAudioKeeps(dev, payload);
      if payload == [] { return EINVAL; }
      if dev.stopping { return ESHUTDOWN; }
      MicQueue.WriteKeepsInv(dev.mic, audioInQueuedBytes, payload);
      DropOldest(|payload|);
      dev := dev.(mic := dev.mic + [MicQueue.Packet(0, payload)]);
      audioInPacketCount := audioInPacketCount + 1;
      audioInQueuedBytes := audioInQueuedBytes + |payload|;
      dev := dev.(framesFromUser := dev.framesFromUser + 1);
      status := 0;
    }

    // Submitting ----------------------------------------------------------------------------

    /** The next free slot of the input stream. */
    method HidReady(now: Time) returns (ready: int)
      modifies this`dev
      ensures ready == Schedule(old(dev).nextHidIn, now, dev.profile.hidIntervalUs)
      ensures dev == old(dev).(nextHidIn := ready)
    {
      var base := if dev.nextHidIn > now then dev.nextHidIn else now;
      ready := base + dev.profile.hidIntervalUs * 1000;
      dev := dev.(nextHidIn := ready);
    }

    method IsoDuration(descs: seq<IsoTransfer.Desc>, isInput: bool) returns (us: nat)
      ensures us == IsoTransfer.DurationUs(descs, isInput)
    {
      us := (Max(|descs|, 1) * 1000) % U32_LIMIT;
      var total, i := 0, 0;
      assert descs[0..] == descs;
      while i < |descs|
        invariant i <= |descs|
        invariant (total + IsoTransfer.PacedBytes(descs[i..], isInput)) % U32_LIMIT
               == IsoTransfer.PacedBytes(descs, isInput) % U32_LIMIT
        invariant 0 <= total < U32_LIMIT
      {
        var length := if isInput then Min(descs[i].length, IsoTransfer.IN_BYTES_PER_MS) else descs[i].length;
        PacedStep(descs, i, isInput, total, length);
        total := (total + length) % U32_LIMIT;
        i := i + 1;
      }
      PacedEnd(descs, isInput, total);
      if total != 0 {
        us := Max(IsoTransfer.RoundUpDiv(total * 1000, IsoTransfer.Rate(isInput)) % U32_LIMIT, 1000);
      }
    }

    method SubmitSetReport(context: Context, id: Byte)
      requires Counted()
      modifies this
      ensures Counted() && dev == SubmitControl(old(dev), context, SetFeature(id))
    {
      var urb := context.urb;
      if urb.bufferLength > 0 && (urb.buffer.None? || urb.bufferLength > HID_PACKET_SIZE) {
        var queued := QueueUrbGiveback(context, EPIPE);
        return;
      }
      if urb.bufferLength > 0 {
        var status := Enqueue(FeatureSetFrame, [id] + urb.buffer.value);
        if status != 0 {
          var queued := QueueUrbGiveback(context, status);
          return;
        }
      }
      var queued := QueueUrbGiveback(context.(actual := urb.bufferLength), 0);
    }

    method SubmitControlUrb(context: Context, request: Control)
      requires Counted()
      modifies this
      ensures Counted() && dev == SubmitControl(old(dev), context, request)
    {
      match request {
        case OtherControl(result) =>
          var queued := QueueUrbGiveback(context, result);
        case SetFeature(id) =>
          SubmitSetReport(context, id);
        case GetFeature(id, length) =>
          if id in dev.cache {
            var queued := QueueUrbGiveback(FillFeature(context, dev.cache[id]), FillFeatureStatus(context.urb, dev.cache[id]));
          } else {
            var waiting := context.(reportId := id, state := PendingFeatureGet);
            dev := dev.(pendingFeature := dev.pendingFeature + [waiting]);
            var status := Enqueue(FeatureGetFrame, [id, length % 256, length / 256 % 256]);
            if status != 0 {
              dev := dev.(pendingFeature := dev.pendingFeature[..|dev.pendingFeature| - 1]);
              var queued := QueueUrbGiveback(waiting, status);
            }
          }
      }
    }

    method SubmitInterruptInUrb(context: Context, now: Time)
      requires Counted()
      modifies this
      ensures Counted() && dev == SubmitInterruptIn(old(dev), context, now)
      ensures old(dev).input != [] && context.state == Active ==>
              HcdOutcome.HasReport(dev.completed, context, old(dev).input[0])
    {
      if dev.input != [] {
        if context.state == Active { HcdOutcome.ReaderFindsReport(dev, context, now); }
        var filled := FillHidIn(context, dev.input[0]);
        dev := dev.(input := dev.input[1..]);
        inputPacketCount := inputPacketCount - 1;
        var ready := HidReady(now);
        var queued := QueueUrbGiveback(filled.(ready := ready, span := dev.profile.hidIntervalUs * 1000), 0);
      } else {
        dev := dev.(pendingHidIn := dev.pendingHidIn + [context.(state := PendingHidIn)]);
      }
    }

    method SubmitInterruptOutUrb(context: Context)
      requires Counted()
      modifies this
      ensures Counted() && dev == SubmitInterruptOut(old(dev), context)
    {
      if context.urb.bufferLength == 0 {
        var queued := QueueUrbGiveback(context, 0);
      } else if context.urb.buffer.None? || context.urb.bufferLength > HID_PACKET_SIZE {
        var queued := QueueUrbGiveback(context, EPIPE);
      } else {
        var status := Enqueue(HidOutFrame, context.urb.buffer.value);
        var queued := QueueUrbGiveback(context.(actual := context.urb.bufferLength), 0);
      }
    }

    method SubmitIsoUrb(context: Context, now: Time)
      requires Counted() && !context.deliverOut && !context.deliverIn
      modifies this
      ensures Counted() && dev == SubmitIso(old(dev), context, now)
    {
      var urb := context.urb;
      var output := !urb.dirIn && urb.endpoint == dev.profile.audioOut;
      var isInput := urb.dirIn && dev.profile.audioIn == Some(urb.endpoint);
      if (!output && !isInput) || urb.buffer.None? {
        var queued := QueueUrbGiveback(context, EPIPE);
        return;
      }
      var us := IsoDuration(urb.descs, isInput);
      var clock := if isInput then dev.nextIsoIn else dev.nextIsoOut;
      var base := if clock > now then clock else now;
      var timed := context.(ready := base + us * 1000, span := us * 1000, deliverOut := output,
                            deliverIn := isInput);
      if isInput { dev := dev.(nextIsoIn := timed.ready); } else { dev := dev.(nextIsoOut := timed.ready); }
      ghost var d := old(dev);
      if output {
        assert timed == ScheduleIso(d, context.(deliverOut := true), now, false);
      } else {
        assert timed == ScheduleIso(d, context.(deliverIn := true), now, true);
      }
      var queued := QueueUrbGiveback(timed, 0);
    }

    /** `vds_urb_enqueue`; linking and listing are one step here. */
    method SubmitUrb(urb: Urb, linked: int, now: Time) returns (status: int)
      requires Valid()
      modifies this
      ensures Valid() && dev == Submit(old(dev), urb, linked, now)
      ensures status == SubmitStatus(old(dev), linked)
    {
      SubmitKeeps(dev, urb, linked, now);
      status := LinkUrb(urb, linked, now);
    }

    method LinkUrb(urb: Urb, linked: int, now: Time) returns (status: int)
      requires Counted()
      modifies this
      ensures Counted() && dev == Submit(old(dev), urb, linked, now)
      ensures status == SubmitStatus(old(dev), linked)
    {
      if dev.stopping { return ESHUTDOWN; }
      if linked != 0 { return linked; }
      var context := Context(dev.accepted, dev.epoch, urb, 0, 0, 0, Active, false, false, 0, 0, [], 0, 0);
      ghost var before := dev;
      dev := dev.(accepted := dev.accepted + 1);
      SubmitIsDispatch(before, urb, linked, now);
      assert dev == Accepting(before) && context == NewContext(before, urb);
      DispatchUrb(context, now);
      status := 0;
    }

    method DispatchUrb(context: Context, now: Time)
      requires Counted() && context.state == Active
      requires !context.deliverOut && !context.deliverIn
      modifies this
      ensures Counted() && dev == Dispatch(old(dev), context, now)
    {
      var urb := context.urb;
      match urb.pipe {
        case ControlPipe(request) => SubmitControlUrb(context, request);
        case InterruptPipe =>
          if urb.dirIn && urb.endpoint == dev.profile.hidIn {
            SubmitInterruptInUrb(context, now);
          } else if !urb.dirIn && urb.endpoint == dev.profile.hidOut {
            SubmitInterruptOutUrb(context);
          } else {
            var queued := QueueUrbGiveback(context, EPIPE);
          }
        case IsochronousPipe => SubmitIsoUrb(context, now);
        case OtherPipe => var queued := QueueUrbGiveback(context, EPIPE);
      }
    }

    // Cancelling ----------------------------------------------------------------------------

    /** `vds_urb_dequeue` of submission `serial`. */
    method CancelUrb(serial: nat, status: int, check: int) returns (result: int)
      requires Valid()
      modifies this
      ensures Valid() && dev == Cancel(old(dev), serial, status, check)
      ensures result == CancelStatus(old(dev), serial, check)
    {
      CancelKeeps(dev, serial, status, check);
      var queuedAt := Find(serial, dev.completed);
      var hidAt := Find(serial, dev.pendingHidIn);
      var featureAt := Find(serial, dev.pendingFeature);
      if queuedAt == |dev.completed| && hidAt == |dev.pendingHidIn| && featureAt == |dev.pendingFeature| { return EIDRM; }
      if check != 0 { return check; }
      result := 0;
      if queuedAt < |dev.completed| {
        dev := dev.(completed := dev.completed[queuedAt := dev.completed[queuedAt].(status := status, ready := 0)]);
      } else if hidAt < |dev.pendingHidIn| {
        var context := dev.pendingHidIn[hidAt];
        dev := dev.(pendingHidIn := dev.pendingHidIn[..hidAt] + dev.pendingHidIn[hidAt + 1..]);
        var queued := QueueUrbGiveback(context, status);
      } else {
        var context := dev.pendingFeature[featureAt];
        dev := dev.(pendingFeature := dev.pendingFeature[..featureAt] + dev.pendingFeature[featureAt + 1..]);
        var queued := QueueUrbGiveback(context, status);
      }
    }

    // Frames from the daemon ------------------------------------------------------------------

    method WriteInputFrame(payload: seq<Byte>, now: Time) returns (status: int)
      requires Valid()
      modifies this
      ensures Valid() && dev == WriteInput(old(dev), payload, now)
      ensures status == WriteInputStatus(old(dev), payload)
      ensures status == 0 && old(dev).pendingHidIn != [] ==>
              HcdOutcome.HasReport(dev.completed, old(dev).pendingHidIn[0], payload)
    {
      WriteInputKeeps(dev, payload, now);
      if WriteInputStatus(dev, payload) == 0 && dev.pendingHidIn != [] {
        HcdOutcome.ReportReachesReader(dev, payload, now);
      }
      if payload == [] || |payload| > HID_PACKET_SIZE { return EINVAL; }
      if dev.stopping { return ESHUTDOWN; }
      if dev.pendingHidIn != [] {
        var filled := FillHidIn(dev.pendingHidIn[0], payload);
        dev := dev.(pendingHidIn := dev.pendingHidIn[1..]);
        var ready := HidReady(now);
        var queued := QueueUrbGiveback(filled.(ready := ready, span := dev.profile.hidIntervalUs * 1000), 0);
      } else if dev.input != [] {
        dev := dev.(input := dev.input[..|dev.input| - 1] + [payload]);
      } else {
        dev := dev.(input := [payload]);
        inputPacketCount := inputPacketCount + 1;
      }
      dev := dev.(framesFromUser := dev.framesFromUser + 1);
      status := 0;
    }

    method CompletePendingFeatureReplies(payload: seq<Byte>)
      requires payload != []
      modifies this`dev
      ensures dev == old(dev).(completed := Answer(old(dev).pendingFeature, payload, old(dev).completed),
                               pendingFeature := Others(old(dev).pendingFeature, payload[0]))
    {
      var waiting := dev.pendingFeature;
      var kept: seq<Context>, i := [], 0;
      assert waiting[0..] == waiting;
      while i < |waiting|
        invariant i <= |waiting| && dev == old(dev).(completed := dev.completed)
        invariant Answer(waiting[i..], payload, dev.completed) == Answer(waiting, payload, old(dev).completed)
        invariant kept + Others(waiting[i..], payload[0]) == Others(waiting, payload[0])
      {
        var context := waiting[i];
        AnswerStep(waiting, i, payload, dev.completed, kept);
        i := i + 1;
        if context.reportId == payload[0] {
          var status := FillFeatureStatus(context.urb, payload);
          var queued := QueueUrbGiveback(FillFeature(context, payload), status);
        } else {
          kept := kept + [context];
        }
      }
      dev := dev.(pendingFeature := kept);
    }

    /** The cache update and the completion of the waiters, in one step. */
    method WriteFeatureReply(payload: seq<Byte>) returns (status: int)
      requires Valid()
      modifies this
      ensures Valid() && dev == WriteFeature(old(dev), payload)
      ensures status == WriteFeatureStatus(old(dev), payload)
    {
      WriteFeatureKeeps(dev, payload);
      if payload == [] || |payload| > HID_PACKET_SIZE { return EINVAL; }
      dev := dev.(cache := dev.cache[payload[0] := payload]);
      if dev.stopping { return ESHUTDOWN; }
      CompletePendingFeatureReplies(payload);
      dev := dev.(framesFromUser := dev.framesFromUser + 1);
      status := 0;
    }

    // Connection ------------------------------------------------------------------------------

    /** The whole of `vds_set_connection`: the locked section, then the reset of the USB state. */
    method SetConnection(connect: bool)
      requires Valid()
      modifies this
      ensures Valid()
      ensures dev == if connect then Connect(old(dev))
                     else if old(dev).stopping then old(dev) else ResetUsb(Disconnect(old(dev)))
    {
      var resetUsb := !connect && !dev.stopping;
      ChangeConnection(connect);
      if resetUsb {
        ResetUsbState();
      }
    }

    method ResetUsbState()
      requires Valid()
      modifies this
      ensures Valid() && dev == ResetUsb(old(dev))
    {
      ResetUsbKeeps(dev);
      dev := dev.(cache := map[]);
    }

    method ChangeConnection(connect: bool)
      requires Valid()
      modifies this
      ensures Valid() && dev == if connect then Connect(old(dev)) else Disconnect(old(dev))
    {
      if connect { ConnectKeeps(dev); } else { DisconnectKeeps(dev); }
      if dev.stopping { return; }
      if connect {
        dev := dev.(connected := true);
      } else {
        CancelPendingUrbs(ESHUTDOWN);
        FlushBufferedFrames();
        dev := dev.(nextIsoOut := 0, nextIsoIn := 0, nextHidIn := 0);
        dev := dev.(connected := false);
        dev := dev.(epoch := dev.epoch + 1);
      }
    }

    /** The core starts the controller, for the first time or again. */
    method StartController()
      requires Valid()
      modifies this
      ensures Valid() && dev == Start(old(dev))
    {
      StartKeeps(dev);
      dev := dev.(stopping := false);
      dev := dev.(nextIsoOut := 0, nextIsoIn := 0, nextHidIn := 0);
      dev := dev.(connected := false);
      dev := dev.(epoch := dev.epoch + 1);
      dev := dev.(pendingHidIn := Renewed(dev.pendingHidIn, dev.epoch),
                  pendingFeature := Renewed(dev.pendingFeature, dev.epoch));
    }

    method StopController()
      requires Valid()
      modifies this
      ensures Valid() && dev == Stop(old(dev))
    {
      StopKeeps(dev);
      dev := dev.(stopping := true);
      CancelPendingUrbs(ESHUTDOWN);
      FlushBufferedFrames();
      dev := dev.(connected := false);
    }

    method ChangeProfile(newProfile: Profile) returns (status: int)
      requires Valid()
      modifies this
      ensures Valid() && dev == SetProfile(old(dev), newProfile)
      ensures status == if old(dev).connected then EBUSY else 0
    {
      SetProfileKeeps(dev, newProfile);
      if dev.connected { return EBUSY; }
      dev := dev.(profile := newProfile);
      dev := dev.(cache := map[]);
      status := 0;
    }

    // Giving back -------------------------------------------------------------------------------

    /** The completion thread takes the head of the queue when its time has come. */
    method TakeCompleted(now: Time)
      requires Valid()
      modifies this
      ensures Valid() && dev == Pop(old(dev), now)
    {
      PopKeeps(dev, now);
      if dev.giving.Some? || dev.completed == [] { return; }
      var context := dev.completed[0];
      if context.ready != 0 && context.ready - now >= 1000 { return; }
      dev := dev.(completed := dev.completed[1..]);
      dev := dev.(giving := Some(context.(state := GivingBack, doneAt := now)));
    }

    method DeliverAudio(taken: Context) returns (context: Context)
      requires Counted()
      modifies this
      ensures Counted() && (dev, context) == Deliver(old(dev), taken)
    {
      context := taken;
      if context.status == 0 && (context.deliverOut || context.deliverIn) {
        if context.urb.buffer.None? {
          context := context.(status := EPIPE);
        } else if context.deliverOut {
          var actual, errors := IsoOutUrb(context.urb.descs, context.urb.buffer.value);
          context := context.(actual := actual, errors := errors);
        } else {
          var filled, actual, errors := IsoInUrb(context.urb.descs, context.urb.buffer.value);
          context := context.(actual := actual, errors := errors, delivered := filled);
        }
      }
    }

    /** The thread delivers the audio of the request in hand and hands it back. */
    method GiveBack()
      requires Valid()
      modifies this
      ensures Valid() && dev == Finish(old(dev))
    {
      FinishKeeps(dev);
      if dev.giving.None? { return; }
      var context := DeliverAudio(dev.giving.value);
      DeliverKeepsTiming(old(dev), old(dev).giving.value);
      dev := dev.(giving := None);
      dev := dev.(returned := dev.returned + [context]);
    }
  }
}
