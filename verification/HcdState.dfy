/**
 What each locked section does to the rest of the device: its clocks, its flags, the remembered feature
 replies, the microphone and the events for the daemon. Each is stated from the fields before the step.
 */
module HcdState {
  import opened Base
  import opened HcdSpec
  import opened HcdQueue
  import opened HcdInvariant
  import opened HcdSteps
  import opened HcdTheorems
  import opened HcdOutcome
  import MicQueue
  import IsoTransfer

  predicate Accepts(d: Dev, e: Event) { e.DoSubmit? && !d.stopping && e.linked == 0 }

  predicate Resets(d: Dev, e: Event) { e.DoStart? || (e.DoDisconnect? && !d.stopping) }

  // Clocks ---------------------------------------------------------------------------------

  /** The input clock moves with each report a request takes, by one polling interval. */
  function HidClock(d: Dev, e: Event): int {
    match e
    case DoSubmit(urb, _, now) =>
      if Accepts(d, e) && urb.pipe == InterruptPipe && urb.dirIn && urb.endpoint == d.profile.hidIn && d.input != []
      then Later(d.nextHidIn, now, d.profile.hidIntervalUs) else d.nextHidIn
    case DoWriteInput(payload, now) =>
      if GoodReport(d, payload) && d.pendingHidIn != [] then Later(d.nextHidIn, now, d.profile.hidIntervalUs)
      else d.nextHidIn
    case _ => if Resets(d, e) then 0 else d.nextHidIn
  }

  /** An audio clock moves with each transfer accepted, by the transfer's duration. */
  function PlayClock(d: Dev, e: Event): int {
    if Accepts(d, e) && e.urb.pipe == IsochronousPipe && PlaysAudio(d, e.urb)
    then Later(d.nextIsoOut, e.now, IsoTransfer.DurationUs(e.urb.descs, false))
    else if Resets(d, e) then 0 else d.nextIsoOut
  }

  function RecordClock(d: Dev, e: Event): int {
    if Accepts(d, e) && e.urb.pipe == IsochronousPipe && RecordsAudio(d, e.urb)
    then Later(d.nextIsoIn, e.now, IsoTransfer.DurationUs(e.urb.descs, true))
    else if Resets(d, e) then 0 else d.nextIsoIn
  }

  predicate ClocksAre(d: Dev, hid: int, play: int, record: int) {
    d.nextHidIn == hid && d.nextIsoOut == play && d.nextIsoIn == record
  }

  predicate SameClocks(d: Dev, d': Dev) {
    ClocksAre(d', d.nextHidIn, d.nextIsoOut, d.nextIsoIn)
  }

  lemma ControlClocks(d: Dev, c: Context, request: Control)
    ensures SameClocks(d, SubmitControl(d, c, request))
  {
    match request
    case OtherControl(result) =>
    case SetFeature(id) => assert SameClocks(d, SetFeatureSent(d, c.urb, id));
    case GetFeature(id, length) =>
      assert SameClocks(d, EnqueueFrame(d, FeatureGetFrame, [id, length % 256, length / 256 % 256]));
  }

  lemma SubmitClocks(d: Dev, urb: Urb, linked: int, now: Time)
    ensures var e := DoSubmit(urb, linked, now);
      ClocksAre(Submit(d, urb, linked, now), HidClock(d, e), PlayClock(d, e), RecordClock(d, e))
  {
    if SubmitStatus(d, linked) == 0 {
      var d', c := Accepting(d), NewContext(d, urb);
      assert Submit(d, urb, linked, now) == Dispatch(d', c, now);
      match urb.pipe
      case ControlPipe(request) => ControlClocks(d', c, request);
      case InterruptPipe =>
      case IsochronousPipe =>
      case OtherPipe =>
    }
  }

  lemma CancelKeepsAll(d: Dev, serial: nat, status: int, check: int)
    ensures SameFlags(d, Cancel(d, serial, status, check)) && SameClocks(d, Cancel(d, serial, status, check))
    ensures Cancel(d, serial, status, check).mic == d.mic
  {
  }

  lemma OthersMoveClocks(d: Dev, e: Event)
    requires !e.DoSubmit? && !e.DoFinish? && !e.DoCancel?
    ensures ClocksAre(Step(d, e), HidClock(d, e), PlayClock(d, e), RecordClock(d, e))
  {
    match e
    case DoWriteInput(payload, now) =>
    case DoDisconnect =>
    case DoStart =>
    case _ =>
  }

  lemma ClocksMove(d: Dev, e: Event)
    requires Buffers(d)
    ensures ClocksAre(Step(d, e), HidClock(d, e), PlayClock(d, e), RecordClock(d, e))
  {
    if e.DoSubmit? {
      SubmitClocks(d, e.urb, e.linked, e.now);
    } else if e.DoFinish? {
      if d.giving.Some? { DeliverKeepsTiming(d, d.giving.value); }
    } else if e.DoCancel? {
      CancelKeepsAll(d, e.serial, e.status, e.check);
    } else {
      OthersMoveClocks(d, e);
    }
  }

  // Flags and the feature cache ------------------------------------------------------------

  function ConnectedAfter(d: Dev, e: Event): bool {
    match e
    case DoConnect => d.connected || !d.stopping
    case DoDisconnect => d.connected && d.stopping
    case DoStop => false
    case DoStart => false
    case _ => d.connected
  }

  function StoppingAfter(d: Dev, e: Event): bool {
    if e.DoStop? then true else if e.DoStart? then false else d.stopping
  }

  /** The device's profile can change only while no controller is connected. */
  function ProfileAfter(d: Dev, e: Event): Profile {
    if e.DoSetProfile? && !d.connected then e.profile else d.profile
  }

  /** A feature reply is remembered until the device is reset or becomes another one. */
  function CacheAfter(d: Dev, e: Event): map<Byte, seq<Byte>> {
    match e
    case DoWriteFeature(payload) => if 0 < |payload| <= 64 then d.cache[payload[0] := payload] else d.cache
    case DoResetUsb => map[]
    case DoSetProfile(_) => if d.connected then d.cache else map[]
    case _ => d.cache
  }

  predicate FlagsAre(d: Dev, connected: bool, stopping: bool, profile: Profile, cache: map<Byte, seq<Byte>>) {
    d.connected == connected && d.stopping == stopping && d.profile == profile && d.cache == cache
  }

  predicate SameFlags(d: Dev, d': Dev) {
    FlagsAre(d', d.connected, d.stopping, d.profile, d.cache)
  }

  lemma ControlFlags(d: Dev, c: Context, request: Control)
    ensures SameFlags(d, SubmitControl(d, c, request))
  {
    match request
    case OtherControl(result) =>
    case SetFeature(id) => assert SameFlags(d, SetFeatureSent(d, c.urb, id));
    case GetFeature(id, length) =>
      assert SameFlags(d, EnqueueFrame(d, FeatureGetFrame, [id, length % 256, length / 256 % 256]));
  }

  lemma SubmitFlags(d: Dev, urb: Urb, linked: int, now: Time)
    ensures SameFlags(d, Submit(d, urb, linked, now))
  {
    if SubmitStatus(d, linked) == 0 {
      var d', c := Accepting(d), NewContext(d, urb);
      assert Submit(d, urb, linked, now) == Dispatch(d', c, now);
      match urb.pipe
      case ControlPipe(request) => ControlFlags(d', c, request);
      case InterruptPipe =>
      case IsochronousPipe =>
      case OtherPipe =>
    }
  }

  lemma DeliverFlags(d: Dev, c: Context)
    requires Buffers(d)
    ensures SameFlags(d, Deliver(d, c).0)
  {
    if c.status == 0 && c.deliverOut && c.urb.buffer.Some? {
      var buffer := c.urb.buffer.value;
      IsoTransfer.SpansInside(c.urb.descs, |buffer|, None);
      EnqueueSpansKeeps(d, IsoTransfer.Spans(c.urb.descs, |buffer|, None), buffer);
    }
  }

  /** The flags of a device that keeps its cache. */
  lemma FramesKeepFlags(d: Dev, e: Event)
    requires e.DoWriteInput? || e.DoWriteAudio? || e.DoRead? || e.DoPop?
    ensures SameFlags(d, Step(d, e))
  {
  }

  lemma ConnectionFlags(d: Dev, e: Event)
    requires e.DoConnect? || e.DoDisconnect? || e.DoStop? || e.DoStart?
    ensures FlagsAre(Step(d, e), ConnectedAfter(d, e), StoppingAfter(d, e), d.profile, d.cache)
  {
  }

  lemma CacheMoves(d: Dev, e: Event)
    requires e.DoWriteFeature? || e.DoResetUsb? || e.DoSetProfile?
    ensures FlagsAre(Step(d, e), d.connected, d.stopping, ProfileAfter(d, e), CacheAfter(d, e))
  {
  }

  lemma FlagsMove(d: Dev, e: Event)
    requires Buffers(d)
    ensures FlagsAre(Step(d, e), ConnectedAfter(d, e), StoppingAfter(d, e), ProfileAfter(d, e), CacheAfter(d, e))
  {
    if e.DoSubmit? {
      SubmitFlags(d, e.urb, e.linked, e.now);
    } else if e.DoFinish? {
      if d.giving.Some? { DeliverFlags(d, d.giving.value); }
    } else if e.DoConnect? || e.DoDisconnect? || e.DoStop? || e.DoStart? {
      ConnectionFlags(d, e);
    } else if e.DoWriteFeature? || e.DoResetUsb? || e.DoSetProfile? {
      CacheMoves(d, e);
    } else {
      if e.DoCancel? { CancelKeepsAll(d, e.serial, e.status, e.check); } else { FramesKeepFlags(d, e); }
    }
  }

  // Microphone -----------------------------------------------------------------------------

  /** Packets `k` and later are kept: as many of the newest as leave room for `length` bytes. */
  predicate KeptFrom(mic: MicQueue.Queue, k: nat, length: nat) {
    && k <= |mic| && |MicQueue.Unread(mic[k..])| + length <= 19200
    && (k > 0 ==> |MicQueue.Unread(mic[k - 1..])| + length > 19200)
  }

  /** The bytes handing back takes from the microphone. */
  function Drawn(d: Dev): nat {
    if d.giving.Some? && d.giving.value.status == 0 && !d.giving.value.deliverOut && d.giving.value.deliverIn
       && d.giving.value.urb.buffer.Some?
    then Moved(d.giving.value.urb.descs, |d.giving.value.urb.buffer.value|, true) else 0
  }

  /** A packet the daemon records goes behind the newest packets that leave it room. */
  ghost predicate Appended(mic: MicQueue.Queue, payload: seq<Byte>, mic': MicQueue.Queue) {
    exists k: nat :: KeptFrom(mic, k, |payload|) && mic' == mic[k..] + [MicQueue.Packet(0, payload)]
  }

  lemma MicGrows(d: Dev, payload: seq<Byte>)
    requires 0 < |payload| <= 4096 && !d.stopping
    ensures Appended(d.mic, payload, Step(d, DoWriteAudio(payload)).mic)
  {
    var k := MicQueue.TrimDropsFewestOldest(d.mic, |payload|);
    assert KeptFrom(d.mic, k, |payload|);
  }

  lemma SubmitMic(d: Dev, urb: Urb, linked: int, now: Time)
    ensures Submit(d, urb, linked, now).mic == d.mic
  {
    if SubmitStatus(d, linked) == 0 {
      var d', c := Accepting(d), NewContext(d, urb);
      match urb.pipe
      case ControlPipe(request) => assert SubmitControl(d', c, request).mic == d.mic;
      case InterruptPipe =>
      case IsochronousPipe =>
      case OtherPipe =>
    }
  }

  /** Handing back takes the oldest bytes, and nothing else but a disconnect or a stop takes any. */
  lemma OthersMoveMic(d: Dev, e: Event)
    requires !e.DoSubmit? && !e.DoFinish? && !e.DoDisconnect? && !e.DoStop? && !e.DoCancel?
    requires e.DoWriteAudio? ==> e.payload == [] || |e.payload| > 4096 || d.stopping
    ensures Step(d, e).mic == d.mic
  {
  }

  lemma MicMoves(d: Dev, e: Event)
    requires Buffers(d) && (e.DoWriteAudio? ==> e.payload == [] || |e.payload| > 4096 || d.stopping)
    ensures MicQueue.Unread(Step(d, e).mic) ==
      if (e.DoDisconnect? && !d.stopping) || e.DoStop? then []
      else if e.DoFinish? then Rest(MicQueue.Unread(d.mic), Drawn(d)) else MicQueue.Unread(d.mic)
  {
    if e.DoSubmit? {
      SubmitMic(d, e.urb, e.linked, e.now);
    } else if e.DoFinish? {
      if d.giving.Some? { DeliverMic(d, d.giving.value); }
    } else if e.DoCancel? {
      CancelKeepsAll(d, e.serial, e.status, e.check);
    } else if !e.DoDisconnect? && !e.DoStop? {
      OthersMoveMic(d, e);
    }
  }

  lemma DeliverMic(d: Dev, c: Context)
    requires Buffers(d) && d.giving == Some(c)
    ensures MicQueue.Unread(Deliver(d, c).0.mic) == Rest(MicQueue.Unread(d.mic), Drawn(d))
  {
    if c.status == 0 && c.urb.buffer.Some? {
      var buffer := c.urb.buffer.value;
      if c.deliverOut {
        IsoTransfer.SpansInside(c.urb.descs, |buffer|, None);
        EnqueueSpansKeeps(d, IsoTransfer.Spans(c.urb.descs, |buffer|, None), buffer);
      } else if c.deliverIn {
        FillInRecords(c.urb.descs, buffer, d.mic);
      }
    }
  }

  // Events ---------------------------------------------------------------------------------

  /** What the daemon is told when a request is accepted. */
  function Told(d: Dev, urb: Urb): seq<Frame> {
    if |d.events| >= 16384 then []
    else
      match urb.pipe
      case InterruptPipe =>
        if !urb.dirIn && urb.endpoint == d.profile.hidOut && 0 < urb.bufferLength <= 64 && urb.buffer.Some?
           && |urb.buffer.value| <= 4096
        then [Frame(HidOutFrame, d.nextSequence, urb.buffer.value)] else []
      case ControlPipe(SetFeature(id)) =>
        if 0 < urb.bufferLength <= 64 && urb.buffer.Some? && 1 + |urb.buffer.value| <= 4096
        then [Frame(FeatureSetFrame, d.nextSequence, [id] + urb.buffer.value)] else []
      case ControlPipe(GetFeature(id, length)) =>
        if id in d.cache then [] else [Frame(FeatureGetFrame, d.nextSequence, [id, length % 256, length / 256 % 256])]
      case _ => []
  }

  /** The daemon reads the oldest event when its buffer holds the header and the payload. */
  function EventsRead(d: Dev, count: nat): seq<Frame> {
    if d.events != [] && 16 + |d.events[0].payload| <= count then d.events[1..] else d.events
  }

  lemma ControlTells(d: Dev, c: Context, request: Control)
    requires !d.stopping && c.urb.pipe == ControlPipe(request)
    ensures SubmitControl(d, c, request).events == d.events + Told(d, c.urb)
  {
    match request
    case OtherControl(result) =>
    case SetFeature(id) =>
    case GetFeature(id, length) =>
  }

  lemma SubmitTells(d: Dev, urb: Urb, linked: int, now: Time)
    ensures Submit(d, urb, linked, now).events
         == if Accepts(d, DoSubmit(urb, linked, now)) then d.events + Told(d, urb) else d.events
  {
    if SubmitStatus(d, linked) == 0 {
      var d', c := Accepting(d), NewContext(d, urb);
      assert Told(d', urb) == Told(d, urb);
      match urb.pipe
      case ControlPipe(request) => ControlTells(d', c, request);
      case InterruptPipe =>
      case IsochronousPipe =>
      case OtherPipe =>
    }
  }

  /** Every step but handing back audio, which `HandBackPlaysExactly` and `FramesAreCoalesced` describe. */
  lemma EventsMove(d: Dev, e: Event)
    requires !e.DoFinish?
    ensures Step(d, e).events ==
      match e
      case DoSubmit(urb, _, _) => if Accepts(d, e) then d.events + Told(d, urb) else d.events
      case DoRead(count) => EventsRead(d, count)
      case DoDisconnect => if d.stopping then d.events else []
      case DoStop => []
      case _ => d.events
  {
    if e.DoSubmit? {
      SubmitTells(d, e.urb, e.linked, e.now);
    }
  }

  // Refusals -------------------------------------------------------------------------------

  /** Bad argument, or shut down. */
  function ReportRefusal(d: Dev, payload: seq<Byte>): int {
    if payload == [] || |payload| > 64 then -22 else if d.stopping then -108 else 0
  }

  /** An input report is counted exactly when it is taken, and a refused one changes nothing. */
  lemma InputRefused(d: Dev, payload: seq<Byte>, now: Time)
    ensures WriteInputStatus(d, payload) == ReportRefusal(d, payload)
    ensures var d' := Step(d, DoWriteInput(payload, now));
      if ReportRefusal(d, payload) == 0 then d'.framesFromUser == d.framesFromUser + 1 else d' == d
  {
  }

  /** A refused feature reply is at most remembered. */
  lemma FeatureRefused(d: Dev, payload: seq<Byte>)
    ensures WriteFeatureStatus(d, payload) == ReportRefusal(d, payload)
    ensures var d' := Step(d, DoWriteFeature(payload));
      if ReportRefusal(d, payload) == 0 then d'.framesFromUser == d.framesFromUser + 1
      else d' == d.(cache := CacheAfter(d, DoWriteFeature(payload)))
  {
  }

  lemma AudioRefused(d: Dev, payload: seq<Byte>)
    requires |payload| <= 4096
    ensures WriteAudioStatus(d, payload) == if payload == [] then -22 else if d.stopping then -108 else 0
    ensures var d' := Step(d, DoWriteAudio(payload));
      if payload != [] && !d.stopping then d'.framesFromUser == d.framesFromUser + 1 else d' == d
  {
  }

  /** A read is refused when there is nothing yet, nothing any more, or too little room; it takes nothing then. */
  lemma ReadRefused(d: Dev, count: nat)
    ensures ReadStatus(d, count) ==
      if d.events == [] then (if d.stopping then -108 else -11)
      else if count < 16 + |d.events[0].payload| then -90 else 0
    ensures ReadStatus(d, count) != 0 ==> Step(d, DoRead(count)) == d
  {
  }

  /** The thread takes the head as it is and notes when. */
  lemma HeadIsTaken(d: Dev, now: Time)
    requires d.giving.None? && Pop(d, now).giving.Some?
    ensures d.completed != [] && Pop(d, now).completed == d.completed[1..]
    ensures var head, hand := d.completed[0], Pop(d, now).giving.value;
      hand.serial == head.serial && hand.ready == head.ready && hand.doneAt == now
      && OutcomeOf(hand) == OutcomeOf(head) && hand.urb == head.urb
  {
  }

  /** A request is refused once stopping, and otherwise when the USB core does not link it; nothing changes then. */
  lemma SubmitRefused(d: Dev, urb: Urb, linked: int, now: Time)
    ensures SubmitStatus(d, linked) == if d.stopping then -108 else linked
    ensures SubmitStatus(d, linked) != 0 ==> Step(d, DoSubmit(urb, linked, now)) == d
  {
  }

  /** Cancelling what the thread has taken, or what was never accepted, is refused and changes nothing. */
  lemma CancelRefused(d: Dev, serial: nat, status: int, check: int)
    requires Inv(d)
    ensures CancelStatus(d, serial, check) ==
      if serial < d.accepted && !Listed(Giving(d), serial) && !Listed(d.returned, serial) then check else -43
    ensures CancelStatus(d, serial, check) != 0 ==> Step(d, DoCancel(serial, status, check)) == d
  {
    LinkedIffNotTaken(d, serial);
  }

  // Audio frames ---------------------------------------------------------------------------

  /** The spans short enough for a frame. */
  function Short(spans: seq<IsoTransfer.Span>): seq<IsoTransfer.Span> {
    if spans == [] then [] else (if spans[0].length <= 4096 then [spans[0]] else []) + Short(spans[1..])
  }

  /** The frames of the first `room` spans, numbered from `next`. */
  function FramesOf(spans: seq<IsoTransfer.Span>, buffer: seq<Byte>, next: nat, room: nat): seq<Frame>
    requires IsoTransfer.Inside(spans, |buffer|)
  {
    if spans == [] || room == 0 then []
    else [Frame(AudioOutFrame, next, buffer[spans[0].start..spans[0].start + spans[0].length])]
         + FramesOf(spans[1..], buffer, next + 1, room - 1)
  }

  lemma {:induction false} ShortInside(spans: seq<IsoTransfer.Span>, size: nat)
    requires IsoTransfer.Inside(spans, size)
    ensures IsoTransfer.Inside(Short(spans), size)
  {
    if spans != [] { ShortInside(spans[1..], size); }
  }

  lemma FramesOfOne(span: IsoTransfer.Span, rest: seq<IsoTransfer.Span>, buffer: seq<Byte>, next: nat, room: nat)
    requires span.start + span.length <= |buffer| && IsoTransfer.Inside(rest, |buffer|) && room > 0
    ensures IsoTransfer.Inside([span] + rest, |buffer|)
    ensures FramesOf([span] + rest, buffer, next, room)
         == [Frame(AudioOutFrame, next, buffer[span.start..span.start + span.length])]
            + FramesOf(rest, buffer, next + 1, room - 1)
  {
    assert ([span] + rest)[1..] == rest;
  }

  /** One span: a frame if it is short, there is room and the driver is not stopping. */
  lemma SpanAppends(d: Dev, span: IsoTransfer.Span, buffer: seq<Byte>)
    requires span.start + span.length <= |buffer| && |d.events| <= 16384
    ensures var d' := EnqueueFrame(d, AudioOutFrame, IsoTransfer.Bytes(span, buffer));
      if span.length <= 4096 && !d.stopping && |d.events| < 16384
      then d'.events == d.events + [Frame(AudioOutFrame, d.nextSequence, buffer[span.start..span.start + span.length])]
           && d'.nextSequence == d.nextSequence + 1 && d'.stopping == d.stopping
      else d' == d
  {
  }

  function Room(d: Dev): nat
    requires |d.events| <= 16384
  {
    if d.stopping then 0 else 16384 - |d.events|
  }

  lemma NoRoom(spans: seq<IsoTransfer.Span>, buffer: seq<Byte>, next: nat)
    requires IsoTransfer.Inside(spans, |buffer|)
    ensures FramesOf(spans, buffer, next, 0) == []
  {
  }

  lemma ShortHead(spans: seq<IsoTransfer.Span>)
    requires spans != []
    ensures Short(spans) == if spans[0].length <= 4096 then [spans[0]] + Short(spans[1..]) else Short(spans[1..])
  {
  }

  /** Frames go in as long as there is room; one that is too long is passed over, and all are once stopping. */
  lemma {:induction false} SpansAppend(d: Dev, spans: seq<IsoTransfer.Span>, buffer: seq<Byte>)
    requires IsoTransfer.Inside(spans, |buffer|) && IsoTransfer.Inside(Short(spans), |buffer|) && |d.events| <= 16384
    ensures EnqueueSpans(d, spans, buffer).events == d.events + FramesOf(Short(spans), buffer, d.nextSequence, Room(d))
    decreases |spans|
  {
    if spans != [] {
      var span, rest := spans[0], spans[1..];
      var d' := EnqueueFrame(d, AudioOutFrame, IsoTransfer.Bytes(span, buffer));
      SpanAppends(d, span, buffer);
      ShortInside(rest, |buffer|);
      ShortHead(spans);
      SpansAppend(d', rest, buffer);
      if span.length > 4096 {
      } else if Room(d) == 0 {
        NoRoom(Short(spans), buffer, d.nextSequence);
        NoRoom(Short(rest), buffer, d.nextSequence);
      } else {
        FramesOfOne(span, Short(rest), buffer, d.nextSequence, Room(d));
        Assoc(d.events, [Frame(AudioOutFrame, d.nextSequence, buffer[span.start..span.start + span.length])],
          FramesOf(Short(rest), buffer, d.nextSequence + 1, Room(d) - 1));
      }
    }
  }

  /** Handing back an OUT transfer appends its frames, those that fit the queue; `FramesAreCoalesced` says which they are. */
  lemma HandBackFrames(d: Dev, c: Context)
    requires Buffers(d) && c.status == 0 && c.deliverOut && c.urb.buffer.Some?
    ensures var buffer := c.urb.buffer.value;
      var spans := IsoTransfer.Spans(c.urb.descs, |buffer|, None);
      && IsoTransfer.Inside(Short(spans), |buffer|)
      && Deliver(d, c).0.events
         == d.events + FramesOf(Short(spans), buffer, d.nextSequence, Room(d))
  {
    var buffer := c.urb.buffer.value;
    var spans := IsoTransfer.Spans(c.urb.descs, |buffer|, None);
    IsoTransfer.SpansInside(c.urb.descs, |buffer|, None);
    ShortInside(spans, |buffer|);
    SpansAppend(d, spans, buffer);
  }
}
