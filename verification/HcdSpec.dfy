/**
 The virtual host controller of module/vds_hcd_core.c as a state machine: one function for
 each section the driver runs under its lock. Time is in nanoseconds, as in the kernel.
 */
module HcdSpec {
  import opened Base
  import MicQueue
  import IsoTransfer

  // Linux error numbers, as negative statuses.
  const EAGAIN := -11
  const EBUSY := -16
  const EINVAL := -22
  const ENOSPC := -28
  const EPIPE := -32
  const EIDRM := -43
  const EMSGSIZE := -90
  const ESHUTDOWN := -108

  const HID_PACKET_SIZE := 64
  const MAX_EVENTS := 16384
  const HEADER_SIZE := 16

  /** A reading of the monotonic clock; it has been running since boot. */
  type Time = t: int | 0 < t witness 1

  datatype Profile = Profile(
    hidIn: nat, hidOut: nat, audioOut: nat, audioIn: Option<nat>, hidIntervalUs: nat)

  /** Both shipped profiles agree on endpoints and polling interval. */
  const DUALSENSE := Profile(4, 3, 1, Some(2), 1000)

  datatype Control =
    | GetFeature(reportId: Byte, length: nat)
    | SetFeature(reportId: Byte)
    | OtherControl(result: int)

  datatype Pipe = ControlPipe(request: Control) | InterruptPipe | IsochronousPipe | OtherPipe

  /** A transfer request as the USB core hands it over. */
  datatype Urb = Urb(
    pipe: Pipe, dirIn: bool, endpoint: nat,
    buffer: Option<seq<Byte>>, bufferLength: nat, descs: seq<IsoTransfer.Desc>)
  {
    predicate Valid() { buffer.Some? ==> |buffer.value| == bufferLength }
  }

  datatype ContextState = Active | PendingHidIn | PendingFeatureGet | PendingGiveback | GivingBack

  /**
   The driver's bookkeeping for one accepted request. `serial`, `epoch`, `span` and `doneAt`
   are history: which submission it was, how many resets preceded it, how long it
   occupies its paced stream and when it was taken off the completion queue.
   */
  datatype Context = Context(
    serial: nat, epoch: nat, urb: Urb,
    ready: int, status: int, reportId: Byte, state: ContextState,
    deliverOut: bool, deliverIn: bool,
    actual: nat, errors: nat, delivered: seq<Byte>,
    span: nat, doneAt: int)

  datatype Stream = Untimed | OutStream | InStream | HidStream

  function StreamOf(c: Context): Stream {
    if c.ready == 0 then Untimed
    else if c.deliverOut then OutStream
    else if c.deliverIn then InStream
    else HidStream
  }

  datatype FrameKind = HidOutFrame | FeatureGetFrame | FeatureSetFrame | AudioOutFrame

  datatype Frame = Frame(kind: FrameKind, sequence: nat, payload: seq<Byte>)

  /**
   The device. `giving` is the request the completion thread is handing back, `returned` the
   requests already handed back in order, `accepted` the number of requests ever accepted and
   `epoch` the number of disconnects and restarts so far; the last three are history.
   */
  datatype Dev = Dev(
    profile: Profile,
    events: seq<Frame>, nextSequence: nat, framesToUser: nat, framesFromUser: nat,
    pendingHidIn: seq<Context>, pendingFeature: seq<Context>, completed: seq<Context>,
    input: seq<seq<Byte>>, mic: MicQueue.Queue,
    nextIsoOut: int, nextIsoIn: int, nextHidIn: int,
    stopping: bool, connected: bool,
    cache: map<Byte, seq<Byte>>,
    giving: Option<Context>, returned: seq<Context>, accepted: nat, epoch: nat)

  function Init(profile: Profile): Dev {
    Dev(profile, [], 0, 0, 0, [], [], [], [], [], 0, 0, 0, false, false, map[], None, [], 0, 0)
  }

  // Frames towards the daemon ------------------------------------------------------------

  function EnqueueStatus(d: Dev, payload: seq<Byte>): int {
    if |payload| > IsoTransfer.FRAME_MAX_PAYLOAD then EMSGSIZE
    else if d.stopping then ESHUTDOWN
    else if |d.events| >= MAX_EVENTS then ENOSPC
    else 0
  }

  function EnqueueFrame(d: Dev, kind: FrameKind, payload: seq<Byte>): Dev {
    if EnqueueStatus(d, payload) != 0 then d
    else d.(events := d.events + [Frame(kind, d.nextSequence, payload)],
            nextSequence := d.nextSequence + 1,
            framesToUser := d.framesToUser + 1)
  }

  function EnqueueSpans(d: Dev, spans: seq<IsoTransfer.Span>, buffer: seq<Byte>): Dev
    requires IsoTransfer.Inside(spans, |buffer|)
    decreases |spans|
  {
    if spans == [] then d
    else EnqueueSpans(EnqueueFrame(d, AudioOutFrame, IsoTransfer.Bytes(spans[0], buffer)), spans[1..], buffer)
  }

  function ReadStatus(d: Dev, count: nat): int {
    if d.events == [] then (if d.stopping then ESHUTDOWN else EAGAIN)
    else if count < HEADER_SIZE + |d.events[0].payload| then EMSGSIZE
    else 0
  }

  function Read(d: Dev, count: nat): Dev {
    if ReadStatus(d, count) != 0 then d else d.(events := d.events[1..])
  }

  // The completion queue -----------------------------------------------------------------

  /** `c` goes in front of queue entry `p`. */
  predicate Before(c: Context, p: Context) {
    if c.ready == 0 then p.ready != 0 else p.ready != 0 && p.ready > c.ready
  }

  /** The position a newly completed request takes. */
  function Slot(c: Context, queue: seq<Context>): (i: nat)
    ensures i <= |queue|
  {
    if queue == [] || Before(c, queue[0]) then 0 else 1 + Slot(c, queue[1..])
  }

  function Insert(c: Context, queue: seq<Context>): seq<Context> {
    queue[..Slot(c, queue)] + [c] + queue[Slot(c, queue)..]
  }

  function QueueGiveback(c: Context, status: int, queue: seq<Context>): seq<Context> {
    if c.state == PendingGiveback || c.state == GivingBack then queue
    else Insert(c.(status := status, state := PendingGiveback), queue)
  }

  /** Every request of `pending` completed with `status`, in order. */
  function QueueAll(pending: seq<Context>, status: int, queue: seq<Context>): seq<Context> {
    if pending == [] then queue
    else QueueAll(pending[1..], status, QueueGiveback(pending[0], status, queue))
  }

  function CancelPending(d: Dev, status: int): Dev {
    d.(completed := QueueAll(d.pendingFeature, status, QueueAll(d.pendingHidIn, status, d.completed)),
       pendingHidIn := [], pendingFeature := [])
  }

  function FlushBuffered(d: Dev): Dev {
    d.(input := [], mic := [], events := [])
  }

  // Submitting ---------------------------------------------------------------------------

  function FilledLength(urb: Urb, payload: seq<Byte>): nat {
    Min(|payload|, urb.bufferLength)
  }

  /** An input report copied into the request. */
  function FillHidIn(c: Context, payload: seq<Byte>): Context {
    var n := FilledLength(c.urb, payload);
    c.(actual := n, delivered := if c.urb.buffer.Some? then payload[..n] else c.delivered)
  }

  function FillFeatureStatus(urb: Urb, payload: seq<Byte>): int {
    if FilledLength(urb, payload) > 0 && urb.buffer.None? then EPIPE else 0
  }

  function FillFeature(c: Context, payload: seq<Byte>): Context {
    var n := FilledLength(c.urb, payload);
    if FillFeatureStatus(c.urb, payload) != 0 then c else c.(actual := n, delivered := payload[..n])
  }

  /** The ready time `spanUs` microseconds after the later of the stream's clock and now. */
  function Schedule(clock: int, now: Time, spanUs: nat): int {
    Max(clock, now) + spanUs * 1000
  }

  function ScheduleHid(d: Dev, c: Context, now: Time): Context {
    c.(ready := Schedule(d.nextHidIn, now, d.profile.hidIntervalUs), span := d.profile.hidIntervalUs * 1000)
  }

  function ScheduleIso(d: Dev, c: Context, now: Time, input: bool): Context {
    var us := IsoTransfer.DurationUs(c.urb.descs, input);
    c.(ready := Schedule(if input then d.nextIsoIn else d.nextIsoOut, now, us), span := us * 1000)
  }

  function NewContext(d: Dev, urb: Urb): Context {
    Context(d.accepted, d.epoch, urb, 0, 0, 0, Active, false, false, 0, 0, [], 0, 0)
  }

  function Complete(d: Dev, c: Context, status: int): Dev {
    d.(completed := QueueGiveback(c, status, d.completed))
  }

  /** The report a SET_REPORT request carries, behind its id. */
  function SetFeatureFrame(urb: Urb, id: Byte): seq<Byte> {
    [id] + if urb.buffer.Some? then urb.buffer.value else []
  }

  function SetFeatureStatus(d: Dev, urb: Urb, id: Byte): int {
    if urb.bufferLength == 0 then 0
    else if urb.buffer.None? || urb.bufferLength > HID_PACKET_SIZE then EPIPE
    else EnqueueStatus(d, SetFeatureFrame(urb, id))
  }

  function SetFeatureSent(d: Dev, urb: Urb, id: Byte): Dev {
    if urb.bufferLength == 0 then d else EnqueueFrame(d, FeatureSetFrame, SetFeatureFrame(urb, id))
  }

  function SubmitControl(d: Dev, c: Context, request: Control): Dev {
    match request
    case OtherControl(result) => Complete(d, c, result)
    case SetFeature(id) =>
      if SetFeatureStatus(d, c.urb, id) != 0 then Complete(d, c, SetFeatureStatus(d, c.urb, id))
      else Complete(SetFeatureSent(d, c.urb, id), c.(actual := c.urb.bufferLength), 0)
    case GetFeature(id, length) =>
      if id in d.cache then
        Complete(d, FillFeature(c, d.cache[id]), FillFeatureStatus(c.urb, d.cache[id]))
      else
        var waiting := c.(reportId := id, state := PendingFeatureGet);
        var frame := [id, length % 256, length / 256 % 256];
        var status := EnqueueStatus(d, frame);
        if status != 0 then Complete(d, waiting, status)
        else EnqueueFrame(d, FeatureGetFrame, frame).(pendingFeature := d.pendingFeature + [waiting])
  }

  function SubmitInterruptIn(d: Dev, c: Context, now: Time): Dev {
    if d.input != [] then
      var filled := ScheduleHid(d, FillHidIn(c, d.input[0]), now);
      Complete(d.(input := d.input[1..], nextHidIn := filled.ready), filled, 0)
    else
      d.(pendingHidIn := d.pendingHidIn + [c.(state := PendingHidIn)])
  }

  function SubmitInterruptOut(d: Dev, c: Context): Dev {
    if c.urb.bufferLength == 0 then Complete(d, c, 0)
    else if c.urb.buffer.None? || c.urb.bufferLength > HID_PACKET_SIZE then Complete(d, c, EPIPE)
    else Complete(EnqueueFrame(d, HidOutFrame, c.urb.buffer.value), c.(actual := c.urb.bufferLength), 0)
  }

  function SubmitIso(d: Dev, c: Context, now: Time): Dev {
    if !c.urb.dirIn && c.urb.endpoint == d.profile.audioOut then
      if c.urb.buffer.None? then Complete(d, c, EPIPE)
      else
        var timed := ScheduleIso(d, c.(deliverOut := true), now, false);
        Complete(d.(nextIsoOut := timed.ready), timed, 0)
    else if c.urb.dirIn && d.profile.audioIn == Some(c.urb.endpoint) then
      if c.urb.buffer.None? then Complete(d, c, EPIPE)
      else
        var timed := ScheduleIso(d, c.(deliverIn := true), now, true);
        Complete(d.(nextIsoIn := timed.ready), timed, 0)
    else Complete(d, c, EPIPE)
  }

  /** `linked` is what the USB core answered when asked to link the request. */
  function SubmitStatus(d: Dev, linked: int): int {
    if d.stopping then ESHUTDOWN else linked
  }

  /** What happens to a request once it is linked. */
  function Dispatch(d: Dev, c: Context, now: Time): Dev {
    match c.urb.pipe
    case ControlPipe(request) => SubmitControl(d, c, request)
    case InterruptPipe =>
      if c.urb.dirIn && c.urb.endpoint == d.profile.hidIn then SubmitInterruptIn(d, c, now)
      else if !c.urb.dirIn && c.urb.endpoint == d.profile.hidOut then SubmitInterruptOut(d, c)
      else Complete(d, c, EPIPE)
    case IsochronousPipe => SubmitIso(d, c, now)
    case OtherPipe => Complete(d, c, EPIPE)
  }

  function Submit(d: Dev, urb: Urb, linked: int, now: Time): Dev {
    if SubmitStatus(d, linked) != 0 then d
    else Dispatch(d.(accepted := d.accepted + 1), NewContext(d, urb), now)
  }

  // Cancelling ---------------------------------------------------------------------------

  /** The position of submission `serial`, or the length when it is not there. */
  function Find(serial: nat, l: seq<Context>): (i: nat)
    ensures i <= |l|
    ensures i < |l| ==> l[i].serial == serial
    ensures forall j | 0 <= j < i :: l[j].serial != serial
  {
    if l == [] || l[0].serial == serial then 0 else 1 + Find(serial, l[1..])
  }

  predicate Has(serial: nat, l: seq<Context>) {
    Find(serial, l) < |l|
  }

  function Without(i: nat, l: seq<Context>): seq<Context>
    requires i < |l|
  {
    l[..i] + l[i + 1..]
  }

  /** The request is still linked to its endpoint, so the core's unlink check can succeed. */
  predicate Linked(d: Dev, serial: nat) {
    Has(serial, d.completed) || Has(serial, d.pendingHidIn) || Has(serial, d.pendingFeature)
  }

  /** `check` is the answer of the core's unlink check for a linked request. */
  function CancelStatus(d: Dev, serial: nat, check: int): int {
    if Linked(d, serial) then check else EIDRM
  }

  function Cancel(d: Dev, serial: nat, status: int, check: int): Dev {
    if CancelStatus(d, serial, check) != 0 then d
    else if Has(serial, d.completed) then
      var i := Find(serial, d.completed);
      d.(completed := d.completed[i := d.completed[i].(status := status, ready := 0)])
    else if Has(serial, d.pendingHidIn) then
      var i := Find(serial, d.pendingHidIn);
      Complete(d, d.pendingHidIn[i], status).(pendingHidIn := Without(i, d.pendingHidIn))
    else
      var i := Find(serial, d.pendingFeature);
      Complete(d, d.pendingFeature[i], status).(pendingFeature := Without(i, d.pendingFeature))
  }

  // Frames from the daemon ---------------------------------------------------------------

  function WriteInputStatus(d: Dev, payload: seq<Byte>): int {
    if payload == [] || |payload| > HID_PACKET_SIZE then EINVAL
    else if d.stopping then ESHUTDOWN
    else 0
  }

  function WriteInput(d: Dev, payload: seq<Byte>, now: Time): Dev {
    if WriteInputStatus(d, payload) != 0 then d
    else
      var counted := d.(framesFromUser := d.framesFromUser + 1);
      if d.pendingHidIn != [] then
        var filled := ScheduleHid(d, FillHidIn(d.pendingHidIn[0], payload), now);
        Complete(counted.(nextHidIn := filled.ready), filled, 0).(pendingHidIn := d.pendingHidIn[1..])
      else if d.input != [] then
        counted.(input := d.input[..|d.input| - 1] + [payload])
      else
        counted.(input := [payload])
  }

  predicate Waits(c: Context, id: Byte) { c.reportId == id }

  /** The requests that keep waiting when a reply for `id` arrives. */
  function Others(l: seq<Context>, id: Byte): seq<Context> {
    if l == [] then []
    else (if Waits(l[0], id) then [] else [l[0]]) + Others(l[1..], id)
  }

  /** The waiters for `payload`'s report answered with it, in order. */
  function Answer(l: seq<Context>, payload: seq<Byte>, queue: seq<Context>): seq<Context>
    requires payload != []
  {
    if l == [] then queue
    else if Waits(l[0], payload[0]) then
      Answer(l[1..], payload,
        QueueGiveback(FillFeature(l[0], payload), FillFeatureStatus(l[0].urb, payload), queue))
    else Answer(l[1..], payload, queue)
  }

  function WriteFeatureStatus(d: Dev, payload: seq<Byte>): int {
    if payload == [] || |payload| > HID_PACKET_SIZE then EINVAL
    else if d.stopping then ESHUTDOWN
    else 0
  }

  function WriteFeature(d: Dev, payload: seq<Byte>): Dev {
    if payload == [] || |payload| > HID_PACKET_SIZE then d
    else
      var cached := d.(cache := d.cache[payload[0] := payload]);
      if d.stopping then cached
      else cached.(completed := Answer(d.pendingFeature, payload, d.completed),
                   pendingFeature := Others(d.pendingFeature, payload[0]),
                   framesFromUser := d.framesFromUser + 1)
  }

  function WriteAudioStatus(d: Dev, payload: seq<Byte>): int {
    if payload == [] then EINVAL
    else if d.stopping then ESHUTDOWN
    else 0
  }

  function WriteAudio(d: Dev, payload: seq<Byte>): Dev {
    if WriteAudioStatus(d, payload) != 0 then d
    else d.(mic := MicQueue.Trim(d.mic, |payload|) + [MicQueue.Packet(0, payload)],
            framesFromUser := d.framesFromUser + 1)
  }

  // Connection ---------------------------------------------------------------------------

  function Connect(d: Dev): Dev {
    if d.stopping then d else d.(connected := true)
  }

  function Disconnect(d: Dev): Dev {
    if d.stopping then d
    else FlushBuffered(CancelPending(d, ESHUTDOWN)).(
      nextIsoOut := 0, nextIsoIn := 0, nextHidIn := 0,
      connected := false, epoch := d.epoch + 1)
  }

  /** The feature cache is reset under a lock of its own, once a disconnect has let go of the first. */
  function ResetUsb(d: Dev): Dev {
    d.(cache := map[])
  }

  /** Requests that still wait belong to the epoch they will be scheduled in. */
  function Renewed(l: seq<Context>, epoch: nat): (r: seq<Context>)
    ensures |r| == |l| && forall i | 0 <= i < |l| :: r[i] == l[i].(epoch := epoch)
  {
    if l == [] then [] else [l[0].(epoch := epoch)] + Renewed(l[1..], epoch)
  }

  function Start(d: Dev): Dev {
    d.(stopping := false, nextIsoOut := 0, nextIsoIn := 0, nextHidIn := 0, connected := false, epoch := d.epoch + 1,
       pendingHidIn := Renewed(d.pendingHidIn, d.epoch + 1), pendingFeature := Renewed(d.pendingFeature, d.epoch + 1))
  }

  function Stop(d: Dev): Dev {
    FlushBuffered(CancelPending(d.(stopping := true), ESHUTDOWN)).(connected := false)
  }

  function SetProfile(d: Dev, profile: Profile): Dev {
    if d.connected then d else d.(profile := profile, cache := map[])
  }

  // Giving back --------------------------------------------------------------------------

  /**
   The remaining wait in whole microseconds, rounded towards zero as the kernel does; the
   thread goes on once it is not positive.
   */
  predicate Due(c: Context, now: Time) {
    c.ready == 0 || c.ready - now < 1000
  }

  function Pop(d: Dev, now: Time): Dev {
    if d.giving.Some? || d.completed == [] || !Due(d.completed[0], now) then d
    else d.(completed := d.completed[1..],
            giving := Some(d.completed[0].(state := GivingBack, doneAt := now)))
  }

  /** The microphone bytes copied into an IN transfer's descriptors, and the queue left. */
  function FillIn(descs: seq<IsoTransfer.Desc>, buffer: seq<Byte>, mic: MicQueue.Queue):
    (r: (seq<Byte>, MicQueue.Queue))
    ensures |r.0| == |buffer|
  {
    if descs == [] then (buffer, mic)
    else if !IsoTransfer.Fits(descs[0], |buffer|) then FillIn(descs[1..], buffer, mic)
    else
      var n := Min(descs[0].length, MicQueue.BYTES_PER_MS);
      var start := descs[0].offset;
      FillIn(descs[1..],
        buffer[..start] + MicQueue.Taken(mic, n) + buffer[start + n..],
        MicQueue.Consume(mic, n))
  }

  function TransferTotal(descs: seq<IsoTransfer.Desc>, size: nat, input: bool): nat {
    if descs == [] then 0
    else (if IsoTransfer.Fits(descs[0], size) then IsoTransfer.PacedLength(descs[0], input) else 0)
         + TransferTotal(descs[1..], size, input)
  }

  /** What handing back `c` does: play its audio, fill it from the microphone, or nothing. */
  function Deliver(d: Dev, c: Context): (Dev, Context) {
    if c.status != 0 || !(c.deliverOut || c.deliverIn) then (d, c)
    else if c.urb.buffer.None? then (d, c.(status := EPIPE))
    else
      var buffer := c.urb.buffer.value;
      var counted := c.(actual := TransferTotal(c.urb.descs, |buffer|, c.deliverIn && !c.deliverOut) % U32_LIMIT,
                        errors := IsoTransfer.ErrorCount(c.urb.descs, |buffer|));
      if c.deliverOut then
        IsoTransfer.SpansInside(c.urb.descs, |buffer|, None);
        (EnqueueSpans(d, IsoTransfer.Spans(c.urb.descs, |buffer|, None), buffer), counted)
      else
        var (filled, mic) := FillIn(c.urb.descs, buffer, d.mic);
        (d.(mic := mic), counted.(delivered := filled))
  }

  function Finish(d: Dev): Dev {
    if d.giving.None? then d
    else
      var (d', c) := Deliver(d, d.giving.value);
      d'.(giving := None, returned := d.returned + [c])
  }

  // Runs ---------------------------------------------------------------------------------

  datatype Event =
    | DoSubmit(urb: Urb, linked: int, now: Time)
    | DoCancel(serial: nat, status: int, check: int)
    | DoWriteInput(payload: seq<Byte>, now: Time)
    | DoWriteFeature(payload: seq<Byte>)
    | DoWriteAudio(payload: seq<Byte>)
    | DoRead(count: nat)
    | DoConnect
    | DoDisconnect
    | DoResetUsb
    | DoStop
    | DoStart
    | DoSetProfile(profile: Profile)
    | DoPop(now: Time)
    | DoFinish

  /** A frame longer than the protocol allows never gets past the file interface. */
  predicate TooLong(payload: seq<Byte>) { |payload| > IsoTransfer.FRAME_MAX_PAYLOAD }

  function Step(d: Dev, e: Event): Dev {
    match e
    case DoSubmit(urb, linked, now) => Submit(d, urb, linked, now)
    case DoCancel(serial, status, check) => Cancel(d, serial, status, check)
    case DoWriteInput(payload, now) => if TooLong(payload) then d else WriteInput(d, payload, now)
    case DoWriteFeature(payload) => if TooLong(payload) then d else WriteFeature(d, payload)
    case DoWriteAudio(payload) => if TooLong(payload) then d else WriteAudio(d, payload)
    case DoRead(count) => Read(d, count)
    case DoConnect => Connect(d)
    case DoDisconnect => Disconnect(d)
    case DoResetUsb => ResetUsb(d)
    case DoStop => Stop(d)
    case DoStart => Start(d)
    case DoSetProfile(profile) => SetProfile(d, profile)
    case DoPop(now) => Pop(d, now)
    case DoFinish => Finish(d)
  }

  function Run(d: Dev, events: seq<Event>): Dev
    decreases |events|
  {
    if events == [] then d else Run(Step(d, events[0]), events[1..])
  }
}
