/**
 What the host is told about each of its requests. A ticket is kept for one submission from what happens at
 the driver's boundary alone, and over every run the request handed back is what its ticket says.
 */
module HcdOutcome {
  import opened Base
  import opened HcdSpec
  import opened HcdQueue
  import opened HcdInvariant
  import opened HcdSteps
  import opened HcdTheorems
  import HcdOrder
  import MicQueue
  import IsoTransfer

  /** What a request comes back with. */
  datatype Outcome = Outcome(status: int, ready: int, actual: nat, errors: nat, delivered: seq<Byte>)

  /** One accepted request: whether it moves audio when handed back, and its outcome once it has one. */
  datatype Ticket = Ticket(urb: Urb, audio: bool, outcome: Option<Outcome>)

  function Bare(status: int): Outcome {
    Outcome(status, 0, 0, 0, [])
  }

  /** An input report, cut to what the host asked for. */
  function Report(urb: Urb, payload: seq<Byte>, ready: int): Outcome {
    var n := Min(|payload|, urb.bufferLength);
    Outcome(0, ready, n, 0, if urb.buffer.Some? then payload[..n] else [])
  }

  /** A feature report, cut to what the host asked for; a broken pipe when there is nowhere to put it. */
  function Reply(urb: Urb, payload: seq<Byte>): Outcome {
    var n := Min(|payload|, urb.bufferLength);
    if n > 0 && urb.buffer.None? then Bare(-32) else Outcome(0, 0, n, 0, payload[..n])
  }

  /** `us` microseconds after the later of the stream's clock and now. */
  function Later(clock: int, now: Time, us: nat): int {
    (if clock > now then clock else now) + us * 1000
  }

  function Sent(urb: Urb): Outcome {
    if urb.bufferLength == 0 then Bare(0)
    else if urb.buffer.None? || urb.bufferLength > 64 then Bare(-32)
    else Outcome(0, 0, urb.bufferLength, 0, [])
  }

  /** A report sent with SET_REPORT goes to the daemon with its id in front, if the daemon's queue takes it. */
  function SentReport(d: Dev, urb: Urb): Outcome {
    if urb.bufferLength == 0 || urb.buffer.None? || urb.bufferLength > 64 then Sent(urb)
    else if 1 + |urb.buffer.value| > 4096 then Bare(-90)
    else if |d.events| >= 16384 then Bare(-28)
    else Sent(urb)
  }

  predicate PlaysAudio(d: Dev, urb: Urb) {
    !urb.dirIn && urb.endpoint == d.profile.audioOut && urb.buffer.Some?
  }

  predicate RecordsAudio(d: Dev, urb: Urb) {
    urb.dirIn && d.profile.audioIn == Some(urb.endpoint) && urb.buffer.Some?
  }

  function IsoTicket(d: Dev, urb: Urb, now: Time): Ticket {
    var out := Later(d.nextIsoOut, now, IsoTransfer.DurationUs(urb.descs, false));
    var in_ := Later(d.nextIsoIn, now, IsoTransfer.DurationUs(urb.descs, true));
    if PlaysAudio(d, urb) then Ticket(urb, true, Some(Outcome(0, out, 0, 0, [])))
    else if RecordsAudio(d, urb) then Ticket(urb, true, Some(Outcome(0, in_, 0, 0, [])))
    else Ticket(urb, false, Some(Bare(-32)))
  }

  function InterruptOutcome(d: Dev, urb: Urb, now: Time): Option<Outcome> {
    if urb.dirIn && urb.endpoint == d.profile.hidIn then
      if d.input == [] then None
      else Some(Report(urb, d.input[0], Later(d.nextHidIn, now, d.profile.hidIntervalUs)))
    else if !urb.dirIn && urb.endpoint == d.profile.hidOut then Some(Sent(urb))
    else Some(Bare(-32))
  }

  function ControlOutcome(d: Dev, urb: Urb, request: Control): Option<Outcome> {
    match request
    case OtherControl(result) => Some(Bare(result))
    case SetFeature(_) => Some(SentReport(d, urb))
    case GetFeature(id, _) =>
      if id in d.cache then Some(Reply(urb, d.cache[id]))
      else if |d.events| >= 16384 then Some(Bare(-28))
      else None
  }

  /** The ticket of a request just accepted. */
  function Issued(d: Dev, urb: Urb, now: Time): Ticket {
    match urb.pipe
    case ControlPipe(request) => Ticket(urb, false, ControlOutcome(d, urb, request))
    case InterruptPipe => Ticket(urb, false, InterruptOutcome(d, urb, now))
    case IsochronousPipe => IsoTicket(d, urb, now)
    case OtherPipe => Ticket(urb, false, Some(Bare(-32)))
  }

  // Audio ----------------------------------------------------------------------------------

  predicate Inside(desc: IsoTransfer.Desc, size: nat) {
    desc.offset <= size && desc.length <= size - desc.offset
  }

  /** Bytes one descriptor moves: a recording one never more than a millisecond's worth. */
  function Share(desc: IsoTransfer.Desc, input: bool): nat {
    if input && desc.length > 192 then 192 else desc.length
  }

  /** Bytes the descriptors inside the buffer move. */
  function Moved(descs: seq<IsoTransfer.Desc>, size: nat, input: bool): nat {
    if descs == [] then 0
    else (if Inside(descs[0], size) then Share(descs[0], input) else 0) + Moved(descs[1..], size, input)
  }

  /** Descriptors outside the buffer. */
  function Outside(descs: seq<IsoTransfer.Desc>, size: nat): nat {
    if descs == [] then 0 else (if Inside(descs[0], size) then 0 else 1) + Outside(descs[1..], size)
  }

  /** The next `n` bytes of a stream, silence where it ends. */
  function Next(stream: seq<Byte>, n: nat): (next: seq<Byte>)
    ensures |next| == n
  {
    if n <= |stream| then stream[..n] else stream + Zeros(n - |stream|)
  }

  function Rest(stream: seq<Byte>, n: nat): seq<Byte> {
    if n <= |stream| then stream[n..] else []
  }

  /** `stream` recorded into the descriptors inside the buffer, one after the other. */
  function Recorded(descs: seq<IsoTransfer.Desc>, buffer: seq<Byte>, stream: seq<Byte>): (r: seq<Byte>)
    ensures |r| == |buffer|
    decreases |descs|
  {
    if descs == [] then buffer
    else if !Inside(descs[0], |buffer|) then Recorded(descs[1..], buffer, stream)
    else
      var at, n := descs[0].offset, Share(descs[0], true);
      Recorded(descs[1..], buffer[..at] + Next(stream, n) + buffer[at + n..], Rest(stream, n))
  }

  /** What handing back makes of an audio request. */
  function HandedBack(urb: Urb, o: Outcome, stream: seq<Byte>): Outcome
    requires urb.buffer.Some?
  {
    var buffer := urb.buffer.value;
    o.(actual := Moved(urb.descs, |buffer|, urb.dirIn) % 0x1_0000_0000,
       errors := Outside(urb.descs, |buffer|),
       delivered := if urb.dirIn then Recorded(urb.descs, buffer, stream) else o.delivered)
  }

  // Tickets --------------------------------------------------------------------------------

  ghost predicate Listed(l: seq<Context>, k: nat) {
    exists c | c in l :: c.serial == k
  }

  /** A feature request that waits for report `id`. */
  predicate Awaits(t: Ticket, id: Byte) {
    t.outcome.None? && t.urb.pipe.ControlPipe? && t.urb.pipe.request.GetFeature? && t.urb.pipe.request.reportId == id
  }

  predicate GoodReport(d: Dev, payload: seq<Byte>) {
    0 < |payload| <= 64 && !d.stopping
  }

  function ShutDown(t: Ticket): Option<Outcome> {
    if t.outcome.None? then Some(Bare(-108)) else t.outcome
  }

  /** Cancelling overrides the status of a request not yet taken, and its ready time; its data stays. */
  function Cancelled(t: Ticket, status: int): Outcome {
    if t.outcome.None? then Bare(status) else t.outcome.value.(status := status, ready := 0)
  }

  /** The outcome of request `k` after step `e`. */
  ghost function Changed(d: Dev, e: Event, k: nat, t: Ticket): Option<Outcome> {
    match e
    case DoWriteInput(payload, now) =>
      if GoodReport(d, payload) && d.pendingHidIn != [] && d.pendingHidIn[0].serial == k
      then Some(Report(t.urb, payload, Later(d.nextHidIn, now, d.profile.hidIntervalUs)))
      else t.outcome
    case DoWriteFeature(payload) =>
      if GoodReport(d, payload) && Awaits(t, payload[0]) then Some(Reply(t.urb, payload)) else t.outcome
    case DoCancel(serial, status, check) =>
      if serial == k && check == 0 && !Listed(Giving(d), k) && !Listed(d.returned, k) then Some(Cancelled(t, status))
      else t.outcome
    case DoDisconnect => if d.stopping then t.outcome else ShutDown(t)
    case DoStop => ShutDown(t)
    case DoFinish =>
      if Listed(Giving(d), k) && t.audio && t.urb.buffer.Some? && t.outcome.Some? && t.outcome.value.status == 0
      then Some(HandedBack(t.urb, t.outcome.value, MicQueue.Unread(d.mic)))
      else t.outcome
    case _ => t.outcome
  }

  /** The ticket of submission `k` after step `e`. */
  ghost function Track(d: Dev, e: Event, k: nat, t: Option<Ticket>): Option<Ticket> {
    if e.DoSubmit? then
      if k == d.accepted && !d.stopping && e.linked == 0 then Some(Issued(d, e.urb, e.now)) else t
    else if t.None? then None
    else Some(t.value.(outcome := Changed(d, e, k, t.value)))
  }

  ghost function TicketAfter(d: Dev, events: seq<Event>, k: nat, t: Option<Ticket>): Option<Ticket>
    decreases |events|
  {
    if events == [] then t else TicketAfter(Step(d, events[0]), events[1..], k, Track(d, events[0], k, t))
  }

  // What the driver keeps of a ticket ------------------------------------------------------

  function OutcomeOf(c: Context): Outcome {
    Outcome(c.status, c.ready, c.actual, c.errors, c.delivered)
  }

  predicate Audio(c: Context) { c.deliverOut || c.deliverIn }

  /** Audio is played by transfers to the device and recorded by transfers from it. */
  predicate Directed(c: Context) {
    Audio(c) ==> c.urb.buffer.Some? && c.deliverOut == !c.urb.dirIn && c.deliverIn == c.urb.dirIn
  }

  predicate Settled(c: Context, k: nat, t: Option<Ticket>) {
    c.serial == k ==> t == Some(Ticket(c.urb, Audio(c), Some(OutcomeOf(c)))) && Directed(c)
  }

  predicate Blank(c: Context) {
    c.ready == 0 && c.actual == 0 && c.errors == 0 && c.delivered == [] && !c.deliverOut && !c.deliverIn
  }

  predicate Reader(c: Context, k: nat, t: Option<Ticket>) {
    c.serial == k ==> t == Some(Ticket(c.urb, false, None)) && Blank(c) && c.urb.pipe == InterruptPipe
  }

  predicate Asks(c: Context) {
    c.urb.pipe.ControlPipe? && c.urb.pipe.request.GetFeature? && c.urb.pipe.request.reportId == c.reportId
  }

  predicate Asker(c: Context, k: nat, t: Option<Ticket>) {
    c.serial == k ==> t == Some(Ticket(c.urb, false, None)) && Blank(c) && Asks(c)
  }

  predicate AllSettled(l: seq<Context>, k: nat, t: Option<Ticket>) {
    forall c | c in l :: Settled(c, k, t)
  }

  predicate AllReaders(l: seq<Context>, k: nat, t: Option<Ticket>) {
    forall c | c in l :: Reader(c, k, t)
  }

  predicate AllAskers(l: seq<Context>, k: nat, t: Option<Ticket>) {
    forall c | c in l :: Asker(c, k, t)
  }

  predicate Tracks(d: Dev, k: nat, t: Option<Ticket>) {
    && AllReaders(d.pendingHidIn, k, t) && AllAskers(d.pendingFeature, k, t)
    && AllSettled(d.completed, k, t) && AllSettled(Giving(d), k, t) && AllSettled(d.returned, k, t)
  }

  predicate Accounted(d: Dev, k: nat, t: Option<Ticket>) {
    (t.Some? <==> k < d.accepted) && Tracks(d, k, t)
  }

  predicate Unanswered(t: Option<Ticket>) { t.None? || t.value.outcome.None? }

  /** A request without an outcome is on no list of completed ones. */
  lemma UnansweredIsNotSettled(l: seq<Context>, k: nat, t: Option<Ticket>, t': Option<Ticket>)
    requires AllSettled(l, k, t) && Unanswered(t)
    ensures AllSettled(l, k, t')
  {
    forall c | c in l
      ensures Settled(c, k, t')
    {
      assert Settled(c, k, t);
    }
  }

  /** A request with an outcome waits for nothing. */
  lemma AnsweredIsNotWaiting(d: Dev, k: nat, t: Option<Ticket>, t': Option<Ticket>)
    requires AllReaders(d.pendingHidIn, k, t) && AllAskers(d.pendingFeature, k, t) && !Unanswered(t)
    ensures AllReaders(d.pendingHidIn, k, t') && AllAskers(d.pendingFeature, k, t')
  {
    forall c | c in d.pendingHidIn
      ensures Reader(c, k, t')
    {
      assert Reader(c, k, t);
    }
    forall c | c in d.pendingFeature
      ensures Asker(c, k, t')
    {
      assert Asker(c, k, t);
    }
  }

  lemma CountsAbsent(l: seq<Context>, k: nat)
    requires Count(l, k) == 0
    ensures forall c | c in l :: c.serial != k
  {
    forall c | c in l
      ensures c.serial != k
    {
      var i :| 0 <= i < |l| && l[i] == c;
      EntryCounts(l, i);
    }
  }

  lemma NotAccepted(d: Dev, k: nat, t: Option<Ticket>)
    requires Inv(d) && k >= d.accepted
    ensures Tracks(d, k, t)
  {
    assert Total(d, k) == if k < d.accepted then 1 else 0;
    CountsAbsent(d.pendingHidIn, k);
    CountsAbsent(d.pendingFeature, k);
    CountsAbsent(d.completed, k);
    CountsAbsent(Giving(d), k);
    CountsAbsent(d.returned, k);
  }

  // The completion queue -------------------------------------------------------------------

  lemma InsertedFrom(n: Context, q: seq<Context>, c: Context)
    requires c in Insert(n, q)
    ensures c == n || c in q
  {
    var i :| 0 <= i < |Insert(n, q)| && Insert(n, q)[i] == c;
    InsertedAt(n, q, i);
  }

  lemma GivebackSettled(c: Context, status: int, q: seq<Context>, k: nat, t: Option<Ticket>)
    requires Settled(Done(c, status), k, t) && AllSettled(q, k, t)
    ensures AllSettled(QueueGiveback(c, status, q), k, t)
  {
    if c.state != PendingGiveback && c.state != GivingBack {
      forall x | x in Insert(Done(c, status), q)
        ensures Settled(x, k, t)
      {
        InsertedFrom(Done(c, status), q, x);
      }
    }
  }

  predicate SameLists(d: Dev, d': Dev) {
    && d'.pendingHidIn == d.pendingHidIn && d'.pendingFeature == d.pendingFeature
    && d'.completed == d.completed && d'.giving == d.giving && d'.returned == d.returned
  }

  lemma CompleteTracks(d: Dev, d': Dev, c: Context, status: int, k: nat, t: Option<Ticket>)
    requires Tracks(d, k, t) && SameLists(d, d') && Settled(Done(c, status), k, t)
    ensures Tracks(Complete(d', c, status), k, t)
  {
    GivebackSettled(c, status, d.completed, k, t);
    assert Giving(Complete(d', c, status)) == Giving(d);
  }

  // Submitting -----------------------------------------------------------------------------

  /** A request just linked, still in hand, with its ticket. */
  predicate InHand(c: Context, k: nat, t: Option<Ticket>, issued: Ticket) {
    Blank(c) && c.status == 0 && c.state == Active && (c.serial == k ==> t == Some(issued))
  }

  lemma ControlTracks(d: Dev, c: Context, request: Control, k: nat, t: Option<Ticket>)
    requires Tracks(d, k, t) && !d.stopping && c.urb.pipe == ControlPipe(request)
    requires InHand(c, k, t, Ticket(c.urb, false, ControlOutcome(d, c.urb, request)))
    ensures Tracks(SubmitControl(d, c, request), k, t)
  {
    match request
    case OtherControl(result) => CompleteTracks(d, d, c, result, k, t);
    case SetFeature(id) =>
      var status := SetFeatureStatus(d, c.urb, id);
      if status != 0 {
        CompleteTracks(d, d, c, status, k, t);
      } else {
        CompleteTracks(d, SetFeatureSent(d, c.urb, id), c.(actual := c.urb.bufferLength), 0, k, t);
      }
    case GetFeature(id, length) => GetFeatureTracks(d, c, id, length, k, t);
  }

  lemma GetFeatureTracks(d: Dev, c: Context, id: Byte, length: nat, k: nat, t: Option<Ticket>)
    requires Tracks(d, k, t) && !d.stopping && c.urb.pipe == ControlPipe(GetFeature(id, length))
    requires InHand(c, k, t, Ticket(c.urb, false, ControlOutcome(d, c.urb, GetFeature(id, length))))
    ensures Tracks(SubmitControl(d, c, GetFeature(id, length)), k, t)
  {
    if id in d.cache {
      CompleteTracks(d, d, FillFeature(c, d.cache[id]), FillFeatureStatus(c.urb, d.cache[id]), k, t);
    } else {
      var waiting := c.(reportId := id, state := PendingFeatureGet);
      var frame: seq<Byte> := [id, length % 256, length / 256 % 256];
      var status := EnqueueStatus(d, frame);
      if status != 0 {
        CompleteTracks(d, d, waiting, status, k, t);
      } else {
        assert Asker(waiting, k, t);
        assert Giving(SubmitControl(d, c, GetFeature(id, length))) == Giving(d);
      }
    }
  }

  lemma InterruptInTracks(d: Dev, c: Context, now: Time, k: nat, t: Option<Ticket>)
    requires Tracks(d, k, t) && c.urb.pipe == InterruptPipe && c.urb.dirIn && c.urb.endpoint == d.profile.hidIn
    requires InHand(c, k, t, Ticket(c.urb, false, InterruptOutcome(d, c.urb, now)))
    ensures Tracks(SubmitInterruptIn(d, c, now), k, t)
  {
    if d.input != [] {
      var filled := ScheduleHid(d, FillHidIn(c, d.input[0]), now);
      CompleteTracks(d, d.(input := d.input[1..], nextHidIn := filled.ready), filled, 0, k, t);
    } else {
      assert Reader(c.(state := PendingHidIn), k, t);
      assert Giving(SubmitInterruptIn(d, c, now)) == Giving(d);
    }
  }

  lemma InterruptOutTracks(d: Dev, c: Context, k: nat, t: Option<Ticket>)
    requires Tracks(d, k, t) && InHand(c, k, t, Ticket(c.urb, false, Some(Sent(c.urb))))
    ensures Tracks(SubmitInterruptOut(d, c), k, t)
  {
    if c.urb.bufferLength == 0 {
      CompleteTracks(d, d, c, 0, k, t);
    } else if c.urb.buffer.None? || c.urb.bufferLength > HID_PACKET_SIZE {
      CompleteTracks(d, d, c, EPIPE, k, t);
    } else {
      var d' := EnqueueFrame(d, HidOutFrame, c.urb.buffer.value);
      CompleteTracks(d, d', c.(actual := c.urb.bufferLength), 0, k, t);
    }
  }

  lemma IsoTracks(d: Dev, c: Context, now: Time, k: nat, t: Option<Ticket>)
    requires Tracks(d, k, t) && InHand(c, k, t, IsoTicket(d, c.urb, now))
    ensures Tracks(SubmitIso(d, c, now), k, t)
  {
    if PlaysAudio(d, c.urb) {
      var timed := ScheduleIso(d, c.(deliverOut := true), now, false);
      CompleteTracks(d, d.(nextIsoOut := timed.ready), timed, 0, k, t);
    } else if RecordsAudio(d, c.urb) {
      var timed := ScheduleIso(d, c.(deliverIn := true), now, true);
      CompleteTracks(d, d.(nextIsoIn := timed.ready), timed, 0, k, t);
    } else {
      CompleteTracks(d, d, c, EPIPE, k, t);
    }
  }

  lemma DispatchTracks(d: Dev, c: Context, now: Time, k: nat, t: Option<Ticket>)
    requires Tracks(d, k, t) && !d.stopping && InHand(c, k, t, Issued(d, c.urb, now))
    ensures Tracks(Dispatch(d, c, now), k, t)
  {
    match c.urb.pipe
    case ControlPipe(request) => ControlTracks(d, c, request, k, t);
    case InterruptPipe =>
      if c.urb.dirIn && c.urb.endpoint == d.profile.hidIn {
        InterruptInTracks(d, c, now, k, t);
      } else if !c.urb.dirIn && c.urb.endpoint == d.profile.hidOut {
        InterruptOutTracks(d, c, k, t);
      } else {
        CompleteTracks(d, d, c, EPIPE, k, t);
      }
    case IsochronousPipe => IsoTracks(d, c, now, k, t);
    case OtherPipe => CompleteTracks(d, d, c, EPIPE, k, t);
  }

  lemma SubmitTracks(d: Dev, urb: Urb, linked: int, now: Time, k: nat, t: Option<Ticket>)
    requires Inv(d) && Accounted(d, k, t)
    ensures Accounted(Submit(d, urb, linked, now), k, Track(d, DoSubmit(urb, linked, now), k, t))
  {
    if SubmitStatus(d, linked) == 0 {
      var t' := Track(d, DoSubmit(urb, linked, now), k, t);
      var c := NewContext(d, urb);
      if k == d.accepted {
        NotAccepted(d, k, t');
      }
      assert Giving(Accepting(d)) == Giving(d);
      assert Issued(Accepting(d), urb, now) == Issued(d, urb, now);
      DispatchTracks(Accepting(d), c, now, k, t');
      SubmitGrows(d, urb, linked, now);
    }
  }

  // Reports from the daemon ----------------------------------------------------------------

  lemma ReadersAreDistinct(l: seq<Context>, k: nat, t: Option<Ticket>)
    requires l != [] && Increasing(l) && l[0].serial == k
    ensures AllReaders(l[1..], k, t)
  {
    forall c | c in l[1..]
      ensures c.serial != k
    {
      var i :| 0 <= i < |l[1..]| && l[1..][i] == c;
      IncreasingAll(l, 0, i + 1);
    }
  }

  /** No feature request has the ticket of a reader. */
  lemma ReaderAsksNothing(d: Dev, k: nat, t: Option<Ticket>, t': Option<Ticket>)
    requires AllAskers(d.pendingFeature, k, t) && t.Some? && t.value.urb.pipe == InterruptPipe
    ensures AllAskers(d.pendingFeature, k, t')
  {
    forall c | c in d.pendingFeature
      ensures Asker(c, k, t')
    {
      assert Asker(c, k, t);
    }
  }

  lemma WriteInputTracks(d: Dev, payload: seq<Byte>, now: Time, k: nat, t: Option<Ticket>)
    requires Inv(d) && Tracks(d, k, t) && WriteInputStatus(d, payload) == 0 && d.pendingHidIn != []
    ensures Tracks(WriteInput(d, payload, now), k, Track(d, DoWriteInput(payload, now), k, t))
  {
    var t' := Track(d, DoWriteInput(payload, now), k, t);
    var c := d.pendingHidIn[0];
    var filled := ScheduleHid(d, FillHidIn(c, payload), now);
    var d' := d.(pendingHidIn := d.pendingHidIn[1..]);
    assert StateIs(d.pendingHidIn, 0, PendingHidIn) && Reader(c, k, t);
    assert Giving(d') == Giving(d);
    if c.serial == k {
      ReadersAreDistinct(d.pendingHidIn, k, t');
      ReaderAsksNothing(d, k, t, t');
      UnansweredIsNotSettled(d.completed, k, t, t');
      UnansweredIsNotSettled(Giving(d), k, t, t');
      UnansweredIsNotSettled(d.returned, k, t, t');
    }
    CompleteTracks(d', d'.(framesFromUser := d.framesFromUser + 1, nextHidIn := filled.ready), filled, 0, k, t');
  }

  lemma {:induction false} AnswerSettled(l: seq<Context>, payload: seq<Byte>, q: seq<Context>, k: nat,
                                         t: Option<Ticket>, t': Option<Ticket>)
    requires payload != [] && AllAskers(l, k, t) && AllSettled(q, k, t')
    requires t.Some? && Awaits(t.value, payload[0]) ==> t' == Some(t.value.(outcome := Some(Reply(t.value.urb, payload))))
    ensures AllSettled(Answer(l, payload, q), k, t')
  {
    if l != [] {
      assert Asker(l[0], k, t);
      if Waits(l[0], payload[0]) {
        var status := FillFeatureStatus(l[0].urb, payload);
        var filled := FillFeature(l[0], payload);
        AnswerIsReply(l[0], payload, k, t, t');
        GivebackSettled(filled, status, q, k, t');
        AnswerSettled(l[1..], payload, QueueGiveback(filled, status, q), k, t, t');
      } else {
        AnswerSettled(l[1..], payload, q, k, t, t');
      }
    }
  }

  lemma AnswerIsReply(c: Context, payload: seq<Byte>, k: nat, t: Option<Ticket>, t': Option<Ticket>)
    requires payload != [] && Asker(c, k, t) && Waits(c, payload[0])
    requires t.Some? && Awaits(t.value, payload[0]) ==> t' == Some(t.value.(outcome := Some(Reply(t.value.urb, payload))))
    ensures Settled(Done(FillFeature(c, payload), FillFeatureStatus(c.urb, payload)), k, t')
  {
  }

  lemma OthersFrom(l: seq<Context>, id: Byte, c: Context)
    requires c in Others(l, id)
    ensures c in l && !Waits(c, id)
  {
    var i :| 0 <= i < |Others(l, id)| && Others(l, id)[i] == c;
    var j := OthersDoNotWait(l, id, i);
  }

  lemma WriteFeatureTracks(d: Dev, payload: seq<Byte>, k: nat, t: Option<Ticket>)
    requires Tracks(d, k, t) && WriteFeatureStatus(d, payload) == 0
    ensures Tracks(WriteFeature(d, payload), k, Track(d, DoWriteFeature(payload), k, t))
  {
    var d', t' := WriteFeature(d, payload), Track(d, DoWriteFeature(payload), k, t);
    assert Giving(d') == Giving(d);
    if t.Some? && Awaits(t.value, payload[0]) {
      UnansweredIsNotSettled(d.completed, k, t, t');
      UnansweredIsNotSettled(Giving(d), k, t, t');
      UnansweredIsNotSettled(d.returned, k, t, t');
      forall c | c in d.pendingHidIn
        ensures Reader(c, k, t')
      {
        assert Reader(c, k, t);
      }
    }
    AnswerSettled(d.pendingFeature, payload, d.completed, k, t, t');
    forall c | c in d'.pendingFeature
      ensures Asker(c, k, t')
    {
      OthersFrom(d.pendingFeature, payload[0], c);
      assert Asker(c, k, t);
    }
  }

  // Cancelling -----------------------------------------------------------------------------

  lemma ListedIffCounted(l: seq<Context>, k: nat)
    ensures Listed(l, k) <==> Count(l, k) > 0
  {
    if Listed(l, k) {
      var c :| c in l && c.serial == k;
      var i :| 0 <= i < |l| && l[i] == c;
      EntryCounts(l, i);
    }
    CountPositiveIffPresent(l, k);
    if Has(k, l) {
      assert l[Find(k, l)] in l;
    }
  }

  /** What the core finds still linked is what was accepted and not taken. */
  lemma LinkedIffNotTaken(d: Dev, k: nat)
    requires Inv(d)
    ensures Linked(d, k) <==> k < d.accepted && !Listed(Giving(d), k) && !Listed(d.returned, k)
  {
    assert Total(d, k) == if k < d.accepted then 1 else 0;
    CountPositiveIffPresent(d.completed, k);
    CountPositiveIffPresent(d.pendingHidIn, k);
    CountPositiveIffPresent(d.pendingFeature, k);
    ListedIffCounted(Giving(d), k);
    ListedIffCounted(d.returned, k);
  }

  lemma {:induction false} CountOthers(l: seq<Context>, i: nat, k: nat)
    requires i < |l| && l[i].serial == k && Count(l, k) <= 1
    ensures forall j | 0 <= j < |l| && j != i :: l[j].serial != k
  {
    forall j | 0 <= j < |l| && j != i
      ensures l[j].serial != k
    {
      if l[j].serial == k { HcdOrder.TwicePresent(l, if i < j then i else j, if i < j then j else i); }
    }
  }

  lemma CancelQueuedTracks(d: Dev, i: nat, status: int, k: nat, t: Option<Ticket>, t': Option<Ticket>)
    requires Inv(d) && Tracks(d, k, t) && t.Some? && i < |d.completed| && d.completed[i].serial == k
    requires t' == Some(t.value.(outcome := Some(Cancelled(t.value, status))))
    ensures Tracks(CancelledAt(d, i, status), k, t')
  {
    var d' := CancelledAt(d, i, status);
    assert Giving(d') == Giving(d) && Settled(d.completed[i], k, t);
    assert Total(d, k) == if k < d.accepted then 1 else 0;
    EntryCounts(d.completed, i);
    CountOthers(d.completed, i, k);
    CountsAbsent(d.pendingHidIn, k);
    CountsAbsent(d.pendingFeature, k);
    CountsAbsent(Giving(d), k);
    CountsAbsent(d.returned, k);
    forall c | c in d'.completed
      ensures Settled(c, k, t')
    {
      var j :| 0 <= j < |d'.completed| && d'.completed[j] == c;
    }
  }

  lemma WithoutFrom(i: nat, l: seq<Context>)
    requires i < |l|
    ensures forall c | c in Without(i, l) :: c in l
    ensures Count(Without(i, l), l[i].serial) + 1 == Count(l, l[i].serial)
  {
    CountWithout(i, l, l[i].serial);
  }

  /** A waiting request completed by cancelling it. */
  lemma CancelWaitingTracks(d: Dev, d': Dev, c: Context, status: int, k: nat, t: Option<Ticket>, t': Option<Ticket>)
    requires Tracks(d, k, t) && t.Some? && c.serial == k && Blank(c) && t.value == Ticket(c.urb, false, None)
    requires t' == Some(t.value.(outcome := Some(Bare(status))))
    requires d'.completed == d.completed && d'.giving == d.giving && d'.returned == d.returned
    requires Count(d'.pendingHidIn, k) == 0 && Count(d'.pendingFeature, k) == 0
    ensures Tracks(Complete(d', c, status), k, t')
  {
    UnansweredIsNotSettled(d.completed, k, t, t');
    UnansweredIsNotSettled(Giving(d), k, t, t');
    UnansweredIsNotSettled(d.returned, k, t, t');
    CountsAbsent(d'.pendingHidIn, k);
    CountsAbsent(d'.pendingFeature, k);
    assert Giving(d') == Giving(d);
    CompleteTracks(d', d', c, status, k, t');
  }

  /** Cancelling another request. */
  lemma CancelOtherTracks(d: Dev, serial: nat, status: int, check: int, k: nat, t: Option<Ticket>)
    requires Tracks(d, k, t) && serial != k
    ensures Tracks(Cancel(d, serial, status, check), k, t)
  {
    var d' := Cancel(d, serial, status, check);
    if CancelStatus(d, serial, check) == 0 {
      assert Giving(d') == Giving(d);
      if Has(serial, d.completed) {
        var i := Find(serial, d.completed);
        var c := d.completed[i].(status := status, ready := 0);
        assert forall x | x in d.completed[i := c] :: x == c || x in d.completed;
      } else if Has(serial, d.pendingHidIn) {
        var i := Find(serial, d.pendingHidIn);
        WithoutFrom(i, d.pendingHidIn);
        GivebackSettled(d.pendingHidIn[i], status, d.completed, k, t);
      } else {
        var i := Find(serial, d.pendingFeature);
        WithoutFrom(i, d.pendingFeature);
        GivebackSettled(d.pendingFeature[i], status, d.completed, k, t);
      }
    }
  }

  lemma CancelThisTracks(d: Dev, status: int, k: nat, t: Option<Ticket>, t': Option<Ticket>)
    requires Inv(d) && Tracks(d, k, t) && t.Some? && Linked(d, k)
    requires t' == Some(t.value.(outcome := Some(Cancelled(t.value, status))))
    ensures Tracks(Cancel(d, k, status, 0), k, t')
  {
    assert Total(d, k) == if k < d.accepted then 1 else 0;
    CountPositiveIffPresent(d.completed, k);
    CountPositiveIffPresent(d.pendingHidIn, k);
    if Has(k, d.completed) {
      CancelQueuedTracks(d, Find(k, d.completed), status, k, t, t');
      assert Cancel(d, k, status, 0) == CancelledAt(d, Find(k, d.completed), status);
    } else if Has(k, d.pendingHidIn) {
      var i := Find(k, d.pendingHidIn);
      WithoutFrom(i, d.pendingHidIn);
      assert Reader(d.pendingHidIn[i], k, t);
      CancelWaitingTracks(d, UnlinkedHid(d, i), d.pendingHidIn[i], status, k, t, t');
      assert Cancel(d, k, status, 0) == CompletedHid(d, i, status);
    } else {
      var i := Find(k, d.pendingFeature);
      WithoutFrom(i, d.pendingFeature);
      assert Asker(d.pendingFeature[i], k, t);
      CancelWaitingTracks(d, UnlinkedFeature(d, i), d.pendingFeature[i], status, k, t, t');
      assert Cancel(d, k, status, 0) == CompletedFeature(d, i, d.pendingFeature[i], status);
    }
  }

  lemma CancelTracks(d: Dev, serial: nat, status: int, check: int, k: nat, t: Option<Ticket>)
    requires Inv(d) && Accounted(d, k, t)
    ensures Tracks(Cancel(d, serial, status, check), k, Track(d, DoCancel(serial, status, check), k, t))
  {
    LinkedIffNotTaken(d, k);
    if serial != k {
      CancelOtherTracks(d, serial, status, check, k, t);
    } else if Linked(d, k) && check == 0 {
      CancelThisTracks(d, status, k, t, Track(d, DoCancel(k, status, 0), k, t));
    } else {
      assert Cancel(d, serial, status, check) == d;
    }
  }

  lemma {:induction false} QueueAllSettled(l: seq<Context>, status: int, q: seq<Context>, k: nat, t: Option<Ticket>)
    requires AllSettled(q, k, t) && forall c | c in l :: Settled(Done(c, status), k, t)
    ensures AllSettled(QueueAll(l, status, q), k, t)
  {
    if l != [] {
      GivebackSettled(l[0], status, q, k, t);
      QueueAllSettled(l[1..], status, QueueGiveback(l[0], status, q), k, t);
    }
  }

  /** Everything that waits shut down. */
  lemma ShutDownTracks(d: Dev, d': Dev, k: nat, t: Option<Ticket>, t': Option<Ticket>)
    requires Tracks(d, k, t) && d'.giving == d.giving && d'.returned == d.returned
    requires d'.completed == QueueAll(d.pendingFeature, ESHUTDOWN, QueueAll(d.pendingHidIn, ESHUTDOWN, d.completed))
    requires d'.pendingHidIn == [] && d'.pendingFeature == []
    requires t' == if t.None? then None else Some(t.value.(outcome := ShutDown(t.value)))
    ensures Tracks(d', k, t')
  {
    if Unanswered(t) {
      UnansweredIsNotSettled(d.completed, k, t, t');
      UnansweredIsNotSettled(Giving(d), k, t, t');
      UnansweredIsNotSettled(d.returned, k, t, t');
    }
    assert Giving(d') == Giving(d);
    forall c | c in d.pendingHidIn
      ensures Settled(Done(c, ESHUTDOWN), k, t')
    {
      assert Reader(c, k, t);
    }
    forall c | c in d.pendingFeature
      ensures Settled(Done(c, ESHUTDOWN), k, t')
    {
      assert Asker(c, k, t);
    }
    QueueAllSettled(d.pendingHidIn, ESHUTDOWN, d.completed, k, t');
    QueueAllSettled(d.pendingFeature, ESHUTDOWN, QueueAll(d.pendingHidIn, ESHUTDOWN, d.completed), k, t');
  }

  lemma StartTracks(d: Dev, k: nat, t: Option<Ticket>)
    requires Tracks(d, k, t)
    ensures Tracks(Start(d), k, t)
  {
    var d' := Start(d);
    assert Giving(d') == Giving(d);
    forall c | c in d'.pendingHidIn
      ensures Reader(c, k, t)
    {
      var i :| 0 <= i < |d'.pendingHidIn| && d'.pendingHidIn[i] == c;
      assert Reader(d.pendingHidIn[i], k, t);
    }
    forall c | c in d'.pendingFeature
      ensures Asker(c, k, t)
    {
      var i :| 0 <= i < |d'.pendingFeature| && d'.pendingFeature[i] == c;
      assert Asker(d.pendingFeature[i], k, t);
    }
  }

  // Handing back ---------------------------------------------------------------------------

  lemma PopTracks(d: Dev, now: Time, k: nat, t: Option<Ticket>)
    requires Tracks(d, k, t)
    ensures Tracks(Pop(d, now), k, t)
  {
    var d' := Pop(d, now);
    if d' != d {
      assert Settled(d.completed[0], k, t);
      assert forall c | c in d'.completed :: c in d.completed;
    }
  }

  lemma {:induction false} MovedIsTotal(descs: seq<IsoTransfer.Desc>, size: nat, input: bool)
    ensures TransferTotal(descs, size, input) == Moved(descs, size, input)
    ensures IsoTransfer.ErrorCount(descs, size) == Outside(descs, size)
  {
    if descs != [] { MovedIsTotal(descs[1..], size, input); }
  }

  lemma {:induction false} FillInRecords(descs: seq<IsoTransfer.Desc>, buffer: seq<Byte>, mic: MicQueue.Queue)
    ensures FillIn(descs, buffer, mic).0 == Recorded(descs, buffer, MicQueue.Unread(mic))
    ensures MicQueue.Unread(FillIn(descs, buffer, mic).1) == Rest(MicQueue.Unread(mic), Moved(descs, |buffer|, true))
    decreases |descs|
  {
    if descs != [] {
      if !IsoTransfer.Fits(descs[0], |buffer|) {
        FillInRecords(descs[1..], buffer, mic);
      } else {
        var at, n := descs[0].offset, Min(descs[0].length, MicQueue.BYTES_PER_MS);
        var rest := MicQueue.Consume(mic, n);
        var stream := MicQueue.Unread(mic);
        MicQueue.ConsumeDropsOldest(mic, n);
        assert MicQueue.Taken(mic, n) == Next(stream, n);
        assert MicQueue.Unread(rest) == Rest(stream, n);
        FillInRecords(descs[1..], buffer[..at] + MicQueue.Taken(mic, n) + buffer[at + n..], rest);
        RestTwice(stream, n, Moved(descs[1..], |buffer|, true));
      }
    }
  }

  lemma RestTwice(stream: seq<Byte>, m: nat, n: nat)
    ensures Rest(Rest(stream, m), n) == Rest(stream, m + n)
  {
  }

  /** Handing back changes an audio request that was not cancelled, and nothing else. */
  lemma DeliverOutcome(d: Dev, c: Context)
    requires Directed(c)
    ensures var c' := Deliver(d, c).1;
      && c' == c.(actual := c'.actual, errors := c'.errors, delivered := c'.delivered)
      && OutcomeOf(c') == (if Audio(c) && c.status == 0 then HandedBack(c.urb, OutcomeOf(c), MicQueue.Unread(d.mic))
                           else OutcomeOf(c))
  {
    if Audio(c) && c.status == 0 {
      var buffer := c.urb.buffer.value;
      MovedIsTotal(c.urb.descs, |buffer|, c.urb.dirIn);
      FillInRecords(c.urb.descs, buffer, d.mic);
    }
  }

  lemma FinishLists(d: Dev)
    requires Buffers(d) && d.giving.Some?
    ensures var c := Deliver(d, d.giving.value).1;
      && Giving(Finish(d)) == [] && Finish(d).returned == d.returned + [c]
      && Finish(d).pendingHidIn == d.pendingHidIn && Finish(d).pendingFeature == d.pendingFeature
      && Finish(d).completed == d.completed
  {
    DeliverKeepsTiming(d, d.giving.value);
  }

  lemma FinishTracks(d: Dev, k: nat, t: Option<Ticket>)
    requires Inv(d) && Tracks(d, k, t) && d.giving.Some?
    ensures Tracks(Finish(d), k, Track(d, DoFinish, k, t))
  {
    var t' := Track(d, DoFinish, k, t);
    var c, c' := d.giving.value, Deliver(d, d.giving.value).1;
    assert c in Giving(d) && Settled(c, k, t);
    assert Listed(Giving(d), k) <==> c.serial == k;
    FinishLists(d);
    if c.serial == k {
      DeliverOutcome(d, c);
      assert Settled(c', k, t');
      AnsweredIsNotWaiting(d, k, t, t');
      assert Total(d, k) == if k < d.accepted then 1 else 0;
      CountOne(c, k);
      CountsAbsent(d.completed, k);
      CountsAbsent(d.returned, k);
    } else {
      DeliverKeepsTiming(d, c);
    }
  }

  // Runs -----------------------------------------------------------------------------------

  lemma SameListsTrack(d: Dev, d': Dev, k: nat, t: Option<Ticket>)
    requires Tracks(d, k, t) && SameLists(d, d')
    ensures Tracks(d', k, t)
  {
    assert Giving(d') == Giving(d);
  }

  /** The step answers, cancels, takes or hands back no request. */
  predicate Idle(d: Dev, e: Event) {
    match e
    case DoWriteInput(payload, _) => WriteInputStatus(d, payload) != 0 || d.pendingHidIn == []
    case DoWriteFeature(payload) => WriteFeatureStatus(d, payload) != 0
    case DoDisconnect => d.stopping
    case DoFinish => d.giving.None?
    case _ => e.DoWriteAudio? || e.DoRead? || e.DoConnect? || e.DoResetUsb? || e.DoSetProfile?
  }

  lemma IdleKeepsLists(d: Dev, e: Event)
    requires Idle(d, e)
    ensures SameLists(d, Step(d, e))
  {
  }

  lemma IdleTracks(d: Dev, e: Event, k: nat, t: Option<Ticket>)
    requires Idle(d, e) && Tracks(d, k, t)
    ensures Track(d, e, k, t) == t
  {
  }

  lemma WritesTrack(d: Dev, e: Event, k: nat, t: Option<Ticket>)
    requires Inv(d) && Accounted(d, k, t) && !Idle(d, e) && (e.DoWriteInput? || e.DoWriteFeature?)
    ensures Tracks(Step(d, e), k, Track(d, e, k, t))
  {
    match e
    case DoWriteInput(payload, now) => WriteInputTracks(d, payload, now, k, t);
    case DoWriteFeature(payload) => WriteFeatureTracks(d, payload, k, t);
  }

  lemma StepTracks(d: Dev, e: Event, k: nat, t: Option<Ticket>)
    requires Inv(d) && Accounted(d, k, t)
    ensures Tracks(Step(d, e), k, Track(d, e, k, t))
  {
    if Idle(d, e) {
      IdleKeepsLists(d, e);
      IdleTracks(d, e, k, t);
      SameListsTrack(d, Step(d, e), k, t);
    } else if e.DoWriteInput? || e.DoWriteFeature? {
      WritesTrack(d, e, k, t);
    } else {
      RequestsTrack(d, e, k, t);
    }
  }

  lemma RequestsTrack(d: Dev, e: Event, k: nat, t: Option<Ticket>)
    requires Inv(d) && Accounted(d, k, t) && !Idle(d, e) && !e.DoWriteInput? && !e.DoWriteFeature?
    ensures Tracks(Step(d, e), k, Track(d, e, k, t))
  {
    match e
    case DoSubmit(urb, linked, now) => SubmitTracks(d, urb, linked, now, k, t);
    case DoCancel(serial, status, check) => CancelTracks(d, serial, status, check, k, t);
    case DoDisconnect => ShutDownTracks(d, Disconnect(d), k, t, Track(d, e, k, t));
    case DoStop => ShutDownTracks(d, Stop(d), k, t, Track(d, e, k, t));
    case DoStart => StartTracks(d, k, t);
    case DoPop(now) => PopTracks(d, now, k, t);
    case DoFinish => FinishTracks(d, k, t);
  }

  lemma StepAccepts(d: Dev, e: Event)
    requires Buffers(d)
    ensures Step(d, e).accepted == d.accepted + (if e.DoSubmit? && SubmitStatus(d, e.linked) == 0 then 1 else 0)
  {
    if e.DoSubmit? {
      SubmitGrows(d, e.urb, e.linked, e.now);
    } else if e.DoFinish? && d.giving.Some? {
      DeliverKeepsTiming(d, d.giving.value);
    }
  }

  lemma {:induction false} RunTracks(d: Dev, events: seq<Event>, k: nat, t: Option<Ticket>)
    requires Inv(d) && Accounted(d, k, t)
    ensures Inv(Run(d, events)) && Accounted(Run(d, events), k, TicketAfter(d, events, k, t))
    decreases |events|
  {
    if events != [] {
      StepKeeps(d, events[0]);
      StepTracks(d, events[0], k, t);
      StepAccepts(d, events[0]);
      RunTracks(Step(d, events[0]), events[1..], k, Track(d, events[0], k, t));
    }
  }

  /** Every request handed back over any run carries what its ticket says: status, time, length and bytes. */
  lemma HandedBackAsTicketed(profile: Profile, events: seq<Event>, i: nat)
    requires i < |After(profile, events).returned|
    ensures var c := After(profile, events).returned[i];
      TicketAfter(Init(profile), events, c.serial, None) == Some(Ticket(c.urb, Audio(c), Some(OutcomeOf(c))))
  {
    var d, c := After(profile, events), After(profile, events).returned[i];
    InitInv(profile);
    RunTracks(Init(profile), events, c.serial, None);
    assert c in d.returned && Settled(c, c.serial, TicketAfter(Init(profile), events, c.serial, None));
  }

  // Input requests -------------------------------------------------------------------------

  /** The reports the daemon wrote over a run. */
  function Written(events: seq<Event>): seq<seq<Byte>> {
    if events == [] then []
    else
      var last := events[|events| - 1];
      Written(events[..|events| - 1]) + (if last.DoWriteInput? then [last.payload] else [])
  }

  /** A successful input request carries one of the reports written. */
  ghost predicate Carries(urb: Urb, o: Outcome, written: seq<seq<Byte>>) {
    urb.pipe == InterruptPipe && urb.dirIn && o.status == 0 ==>
      exists p | p in written :: 0 < |p| <= 64 && o == Report(urb, p, o.ready)
  }

  ghost predicate TicketCarries(t: Option<Ticket>, written: seq<seq<Byte>>) {
    t.Some? && t.value.outcome.Some? ==> Carries(t.value.urb, t.value.outcome.value, written)
  }

  predicate InputWritten(d: Dev, written: seq<seq<Byte>>) {
    forall p | p in d.input :: p in written && 0 < |p| <= 64
  }

  /** Requests are cancelled with an error, as the USB core does. */
  predicate CancelsWithError(e: Event) { e.DoCancel? ==> e.status != 0 }

  predicate WrittenIn(e: Event, written: seq<seq<Byte>>) { e.DoWriteInput? ==> e.payload in written }

  lemma IssuedCarries(d: Dev, urb: Urb, now: Time, written: seq<seq<Byte>>)
    requires InputWritten(d, written)
    ensures TicketCarries(Some(Issued(d, urb, now)), written)
  {
    if urb.pipe == InterruptPipe && urb.dirIn && urb.endpoint == d.profile.hidIn && d.input != [] {
      assert d.input[0] in d.input;
    }
  }

  predicate AudioIsIso(t: Option<Ticket>) {
    t.Some? && t.value.audio ==> t.value.urb.pipe == IsochronousPipe
  }

  lemma TrackCarries(d: Dev, e: Event, k: nat, t: Option<Ticket>, written: seq<seq<Byte>>)
    requires InputWritten(d, written) && TicketCarries(t, written) && AudioIsIso(t)
    requires CancelsWithError(e) && WrittenIn(e, written)
    ensures TicketCarries(Track(d, e, k, t), written) && AudioIsIso(Track(d, e, k, t))
  {
    if e.DoSubmit? {
      IssuedCarries(d, e.urb, e.now, written);
    }
  }

  lemma InputStaysWritten(d: Dev, e: Event, written: seq<seq<Byte>>)
    requires Buffers(d) && InputWritten(d, written) && WrittenIn(e, written)
    ensures InputWritten(Step(d, e), written)
  {
    if e.DoSubmit? {
      SubmitBuffers(d, e.urb, e.linked, e.now);
    } else if e.DoWriteInput? {
      WriteInputBuffers(d, e.payload, e.now);
    } else if !e.DoDisconnect? && !e.DoStop? {
      OthersKeepInput(d, e);
    }
  }

  lemma {:induction false} RunCarries(d: Dev, events: seq<Event>, k: nat, t: Option<Ticket>, written: seq<seq<Byte>>)
    requires Inv(d) && InputWritten(d, written) && TicketCarries(t, written)
    requires forall i | 0 <= i < |events| :: CancelsWithError(events[i]) && WrittenIn(events[i], written)
    requires AudioIsIso(t)
    ensures TicketCarries(TicketAfter(d, events, k, t), written)
    decreases |events|
  {
    if events != [] {
      StepKeeps(d, events[0]);
      TrackCarries(d, events[0], k, t, written);
      InputStaysWritten(d, events[0], written);
      assert forall i | 0 <= i < |events[1..]| :: events[1..][i] == events[i + 1];
      RunCarries(Step(d, events[0]), events[1..], k, Track(d, events[0], k, t), written);
    }
  }

  lemma {:induction false} WrittenHas(events: seq<Event>, i: nat)
    requires i < |events|
    ensures WrittenIn(events[i], Written(events))
    decreases |events|
  {
    if i < |events| - 1 {
      WrittenHas(events[..|events| - 1], i);
    }
  }

  /**
   Over any run in which requests are cancelled with errors only, each successful input request handed back
   carries a report the daemon wrote: all of it, or as much as the host asked for.
   */
  lemma InputRequestsCarryReports(profile: Profile, events: seq<Event>, i: nat) returns (payload: seq<Byte>)
    requires i < |After(profile, events).returned| && forall j | 0 <= j < |events| :: CancelsWithError(events[j])
    requires var c := After(profile, events).returned[i];
      c.urb.pipe == InterruptPipe && c.urb.dirIn && c.status == 0
    ensures var c := After(profile, events).returned[i];
      && payload in Written(events) && 0 < |payload| <= 64
      && c.actual == Min(|payload|, c.urb.bufferLength)
      && (c.urb.buffer.Some? ==> c.delivered == payload[..c.actual])
  {
    var c := After(profile, events).returned[i];
    InitInv(profile);
    HandedBackAsTicketed(profile, events, i);
    forall j | 0 <= j < |events|
      ensures WrittenIn(events[j], Written(events))
    {
      WrittenHas(events, j);
    }
    RunCarries(Init(profile), events, c.serial, None, Written(events));
    assert Carries(c.urb, OutcomeOf(c), Written(events));
    payload :| payload in Written(events) && 0 < |payload| <= 64 && OutcomeOf(c) == Report(c.urb, payload, c.ready);
  }

  // Recorded audio -------------------------------------------------------------------------

  /** Where in the stream the data of descriptor `k` starts. */
  function BytesAhead(descs: seq<IsoTransfer.Desc>, size: nat, k: nat): nat
    requires k <= |descs|
  {
    Moved(descs[..k], size, true)
  }

  predicate Covers(descs: seq<IsoTransfer.Desc>, size: nat, k: nat, x: nat)
    requires k < |descs|
  {
    Inside(descs[k], size) && descs[k].offset <= x < descs[k].offset + Share(descs[k], true)
  }

  function ByteAt(stream: seq<Byte>, i: nat): Byte {
    if i < |stream| then stream[i] else 0
  }

  /** A byte that no descriptor covers is left as it was. */
  lemma {:induction false} UncoveredIsKept(descs: seq<IsoTransfer.Desc>, buffer: seq<Byte>, stream: seq<Byte>, x: nat)
    requires x < |buffer| && forall k | 0 <= k < |descs| :: !Covers(descs, |buffer|, k, x)
    ensures Recorded(descs, buffer, stream)[x] == buffer[x]
    decreases |descs|
  {
    if descs != [] {
      var rest := descs[1..];
      forall k | 0 <= k < |rest|
        ensures !Covers(rest, |buffer|, k, x)
      {
        assert !Covers(descs, |buffer|, k + 1, x);
      }
      if !Inside(descs[0], |buffer|) {
        UncoveredIsKept(rest, buffer, stream, x);
      } else {
        var at, n := descs[0].offset, Share(descs[0], true);
        assert !Covers(descs, |buffer|, 0, x);
        var buffer' := buffer[..at] + Next(stream, n) + buffer[at + n..];
        assert buffer'[x] == buffer[x];
        UncoveredIsKept(rest, buffer', Rest(stream, n), x);
      }
    }
  }

  /** The buffer and the stream after the first descriptor. */
  function FirstRecorded(desc: IsoTransfer.Desc, buffer: seq<Byte>, stream: seq<Byte>): (r: (seq<Byte>, seq<Byte>))
    ensures |r.0| == |buffer|
  {
    if !Inside(desc, |buffer|) then (buffer, stream)
    else
      var at, n := desc.offset, Share(desc, true);
      (buffer[..at] + Next(stream, n) + buffer[at + n..], Rest(stream, n))
  }

  lemma CoversRest(descs: seq<IsoTransfer.Desc>, size: nat, k: nat, x: nat)
    requires k < |descs| && forall j | k < j < |descs| :: !Covers(descs, size, j, x)
    ensures forall j | 0 <= j < |descs[1..]| && k <= j :: !Covers(descs[1..], size, j, x)
  {
    forall j | 0 <= j < |descs[1..]| && k <= j
      ensures !Covers(descs[1..], size, j, x)
    {
      assert !Covers(descs, size, j + 1, x);
    }
  }

  /** Moving on by one descriptor moves on in the stream by its bytes. */
  lemma RestAhead(descs: seq<IsoTransfer.Desc>, buffer: seq<Byte>, stream: seq<Byte>, k: nat, y: nat)
    requires 0 < k <= |descs|
    ensures ByteAt(FirstRecorded(descs[0], buffer, stream).1, BytesAhead(descs[1..], |buffer|, k - 1) + y)
         == ByteAt(stream, BytesAhead(descs, |buffer|, k) + y)
  {
    assert descs[..k][1..] == descs[1..][..k - 1];
  }

  /** A byte that descriptor `k` covers last is the stream's, in the order of the descriptors; silence at its end. */
  lemma {:induction false} RecordedAt(descs: seq<IsoTransfer.Desc>, buffer: seq<Byte>, stream: seq<Byte>, k: nat, x: nat)
    requires k < |descs| && x < |buffer| && Covers(descs, |buffer|, k, x)
    requires forall j | k < j < |descs| :: !Covers(descs, |buffer|, j, x)
    ensures Recorded(descs, buffer, stream)[x]
         == ByteAt(stream, BytesAhead(descs, |buffer|, k) + (x - descs[k].offset))
    decreases |descs|
  {
    var (buffer', stream') := FirstRecorded(descs[0], buffer, stream);
    assert Recorded(descs, buffer, stream) == Recorded(descs[1..], buffer', stream');
    if k == 0 {
      CoversRest(descs, |buffer|, 0, x);
      UncoveredIsKept(descs[1..], buffer', stream', x);
      assert descs[..0] == [];
    } else {
      assert descs[1..][k - 1] == descs[k];
      CoversRest(descs, |buffer|, k, x);
      RecordedAt(descs[1..], buffer', stream', k - 1, x);
      RestAhead(descs, buffer, stream, k, x - descs[k].offset);
    }
  }

  // One report -----------------------------------------------------------------------------

  predicate CarriesReport(x: Context, c: Context, payload: seq<Byte>) {
    && x.serial == c.serial && x.urb == c.urb && x.status == 0 && x.actual == Min(|payload|, c.urb.bufferLength)
    && (c.urb.buffer.Some? ==> x.delivered == payload[..x.actual])
  }

  /** Request `c` is queued for handing back with the report. */
  predicate HasReport(q: seq<Context>, c: Context, payload: seq<Byte>) {
    exists x | x in q :: CarriesReport(x, c, payload)
  }

  lemma QueuedHasReport(d: Dev, c: Context, payload: seq<Byte>, now: Time, q: seq<Context>)
    requires c.state != PendingGiveback && c.state != GivingBack
    ensures HasReport(QueueGiveback(ScheduleHid(d, FillHidIn(c, payload), now), 0, q), c, payload)
  {
    var x := Done(ScheduleHid(d, FillHidIn(c, payload), now), 0);
    InsertKeeps(x, q, x);
    assert CarriesReport(x, c, payload);
  }

  /** A report that finds a reader waiting completes the reader that waits longest. */
  lemma ReportReachesReader(d: Dev, payload: seq<Byte>, now: Time)
    requires Inv(d) && WriteInputStatus(d, payload) == 0 && d.pendingHidIn != []
    ensures HasReport(WriteInput(d, payload, now).completed, d.pendingHidIn[0], payload)
  {
    assert StateIs(d.pendingHidIn, 0, PendingHidIn);
    QueuedHasReport(d, d.pendingHidIn[0], payload, now, d.completed);
  }

  /** A reader that finds a report completes with it at once. */
  lemma ReaderFindsReport(d: Dev, c: Context, now: Time)
    requires d.input != [] && c.state == Active
    ensures HasReport(SubmitInterruptIn(d, c, now).completed, c, d.input[0])
  {
    QueuedHasReport(d, c, d.input[0], now, d.completed);
  }
}
