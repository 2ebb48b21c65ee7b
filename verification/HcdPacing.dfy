/** How long each request occupies its paced stream: the span recorded with it is its real duration. */
module HcdPacing {
  import opened Base
  import opened HcdSpec
  import opened HcdQueue
  import opened HcdInvariant
  import opened HcdSteps
  import IsoTransfer

  predicate SomePolling(profiles: seq<Profile>, span: nat) {
    exists p | p in profiles :: span == p.hidIntervalUs * 1000
  }

  /** A timed request's span is its transfer's duration, or the polling interval of a profile in force. */
  predicate Measured(c: Context, profiles: seq<Profile>) {
    match StreamOf(c)
    case Untimed => true
    case OutStream => c.span == IsoTransfer.DurationUs(c.urb.descs, false) * 1000
    case InStream => c.span == IsoTransfer.DurationUs(c.urb.descs, true) * 1000
    case HidStream => SomePolling(profiles, c.span)
  }

  predicate AllMeasured(l: seq<Context>, profiles: seq<Profile>) {
    forall c | c in l :: Measured(c, profiles)
  }

  predicate Timekeeping(d: Dev, profiles: seq<Profile>) {
    && d.profile in profiles
    && AllMeasured(d.completed, profiles) && AllMeasured(Giving(d), profiles) && AllMeasured(d.returned, profiles)
  }

  // The completion queue -----------------------------------------------------------------

  lemma InsertMeasured(c: Context, q: seq<Context>, profiles: seq<Profile>)
    requires Measured(c, profiles) && AllMeasured(q, profiles)
    ensures AllMeasured(Insert(c, q), profiles)
  {
    forall x | x in Insert(c, q)
      ensures Measured(x, profiles)
    {
      var i :| 0 <= i < |Insert(c, q)| && Insert(c, q)[i] == x;
      InsertedAt(c, q, i);
    }
  }

  lemma GivebackMeasured(c: Context, status: int, q: seq<Context>, profiles: seq<Profile>)
    requires Measured(c, profiles) && AllMeasured(q, profiles)
    ensures AllMeasured(QueueGiveback(c, status, q), profiles)
  {
    if c.state != PendingGiveback && c.state != GivingBack {
      InsertMeasured(Done(c, status), q, profiles);
    }
  }

  lemma {:induction false} QueueAllMeasured(l: seq<Context>, status: int, q: seq<Context>, epoch: nat, profiles: seq<Profile>)
    requires Plain(l, epoch) && AllMeasured(q, profiles)
    ensures AllMeasured(QueueAll(l, status, q), profiles)
  {
    if l != [] {
      assert PlainAt(l, 0, epoch);
      assert Plain(l[1..], epoch) by {
        forall i: nat | i < |l[1..]|
          ensures PlainAt(l[1..], i, epoch)
        {
          assert PlainAt(l, i + 1, epoch);
        }
      }
      GivebackMeasured(l[0], status, q, profiles);
      QueueAllMeasured(l[1..], status, QueueGiveback(l[0], status, q), epoch, profiles);
    }
  }

  lemma {:induction false} AnswerMeasured(l: seq<Context>, payload: seq<Byte>, q: seq<Context>, epoch: nat, profiles: seq<Profile>)
    requires Plain(l, epoch) && AllMeasured(q, profiles) && payload != []
    ensures AllMeasured(Answer(l, payload, q), profiles)
  {
    if l != [] {
      assert PlainAt(l, 0, epoch);
      assert Plain(l[1..], epoch) by {
        forall i: nat | i < |l[1..]|
          ensures PlainAt(l[1..], i, epoch)
        {
          assert PlainAt(l, i + 1, epoch);
        }
      }
      var status := FillFeatureStatus(l[0].urb, payload);
      if Waits(l[0], payload[0]) {
        GivebackMeasured(FillFeature(l[0], payload), status, q, profiles);
        AnswerMeasured(l[1..], payload, QueueGiveback(FillFeature(l[0], payload), status, q), epoch, profiles);
      } else {
        AnswerMeasured(l[1..], payload, q, epoch, profiles);
      }
    }
  }

  // Steps --------------------------------------------------------------------------------

  /** Nothing that was timed differs. */
  predicate SameTimed(d: Dev, d': Dev) {
    d'.profile == d.profile && d'.completed == d.completed && d'.giving == d.giving && d'.returned == d.returned
  }

  lemma CompleteMeasured(d: Dev, d': Dev, c: Context, status: int, profiles: seq<Profile>)
    requires Timekeeping(d, profiles) && SameTimed(d, d') && Measured(c, profiles)
    ensures Timekeeping(Complete(d', c, status), profiles)
  {
    GivebackMeasured(c, status, d.completed, profiles);
  }

  lemma HidMeasured(d: Dev, c: Context, now: Time, profiles: seq<Profile>)
    requires d.profile in profiles && !c.deliverOut && !c.deliverIn
    ensures Measured(ScheduleHid(d, c, now), profiles)
  {
    assert SomePolling(profiles, d.profile.hidIntervalUs * 1000);
  }

  lemma SubmitControlMeasured(d: Dev, c: Context, request: Control, profiles: seq<Profile>)
    requires Timekeeping(d, profiles) && c.ready == 0
    ensures Timekeeping(SubmitControl(d, c, request), profiles)
  {
    match request
    case OtherControl(result) => CompleteMeasured(d, d, c, result, profiles);
    case SetFeature(id) =>
      CompleteMeasured(d, d, c, SetFeatureStatus(d, c.urb, id), profiles);
      CompleteMeasured(d, SetFeatureSent(d, c.urb, id), c.(actual := c.urb.bufferLength), 0, profiles);
    case GetFeature(id, length) =>
      if id in d.cache {
        CompleteMeasured(d, d, FillFeature(c, d.cache[id]), FillFeatureStatus(c.urb, d.cache[id]), profiles);
      } else {
        var waiting := c.(reportId := id, state := PendingFeatureGet);
        var frame: seq<Byte> := [id, length % 256, length / 256 % 256];
        if EnqueueStatus(d, frame) != 0 {
          CompleteMeasured(d, d, waiting, EnqueueStatus(d, frame), profiles);
        }
      }
  }

  lemma SubmitInterruptMeasured(d: Dev, c: Context, now: Time, profiles: seq<Profile>)
    requires Timekeeping(d, profiles) && c.ready == 0 && !c.deliverOut && !c.deliverIn
    ensures Timekeeping(SubmitInterruptIn(d, c, now), profiles)
    ensures Timekeeping(SubmitInterruptOut(d, c), profiles)
  {
    if d.input != [] {
      var filled := ScheduleHid(d, FillHidIn(c, d.input[0]), now);
      HidMeasured(d, FillHidIn(c, d.input[0]), now, profiles);
      CompleteMeasured(d, d.(input := d.input[1..], nextHidIn := filled.ready), filled, 0, profiles);
    }
    if c.urb.bufferLength == 0 {
      CompleteMeasured(d, d, c, 0, profiles);
    } else if c.urb.buffer.None? || c.urb.bufferLength > HID_PACKET_SIZE {
      CompleteMeasured(d, d, c, EPIPE, profiles);
    } else {
      var d' := EnqueueFrame(d, HidOutFrame, c.urb.buffer.value);
      CompleteMeasured(d, d', c.(actual := c.urb.bufferLength), 0, profiles);
    }
  }

  /** Scheduling is where the duration comes in. */
  lemma IsoMeasured(d: Dev, c: Context, now: Time, input: bool, profiles: seq<Profile>)
    requires if input then c.deliverIn && !c.deliverOut else c.deliverOut
    ensures Measured(ScheduleIso(d, c, now, input), profiles)
  {
  }

  lemma SubmitIsoMeasured(d: Dev, c: Context, now: Time, profiles: seq<Profile>)
    requires Timekeeping(d, profiles) && c.ready == 0 && !c.deliverOut && !c.deliverIn
    ensures Timekeeping(SubmitIso(d, c, now), profiles)
  {
    var timedOut := ScheduleIso(d, c.(deliverOut := true), now, false);
    var timedIn := ScheduleIso(d, c.(deliverIn := true), now, true);
    IsoMeasured(d, c.(deliverOut := true), now, false, profiles);
    IsoMeasured(d, c.(deliverIn := true), now, true, profiles);
    CompleteMeasured(d, d, c, EPIPE, profiles);
    CompleteMeasured(d, d.(nextIsoOut := timedOut.ready), timedOut, 0, profiles);
    CompleteMeasured(d, d.(nextIsoIn := timedIn.ready), timedIn, 0, profiles);
  }

  lemma DispatchMeasured(d: Dev, c: Context, now: Time, profiles: seq<Profile>)
    requires Timekeeping(d, profiles) && c.ready == 0 && !c.deliverOut && !c.deliverIn
    ensures Timekeeping(Dispatch(d, c, now), profiles)
  {
    match c.urb.pipe
    case ControlPipe(request) => SubmitControlMeasured(d, c, request, profiles);
    case InterruptPipe =>
      SubmitInterruptMeasured(d, c, now, profiles);
      CompleteMeasured(d, d, c, EPIPE, profiles);
    case IsochronousPipe => SubmitIsoMeasured(d, c, now, profiles);
    case OtherPipe => CompleteMeasured(d, d, c, EPIPE, profiles);
  }

  lemma SubmitMeasured(d: Dev, urb: Urb, linked: int, now: Time, profiles: seq<Profile>)
    requires Timekeeping(d, profiles)
    ensures Timekeeping(Submit(d, urb, linked, now), profiles)
  {
    if SubmitStatus(d, linked) == 0 {
      DispatchMeasured(Accepting(d), NewContext(d, urb), now, profiles);
    }
  }

  lemma CancelMeasured(d: Dev, serial: nat, status: int, check: int, profiles: seq<Profile>)
    requires Inv(d) && Timekeeping(d, profiles)
    ensures Timekeeping(Cancel(d, serial, status, check), profiles)
  {
    if CancelStatus(d, serial, check) == 0 {
      if Has(serial, d.completed) {
        var i := Find(serial, d.completed);
        var c := d.completed[i].(status := status, ready := 0);
        assert forall x | x in d.completed[i := c] :: x == c || x in d.completed;
      } else if Has(serial, d.pendingHidIn) {
        var i := Find(serial, d.pendingHidIn);
        assert PlainAt(d.pendingHidIn, i, d.epoch);
        CompleteMeasured(d, d, d.pendingHidIn[i], status, profiles);
      } else {
        var i := Find(serial, d.pendingFeature);
        assert PlainAt(d.pendingFeature, i, d.epoch);
        CompleteMeasured(d, d, d.pendingFeature[i], status, profiles);
      }
    }
  }

  lemma WriteInputMeasured(d: Dev, payload: seq<Byte>, now: Time, profiles: seq<Profile>)
    requires Inv(d) && Timekeeping(d, profiles)
    ensures Timekeeping(WriteInput(d, payload, now), profiles)
  {
    if WriteInputStatus(d, payload) == 0 && d.pendingHidIn != [] {
      var c := FillHidIn(d.pendingHidIn[0], payload);
      var filled := ScheduleHid(d, c, now);
      assert PlainAt(d.pendingHidIn, 0, d.epoch);
      HidMeasured(d, c, now, profiles);
      CompleteMeasured(d, d.(framesFromUser := d.framesFromUser + 1, nextHidIn := filled.ready), filled, 0, profiles);
    }
  }

  lemma CancelPendingMeasured(d: Dev, status: int, profiles: seq<Profile>)
    requires Plain(d.pendingHidIn, d.epoch) && Plain(d.pendingFeature, d.epoch) && Timekeeping(d, profiles)
    ensures Timekeeping(CancelPending(d, status), profiles)
  {
    QueueAllMeasured(d.pendingHidIn, status, d.completed, d.epoch, profiles);
    QueueAllMeasured(d.pendingFeature, status, QueueAll(d.pendingHidIn, status, d.completed), d.epoch, profiles);
  }

  lemma PopMeasured(d: Dev, now: Time, profiles: seq<Profile>)
    requires Timekeeping(d, profiles)
    ensures Timekeeping(Pop(d, now), profiles)
  {
    if Pop(d, now) != d {
      var c := d.completed[0];
      assert c in d.completed && Measured(c, profiles);
      assert Measured(c.(state := GivingBack, doneAt := now), profiles);
    }
  }

  lemma FinishMeasured(d: Dev, profiles: seq<Profile>)
    requires Buffers(d) && Timekeeping(d, profiles)
    ensures Timekeeping(Finish(d), profiles)
  {
    if d.giving.Some? {
      var c := d.giving.value;
      DeliverKeepsTiming(d, c);
      assert c in Giving(d) && Measured(c, profiles);
      DeliverKeepsProfile(d, c);
    }
  }

  lemma DeliverKeepsProfile(d: Dev, c: Context)
    requires Buffers(d)
    ensures Deliver(d, c).0.profile == d.profile
  {
    if c.status == 0 && c.deliverOut && c.urb.buffer.Some? {
      var buffer := c.urb.buffer.value;
      IsoTransfer.SpansInside(c.urb.descs, |buffer|, None);
      EnqueueSpansKeeps(d, IsoTransfer.Spans(c.urb.descs, |buffer|, None), buffer);
    }
  }

  lemma StepMeasured(d: Dev, e: Event, profiles: seq<Profile>)
    requires Inv(d) && Timekeeping(d, profiles) && (e.DoSetProfile? ==> e.profile in profiles)
    ensures Timekeeping(Step(d, e), profiles)
  {
    match e
    case DoSubmit(urb, linked, now) => SubmitMeasured(d, urb, linked, now, profiles);
    case DoCancel(serial, status, check) => CancelMeasured(d, serial, status, check, profiles);
    case DoWriteInput(payload, now) => WriteInputMeasured(d, payload, now, profiles);
    case DoWriteFeature(payload) =>
      if payload != [] { AnswerMeasured(d.pendingFeature, payload, d.completed, d.epoch, profiles); }
    case DoDisconnect => CancelPendingMeasured(d, ESHUTDOWN, profiles);
    case DoStop => CancelPendingMeasured(d.(stopping := true), ESHUTDOWN, profiles);
    case DoPop(now) => PopMeasured(d, now, profiles);
    case DoFinish => FinishMeasured(d, profiles);
    case _ =>
  }

  // Runs ---------------------------------------------------------------------------------

  /** The profiles a run may have had in force. */
  function Profiles(profile: Profile, events: seq<Event>): seq<Profile>
    decreases |events|
  {
    if events == [] then [profile]
    else
      var last := events[|events| - 1];
      Profiles(profile, events[..|events| - 1]) + (if last.DoSetProfile? then [last.profile] else [])
  }

  lemma {:induction false} ProfileIsKnown(profile: Profile, events: seq<Event>, i: nat)
    requires i < |events| && events[i].DoSetProfile?
    ensures events[i].profile in Profiles(profile, events)
    decreases |events|
  {
    if i < |events| - 1 {
      ProfileIsKnown(profile, events[..|events| - 1], i);
    }
  }

  lemma {:induction false} FirstProfileIsKnown(profile: Profile, events: seq<Event>)
    ensures profile in Profiles(profile, events)
    decreases |events|
  {
    if events != [] {
      FirstProfileIsKnown(profile, events[..|events| - 1]);
    }
  }

  lemma {:induction false} RunMeasured(d: Dev, events: seq<Event>, profiles: seq<Profile>)
    requires Inv(d) && Timekeeping(d, profiles)
    requires forall i | 0 <= i < |events| && events[i].DoSetProfile? :: events[i].profile in profiles
    ensures Timekeeping(Run(d, events), profiles)
    decreases |events|
  {
    if events != [] {
      StepKeeps(d, events[0]);
      StepMeasured(d, events[0], profiles);
      forall i | 0 <= i < |events[1..]| && events[1..][i].DoSetProfile?
        ensures events[1..][i].profile in profiles
      {
        assert events[1..][i] == events[i + 1];
      }
      RunMeasured(Step(d, events[0]), events[1..], profiles);
    }
  }

  /** Every request handed back over any run occupied its stream for its real duration. */
  lemma ReturnedAreMeasured(profile: Profile, events: seq<Event>, i: nat)
    requires i < |Run(Init(profile), events).returned|
    ensures Measured(Run(Init(profile), events).returned[i], Profiles(profile, events))
  {
    var profiles := Profiles(profile, events);
    InitInv(profile);
    FirstProfileIsKnown(profile, events);
    forall k | 0 <= k < |events| && events[k].DoSetProfile?
      ensures events[k].profile in profiles
    {
      ProfileIsKnown(profile, events, k);
    }
    RunMeasured(Init(profile), events, profiles);
  }
}
