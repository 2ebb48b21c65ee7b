/** Every step of the virtual host controller keeps its invariant. */
module HcdSteps {
  import opened Base
  import opened HcdSpec
  import opened HcdQueue
  import opened HcdInvariant
  import MicQueue
  import IsoTransfer

  // Submitting ---------------------------------------------------------------------------

  function Accepting(d: Dev): Dev {
    d.(accepted := d.accepted + 1)
  }

  lemma AcceptKeeps(d: Dev)
    requires Queues(d, None)
    ensures Queues(Accepting(d), Some(d.accepted))
  {
    var d' := Accepting(d);
    forall k: nat
      ensures Total(d', k) == if k < d'.accepted && Some(d.accepted) != Some(k) then 1 else 0
    {
      assert Total(d, k) == if k < d.accepted then 1 else 0;
    }
    SameHistory(d, d');
    FifoFrame(d, d');
  }

  /** The newest submission is newer than everything known. */
  lemma NewestSerial(d: Dev)
    requires d.accepted > 0 && Once(d, Some(d.accepted - 1))
    ensures forall i | 0 <= i < |History(d)| :: History(d)[i].serial < d.accepted - 1
    ensures forall i | 0 <= i < |d.pendingHidIn| :: d.pendingHidIn[i].serial < d.accepted - 1
  {
    forall i | 0 <= i < |History(d)|
      ensures History(d)[i].serial < d.accepted - 1
    {
      HistoryIsAccepted(d, Some(d.accepted - 1), i);
    }
    forall i | 0 <= i < |d.pendingHidIn|
      ensures d.pendingHidIn[i].serial < d.accepted - 1
    {
      KnownIsAccepted(d, Some(d.accepted - 1), d.pendingHidIn, i);
    }
  }

  /** The clock of `c`'s stream has just been moved on to `c`'s ready time. */
  predicate JustScheduled(d: Dev, d': Dev, c: Context) {
    && SameQueues(d, d') && d'.epoch == d.epoch == c.epoch
    && c.state != PendingGiveback && c.state != GivingBack && StreamOf(c) != Untimed
    && 0 <= Clock(d, StreamOf(c)) + c.span <= c.ready == Clock(d', StreamOf(c))
  }

  /** A request scheduled past its stream's clock follows its whole stream. */
  lemma ScheduledMayComplete(d: Dev, d': Dev, c: Context)
    requires Clocked(d) && JustScheduled(d, d', c)
    requires forall i | 0 <= i < |History(d)| && StreamOf(History(d)[i]) == StreamOf(c) ::
      History(d)[i].serial < c.serial
    requires StreamOf(c) == HidStream && d.pendingHidIn != [] ==> c.serial < d.pendingHidIn[0].serial
    ensures MayComplete(d', c)
  {
    assert History(d') == History(d);
    forall i: nat | i < |History(d')|
      ensures Precedes(History(d'), i, c)
    {
      assert ClockedAt(d, i);
    }
  }

  lemma SubmitUntimed(d: Dev, c: Context, status: int)
    requires Queues(d, Some(c.serial)) && Buffers(d) && c.serial < d.accepted
    requires c.ready == 0 && c.epoch == d.epoch && c.state != PendingGiveback && c.state != GivingBack
    ensures Inv(Complete(d, c, status))
  {
    UntimedMayComplete(d, c);
    CompleteKeepsQueues(d, c, status);
  }

  lemma SubmitTimed(d: Dev, d': Dev, c: Context)
    requires Queues(d, Some(c.serial)) && Buffers(d') && c.serial == d.accepted - 1
    requires JustScheduled(d, d', c)
    requires d'.nextIsoOut >= d.nextIsoOut && d'.nextIsoIn >= d.nextIsoIn && d'.nextHidIn >= d.nextHidIn
    requires StreamOf(c) == HidStream ==> d.pendingHidIn == []
    ensures Inv(Complete(d', c, 0))
  {
    NewestSerial(d);
    ScheduledMayComplete(d, d', c);
    SameQueuesKeep(d, d', Some(c.serial));
    CompleteKeepsQueues(d', c, 0);
  }

  lemma InStateAppend(l: seq<Context>, c: Context, state: ContextState)
    requires InState(l, state) && c.state == state
    ensures InState(l + [c], state)
  {
    forall i: nat | i < |l + [c]|
      ensures StateIs(l + [c], i, state)
    {
      if i < |l| { assert StateIs(l, i, state); }
    }
  }

  lemma PlainAppend(d: Dev, d': Dev, l: seq<Context>, c: Context)
    requires Plain(l, d.epoch) && d'.epoch == d.epoch
    requires c.ready == 0 && !c.deliverOut && !c.deliverIn && c.epoch == d.epoch
    ensures Plain(l + [c], d'.epoch)
  {
    forall i: nat | i < |l + [c]|
      ensures PlainAt(l + [c], i, d'.epoch)
    {
      if i < |l| { assert PlainAt(l, i, d.epoch); }
    }
  }

  function WaitingHid(d: Dev, c: Context): Dev {
    d.(pendingHidIn := d.pendingHidIn + [c])
  }

  function WaitingFeature(d: Dev, c: Context): Dev {
    d.(pendingFeature := d.pendingFeature + [c])
  }

  lemma WaitOnce(d: Dev, c: Context, d': Dev)
    requires Once(d, Some(c.serial)) && c.serial < d.accepted
    requires d' == WaitingHid(d, c) || d' == WaitingFeature(d, c)
    ensures Once(d', None)
  {
    forall k: nat
      ensures Total(d', k) == if k < d'.accepted then 1 else 0
    {
      CountConcat(d.pendingHidIn, [c], k);
      CountConcat(d.pendingFeature, [c], k);
      CountOne(c, k);
      assert Total(d, k) == if k < d.accepted && Some(c.serial) != Some(k) then 1 else 0;
    }
  }

  lemma WaitHidFifo(d: Dev, c: Context)
    requires Once(d, Some(c.serial)) && HidFifo(d) && c.serial == d.accepted - 1
    ensures HidFifo(WaitingHid(d, c))
  {
    var d' := WaitingHid(d, c);
    assert History(d') == History(d);
    NewestSerial(d);
    IncreasingAppend(d.pendingHidIn, c);
    forall i: nat | i < |History(d')|
      ensures ScheduledBefore(History(d'), i, d'.pendingHidIn[0].serial)
    {
      if d.pendingHidIn != [] { assert ScheduledBefore(History(d), i, d.pendingHidIn[0].serial); }
    }
  }

  lemma WaitHid(d: Dev, c: Context)
    requires Queues(d, Some(c.serial)) && Buffers(d) && c.serial == d.accepted - 1
    requires c.ready == 0 && !c.deliverOut && !c.deliverIn && c.epoch == d.epoch && c.state == PendingHidIn
    requires d.input == [] && !d.stopping
    ensures Inv(WaitingHid(d, c))
  {
    var d' := WaitingHid(d, c);
    WaitOnce(d, c, d');
    WaitHidFifo(d, c);
    SameHistory(d, d');
    InStateAppend(d.pendingHidIn, c, PendingHidIn);
    PlainAppend(d, d', d.pendingHidIn, c);
  }

  lemma WaitFeature(d: Dev, c: Context)
    requires Queues(d, Some(c.serial)) && Buffers(d) && c.serial == d.accepted - 1
    requires c.ready == 0 && !c.deliverOut && !c.deliverIn && c.epoch == d.epoch && c.state == PendingFeatureGet
    requires c.reportId !in d.cache && !d.stopping
    ensures Inv(WaitingFeature(d, c))
  {
    var d' := WaitingFeature(d, c);
    WaitOnce(d, c, d');
    FifoFrame(d, d');
    SameHistory(d, d');
    InStateAppend(d.pendingFeature, c, PendingFeatureGet);
    PlainAppend(d, d', d.pendingFeature, c);
    forall i: nat | i < |d'.pendingFeature|
      ensures NotCached(d'.pendingFeature, i, d'.cache)
    {
      if i < |d.pendingFeature| { assert NotCached(d.pendingFeature, i, d.cache); }
    }
  }

  /** The state just after a request was linked: everything else is in order. */
  ghost predicate Linking(d: Dev, c: Context) {
    && Queues(d, Some(c.serial)) && Buffers(d) && !d.stopping
    && d.accepted == c.serial + 1 && c.epoch == d.epoch
    && c.state == Active && c.ready == 0 && !c.deliverOut && !c.deliverIn
  }

  lemma SubmitSetFeatureKeeps(d: Dev, c: Context, id: Byte)
    requires Linking(d, c)
    ensures Inv(SubmitControl(d, c, SetFeature(id)))
  {
    var status := SetFeatureStatus(d, c.urb, id);
    if status != 0 {
      SubmitUntimed(d, c, status);
    } else {
      EnqueueFrameKeeps(d, FeatureSetFrame, SetFeatureFrame(c.urb, id));
      SameQueuesKeep(d, SetFeatureSent(d, c.urb, id), Some(c.serial));
      SubmitUntimed(SetFeatureSent(d, c.urb, id), c.(actual := c.urb.bufferLength), 0);
    }
  }

  lemma SubmitControlKeeps(d: Dev, c: Context, request: Control)
    requires Linking(d, c)
    ensures Inv(SubmitControl(d, c, request))
  {
    match request
    case OtherControl(result) =>
      SubmitUntimed(d, c, result);
    case SetFeature(id) =>
      SubmitSetFeatureKeeps(d, c, id);
    case GetFeature(id, length) =>
      if id in d.cache {
        SubmitUntimed(d, FillFeature(c, d.cache[id]), FillFeatureStatus(c.urb, d.cache[id]));
      } else {
        var waiting := c.(reportId := id, state := PendingFeatureGet);
        var frame: seq<Byte> := [id, length % 256, length / 256 % 256];
        if EnqueueStatus(d, frame) != 0 {
          SubmitUntimed(d, waiting, EnqueueStatus(d, frame));
        } else {
          var d' := EnqueueFrame(d, FeatureGetFrame, frame);
          EnqueueFrameKeeps(d, FeatureGetFrame, frame);
          SameQueuesKeep(d, d', Some(c.serial));
          WaitFeature(d', waiting);
          assert SubmitControl(d, c, request) == WaitingFeature(d', waiting);
        }
      }
  }

  lemma SubmitInterruptInKeeps(d: Dev, c: Context, now: Time)
    requires Linking(d, c)
    ensures Inv(SubmitInterruptIn(d, c, now))
  {
    if d.input != [] {
      var filled := ScheduleHid(d, FillHidIn(c, d.input[0]), now);
      SubmitTimed(d, d.(input := d.input[1..], nextHidIn := filled.ready), filled);
    } else {
      WaitHid(d, c.(state := PendingHidIn));
      assert SubmitInterruptIn(d, c, now) == WaitingHid(d, c.(state := PendingHidIn));
    }
  }

  lemma SubmitInterruptOutKeeps(d: Dev, c: Context)
    requires Linking(d, c)
    ensures Inv(SubmitInterruptOut(d, c))
  {
    if c.urb.bufferLength == 0 {
      SubmitUntimed(d, c, 0);
    } else if c.urb.buffer.None? || c.urb.bufferLength > HID_PACKET_SIZE {
      SubmitUntimed(d, c, EPIPE);
    } else {
      var d' := EnqueueFrame(d, HidOutFrame, c.urb.buffer.value);
      EnqueueFrameKeeps(d, HidOutFrame, c.urb.buffer.value);
      SameQueuesKeep(d, d', Some(c.serial));
      SubmitUntimed(d', c.(actual := c.urb.bufferLength), 0);
    }
  }

  lemma SubmitIsoKeeps(d: Dev, c: Context, now: Time)
    requires Linking(d, c)
    ensures Inv(SubmitIso(d, c, now))
  {
    if !c.urb.dirIn && c.urb.endpoint == d.profile.audioOut && c.urb.buffer.Some? {
      var timed := ScheduleIso(d, c.(deliverOut := true), now, false);
      SubmitTimed(d, d.(nextIsoOut := timed.ready), timed);
    } else if c.urb.dirIn && d.profile.audioIn == Some(c.urb.endpoint) && c.urb.buffer.Some?
              && !(!c.urb.dirIn && c.urb.endpoint == d.profile.audioOut) {
      var timed := ScheduleIso(d, c.(deliverIn := true), now, true);
      SubmitTimed(d, d.(nextIsoIn := timed.ready), timed);
    } else {
      SubmitUntimed(d, c, EPIPE);
    }
  }

  lemma DispatchKeeps(d: Dev, c: Context, now: Time)
    requires Linking(d, c)
    ensures Inv(Dispatch(d, c, now))
  {
    match c.urb.pipe
    case ControlPipe(request) => SubmitControlKeeps(d, c, request);
    case InterruptPipe =>
      if c.urb.dirIn && c.urb.endpoint == d.profile.hidIn { SubmitInterruptInKeeps(d, c, now); }
      else if !c.urb.dirIn && c.urb.endpoint == d.profile.hidOut { SubmitInterruptOutKeeps(d, c); }
      else { SubmitUntimed(d, c, EPIPE); }
    case IsochronousPipe => SubmitIsoKeeps(d, c, now);
    case OtherPipe => SubmitUntimed(d, c, EPIPE);
  }

  lemma LinkKeeps(d: Dev, urb: Urb)
    requires Inv(d) && !d.stopping
    ensures Linking(Accepting(d), NewContext(d, urb))
  {
    AcceptKeeps(d);
  }

  lemma SubmitKeeps(d: Dev, urb: Urb, linked: int, now: Time)
    requires Inv(d)
    ensures Inv(Submit(d, urb, linked, now))
  {
    if SubmitStatus(d, linked) == 0 {
      LinkKeeps(d, urb);
      DispatchKeeps(Accepting(d), NewContext(d, urb), now);
      assert Submit(d, urb, linked, now) == Dispatch(Accepting(d), NewContext(d, urb), now);
    } else {
      assert Submit(d, urb, linked, now) == d;
    }
  }

  // Cancelling ---------------------------------------------------------------------------

  /** One entry of the history replaced by itself with other data, or by its cancelled self. */
  lemma ReplaceInHistory(d: Dev, d': Dev, n: nat, c: Context)
    requires Paced(History(d)) && Clocked(d) && HidFifo(d) && n < |History(d)|
    requires SameTimingOrCancelled(History(d)[n], c)
    requires History(d') == History(d)[n := c] && d'.pendingHidIn == d.pendingHidIn && d'.epoch == d.epoch
    requires d'.nextIsoOut == d.nextIsoOut && d'.nextIsoIn == d.nextIsoIn && d'.nextHidIn == d.nextHidIn
    ensures Paced(History(d')) && Clocked(d') && HidFifo(d')
  {
    PacedReplace(History(d), n, c);
    forall i: nat | i < |History(d')|
      ensures ClockedAt(d', i)
      ensures d.pendingHidIn != [] ==> ScheduledBefore(History(d'), i, d.pendingHidIn[0].serial)
    {
      assert ClockedAt(d, i);
      if d.pendingHidIn != [] { assert ScheduledBefore(History(d), i, d.pendingHidIn[0].serial); }
    }
  }

  function CancelledAt(d: Dev, i: nat, status: int): Dev
    requires i < |d.completed|
  {
    d.(completed := d.completed[i := d.completed[i].(status := status, ready := 0)])
  }

  lemma CancelQueuedOnce(d: Dev, i: nat, status: int)
    requires Once(d, None) && i < |d.completed|
    ensures Once(CancelledAt(d, i, status), None)
  {
    var c := d.completed[i].(status := status, ready := 0);
    var d' := CancelledAt(d, i, status);
    forall k: nat
      ensures Total(d', k) == Total(d, k)
    {
      CountUpdate(i, c, d.completed, k);
    }
    SameOnce(d, d', None);
  }

  lemma CancelQueuedOrder(d: Dev, i: nat, status: int)
    requires SortedByReady(d.completed) && InState(d.completed, PendingGiveback) && i < |d.completed|
    ensures var q := CancelledAt(d, i, status).completed;
      SortedByReady(q) && InState(q, PendingGiveback)
  {
    var q := CancelledAt(d, i, status).completed;
    forall m: nat, n: nat | m < n < |q|
      ensures ReadyOrdered(q, m, n)
    {
      assert ReadyOrdered(d.completed, m, n);
    }
    forall m: nat | m < |q|
      ensures StateIs(q, m, PendingGiveback)
    {
      assert StateIs(d.completed, m, PendingGiveback);
    }
  }

  /** Cancelling a queued request leaves it in its place, without a ready time. */
  lemma CancelQueuedKeeps(d: Dev, i: nat, status: int)
    requires Inv(d) && i < |d.completed|
    ensures Inv(CancelledAt(d, i, status))
  {
    var c := d.completed[i].(status := status, ready := 0);
    var d' := CancelledAt(d, i, status);
    var n := |Popped(d)|;
    CancelQueuedOnce(d, i, status);
    CancelQueuedOrder(d, i, status);
    assert Popped(d') == Popped(d);
    assert History(d)[n + i] == d.completed[i];
    assert History(d') == History(d)[n + i := c];
    ReplaceInHistory(d, d', n + i, c);
  }

  lemma CancelHidInv(d: Dev, i: nat, status: int)
    requires Inv(d) && i < |d.pendingHidIn|
    ensures Inv(CompletedHid(d, i, status))
  {
    CompleteHid(d, i, status);
  }

  lemma CancelFeatureInv(d: Dev, i: nat, status: int)
    requires Inv(d) && i < |d.pendingFeature|
    ensures Inv(CompletedFeature(d, i, d.pendingFeature[i], status))
  {
    var d' := CompletedFeature(d, i, d.pendingFeature[i], status);
    assert StateIs(d.pendingFeature, i, PendingFeatureGet) && PlainAt(d.pendingFeature, i, d.epoch);
    CompleteFeature(d, i, d.pendingFeature[i], status);
    forall j: nat | j < |d'.pendingFeature|
      ensures NotCached(d'.pendingFeature, j, d'.cache)
    {
      assert NotCached(d.pendingFeature, if j < i then j else j + 1, d.cache);
    }
  }

  lemma CancelKeeps(d: Dev, serial: nat, status: int, check: int)
    requires Inv(d)
    ensures Inv(Cancel(d, serial, status, check))
  {
    if CancelStatus(d, serial, check) == 0 {
      if Has(serial, d.completed) {
        CancelQueuedKeeps(d, Find(serial, d.completed), status);
        assert Cancel(d, serial, status, check) == CancelledAt(d, Find(serial, d.completed), status);
      } else if Has(serial, d.pendingHidIn) {
        var i := Find(serial, d.pendingHidIn);
        assert StateIs(d.pendingHidIn, i, PendingHidIn);
        CancelHidInv(d, i, status);
        assert Cancel(d, serial, status, check) == CompletedHid(d, i, status);
      } else {
        var i := Find(serial, d.pendingFeature);
        assert StateIs(d.pendingFeature, i, PendingFeatureGet);
        CancelFeatureInv(d, i, status);
        assert Cancel(d, serial, status, check) == CompletedFeature(d, i, d.pendingFeature[i], status);
      }
    }
  }

  // Frames from the daemon ---------------------------------------------------------------

  lemma OldestMayComplete(d: Dev, d1: Dev, d2: Dev, c: Context)
    requires Clocked(d) && HidFifo(d) && d.pendingHidIn != []
    requires d1 == UnlinkedHid(d, 0) && JustScheduled(d1, d2, c)
    requires c.serial == d.pendingHidIn[0].serial && StreamOf(c) == HidStream
    ensures MayComplete(d2, c)
  {
    assert History(d1) == History(d);
    assert d1.pendingHidIn == d.pendingHidIn[1..];
    forall i | 0 <= i < |History(d1)| && StreamOf(History(d1)[i]) == HidStream
      ensures History(d1)[i].serial < c.serial
    {
      assert ScheduledBefore(History(d), i, d.pendingHidIn[0].serial);
    }
    forall i: nat | i < |History(d1)|
      ensures ClockedAt(d1, i)
    {
      assert ClockedAt(d, i);
    }
    ScheduledMayComplete(d1, d2, c);
  }

  /** The oldest waiting input request filled with a report and scheduled. */
  function Oldest(d: Dev, payload: seq<Byte>, now: Time): Context
    requires d.pendingHidIn != []
  {
    ScheduleHid(d, FillHidIn(d.pendingHidIn[0], payload), now)
  }

  lemma AnswerOldestHid(d: Dev, payload: seq<Byte>, now: Time)
    requires Queues(d, None) && WriteInputStatus(d, payload) == 0 && d.pendingHidIn != []
    ensures Queues(WriteInput(d, payload, now), None)
  {
    var c := Oldest(d, payload, now);
    var d1 := UnlinkedHid(d, 0);
    var d2 := d1.(framesFromUser := d.framesFromUser + 1, nextHidIn := c.ready);
    assert StateIs(d.pendingHidIn, 0, PendingHidIn) && PlainAt(d.pendingHidIn, 0, d.epoch);
    assert d1.pendingHidIn == d.pendingHidIn[1..];
    OldestMayComplete(d, d1, d2, c);
    UnlinkHid(d, 0);
    SameQueuesKeep(d1, d2, Some(c.serial));
    CompleteKeepsQueues(d2, c, 0);
    assert Complete(d2, c, 0) == WriteInput(d, payload, now);
  }

  lemma WriteInputKeeps(d: Dev, payload: seq<Byte>, now: Time)
    requires Inv(d)
    ensures Inv(WriteInput(d, payload, now))
  {
    var d' := WriteInput(d, payload, now);
    if WriteInputStatus(d, payload) == 0 {
      if d.pendingHidIn != [] {
        AnswerOldestHid(d, payload, now);
      } else {
        SameQueuesKeep(d, d', None);
      }
    }
  }

  function Answered(d: Dev, kept: seq<Context>, rest: seq<Context>, payload: seq<Byte>): Dev
    requires payload != []
  {
    d.(completed := Answer(rest, payload, d.completed), pendingFeature := kept + Others(rest, payload[0]))
  }

  /** The waiter at the head of `rest` answered. */
  function AnsweredOne(d: Dev, i: nat, payload: seq<Byte>): Dev
    requires i < |d.pendingFeature|
  {
    var c := d.pendingFeature[i];
    CompletedFeature(d, i, FillFeature(c, payload), FillFeatureStatus(c.urb, payload))
  }

  lemma AnswerUnfolds(d: Dev, kept: seq<Context>, rest: seq<Context>, payload: seq<Byte>)
    requires payload != [] && rest != [] && rest[0].state == PendingFeatureGet
    requires d.pendingFeature == kept + rest
    ensures Without(|kept|, d.pendingFeature) == kept + rest[1..]
    ensures Waits(rest[0], payload[0]) ==>
      Answered(d, kept, rest, payload) == Answered(AnsweredOne(d, |kept|, payload), kept, rest[1..], payload)
    ensures !Waits(rest[0], payload[0]) ==>
      Answered(d, kept, rest, payload) == Answered(d, kept + [rest[0]], rest[1..], payload)
  {
    assert d.pendingFeature[|kept|] == rest[0];
    assert (kept + [rest[0]]) + Others(rest[1..], payload[0]) == kept + ([rest[0]] + Others(rest[1..], payload[0]));
    assert Waits(rest[0], payload[0]) ==> Others(rest, payload[0]) == Others(rest[1..], payload[0]);
  }

  /** Answering the waiters in `rest` one by one; those in `kept` were passed over. */
  lemma {:induction false} AnswerKeeps(d: Dev, kept: seq<Context>, rest: seq<Context>, payload: seq<Byte>)
    requires Queues(d, None) && payload != [] && d.pendingFeature == kept + rest
    ensures Queues(Answered(d, kept, rest, payload), None)
    decreases |rest|
  {
    if rest == [] {
      assert Answered(d, kept, rest, payload) == d;
    } else {
      var n := |kept|;
      var c := FillFeature(rest[0], payload);
      assert d.pendingFeature[n] == rest[0];
      assert StateIs(d.pendingFeature, n, PendingFeatureGet) && PlainAt(d.pendingFeature, n, d.epoch);
      AnswerUnfolds(d, kept, rest, payload);
      if Waits(rest[0], payload[0]) {
        CompleteFeature(d, n, c, FillFeatureStatus(rest[0].urb, payload));
        AnswerKeeps(AnsweredOne(d, n, payload), kept, rest[1..], payload);
      } else {
        assert (kept + [rest[0]]) + rest[1..] == kept + rest;
        AnswerKeeps(d, kept + [rest[0]], rest[1..], payload);
      }
    }
  }

  lemma {:induction false} OthersDoNotWait(l: seq<Context>, id: Byte, i: nat) returns (j: nat)
    requires i < |Others(l, id)|
    ensures j < |l| && Others(l, id)[i] == l[j] && !Waits(l[j], id)
  {
    if Waits(l[0], id) {
      j := OthersDoNotWait(l[1..], id, i);
      j := j + 1;
    } else if i == 0 {
      j := 0;
    } else {
      j := OthersDoNotWait(l[1..], id, i - 1);
      j := j + 1;
    }
  }

  /** The device with a reply remembered, before its waiters are answered. */
  function Remembered(d: Dev, payload: seq<Byte>): Dev
    requires payload != []
  {
    d.(cache := d.cache[payload[0] := payload], framesFromUser := d.framesFromUser + 1)
  }

  lemma ReplyIsAnswered(d: Dev, payload: seq<Byte>)
    requires WriteFeatureStatus(d, payload) == 0
    ensures WriteFeature(d, payload) == Answered(Remembered(d, payload), [], d.pendingFeature, payload)
  {
    assert [] + Others(d.pendingFeature, payload[0]) == Others(d.pendingFeature, payload[0]);
  }

  lemma WriteFeatureQueues(d: Dev, payload: seq<Byte>)
    requires Queues(d, None)
    ensures Queues(WriteFeature(d, payload), None)
  {
    if payload == [] || |payload| > HID_PACKET_SIZE {
      assert WriteFeature(d, payload) == d;
    } else if d.stopping {
      SameQueuesKeep(d, WriteFeature(d, payload), None);
    } else {
      ReplyIsAnswered(d, payload);
      SameQueuesKeep(d, Remembered(d, payload), None);
      assert d.pendingFeature == [] + d.pendingFeature;
      AnswerKeeps(Remembered(d, payload), [], d.pendingFeature, payload);
    }
  }

  lemma WriteFeatureKeeps(d: Dev, payload: seq<Byte>)
    requires Inv(d)
    ensures Inv(WriteFeature(d, payload))
  {
    var d' := WriteFeature(d, payload);
    WriteFeatureQueues(d, payload);
    if payload != [] && |payload| <= HID_PACKET_SIZE {
      forall i: nat | i < |d'.pendingFeature|
        ensures NotCached(d'.pendingFeature, i, d'.cache)
      {
        var j := OthersDoNotWait(d.pendingFeature, payload[0], i);
        assert NotCached(d.pendingFeature, j, d.cache);
      }
    }
  }

  lemma WriteAudioKeeps(d: Dev, payload: seq<Byte>)
    requires Inv(d) && !TooLong(payload)
    ensures Inv(WriteAudio(d, payload))
  {
    var d' := WriteAudio(d, payload);
    SameQueuesKeep(d, d', None);
    if WriteAudioStatus(d, payload) == 0 {
      MicQueue.WriteKeepsInv(d.mic, |MicQueue.Unread(d.mic)|, payload);
    }
  }

  lemma ReadKeeps(d: Dev, count: nat)
    requires Inv(d)
    ensures Inv(Read(d, count))
  {
    var d' := Read(d, count);
    SameQueuesKeep(d, d', None);
    forall i: nat | i < |d'.events|
      ensures Numbered(d'.events, i, d'.nextSequence)
    {
      assert Numbered(d.events, i + (|d.events| - |d'.events|), d.nextSequence);
    }
  }

  // Connection ---------------------------------------------------------------------------

  lemma FlushKeeps(d: Dev)
    requires Queues(d, None) && d.pendingHidIn == [] && d.pendingFeature == [] && d.framesToUser == d.nextSequence
    ensures Inv(FlushBuffered(d))
  {
    SameQueuesKeep(d, FlushBuffered(d), None);
  }

  lemma DisconnectKeeps(d: Dev)
    requires Inv(d)
    ensures Inv(Disconnect(d))
  {
    if !d.stopping {
      var cancelled := CancelPending(d, ESHUTDOWN);
      CancelPendingKeeps(d, ESHUTDOWN);
      FlushKeeps(cancelled);
      ResetKeeps(FlushBuffered(cancelled), Disconnect(d));
    }
  }

  lemma ResetUsbKeeps(d: Dev)
    requires Inv(d)
    ensures Inv(ResetUsb(d))
  {
    SameQueuesKeep(d, ResetUsb(d), None);
  }

  lemma {:induction false} RenewedCounts(l: seq<Context>, epoch: nat, k: nat)
    ensures Count(Renewed(l, epoch), k) == Count(l, k)
  {
    if l != [] {
      RenewedCounts(l[1..], epoch, k);
      assert Renewed(l, epoch)[1..] == Renewed(l[1..], epoch);
    }
  }

  lemma {:induction false} RenewedOrder(l: seq<Context>, epoch: nat)
    requires Increasing(l)
    ensures Increasing(Renewed(l, epoch))
  {
    if l != [] {
      RenewedOrder(l[1..], epoch);
      assert Renewed(l, epoch)[1..] == Renewed(l[1..], epoch);
    }
  }

  lemma RenewedWait(l: seq<Context>, before: nat, epoch: nat, state: ContextState)
    requires InState(l, state) && Plain(l, before)
    ensures InState(Renewed(l, epoch), state) && Plain(Renewed(l, epoch), epoch)
  {
    forall i: nat | i < |l|
      ensures StateIs(Renewed(l, epoch), i, state) && PlainAt(Renewed(l, epoch), i, epoch)
    {
      assert StateIs(l, i, state) && PlainAt(l, i, before);
    }
  }

  lemma StartOnce(d: Dev)
    requires Once(d, None)
    ensures Once(Start(d), None)
  {
    var d' := Start(d);
    forall k: nat
      ensures Total(d', k) == Total(d, k)
    {
      RenewedCounts(d.pendingHidIn, d.epoch + 1, k);
      RenewedCounts(d.pendingFeature, d.epoch + 1, k);
    }
    SameOnce(d, d', None);
  }

  lemma StartFifo(d: Dev)
    requires HidFifo(d)
    ensures HidFifo(Start(d))
  {
    var d' := Start(d);
    RenewedOrder(d.pendingHidIn, d.epoch + 1);
    assert History(d') == History(d);
    if d'.pendingHidIn != [] {
      forall j: nat | j < |History(d')|
        ensures ScheduledBefore(History(d'), j, d'.pendingHidIn[0].serial)
      {
        assert ScheduledBefore(History(d), j, d.pendingHidIn[0].serial);
      }
    }
  }

  lemma StartQueues(d: Dev)
    requires Queues(d, None)
    ensures Queues(Start(d), None)
  {
    var d' := Start(d);
    StartOnce(d);
    StartFifo(d);
    RenewedWait(d.pendingHidIn, d.epoch, d'.epoch, PendingHidIn);
    RenewedWait(d.pendingFeature, d.epoch, d'.epoch, PendingFeatureGet);
    assert History(d') == History(d) && Popped(d') == Popped(d);
    forall i: nat | i < |History(d')|
      ensures ClockedAt(d', i)
    {
      assert ClockedAt(d, i);
    }
  }

  lemma StartKeeps(d: Dev)
    requires Inv(d)
    ensures Inv(Start(d))
  {
    var d' := Start(d);
    StartQueues(d);
    forall i: nat | i < |d'.pendingFeature|
      ensures NotCached(d'.pendingFeature, i, d'.cache)
    {
      assert NotCached(d.pendingFeature, i, d.cache);
    }
  }

  lemma StopKeeps(d: Dev)
    requires Inv(d)
    ensures Inv(Stop(d))
  {
    var d' := d.(stopping := true);
    SameQueuesKeep(d, d', None);
    CancelPendingKeeps(d', ESHUTDOWN);
    FlushKeeps(CancelPending(d', ESHUTDOWN));
    SameQueuesKeep(FlushBuffered(CancelPending(d', ESHUTDOWN)), Stop(d), None);
  }

  lemma ConnectKeeps(d: Dev)
    requires Inv(d)
    ensures Inv(Connect(d))
  {
    SameQueuesKeep(d, Connect(d), None);
  }

  lemma SetProfileKeeps(d: Dev, profile: Profile)
    requires Inv(d)
    ensures Inv(SetProfile(d, profile))
  {
    var d' := SetProfile(d, profile);
    SameQueuesKeep(d, d', None);
    forall i: nat | i < |d'.pendingFeature|
      ensures NotCached(d'.pendingFeature, i, d'.cache)
    {
      assert NotCached(d.pendingFeature, i, d.cache);
    }
  }

  // Giving back --------------------------------------------------------------------------

  lemma PopTotals(d: Dev, now: Time, k: nat)
    ensures Total(Pop(d, now), k) == Total(d, k)
  {
    if Pop(d, now) != d {
      CountOne(d.completed[0].(state := GivingBack, doneAt := now), k);
    }
  }

  lemma PopHistory(d: Dev, now: Time)
    requires Pop(d, now) != d
    ensures var n := |d.returned|; var c := d.completed[0];
      n < |History(d)| && History(d)[n] == c &&
      History(Pop(d, now)) == History(d)[n := c.(state := GivingBack, doneAt := now)]
  {
    assert d.completed == [d.completed[0]] + d.completed[1..];
  }

  lemma PopTags(d: Dev, now: Time)
    requires Pop(d, now) != d && Tagged(d) && NotEarly(d) && SortedByReady(d.completed)
    ensures Tagged(Pop(d, now)) && NotEarly(Pop(d, now)) && SortedByReady(Pop(d, now).completed)
  {
    var d' := Pop(d, now);
    var q := d'.completed;
    forall i: nat | i < |q|
      ensures StateIs(q, i, PendingGiveback)
    {
      assert StateIs(d.completed, i + 1, PendingGiveback);
    }
    forall i: nat, j: nat | i < j < |q|
      ensures ReadyOrdered(q, i, j)
    {
      assert ReadyOrdered(d.completed, i + 1, j + 1);
    }
    forall i: nat | i < |Popped(d')|
      ensures OnTime(Popped(d'), i)
    {
      if i < |d.returned| { assert OnTime(Popped(d), i); }
    }
  }

  lemma PopKeeps(d: Dev, now: Time)
    requires Inv(d)
    ensures Inv(Pop(d, now))
  {
    var d' := Pop(d, now);
    if d' != d {
      forall k: nat
        ensures Total(d', k) == Total(d, k)
      {
        PopTotals(d, now, k);
      }
      SameOnce(d, d', None);
      PopHistory(d, now);
      ReplaceInHistory(d, d', |d.returned|, d.completed[0].(state := GivingBack, doneAt := now));
      PopTags(d, now);
    }
  }

  /** The request coming out of delivery is the one that went in, timing untouched. */
  lemma DeliverKeepsTiming(d: Dev, c: Context)
    requires Buffers(d)
    ensures var (d', c') := Deliver(d, c);
      SameQueues(d, d') && d'.epoch == d.epoch && Buffers(d') &&
      d'.nextIsoOut == d.nextIsoOut && d'.nextIsoIn == d.nextIsoIn && d'.nextHidIn == d.nextHidIn &&
      c' == c.(status := c'.status, actual := c'.actual, errors := c'.errors, delivered := c'.delivered)
  {
    if c.status == 0 && (c.deliverOut || c.deliverIn) && c.urb.buffer.Some? {
      var buffer := c.urb.buffer.value;
      if c.deliverOut {
        IsoTransfer.SpansInside(c.urb.descs, |buffer|, None);
        EnqueueSpansKeeps(d, IsoTransfer.Spans(c.urb.descs, |buffer|, None), buffer);
      } else {
        FillInShrinks(c.urb.descs, buffer, d.mic);
      }
    }
  }

  lemma {:induction false} FillInShrinks(descs: seq<IsoTransfer.Desc>, buffer: seq<Byte>, mic: MicQueue.Queue)
    ensures |MicQueue.Unread(FillIn(descs, buffer, mic).1)| <= |MicQueue.Unread(mic)|
    ensures mic == [] ==> FillIn(descs, buffer, mic).1 == []
  {
    if descs != [] {
      if !IsoTransfer.Fits(descs[0], |buffer|) {
        FillInShrinks(descs[1..], buffer, mic);
      } else {
        var n := Min(descs[0].length, MicQueue.BYTES_PER_MS);
        var start := descs[0].offset;
        MicQueue.ConsumeDropsOldest(mic, n);
        FillInShrinks(descs[1..],
          buffer[..start] + MicQueue.Taken(mic, n) + buffer[start + n..], MicQueue.Consume(mic, n));
      }
    }
  }

  lemma FinishTotals(d: Dev, k: nat)
    requires Buffers(d)
    ensures Total(Finish(d), k) == Total(d, k)
  {
    if d.giving.Some? {
      var c := d.giving.value;
      var r := Deliver(d, c).1;
      DeliverKeepsTiming(d, c);
      CountOne(c, k);
      CountOne(r, k);
      CountConcat(d.returned, [r], k);
    }
  }

  lemma FinishHistory(d: Dev)
    requires Buffers(d) && d.giving.Some?
    ensures var n := |d.returned|; var c := d.giving.value;
      n < |History(d)| && History(d)[n] == c &&
      History(Finish(d)) == History(d)[n := Deliver(d, c).1]
  {
    DeliverKeepsTiming(d, d.giving.value);
    assert d.returned + [d.giving.value] + d.completed == History(d);
  }

  lemma FinishTags(d: Dev)
    requires Buffers(d) && Tagged(d) && NotEarly(d) && d.giving.Some?
    ensures Tagged(Finish(d)) && NotEarly(Finish(d)) && Buffers(Finish(d))
  {
    var c := d.giving.value;
    var (d1, r) := Deliver(d, c);
    var d' := Finish(d);
    DeliverKeepsTiming(d, c);
    assert Giving(d)[0] == c && StateIs(Giving(d), 0, GivingBack);
    InStateAppend(d.returned, r, GivingBack);
    forall i: nat | i < |Popped(d')|
      ensures OnTime(Popped(d'), i)
    {
      assert OnTime(Popped(d), i);
    }
  }

  lemma FinishKeeps(d: Dev)
    requires Inv(d)
    ensures Inv(Finish(d))
  {
    if d.giving.Some? {
      var d' := Finish(d);
      DeliverKeepsTiming(d, d.giving.value);
      forall k: nat
        ensures Total(d', k) == Total(d, k)
      {
        FinishTotals(d, k);
      }
      SameOnce(d, d', None);
      FinishHistory(d);
      ReplaceInHistory(d, d', |d.returned|, Deliver(d, d.giving.value).1);
      FinishTags(d);
    }
  }

  // Runs ---------------------------------------------------------------------------------

  lemma InitInv(profile: Profile)
    ensures Inv(Init(profile))
  {
    var d := Init(profile);
    assert forall k: nat :: Total(d, k) == 0;
  }

  lemma StepKeeps(d: Dev, e: Event)
    requires Inv(d)
    ensures Inv(Step(d, e))
  {
    match e
    case DoSubmit(urb, linked, now) => SubmitKeeps(d, urb, linked, now);
    case DoCancel(serial, status, check) => CancelKeeps(d, serial, status, check);
    case DoWriteInput(payload, now) => WriteInputKeeps(d, payload, now);
    case DoWriteFeature(payload) => WriteFeatureKeeps(d, payload);
    case DoWriteAudio(payload) => if !TooLong(payload) { WriteAudioKeeps(d, payload); }
    case DoRead(count) => ReadKeeps(d, count);
    case DoConnect => ConnectKeeps(d);
    case DoDisconnect => DisconnectKeeps(d);
    case DoResetUsb => ResetUsbKeeps(d);
    case DoStop => StopKeeps(d);
    case DoStart => StartKeeps(d);
    case DoSetProfile(profile) => SetProfileKeeps(d, profile);
    case DoPop(now) => PopKeeps(d, now);
    case DoFinish => FinishKeeps(d);
  }

  /** The invariant holds after every interleaving of the driver's steps. */
  lemma {:induction false} RunKeeps(d: Dev, events: seq<Event>)
    requires Inv(d)
    ensures Inv(Run(d, events))
    decreases |events|
  {
    if events != [] {
      StepKeeps(d, events[0]);
      RunKeeps(Step(d, events[0]), events[1..]);
    }
  }
}
