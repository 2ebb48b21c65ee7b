/** The order in which requests come back: completing, cancelling and handing back never reorder what is queued. */
module HcdOrder {
  import opened Base
  import opened HcdSpec
  import opened HcdQueue
  import opened HcdInvariant
  import opened HcdSteps
  import opened HcdTheorems

  // Ahead of --------------------------------------------------------------------------------

  predicate AheadAt(h: seq<Context>, i: nat, j: nat, a: nat, b: nat) {
    i < j < |h| && h[i].serial == a && h[j].serial == b
  }

  /** Submission `a` is somewhere ahead of submission `b`. */
  ghost predicate Ahead(h: seq<Context>, a: nat, b: nat) {
    exists i: nat, j: nat :: AheadAt(h, i, j, a, b)
  }

  /** `h'` has the submissions of `h` at the same places. */
  predicate SameSerials(h: seq<Context>, h': seq<Context>) {
    |h| == |h'| && forall i | 0 <= i < |h| :: h[i].serial == h'[i].serial
  }

  lemma SameSerialsAhead(h: seq<Context>, h': seq<Context>, a: nat, b: nat)
    requires Ahead(h, a, b) && SameSerials(h, h')
    ensures Ahead(h', a, b)
  {
    var i: nat, j: nat :| AheadAt(h, i, j, a, b);
    assert AheadAt(h', i, j, a, b);
  }

  lemma InsertAhead(p: seq<Context>, c: Context, q: seq<Context>, a: nat, b: nat)
    requires Ahead(p + q, a, b)
    ensures Ahead(p + Insert(c, q), a, b)
  {
    var h, r, s := p + q, p + Insert(c, q), |p| + Slot(c, q);
    var i: nat, j: nat :| AheadAt(h, i, j, a, b);
    var i', j' := if i < s then i else i + 1, if j < s then j else j + 1;
    assert r[i'] == h[i] && r[j'] == h[j];
    assert AheadAt(r, i', j', a, b);
  }

  lemma GivebackAhead(p: seq<Context>, c: Context, status: int, q: seq<Context>, a: nat, b: nat)
    requires Ahead(p + q, a, b)
    ensures Ahead(p + QueueGiveback(c, status, q), a, b)
  {
    if c.state != PendingGiveback && c.state != GivingBack {
      InsertAhead(p, Done(c, status), q, a, b);
    }
  }

  lemma {:induction false} QueueAllAhead(p: seq<Context>, l: seq<Context>, status: int, q: seq<Context>, a: nat, b: nat)
    requires Ahead(p + q, a, b)
    ensures Ahead(p + QueueAll(l, status, q), a, b)
    decreases |l|
  {
    if l != [] {
      GivebackAhead(p, l[0], status, q, a, b);
      QueueAllAhead(p, l[1..], status, QueueGiveback(l[0], status, q), a, b);
    }
  }

  lemma {:induction false} AnswerAhead(p: seq<Context>, l: seq<Context>, payload: seq<Byte>, q: seq<Context>, a: nat, b: nat)
    requires Ahead(p + q, a, b) && payload != []
    ensures Ahead(p + Answer(l, payload, q), a, b)
    decreases |l|
  {
    if l != [] {
      if Waits(l[0], payload[0]) {
        var c, status := FillFeature(l[0], payload), FillFeatureStatus(l[0].urb, payload);
        GivebackAhead(p, c, status, q, a, b);
        AnswerAhead(p, l[1..], payload, QueueGiveback(c, status, q), a, b);
      } else {
        AnswerAhead(p, l[1..], payload, q, a, b);
      }
    }
  }

  // Steps -----------------------------------------------------------------------------------

  predicate SamePopped(d: Dev, d': Dev) {
    d'.returned == d.returned && d'.giving == d.giving
  }

  lemma CompleteAhead(d: Dev, d': Dev, c: Context, status: int, a: nat, b: nat)
    requires SamePopped(d, d') && d'.completed == d.completed && Ahead(History(d), a, b)
    ensures Ahead(History(Complete(d', c, status)), a, b)
  {
    assert History(d) == Popped(d) + d.completed;
    GivebackAhead(Popped(d), c, status, d.completed, a, b);
    assert History(Complete(d', c, status)) == Popped(d) + QueueGiveback(c, status, d.completed);
  }

  lemma DispatchAhead(d: Dev, c: Context, now: Time, a: nat, b: nat)
    requires Ahead(History(d), a, b)
    ensures Ahead(History(Dispatch(d, c, now)), a, b)
  {
    var d' := Dispatch(d, c, now);
    var q := DispatchQueues(d, c, now);
    if d'.completed == d.completed {
      assert History(d') == History(d);
    } else {
      GivebackAhead(Popped(d), q.0, q.1, d.completed, a, b);
      assert History(d) == Popped(d) + d.completed;
      assert History(d') == Popped(d) + d'.completed;
    }
  }

  /** What dispatching puts on the completion queue, if it puts anything there. */
  function DispatchQueues(d: Dev, c: Context, now: Time): (r: (Context, int))
    ensures SamePopped(d, Dispatch(d, c, now))
    ensures Dispatch(d, c, now).completed == d.completed
         || Dispatch(d, c, now).completed == QueueGiveback(r.0, r.1, d.completed)
  {
    match c.urb.pipe
    case ControlPipe(request) => ControlQueues(d, c, request)
    case InterruptPipe =>
      if c.urb.dirIn && c.urb.endpoint == d.profile.hidIn then
        if d.input == [] then (c, 0) else (ScheduleHid(d, FillHidIn(c, d.input[0]), now), 0)
      else if !c.urb.dirIn && c.urb.endpoint == d.profile.hidOut then
        if c.urb.bufferLength == 0 then (c, 0)
        else if c.urb.buffer.None? || c.urb.bufferLength > HID_PACKET_SIZE then (c, EPIPE)
        else (c.(actual := c.urb.bufferLength), 0)
      else (c, EPIPE)
    case IsochronousPipe =>
      if !c.urb.dirIn && c.urb.endpoint == d.profile.audioOut && c.urb.buffer.Some? then
        (ScheduleIso(d, c.(deliverOut := true), now, false), 0)
      else if c.urb.dirIn && d.profile.audioIn == Some(c.urb.endpoint) && c.urb.buffer.Some? then
        (ScheduleIso(d, c.(deliverIn := true), now, true), 0)
      else (c, EPIPE)
    case OtherPipe => (c, EPIPE)
  }

  function ControlQueues(d: Dev, c: Context, request: Control): (r: (Context, int))
    ensures SamePopped(d, SubmitControl(d, c, request))
    ensures SubmitControl(d, c, request).completed == d.completed
         || SubmitControl(d, c, request).completed == QueueGiveback(r.0, r.1, d.completed)
  {
    match request
    case OtherControl(result) => (c, result)
    case SetFeature(id) =>
      var status := SetFeatureStatus(d, c.urb, id);
      if status != 0 then (c, status) else (c.(actual := c.urb.bufferLength), 0)
    case GetFeature(id, length) =>
      if id in d.cache then (FillFeature(c, d.cache[id]), FillFeatureStatus(c.urb, d.cache[id]))
      else (c.(reportId := id, state := PendingFeatureGet),
            EnqueueStatus(d, [id, length % 256, length / 256 % 256]))
  }

  lemma CancelQueuedAhead(d: Dev, i: nat, status: int, a: nat, b: nat)
    requires i < |d.completed| && Ahead(History(d), a, b)
    ensures Ahead(History(CancelledAt(d, i, status)), a, b)
  {
    SameSerialsAhead(History(d), History(CancelledAt(d, i, status)), a, b);
  }

  lemma CancelAhead(d: Dev, serial: nat, status: int, check: int, a: nat, b: nat)
    requires Ahead(History(d), a, b)
    ensures Ahead(History(Cancel(d, serial, status, check)), a, b)
  {
    var d' := Cancel(d, serial, status, check);
    if CancelStatus(d, serial, check) == 0 {
      if Has(serial, d.completed) {
        CancelQueuedAhead(d, Find(serial, d.completed), status, a, b);
        assert d' == CancelledAt(d, Find(serial, d.completed), status);
      } else if Has(serial, d.pendingHidIn) {
        CompleteAhead(d, d, d.pendingHidIn[Find(serial, d.pendingHidIn)], status, a, b);
        assert History(d') == Popped(d) + d'.completed;
      } else {
        CompleteAhead(d, d, d.pendingFeature[Find(serial, d.pendingFeature)], status, a, b);
        assert History(d') == Popped(d) + d'.completed;
      }
    }
  }

  lemma WriteInputAhead(d: Dev, payload: seq<Byte>, now: Time, a: nat, b: nat)
    requires Ahead(History(d), a, b)
    ensures Ahead(History(WriteInput(d, payload, now)), a, b)
  {
    var d' := WriteInput(d, payload, now);
    if WriteInputStatus(d, payload) == 0 && d.pendingHidIn != [] {
      var filled := ScheduleHid(d, FillHidIn(d.pendingHidIn[0], payload), now);
      GivebackAhead(Popped(d), filled, 0, d.completed, a, b);
      assert History(d) == Popped(d) + d.completed;
      assert History(d') == Popped(d) + QueueGiveback(filled, 0, d.completed);
    } else {
      assert History(d') == History(d);
    }
  }

  lemma CancelPendingAhead(d: Dev, d': Dev, status: int, a: nat, b: nat)
    requires Ahead(History(d), a, b) && SamePopped(d, d') && d'.completed == CancelPending(d, status).completed
    ensures Ahead(History(d'), a, b)
  {
    var q := QueueAll(d.pendingHidIn, status, d.completed);
    assert History(d) == Popped(d) + d.completed;
    QueueAllAhead(Popped(d), d.pendingHidIn, status, d.completed, a, b);
    QueueAllAhead(Popped(d), d.pendingFeature, status, q, a, b);
    assert History(d') == Popped(d) + QueueAll(d.pendingFeature, status, q);
  }

  lemma WriteFeatureAhead(d: Dev, payload: seq<Byte>, a: nat, b: nat)
    requires Ahead(History(d), a, b)
    ensures Ahead(History(WriteFeature(d, payload)), a, b)
  {
    var d' := WriteFeature(d, payload);
    if WriteFeatureStatus(d, payload) == 0 {
      assert History(d) == Popped(d) + d.completed;
      AnswerAhead(Popped(d), d.pendingFeature, payload, d.completed, a, b);
      assert History(d') == Popped(d) + Answer(d.pendingFeature, payload, d.completed);
    } else {
      assert History(d') == History(d);
    }
  }

  /** Taking and handing back leave every request in its place. */
  lemma ThreadAhead(d: Dev, now: Time, a: nat, b: nat)
    requires Buffers(d) && Ahead(History(d), a, b)
    ensures Ahead(History(Pop(d, now)), a, b) && Ahead(History(Finish(d)), a, b)
  {
    if Pop(d, now) != d {
      PopHistory(d, now);
    }
    SameSerialsAhead(History(d), History(Pop(d, now)), a, b);
    if d.giving.Some? {
      FinishHistory(d);
      DeliverKeepsTiming(d, d.giving.value);
    }
    SameSerialsAhead(History(d), History(Finish(d)), a, b);
  }

  lemma StepAhead(d: Dev, e: Event, a: nat, b: nat)
    requires Buffers(d) && Ahead(History(d), a, b)
    ensures Ahead(History(Step(d, e)), a, b)
  {
    match e
    case DoSubmit(urb, linked, now) =>
      if SubmitStatus(d, linked) == 0 {
        assert History(Accepting(d)) == History(d);
        DispatchAhead(Accepting(d), NewContext(d, urb), now, a, b);
        assert Submit(d, urb, linked, now) == Dispatch(Accepting(d), NewContext(d, urb), now);
      }
    case DoCancel(serial, status, check) => CancelAhead(d, serial, status, check, a, b);
    case DoWriteInput(payload, now) => WriteInputAhead(d, payload, now, a, b);
    case DoWriteFeature(payload) => WriteFeatureAhead(d, payload, a, b);
    case DoDisconnect => if !d.stopping { CancelPendingAhead(d, Disconnect(d), ESHUTDOWN, a, b); }
    case DoStop => CancelPendingAhead(d.(stopping := true), Stop(d), ESHUTDOWN, a, b);
    case DoPop(now) => ThreadAhead(d, now, a, b);
    case DoFinish => ThreadAhead(d, 1, a, b);
    case _ => assert History(Step(d, e)) == History(d);
  }

  lemma {:induction false} RunAhead(d: Dev, events: seq<Event>, a: nat, b: nat)
    requires Inv(d) && Ahead(History(d), a, b)
    ensures Inv(Run(d, events)) && Ahead(History(Run(d, events)), a, b)
    decreases |events|
  {
    if events != [] {
      StepKeeps(d, events[0]);
      StepAhead(d, events[0], a, b);
      RunAhead(Step(d, events[0]), events[1..], a, b);
    }
  }

  // One place each -------------------------------------------------------------------------

  lemma {:induction false} TwicePresent(l: seq<Context>, i: nat, j: nat)
    requires i < j < |l| && l[i].serial == l[j].serial
    ensures Count(l, l[i].serial) >= 2
  {
    if i == 0 {
      EntryCounts(l[1..], j - 1);
    } else {
      TwicePresent(l[1..], i - 1, j - 1);
    }
  }

  lemma PlaceIsUnique(d: Dev, i: nat, j: nat)
    requires Inv(d) && i < |History(d)| && j < |History(d)| && History(d)[i].serial == History(d)[j].serial
    ensures i == j
  {
    var k := History(d)[i].serial;
    CountConcat(d.returned + Giving(d), d.completed, k);
    CountConcat(d.returned, Giving(d), k);
    assert Total(d, k) == if k < d.accepted then 1 else 0;
    if i < j { TwicePresent(History(d), i, j); }
    if j < i { TwicePresent(History(d), j, i); }
  }

  // Cancelled requests ---------------------------------------------------------------------

  /**
   A queued request, cancelled or not, comes back only after everything that was ahead of it: however the
   run goes on, once it has been taken for handing back, so has each of those, earlier.
   */
  lemma NothingAheadIsOvertaken(d: Dev, events: seq<Event>, m: nat, i: nat, y: nat)
    requires Inv(d) && m < i < |d.completed|
    requires y < |Popped(Run(d, events))| && Popped(Run(d, events))[y].serial == d.completed[i].serial
    ensures exists x :: 0 <= x < y && Popped(Run(d, events))[x].serial == d.completed[m].serial
  {
    var a, b, n, r := d.completed[m].serial, d.completed[i].serial, |Popped(d)|, Run(d, events);
    assert History(d) == Popped(d) + d.completed;
    assert AheadAt(History(d), n + m, n + i, a, b);
    RunAhead(d, events, a, b);
    var x: nat, z: nat :| AheadAt(History(r), x, z, a, b);
    assert History(r) == Popped(r) + r.completed;
    assert History(r)[y] == Popped(r)[y];
    PlaceIsUnique(r, z, y);
    assert Popped(r)[x] == History(r)[x];
  }

  /** The thread stops at a head that is not due. */
  lemma {:induction false} NothingIsTaken(f: Dev, now: Time, n: nat)
    requires f.giving.None? && (f.completed == [] || !Due(f.completed[0], now))
    ensures Run(f, DrainEvents(now, n)) == f
  {
    if n == 0 {
      DrainRun(f, now, []);
    } else {
      DrainRun(f, now, DrainEvents(now, n - 1));
      NothingIsTaken(f, now, n - 1);
    }
  }

  predicate DueBefore(q: seq<Context>, i: nat, now: Time)
    requires i <= |q|
  {
    forall m | 0 <= m < i :: Due(q[m], now)
  }

  /** What is handed back stays so while the thread goes on. */
  lemma {:induction false} DrainReturnsHand(p: Dev, now: Time, n: nat, k: nat)
    requires Inv(p) && p.giving.Some? && p.giving.value.serial == k
    ensures Inv(Run(p, DrainEvents(now, n))) && Count(Run(p, DrainEvents(now, n)).returned, k) == 1
  {
    var f := Finish(p);
    DrainFinish(p);
    DeliverKeepsTiming(p, p.giving.value);
    var tail: seq<Event> := if n == 0 then [] else [DoPop(now)] + DrainEvents(now, n - 1);
    assert DrainEvents(now, n) == [DoFinish] + tail && ([DoFinish] + tail)[1..] == tail;
    assert f.returned[|p.returned|].serial == k;
    RunKeeps(f, tail);
    RunOnlyGrows(f, tail);
    var r := Run(f, tail);
    assert r.returned[|p.returned|].serial == k;
    EntryCounts(r.returned, |p.returned|);
    assert Total(r, k) == if k < r.accepted then 1 else 0;
  }

  lemma DueBeforeShift(q: seq<Context>, i: nat, now: Time)
    requires 0 < i < |q|
    ensures DueBefore(q, i, now) <==> Due(q[0], now) && DueBefore(q[1..], i - 1, now)
  {
    assert forall m | 1 <= m < i :: q[m] == q[1..][m - 1];
    assert forall m | 0 <= m < i - 1 :: q[1..][m] == q[m + 1];
  }

  /** One round of the thread: it hands back what it holds and takes the head, if that is due. */
  lemma DrainRound(d: Dev, now: Time, n: nat) returns (p: Dev)
    requires Inv(d) && n > 0 && d.completed != []
    ensures Inv(p) && Run(d, DrainEvents(now, n)) == Run(p, DrainEvents(now, n - 1))
    ensures if Due(d.completed[0], now)
            then p.completed == d.completed[1..] && p.giving.Some? && p.giving.value.serial == d.completed[0].serial
            else p.completed == d.completed && p.giving.None?
  {
    DrainFinish(d);
    DrainRun(d, now, DrainEvents(now, n - 1));
    PopKeeps(Finish(d), now);
    p := Pop(Finish(d), now);
  }

  /** A head that is not due holds up all behind it. */
  lemma HeldUp(f: Dev, now: Time, n: nat, i: nat)
    requires Inv(f) && f.giving.None? && i < |f.completed| && !Due(f.completed[0], now)
    ensures Count(Run(f, DrainEvents(now, n)).returned, f.completed[i].serial) == 0
  {
    var k := f.completed[i].serial;
    NothingIsTaken(f, now, n);
    EntryCounts(f.completed, i);
    assert Total(f, k) == if k < f.accepted then 1 else 0;
  }

  /**
   The completion thread, run on its own at one reading of the clock, hands a cancelled request back exactly
   when everything ahead of it is due: no later than the last ready time ahead of it.
   */
  lemma {:induction false} CancelledComesBackExactly(d: Dev, now: Time, n: nat, i: nat)
    requires Inv(d) && i < |d.completed| <= n && d.completed[i].ready == 0
    ensures var r := Run(d, DrainEvents(now, n));
      Count(r.returned, d.completed[i].serial) == if DueBefore(d.completed, i, now) then 1 else 0
    decreases n
  {
    var p := DrainRound(d, now, n);
    if !Due(d.completed[0], now) {
      HeldUp(p, now, n - 1, i);
    } else if i == 0 {
      DrainReturnsHand(p, now, n - 1, d.completed[i].serial);
    } else {
      DueBeforeShift(d.completed, i, now);
      CancelledComesBackExactly(p, now, n - 1, i - 1);
    }
  }

  // Waiting requests -----------------------------------------------------------------------

  /** Over any run input requests wait in submission order. */
  lemma ReadersWaitInOrder(profile: Profile, events: seq<Event>, i: nat, j: nat)
    requires i < j < |After(profile, events).pendingHidIn|
    ensures After(profile, events).pendingHidIn[i].serial < After(profile, events).pendingHidIn[j].serial
  {
    Reachable(profile, events);
    IncreasingAll(After(profile, events).pendingHidIn, i, j);
  }

  /** Cancelling finds exactly the accepted requests that the thread has not taken. */
  lemma CancelFindsExactly(profile: Profile, events: seq<Event>, serial: nat)
    ensures var d := After(profile, events);
      Linked(d, serial) <==> serial < d.accepted && Count(Giving(d), serial) + Count(d.returned, serial) == 0
  {
    var d := After(profile, events);
    Reachable(profile, events);
    assert Total(d, serial) == if serial < d.accepted then 1 else 0;
    CountPositiveIffPresent(d.completed, serial);
    CountPositiveIffPresent(d.pendingHidIn, serial);
    CountPositiveIffPresent(d.pendingFeature, serial);
  }

  // Waiters completed together ---------------------------------------------------------------

  /** `a` stands at `p` with nothing timed up to there: whatever untimed comes later goes behind it. */
  predicate LeadsAt(q: seq<Context>, p: nat, a: nat) {
    p < |q| && q[p].serial == a && forall m | 0 <= m <= p :: q[m].ready == 0
  }

  lemma LeadsBehind(q: seq<Context>, p: nat, a: nat, c: Context) returns (p': nat)
    requires LeadsAt(q, p, a) && c.ready == 0
    ensures LeadsAt(Insert(c, q), p', a) && p < Slot(c, q)
    ensures AheadAt(Insert(c, q), p', Slot(c, q), a, c.serial)
  {
    SlotIsFirst(c, q);
    p' := p;
  }

  lemma InsertLeads(q: seq<Context>, c: Context)
    requires c.ready == 0
    ensures LeadsAt(Insert(c, q), Slot(c, q), c.serial)
  {
    SlotIsFirst(c, q);
  }

  predicate Untimed(l: seq<Context>) {
    forall i | 0 <= i < |l| :: l[i].ready == 0 && l[i].state != PendingGiveback && l[i].state != GivingBack
  }

  lemma AheadInQueue(l: seq<Context>, status: int, q: seq<Context>, a: nat, b: nat)
    requires Ahead(q, a, b)
    ensures Ahead(QueueAll(l, status, q), a, b)
  {
    assert [] + q == q && [] + QueueAll(l, status, q) == QueueAll(l, status, q);
    QueueAllAhead([], l, status, q, a, b);
  }

  lemma AheadInAnswer(l: seq<Context>, payload: seq<Byte>, q: seq<Context>, a: nat, b: nat)
    requires Ahead(q, a, b) && payload != []
    ensures Ahead(Answer(l, payload, q), a, b)
  {
    assert [] + q == q && [] + Answer(l, payload, q) == Answer(l, payload, q);
    AnswerAhead([], l, payload, q, a, b);
  }

  lemma {:induction false} QueuedBehind(l: seq<Context>, status: int, q: seq<Context>, p: nat, a: nat, j: nat)
    requires Untimed(l) && LeadsAt(q, p, a) && j < |l|
    ensures Ahead(QueueAll(l, status, q), a, l[j].serial)
    decreases |l|
  {
    var c := Done(l[0], status);
    var p' := LeadsBehind(q, p, a, c);
    if j == 0 {
      AheadInQueue(l[1..], status, Insert(c, q), a, c.serial);
    } else {
      QueuedBehind(l[1..], status, Insert(c, q), p', a, j - 1);
    }
  }

  lemma {:induction false} QueueAllInOrder(l: seq<Context>, status: int, q: seq<Context>, i: nat, j: nat)
    requires Untimed(l) && i < j < |l|
    ensures Ahead(QueueAll(l, status, q), l[i].serial, l[j].serial)
    decreases |l|
  {
    var c := Done(l[0], status);
    if i == 0 {
      InsertLeads(q, c);
      QueuedBehind(l[1..], status, Insert(c, q), Slot(c, q), c.serial, j - 1);
    } else {
      QueueAllInOrder(l[1..], status, Insert(c, q), i - 1, j - 1);
    }
  }

  lemma WaitersAreUntimed(d: Dev)
    requires Inv(d)
    ensures Untimed(d.pendingHidIn) && Untimed(d.pendingFeature)
  {
    forall i: nat | i < |d.pendingHidIn|
      ensures d.pendingHidIn[i].ready == 0 && d.pendingHidIn[i].state == PendingHidIn
    {
      assert StateIs(d.pendingHidIn, i, PendingHidIn) && PlainAt(d.pendingHidIn, i, d.epoch);
    }
    forall i: nat | i < |d.pendingFeature|
      ensures d.pendingFeature[i].ready == 0 && d.pendingFeature[i].state == PendingFeatureGet
    {
      assert StateIs(d.pendingFeature, i, PendingFeatureGet) && PlainAt(d.pendingFeature, i, d.epoch);
    }
  }

  /** Shut down together, input requests come back in the order they wait in, and so do feature requests. */
  lemma ShutDownInOrder(d: Dev, i: nat, j: nat)
    requires Inv(d) && !d.stopping && i < j
    ensures j < |d.pendingHidIn| ==> Ahead(Disconnect(d).completed, d.pendingHidIn[i].serial, d.pendingHidIn[j].serial)
    ensures j < |d.pendingFeature| ==> Ahead(Disconnect(d).completed, d.pendingFeature[i].serial, d.pendingFeature[j].serial)
  {
    WaitersAreUntimed(d);
    var q := QueueAll(d.pendingHidIn, ESHUTDOWN, d.completed);
    assert Disconnect(d).completed == QueueAll(d.pendingFeature, ESHUTDOWN, q);
    BothInOrder(d.pendingHidIn, d.pendingFeature, ESHUTDOWN, d.completed, i, j);
  }

  lemma BothInOrder(l: seq<Context>, m: seq<Context>, status: int, q: seq<Context>, i: nat, j: nat)
    requires Untimed(l) && Untimed(m) && i < j
    ensures j < |l| ==> Ahead(QueueAll(m, status, QueueAll(l, status, q)), l[i].serial, l[j].serial)
    ensures j < |m| ==> Ahead(QueueAll(m, status, QueueAll(l, status, q)), m[i].serial, m[j].serial)
  {
    if j < |l| {
      QueueAllInOrder(l, status, q, i, j);
      AheadInQueue(m, status, QueueAll(l, status, q), l[i].serial, l[j].serial);
    }
    if j < |m| {
      QueueAllInOrder(m, status, QueueAll(l, status, q), i, j);
    }
  }

  lemma {:induction false} AnsweredBehind(l: seq<Context>, payload: seq<Byte>, q: seq<Context>, p: nat, a: nat, j: nat)
    requires payload != [] && Untimed(l) && LeadsAt(q, p, a) && j < |l| && Waits(l[j], payload[0])
    ensures Ahead(Answer(l, payload, q), a, l[j].serial)
    decreases |l|
  {
    if Waits(l[0], payload[0]) {
      var c := Done(FillFeature(l[0], payload), FillFeatureStatus(l[0].urb, payload));
      var p' := LeadsBehind(q, p, a, c);
      if j == 0 {
        AheadInAnswer(l[1..], payload, Insert(c, q), a, c.serial);
      } else {
        AnsweredBehind(l[1..], payload, Insert(c, q), p', a, j - 1);
      }
    } else {
      AnsweredBehind(l[1..], payload, q, p, a, j - 1);
    }
  }

  lemma {:induction false} AnswerInOrder(l: seq<Context>, payload: seq<Byte>, q: seq<Context>, i: nat, j: nat)
    requires payload != [] && Untimed(l) && i < j < |l| && Waits(l[i], payload[0]) && Waits(l[j], payload[0])
    ensures Ahead(Answer(l, payload, q), l[i].serial, l[j].serial)
    decreases |l|
  {
    if Waits(l[0], payload[0]) {
      var c := Done(FillFeature(l[0], payload), FillFeatureStatus(l[0].urb, payload));
      if i == 0 {
        InsertLeads(q, c);
        AnsweredBehind(l[1..], payload, Insert(c, q), Slot(c, q), c.serial, j - 1);
      } else {
        AnswerInOrder(l[1..], payload, Insert(c, q), i - 1, j - 1);
      }
    } else {
      AnswerInOrder(l[1..], payload, q, i - 1, j - 1);
    }
  }

  /** One reply answers its waiters in the order they wait in. */
  lemma ReplyInOrder(d: Dev, payload: seq<Byte>, i: nat, j: nat)
    requires Inv(d) && WriteFeatureStatus(d, payload) == 0 && i < j < |d.pendingFeature|
    requires d.pendingFeature[i].reportId == d.pendingFeature[j].reportId == payload[0]
    ensures Ahead(WriteFeature(d, payload).completed, d.pendingFeature[i].serial, d.pendingFeature[j].serial)
  {
    WaitersAreUntimed(d);
    AnswerInOrder(d.pendingFeature, payload, d.completed, i, j);
  }

  // Feature requests wait in order too -------------------------------------------------------

  lemma {:induction false} OthersIncrease(l: seq<Context>, id: Byte)
    requires Increasing(l)
    ensures Increasing(Others(l, id))
    ensures Others(l, id) != [] ==> l != [] && l[0].serial <= Others(l, id)[0].serial
  {
    if l != [] {
      OthersIncrease(l[1..], id);
      if Waits(l[0], id) {
        assert Others(l, id) == Others(l[1..], id);
      } else {
        assert Others(l, id)[1..] == Others(l[1..], id);
      }
    }
  }

  lemma SubmitFeatureOrder(d: Dev, urb: Urb, linked: int, now: Time)
    requires Inv(d) && Increasing(d.pendingFeature)
    ensures Increasing(Submit(d, urb, linked, now).pendingFeature)
  {
    if SubmitStatus(d, linked) == 0 {
      var d', c := Accepting(d), NewContext(d, urb);
      assert Submit(d, urb, linked, now) == Dispatch(d', c, now);
      match urb.pipe
      case ControlPipe(request) => ControlFeatureOrder(d, d', c, request);
      case InterruptPipe =>
      case IsochronousPipe =>
      case OtherPipe =>
    }
  }

  lemma ControlFeatureOrder(d: Dev, d': Dev, c: Context, request: Control)
    requires Inv(d) && d' == Accepting(d) && c.serial == d.accepted && Increasing(d.pendingFeature)
    ensures Increasing(SubmitControl(d', c, request).pendingFeature)
  {
    match request
    case OtherControl(result) =>
    case SetFeature(id) => assert SetFeatureSent(d', c.urb, id).pendingFeature == d.pendingFeature;
    case GetFeature(id, length) =>
      forall i | 0 <= i < |d.pendingFeature|
        ensures d.pendingFeature[i].serial < c.serial
      {
        KnownIsAccepted(d, None, d.pendingFeature, i);
      }
      IncreasingAppend(d.pendingFeature, c.(reportId := id, state := PendingFeatureGet));
  }

  lemma OthersKeepFeature(d: Dev, e: Event)
    requires Buffers(d) && !e.DoSubmit? && !e.DoCancel? && !e.DoWriteFeature? && !e.DoDisconnect? && !e.DoStop? && !e.DoStart?
    ensures Step(d, e).pendingFeature == d.pendingFeature
  {
    if e.DoFinish? && d.giving.Some? { DeliverKeepsTiming(d, d.giving.value); }
  }

  lemma StepFeatureOrder(d: Dev, e: Event)
    requires Inv(d) && Increasing(d.pendingFeature)
    ensures Increasing(Step(d, e).pendingFeature)
  {
    if e.DoSubmit? {
      SubmitFeatureOrder(d, e.urb, e.linked, e.now);
    } else if e.DoCancel? {
      CancelFeatureOrder(d, e.serial, e.status, e.check);
    } else if e.DoWriteFeature? {
      if e.payload != [] { OthersIncrease(d.pendingFeature, e.payload[0]); }
    } else if e.DoStart? {
      RenewedOrder(d.pendingFeature, d.epoch + 1);
    } else if !e.DoDisconnect? && !e.DoStop? {
      OthersKeepFeature(d, e);
    }
  }

  lemma CancelFeatureOrder(d: Dev, serial: nat, status: int, check: int)
    requires Increasing(d.pendingFeature)
    ensures Increasing(Cancel(d, serial, status, check).pendingFeature)
  {
    var i := Find(serial, d.pendingFeature);
    if i < |d.pendingFeature| { IncreasingWithout(d.pendingFeature, i); }
  }

  lemma {:induction false} RunFeatureOrder(d: Dev, events: seq<Event>)
    requires Inv(d) && Increasing(d.pendingFeature)
    ensures Increasing(Run(d, events).pendingFeature)
    decreases |events|
  {
    if events != [] {
      StepKeeps(d, events[0]);
      StepFeatureOrder(d, events[0]);
      RunFeatureOrder(Step(d, events[0]), events[1..]);
    }
  }

  /** Over any run feature requests wait in submission order. */
  lemma FeatureRequestsWaitInOrder(profile: Profile, events: seq<Event>, i: nat, j: nat)
    requires i < j < |After(profile, events).pendingFeature|
    ensures After(profile, events).pendingFeature[i].serial < After(profile, events).pendingFeature[j].serial
  {
    InitInv(profile);
    RunFeatureOrder(Init(profile), events);
    IncreasingAll(After(profile, events).pendingFeature, i, j);
  }
}
