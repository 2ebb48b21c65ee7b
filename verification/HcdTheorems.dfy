/** What holds of the virtual host controller over every run. */
module HcdTheorems {
  import opened Base
  import opened HcdSpec
  import opened HcdQueue
  import opened HcdInvariant
  import opened HcdPacing
  import opened HcdSteps
  import MicQueue
  import IsoTransfer

  function After(profile: Profile, events: seq<Event>): Dev {
    Run(Init(profile), events)
  }

  lemma Reachable(profile: Profile, events: seq<Event>)
    ensures Inv(After(profile, events))
  {
    InitInv(profile);
    RunKeeps(Init(profile), events);
  }

  // Exactly once -------------------------------------------------------------------------

  function SumCounts(l: seq<Context>, n: nat): nat {
    if n == 0 then 0 else SumCounts(l, n - 1) + Count(l, n - 1)
  }

  lemma {:induction false} SumCountsCons(c: Context, l: seq<Context>, n: nat)
    ensures SumCounts([c] + l, n) == SumCounts(l, n) + (if c.serial < n then 1 else 0)
  {
    if n > 0 {
      SumCountsCons(c, l, n - 1);
      assert ([c] + l)[1..] == l;
    }
  }

  lemma {:induction false} SumCountsEmpty(n: nat)
    ensures SumCounts([], n) == 0
  {
    if n > 0 { SumCountsEmpty(n - 1); }
  }

  lemma {:induction false} SumCountsIsLength(l: seq<Context>, n: nat)
    requires forall i | 0 <= i < |l| :: l[i].serial < n
    ensures SumCounts(l, n) == |l|
  {
    if l == [] {
      SumCountsEmpty(n);
    } else {
      SumCountsIsLength(l[1..], n);
      SumCountsCons(l[0], l[1..], n);
      assert l == [l[0]] + l[1..];
    }
  }

  lemma {:induction false} TotalsAddUp(d: Dev, n: nat)
    requires Once(d, None) && n <= d.accepted
    ensures SumCounts(d.pendingHidIn, n) + SumCounts(d.pendingFeature, n) + SumCounts(d.completed, n)
          + SumCounts(Giving(d), n) + SumCounts(d.returned, n) == n
  {
    if n > 0 {
      TotalsAddUp(d, n - 1);
      assert Total(d, n - 1) == 1;
    }
  }

  /** Accepted requests are the waiting, the queued, the one in hand and the returned ones. */
  lemma Balance(d: Dev)
    requires Once(d, None)
    ensures |d.pendingHidIn| + |d.pendingFeature| + |d.completed| + |Giving(d)| + |d.returned| == d.accepted
  {
    TotalsAddUp(d, d.accepted);
    forall l: seq<Context> | l == d.pendingHidIn || l == d.pendingFeature || l == d.completed || l == Giving(d) || l == d.returned
      ensures SumCounts(l, d.accepted) == |l|
    {
      forall i | 0 <= i < |l|
        ensures l[i].serial < d.accepted
      {
        KnownIsAccepted(d, None, l, i);
      }
      SumCountsIsLength(l, d.accepted);
    }
  }

  /**
   After any interleaving: every accepted submission occurs exactly once among the four live
   places and the returned requests, and the lengths add up.
   */
  lemma AcceptedExactlyOnce(profile: Profile, events: seq<Event>, k: nat)
    ensures var d := After(profile, events);
      Total(d, k) == (if k < d.accepted then 1 else 0) &&
      |d.pendingHidIn| + |d.pendingFeature| + |d.completed| + |Giving(d)| + |d.returned| == d.accepted
  {
    Reachable(profile, events);
    Balance(After(profile, events));
    assert Total(After(profile, events), k) == if k < After(profile, events).accepted then 1 else 0;
  }

  /** A live request is on the list its state names. */
  lemma StateNamesList(profile: Profile, events: seq<Event>, l: seq<Context>, i: nat)
    requires i < |l|
    ensures var d := After(profile, events);
      (l == d.pendingHidIn ==> l[i].state == PendingHidIn) &&
      (l == d.pendingFeature ==> l[i].state == PendingFeatureGet) &&
      (l == d.completed ==> l[i].state == PendingGiveback) &&
      (l == Giving(d) || l == d.returned ==> l[i].state == GivingBack)
  {
    Reachable(profile, events);
    var d := After(profile, events);
    if l == d.pendingHidIn { assert StateIs(l, i, PendingHidIn); }
    if l == d.pendingFeature { assert StateIs(l, i, PendingFeatureGet); }
    if l == d.completed { assert StateIs(l, i, PendingGiveback); }
    if l == Giving(d) || l == d.returned { assert StateIs(l, i, GivingBack); }
  }

  /** What was given back stays given back: history only grows. */
  lemma StepOnlyGrows(d: Dev, e: Event)
    requires Buffers(d)
    ensures d.returned <= Step(d, e).returned && d.accepted <= Step(d, e).accepted
  {
    match e
    case DoSubmit(urb, linked, now) => SubmitGrows(d, urb, linked, now);
    case DoCancel(serial, status, check) =>
    case DoWriteInput(payload, now) =>
    case DoWriteFeature(payload) =>
    case DoWriteAudio(payload) =>
    case DoRead(count) =>
    case DoConnect =>
    case DoDisconnect =>
    case DoResetUsb =>
    case DoStop =>
    case DoStart =>
    case DoSetProfile(profile) =>
    case DoPop(now) =>
    case DoFinish => if d.giving.Some? { DeliverKeepsTiming(d, d.giving.value); }
  }

  lemma SubmitGrows(d: Dev, urb: Urb, linked: int, now: Time)
    ensures Submit(d, urb, linked, now).returned == d.returned
    ensures Submit(d, urb, linked, now).accepted == d.accepted + (if SubmitStatus(d, linked) == 0 then 1 else 0)
  {
    if SubmitStatus(d, linked) == 0 {
      var d' := Accepting(d);
      var c := NewContext(d, urb);
      match urb.pipe
      case ControlPipe(request) =>
        assert SubmitControl(d', c, request).returned == d.returned;
        assert SubmitControl(d', c, request).accepted == d'.accepted;
      case InterruptPipe =>
      case IsochronousPipe =>
      case OtherPipe =>
    }
  }

  /** Over any run nothing given back is taken back, and nothing accepted is forgotten. */
  lemma {:induction false} RunOnlyGrows(d: Dev, events: seq<Event>)
    requires Inv(d)
    ensures d.returned <= Run(d, events).returned && d.accepted <= Run(d, events).accepted
    decreases |events|
  {
    if events != [] {
      StepOnlyGrows(d, events[0]);
      StepKeeps(d, events[0]);
      RunOnlyGrows(Step(d, events[0]), events[1..]);
    }
  }

  // Stopping -----------------------------------------------------------------------------

  function DrainEvents(now: Time, n: nat): seq<Event> {
    if n == 0 then [DoFinish] else [DoFinish, DoPop(now)] + DrainEvents(now, n - 1)
  }

  predicate AllDue(q: seq<Context>, now: Time) {
    forall i | 0 <= i < |q| :: Due(q[i], now)
  }

  /** Handing back what is in hand leaves the queue alone. */
  lemma DrainFinish(d: Dev)
    requires Inv(d)
    ensures var f := Finish(d);
      Inv(f) && f.completed == d.completed && f.giving.None? && f.stopping == d.stopping && f.accepted == d.accepted
  {
    FinishKeeps(d);
    if d.giving.Some? {
      DeliverKeepsTiming(d, d.giving.value);
      FinishStopping(d);
    }
  }

  lemma DrainPop(f: Dev, now: Time)
    requires Inv(f) && f.completed != [] && f.giving.None? && AllDue(f.completed, now)
    ensures var p := Pop(f, now);
      && Inv(p) && p.completed == f.completed[1..] && p.stopping == f.stopping && p.accepted == f.accepted
      && AllDue(p.completed, now)
  {
    PopKeeps(f, now);
  }

  lemma DrainRun(d: Dev, now: Time, tail: seq<Event>)
    ensures Run(d, [DoFinish]) == Finish(d)
    ensures Run(d, [DoFinish, DoPop(now)] + tail) == Run(Pop(Finish(d), now), tail)
  {
    var events := [DoFinish, DoPop(now)] + tail;
    assert [DoFinish][1..] == [] && Run(Finish(d), []) == Finish(d);
    assert events[1..] == [DoPop(now)] + tail && ([DoPop(now)] + tail)[1..] == tail;
    assert Run(Finish(d), [DoPop(now)] + tail) == Run(Pop(Finish(d), now), tail);
  }

  lemma {:induction false} DrainEmpties(d: Dev, now: Time)
    requires Inv(d) && d.stopping && AllDue(d.completed, now)
    ensures var r := Run(d, DrainEvents(now, |d.completed|));
      Inv(r) && r.stopping && r.completed == [] && r.giving.None? && r.accepted == d.accepted
    decreases |d.completed|
  {
    var n := |d.completed|;
    DrainFinish(d);
    if n == 0 {
      DrainRun(d, now, []);
    } else {
      DrainRun(d, now, DrainEvents(now, n - 1));
      DrainPop(Finish(d), now);
      DrainEmpties(Pop(Finish(d), now), now);
    }
  }

  lemma FinishStopping(d: Dev)
    requires d.giving.Some?
    ensures Finish(d).stopping == d.stopping
  {
    var c := d.giving.value;
    if c.status == 0 && c.deliverOut && c.urb.buffer.Some? {
      var buffer := c.urb.buffer.value;
      IsoTransfer.SpansInside(c.urb.descs, |buffer|, None);
      SpansKeepStopping(d, IsoTransfer.Spans(c.urb.descs, |buffer|, None), buffer);
    }
  }

  lemma {:induction false} SpansKeepStopping(d: Dev, spans: seq<IsoTransfer.Span>, buffer: seq<Byte>)
    requires IsoTransfer.Inside(spans, |buffer|)
    ensures EnqueueSpans(d, spans, buffer).stopping == d.stopping
    decreases |spans|
  {
    if spans != [] {
      SpansKeepStopping(EnqueueFrame(d, AudioOutFrame, IsoTransfer.Bytes(spans[0], buffer)), spans[1..], buffer);
    }
  }

  /**
   Once the controller is stopped nothing can be left behind: when the clock has passed the
   last ready time, the completion thread alone returns every request ever accepted, once.
   */
  lemma StopThenDrain(profile: Profile, events: seq<Event>, now: Time, k: nat)
    requires var d := Stop(After(profile, events)); AllDue(d.completed, now)
    ensures var d := Stop(After(profile, events));
      var r := Run(d, DrainEvents(now, |d.completed|));
      |r.returned| == d.accepted && (k < d.accepted ==> Count(r.returned, k) == 1)
  {
    Reachable(profile, events);
    var d := Stop(After(profile, events));
    StopKeeps(After(profile, events));
    DrainEmpties(d, now);
    var r := Run(d, DrainEvents(now, |d.completed|));
    Balance(r);
    assert Total(r, k) == if k < r.accepted then 1 else 0;
  }

  // Order and pacing ---------------------------------------------------------------------

  /**
   Between two disconnects, the uncancelled requests of a paced stream are handed back in
   submission order, each ready at least its own duration after the one before.
   */
  lemma CompletionInOrder(profile: Profile, events: seq<Event>, i: nat, j: nat)
    requires i < j < |After(profile, events).returned|
    requires var r := After(profile, events).returned;
      StreamOf(r[i]) == StreamOf(r[j]) != Untimed && r[i].epoch == r[j].epoch
    ensures var r := After(profile, events).returned;
      r[i].serial < r[j].serial && r[i].ready + r[j].span <= r[j].ready && Measured(r[j], Profiles(profile, events))
  {
    Reachable(profile, events);
    ReturnedAreMeasured(profile, events, j);
    var d := After(profile, events);
    assert FollowsAt(History(d), i, j);
  }

  /** The requests of one stream and one connection, in order. */
  function OfStream(h: seq<Context>, s: Stream, epoch: nat): seq<Context> {
    if h == [] then []
    else
      var last := h[|h| - 1];
      OfStream(h[..|h| - 1], s, epoch) + (if StreamOf(last) == s && last.epoch == epoch then [last] else [])
  }

  lemma {:induction false} OfStreamFrom(h: seq<Context>, s: Stream, epoch: nat, i: nat) returns (j: nat)
    requires i < |OfStream(h, s, epoch)|
    ensures j < |h| && OfStream(h, s, epoch)[i] == h[j] && StreamOf(h[j]) == s && h[j].epoch == epoch
  {
    var n := |h| - 1;
    if i < |OfStream(h[..n], s, epoch)| {
      j := OfStreamFrom(h[..n], s, epoch, i);
    } else {
      j := n;
    }
  }

  lemma {:induction false} OfStreamPaced(h: seq<Context>, s: Stream, epoch: nat)
    requires Paced(h)
    ensures Paced(OfStream(h, s, epoch))
  {
    if h != [] {
      var n := |h| - 1;
      var init, f := OfStream(h[..n], s, epoch), OfStream(h, s, epoch);
      forall i: nat, j: nat | i < j < |h[..n]|
        ensures FollowsAt(h[..n], i, j)
      {
        assert FollowsAt(h, i, j);
      }
      OfStreamPaced(h[..n], s, epoch);
      forall i: nat, j: nat | i < j < |f|
        ensures FollowsAt(f, i, j)
      {
        if j < |init| {
          assert FollowsAt(init, i, j);
        } else {
          var m := OfStreamFrom(h[..n], s, epoch, i);
          assert FollowsAt(h, m, n);
        }
      }
    }
  }

  /** From the first to any later request of a stream, the spans in between have passed. */
  lemma SpansPass(profile: Profile, events: seq<Event>, s: Stream, epoch: nat, i: nat, j: nat)
    requires s != Untimed && i <= j < |OfStream(After(profile, events).returned, s, epoch)|
    ensures var r := OfStream(After(profile, events).returned, s, epoch);
      r[i].ready + SpanBetween(r, i, j) <= r[j].ready < r[j].doneAt + 1000
      && forall m | i <= m <= j :: StreamOf(r[m]) == s && Measured(r[m], Profiles(profile, events))
  {
    Reachable(profile, events);
    var d := After(profile, events);
    var r := OfStream(d.returned, s, epoch);
    forall m: nat, n: nat | m < n < |d.returned|
      ensures FollowsAt(d.returned, m, n)
    {
      assert FollowsAt(History(d), m, n);
    }
    OfStreamPaced(d.returned, s, epoch);
    forall m | i <= m <= j
      ensures StreamOf(r[m]) == s && r[m].epoch == epoch && Measured(r[m], Profiles(profile, events))
    {
      var n := OfStreamFrom(d.returned, s, epoch, m);
      ReturnedAreMeasured(profile, events, n);
    }
    PacedRun(r, i, j);
    var n := OfStreamFrom(d.returned, s, epoch, j);
    assert OnTime(Popped(d), n);
  }

  // Bytes and milliseconds -----------------------------------------------------------------

  function IsoStream(input: bool): Stream {
    if input then InStream else OutStream
  }

  function PacedBytesOf(c: Context, input: bool): nat {
    IsoTransfer.PacedBytes(c.urb.descs, input)
  }

  /** Total bytes of the transfers `h[i+1..j]`. */
  function BytesBetween(h: seq<Context>, i: nat, j: nat, input: bool): nat
    requires i <= j < |h|
    decreases j - i
  {
    if i == j then 0 else BytesBetween(h, i, j - 1, input) + PacedBytesOf(h[j], input)
  }

  /** The playing time of the transfer fits 32 bits of microseconds. */
  predicate Fits32(c: Context, input: bool) {
    PacedBytesOf(c, input) * 1000 <= (U32_LIMIT - 1) * IsoTransfer.Rate(input)
  }

  predicate FewDescs(c: Context) { |c.urb.descs| * 1000 < U32_LIMIT }

  predicate Timed(c: Context, input: bool) {
    c.span == IsoTransfer.DurationUs(c.urb.descs, input) * 1000
  }

  /** The time reserved for `h[m+1..n]` is at least the playing time of its bytes. */
  predicate Covers(h: seq<Context>, m: nat, n: nat, input: bool)
    requires m <= n < |h|
  {
    BytesBetween(h, m, n, input) * 1_000_000 <= SpanBetween(h, m, n) * IsoTransfer.Rate(input)
  }

  /** One transfer in the units of the clock. */
  lemma OneCovers(c: Context, input: bool)
    requires Timed(c, input)
    ensures PacedBytesOf(c, input) * 1_000_000 <= c.span * IsoTransfer.Rate(input) <==> Fits32(c, input)
  {
    var us, rate := IsoTransfer.DurationUs(c.urb.descs, input), IsoTransfer.Rate(input);
    IsoTransfer.DurationCoversBytesExactly(c.urb.descs, input);
    assert c.span * rate == us * rate * 1000;
  }

  lemma SumOfProducts(a: int, b: int, rate: int)
    ensures (a + b) * rate == a * rate + b * rate
  {
  }

  lemma {:induction false} SpansCover(h: seq<Context>, i: nat, j: nat, input: bool)
    requires i <= j < |h| && forall m | i < m <= j :: Timed(h[m], input) && Fits32(h[m], input)
    ensures Covers(h, i, j, input)
    decreases j - i
  {
    if i < j {
      SpansCover(h, i, j - 1, input);
      OneCovers(h[j], input);
      SumOfProducts(SpanBetween(h, i, j - 1), h[j].span, IsoTransfer.Rate(input));
    }
  }

  /** Every stretch of a stream has its playing time if and only if each transfer's time fits 32 bits. */
  lemma StreamIsCoveredExactly(h: seq<Context>, i: nat, j: nat, input: bool)
    requires i <= j < |h| && forall m | i < m <= j :: Timed(h[m], input)
    ensures (forall m: nat, n: nat | i <= m <= n <= j :: Covers(h, m, n, input))
       <==> forall m | i < m <= j :: Fits32(h[m], input)
  {
    if forall m | i < m <= j :: Fits32(h[m], input) {
      forall m: nat, n: nat | i <= m <= n <= j
        ensures Covers(h, m, n, input)
      {
        SpansCover(h, m, n, input);
      }
    } else {
      var m :| i < m <= j && !Fits32(h[m], input);
      OneCovers(h[m], input);
      assert SpanBetween(h, m - 1, m) == SpanBetween(h, m - 1, m - 1) + h[m].span == h[m].span;
      assert BytesBetween(h, m - 1, m, input) == PacedBytesOf(h[m], input);
      assert !Covers(h, m - 1, m, input);
    }
  }

  lemma {:induction false} MillisecondEach(h: seq<Context>, i: nat, j: nat, input: bool)
    requires i <= j < |h| && forall m | i < m <= j :: Timed(h[m], input) && FewDescs(h[m])
    ensures 1_000_000 * (j - i) <= SpanBetween(h, i, j)
    decreases j - i
  {
    if i < j {
      MillisecondEach(h, i, j - 1, input);
      IsoTransfer.DurationAtLeastOneMs(h[j].urb.descs, input);
    }
  }

  /**
   An isochronous stream never runs ahead of real time: over any stretch handed back, the ready
   times advance by the playing time of its bytes when each transfer's time fits 32 bits, and by
   a millisecond each; no transfer is handed back a microsecond or more before it is ready.
   */
  lemma NeverAheadOfRealTime(profile: Profile, events: seq<Event>, input: bool, epoch: nat, i: nat, j: nat)
    requires i <= j < |OfStream(After(profile, events).returned, IsoStream(input), epoch)|
    ensures var r := OfStream(After(profile, events).returned, IsoStream(input), epoch);
      && r[j].ready < r[j].doneAt + 1000
      && ((forall m | i < m <= j :: Fits32(r[m], input)) ==>
            BytesBetween(r, i, j, input) * 1_000_000 <= (r[j].ready - r[i].ready) * IsoTransfer.Rate(input))
      && ((forall m | i < m <= j :: FewDescs(r[m])) ==> 1_000_000 * (j - i) <= r[j].ready - r[i].ready)
  {
    var r := OfStream(After(profile, events).returned, IsoStream(input), epoch);
    SpansPass(profile, events, IsoStream(input), epoch, i, j);
    assert forall m | i < m <= j :: Timed(r[m], input);
    if forall m | i < m <= j :: Fits32(r[m], input) {
      SpansCover(r, i, j, input);
      IsoTransfer.MulMono(SpanBetween(r, i, j), r[j].ready - r[i].ready, IsoTransfer.Rate(input));
    }
    if forall m | i < m <= j :: FewDescs(r[m]) {
      MillisecondEach(r, i, j, input);
    }
  }

  /** The time reserved for any stretch of a stream is its playing time, exactly when each transfer's fits 32 bits. */
  lemma ReservedTimeExactly(profile: Profile, events: seq<Event>, input: bool, epoch: nat, i: nat, j: nat)
    requires i <= j < |OfStream(After(profile, events).returned, IsoStream(input), epoch)|
    ensures var r := OfStream(After(profile, events).returned, IsoStream(input), epoch);
      (forall m: nat, n: nat | i <= m <= n <= j :: Covers(r, m, n, input))
      <==> forall m | i < m <= j :: Fits32(r[m], input)
  {
    var r := OfStream(After(profile, events).returned, IsoStream(input), epoch);
    SpansPass(profile, events, IsoStream(input), epoch, i, j);
    assert forall m | i < m <= j :: Timed(r[m], input);
    StreamIsCoveredExactly(r, i, j, input);
  }

  lemma {:induction false} PollsAddUp(h: seq<Context>, i: nat, j: nat, profiles: seq<Profile>, us: nat)
    requires i <= j < |h| && forall m | i < m <= j :: StreamOf(h[m]) == HidStream && Measured(h[m], profiles)
    requires forall p | p in profiles :: us <= p.hidIntervalUs
    ensures us * 1000 * (j - i) <= SpanBetween(h, i, j)
    decreases j - i
  {
    if i < j {
      PollsAddUp(h, i, j - 1, profiles, us);
      assert us * 1000 * (j - i) == us * 1000 * (j - 1 - i) + us * 1000;
    }
  }

  /** Input reports of one connection complete at least a polling interval apart. */
  lemma InputCompletionsAreSpaced(profile: Profile, events: seq<Event>, epoch: nat, i: nat, j: nat, us: nat)
    requires i <= j < |OfStream(After(profile, events).returned, HidStream, epoch)|
    requires forall p | p in Profiles(profile, events) :: us <= p.hidIntervalUs
    ensures var r := OfStream(After(profile, events).returned, HidStream, epoch);
      r[i].ready + us * 1000 * (j - i) <= r[j].ready < r[j].doneAt + 1000
  {
    var r := OfStream(After(profile, events).returned, HidStream, epoch);
    SpansPass(profile, events, HidStream, epoch, i, j);
    PollsAddUp(r, i, j, Profiles(profile, events), us);
  }

  /**
   The thread hands a timed head back exactly from 999 nanoseconds before its ready time on;
   so "never before its ready time" holds at a clock reading if and only if that reading is
   not within the last microsecond.
   */
  lemma HandBackTime(d: Dev, now: Time)
    requires d.giving.None? && d.completed != [] && d.completed[0].ready > 0
    ensures Pop(d, now).giving.Some? <==> now > d.completed[0].ready - 1000
    ensures (Pop(d, now).giving.Some? ==> now >= d.completed[0].ready)
       <==> !(d.completed[0].ready - 1000 < now < d.completed[0].ready)
  {
  }

  // Waiting and ready sides --------------------------------------------------------------

  /** A waiter and what it waits for are never both present. */
  lemma WaitersAndDataNeverMeet(profile: Profile, events: seq<Event>)
    ensures var d := After(profile, events);
      (d.input == [] || d.pendingHidIn == []) && |d.input| <= 1 &&
      (forall i | 0 <= i < |d.pendingFeature| :: d.pendingFeature[i].reportId !in d.cache)
  {
    Reachable(profile, events);
    var d := After(profile, events);
    forall i | 0 <= i < |d.pendingFeature|
      ensures d.pendingFeature[i].reportId !in d.cache
    {
      assert NotCached(d.pendingFeature, i, d.cache);
    }
  }

  lemma {:induction false} OneProfile(events: seq<Event>)
    requires forall e | e in events && e.DoSetProfile? :: e.profile == DUALSENSE
    ensures forall p | p in Profiles(DUALSENSE, events) :: p == DUALSENSE
    decreases |events|
  {
    if events != [] {
      OneProfile(events[..|events| - 1]);
      assert events[|events| - 1] in events;
    }
  }

  /** With the shipped profiles, input reports of one connection complete at least a millisecond apart. */
  lemma ShippedProfilesPollEachMillisecond(events: seq<Event>, epoch: nat, i: nat, j: nat)
    requires forall e | e in events && e.DoSetProfile? :: e.profile == DUALSENSE
    requires i <= j < |OfStream(After(DUALSENSE, events).returned, HidStream, epoch)|
    ensures var r := OfStream(After(DUALSENSE, events).returned, HidStream, epoch);
      r[i].ready + 1_000_000 * (j - i) <= r[j].ready < r[j].doneAt + 1000
  {
    OneProfile(events);
    InputCompletionsAreSpaced(DUALSENSE, events, epoch, i, j, 1000);
  }

  predicate InputAccepted(d: Dev, payload: seq<Byte>) {
    !TooLong(payload) && WriteInputStatus(d, payload) == 0
  }

  /** The step submits a request that reads input. */
  predicate Reads(d: Dev, e: Event) {
    && e.DoSubmit? && SubmitStatus(d, e.linked) == 0
    && e.urb.pipe == InterruptPipe && e.urb.dirIn && e.urb.endpoint == d.profile.hidIn
  }

  /** The report to keep after a step, when `newest` was the one to keep before it. */
  function Newest(d: Dev, e: Event, newest: Option<seq<Byte>>): Option<seq<Byte>> {
    match e
    case DoWriteInput(payload, _) =>
      if !InputAccepted(d, payload) then newest else if d.pendingHidIn != [] then None else Some(payload)
    case DoDisconnect => if d.stopping then newest else None
    case DoStop => None
    case _ => if Reads(d, e) then None else newest
  }

  /** The last accepted report that no reader took and no disconnect or stop discarded. */
  function NewestAfter(d: Dev, events: seq<Event>, newest: Option<seq<Byte>>): Option<seq<Byte>>
    decreases |events|
  {
    if events == [] then newest
    else NewestAfter(Step(d, events[0]), events[1..], Newest(d, events[0], newest))
  }

  function Buffered(newest: Option<seq<Byte>>): seq<seq<Byte>> {
    if newest.Some? then [newest.value] else []
  }

  lemma SubmitBuffers(d: Dev, urb: Urb, linked: int, now: Time)
    requires |d.input| <= 1
    ensures Submit(d, urb, linked, now).input == if Reads(d, DoSubmit(urb, linked, now)) then [] else d.input
  {
    if SubmitStatus(d, linked) == 0 {
      var d' := Accepting(d);
      var c := NewContext(d, urb);
      match urb.pipe
      case ControlPipe(request) =>
        assert SubmitControl(d', c, request).input == d.input;
      case InterruptPipe =>
      case IsochronousPipe =>
      case OtherPipe =>
    }
  }

  lemma WriteInputBuffers(d: Dev, payload: seq<Byte>, now: Time)
    requires |d.input| <= 1 && (d.input == [] || d.pendingHidIn == [])
    ensures WriteInput(d, payload, now).input ==
            if WriteInputStatus(d, payload) != 0 then d.input else if d.pendingHidIn != [] then [] else [payload]
  {
    if d.input != [] { assert d.input[..|d.input| - 1] == []; }
  }

  /** The steps that have nothing to do with input reports. */
  lemma OthersKeepInput(d: Dev, e: Event)
    requires Buffers(d) && !e.DoSubmit? && !e.DoWriteInput? && !e.DoDisconnect? && !e.DoStop?
    ensures Step(d, e).input == d.input
  {
    if e.DoFinish? && d.giving.Some? {
      DeliverKeepsInput(d, d.giving.value);
    }
  }

  lemma NewestStep(d: Dev, e: Event, newest: Option<seq<Byte>>)
    requires Buffers(d) && d.input == Buffered(newest)
    ensures Step(d, e).input == Buffered(Newest(d, e, newest))
  {
    if e.DoSubmit? {
      SubmitBuffers(d, e.urb, e.linked, e.now);
    } else if e.DoWriteInput? {
      WriteInputBuffers(d, e.payload, e.now);
    } else if e.DoDisconnect? {
      assert !d.stopping ==> Disconnect(d).input == [];
    } else if e.DoStop? {
      assert Stop(d).input == [];
    } else {
      OthersKeepInput(d, e);
    }
  }

  lemma DeliverKeepsInput(d: Dev, c: Context)
    requires Buffers(d)
    ensures Deliver(d, c).0.input == d.input
  {
    if c.status == 0 && c.deliverOut && c.urb.buffer.Some? {
      var buffer := c.urb.buffer.value;
      IsoTransfer.SpansInside(c.urb.descs, |buffer|, None);
      EnqueueSpansKeeps(d, IsoTransfer.Spans(c.urb.descs, |buffer|, None), buffer);
    }
  }

  lemma {:induction false} NewestRun(d: Dev, events: seq<Event>, newest: Option<seq<Byte>>)
    requires Inv(d) && d.input == Buffered(newest)
    ensures Run(d, events).input == Buffered(NewestAfter(d, events, newest))
    decreases |events|
  {
    if events != [] {
      NewestStep(d, events[0], newest);
      StepKeeps(d, events[0]);
      NewestRun(Step(d, events[0]), events[1..], Newest(d, events[0], newest));
    }
  }

  /** After any run the buffer holds exactly the newest report nobody has read: the newest state wins. */
  lemma NewestReportIsKept(profile: Profile, events: seq<Event>)
    ensures After(profile, events).input == Buffered(NewestAfter(Init(profile), events, None))
  {
    InitInv(profile);
    NewestRun(Init(profile), events, None);
  }

  function Waiters(l: seq<Context>, id: Byte): seq<Context> {
    if l == [] then []
    else (if Waits(l[0], id) then [l[0]] else []) + Waiters(l[1..], id)
  }

  lemma {:induction false} AnswerCounts(l: seq<Context>, payload: seq<Byte>, queue: seq<Context>, k: nat)
    requires payload != [] && InState(l, PendingFeatureGet)
    ensures Count(Answer(l, payload, queue), k) == Count(queue, k) + Count(Waiters(l, payload[0]), k)
    ensures Count(Others(l, payload[0]), k) + Count(Waiters(l, payload[0]), k) == Count(l, k)
  {
    if l != [] {
      var c := l[0];
      assert StateIs(l, 0, PendingFeatureGet);
      forall i: nat | i < |l[1..]|
        ensures StateIs(l[1..], i, PendingFeatureGet)
      {
        assert StateIs(l, i + 1, PendingFeatureGet);
      }
      CountOne(c, k);
      if Waits(c, payload[0]) {
        var status := FillFeatureStatus(c.urb, payload);
        var filled := FillFeature(c, payload);
        CountInsert(filled.(status := status, state := PendingGiveback), queue, k);
        AnswerCounts(l[1..], payload, QueueGiveback(filled, status, queue), k);
        CountConcat([c], Waiters(l[1..], payload[0]), k);
        CountConcat([], Others(l[1..], payload[0]), k);
      } else {
        AnswerCounts(l[1..], payload, queue, k);
        CountConcat([c], Others(l[1..], payload[0]), k);
        CountConcat([], Waiters(l[1..], payload[0]), k);
      }
    }
  }

  /** A reply completes exactly the requests waiting for its report id; the others wait on. */
  lemma ReplyCompletesItsWaiters(d: Dev, payload: seq<Byte>, k: nat)
    requires Inv(d) && WriteFeatureStatus(d, payload) == 0
    ensures var d' := WriteFeature(d, payload);
      Count(d'.completed, k) == Count(d.completed, k) + Count(Waiters(d.pendingFeature, payload[0]), k) &&
      Count(d'.pendingFeature, k) + Count(Waiters(d.pendingFeature, payload[0]), k) == Count(d.pendingFeature, k) &&
      payload[0] in d'.cache && d'.cache[payload[0]] == payload
  {
    AnswerCounts(d.pendingFeature, payload, d.completed, k);
  }

  lemma {:induction false} AnswerKeepsQueued(l: seq<Context>, payload: seq<Byte>, queue: seq<Context>, c: Context)
    requires payload != [] && c in queue
    ensures c in Answer(l, payload, queue)
  {
    if l != [] {
      if Waits(l[0], payload[0]) {
        var filled := FillFeature(l[0], payload);
        var status := FillFeatureStatus(l[0].urb, payload);
        InsertKeeps(filled.(status := status, state := PendingGiveback), queue, c);
        AnswerKeepsQueued(l[1..], payload, QueueGiveback(filled, status, queue), c);
      } else {
        AnswerKeepsQueued(l[1..], payload, queue, c);
      }
    }
  }

  lemma InsertKeeps(n: Context, q: seq<Context>, c: Context)
    requires c in q || c == n
    ensures c in Insert(n, q)
  {
    var s := Slot(n, q);
    assert Insert(n, q)[s] == n;
    if c != n {
      var i :| 0 <= i < |q| && q[i] == c;
      assert Insert(n, q)[if i < s then i else i + 1] == c;
    }
  }

  /** The answer a waiter gets: the reply's bytes, cut to its buffer, or a broken pipe. */
  function AnswerTo(c: Context, payload: seq<Byte>): Context {
    FillFeature(c, payload).(status := FillFeatureStatus(c.urb, payload), state := PendingGiveback)
  }

  lemma {:induction false} WaiterGetsReply(l: seq<Context>, payload: seq<Byte>, queue: seq<Context>, i: nat)
    requires payload != [] && InState(l, PendingFeatureGet) && i < |l| && Waits(l[i], payload[0])
    ensures AnswerTo(l[i], payload) in Answer(l, payload, queue)
  {
    forall j: nat | j < |l[1..]|
      ensures StateIs(l[1..], j, PendingFeatureGet)
    {
      assert StateIs(l, j + 1, PendingFeatureGet);
    }
    assert StateIs(l, 0, PendingFeatureGet);
    var filled := FillFeature(l[0], payload);
    var status := FillFeatureStatus(l[0].urb, payload);
    var queue' := if Waits(l[0], payload[0]) then QueueGiveback(filled, status, queue) else queue;
    if i == 0 {
      InsertKeeps(AnswerTo(l[0], payload), queue, AnswerTo(l[0], payload));
      AnswerKeepsQueued(l[1..], payload, queue', AnswerTo(l[0], payload));
    } else {
      WaiterGetsReply(l[1..], payload, queue', i - 1);
    }
  }

  lemma {:induction false} QueueAllCompletes(l: seq<Context>, status: int, queue: seq<Context>, state: ContextState, c: Context)
    requires InState(l, state) && state != PendingGiveback && state != GivingBack
    requires c in queue || exists i :: 0 <= i < |l| && c == Done(l[i], status)
    ensures c in QueueAll(l, status, queue)
  {
    if l != [] {
      assert StateIs(l, 0, state);
      forall j: nat | j < |l[1..]|
        ensures StateIs(l[1..], j, state)
      {
        assert StateIs(l, j + 1, state);
      }
      var queue' := QueueGiveback(l[0], status, queue);
      if c in queue || c == Done(l[0], status) {
        InsertKeeps(Done(l[0], status), queue, c);
      } else {
        var i :| 0 <= i < |l| && c == Done(l[i], status);
        assert l[1..][i - 1] == l[i];
      }
      QueueAllCompletes(l[1..], status, queue', state, c);
    }
  }

  /** A disconnect answers every waiter with a shutdown error and forgets all buffered data, then the cache. */
  lemma DisconnectCancelsWaiters(d: Dev, c: Context)
    requires Inv(d) && !d.stopping && (c in d.pendingHidIn || c in d.pendingFeature)
    ensures var d' := Disconnect(d);
      Done(c, ESHUTDOWN) in d'.completed && d'.pendingHidIn == [] && d'.pendingFeature == [] &&
      d'.input == [] && d'.mic == [] && d'.events == [] && ResetUsb(d').cache == map[]
  {
    var q := QueueAll(d.pendingHidIn, ESHUTDOWN, d.completed);
    if c in d.pendingHidIn {
      QueueAllCompletes(d.pendingHidIn, ESHUTDOWN, d.completed, PendingHidIn, Done(c, ESHUTDOWN));
    }
    QueueAllCompletes(d.pendingFeature, ESHUTDOWN, q, PendingFeatureGet, Done(c, ESHUTDOWN));
  }

  // Audio towards the daemon -------------------------------------------------------------

  /** The PCM waiting in the event queue. */
  function AudioOf(events: seq<Frame>): seq<Byte> {
    if events == [] then []
    else
      var last := events[|events| - 1];
      AudioOf(events[..|events| - 1]) + (if last.kind == AudioOutFrame then last.payload else [])
  }

  lemma AudioOfAppend(events: seq<Frame>, f: Frame)
    ensures AudioOf(events + [f]) == AudioOf(events) + (if f.kind == AudioOutFrame then f.payload else [])
  {
    assert (events + [f])[..|events|] == events;
  }

  lemma OneSpanPlays(d: Dev, span: IsoTransfer.Span, buffer: seq<Byte>)
    requires span.start + span.length <= |buffer| && !d.stopping && |d.events| < MAX_EVENTS
    ensures var d' := EnqueueFrame(d, AudioOutFrame, IsoTransfer.Bytes(span, buffer));
      !d'.stopping && |d'.events| <= |d.events| + 1 &&
      AudioOf(d'.events) == AudioOf(d.events) +
        (if span.length <= IsoTransfer.FRAME_MAX_PAYLOAD then IsoTransfer.Bytes(span, buffer) else [])
  {
    AudioOfAppend(d.events, Frame(AudioOutFrame, d.nextSequence, IsoTransfer.Bytes(span, buffer)));
  }

  lemma AcceptedHead(spans: seq<IsoTransfer.Span>, buffer: seq<Byte>)
    requires spans != [] && IsoTransfer.Inside(spans, |buffer|)
    ensures IsoTransfer.Inside(IsoTransfer.Accepted(spans), |buffer|)
    ensures IsoTransfer.Inside(IsoTransfer.Accepted(spans[1..]), |buffer|)
    ensures IsoTransfer.Concat(IsoTransfer.Accepted(spans), buffer) ==
      (if spans[0].length <= IsoTransfer.FRAME_MAX_PAYLOAD then IsoTransfer.Bytes(spans[0], buffer) else [])
      + IsoTransfer.Concat(IsoTransfer.Accepted(spans[1..]), buffer)
  {
    IsoTransfer.AcceptedLength(spans[1..], buffer);
    var rest := IsoTransfer.Accepted(spans[1..]);
    if spans[0].length <= IsoTransfer.FRAME_MAX_PAYLOAD {
      IsoTransfer.ConcatCons(spans[0], rest, buffer);
      assert IsoTransfer.Accepted(spans) == [spans[0]] + rest;
    } else {
      assert IsoTransfer.Accepted(spans) == rest;
    }
  }

  lemma {:induction false} SpansPlay(d: Dev, spans: seq<IsoTransfer.Span>, buffer: seq<Byte>)
    requires IsoTransfer.Inside(spans, |buffer|) && IsoTransfer.Inside(IsoTransfer.Accepted(spans), |buffer|)
    requires !d.stopping && |d.events| + |spans| <= MAX_EVENTS
    ensures AudioOf(EnqueueSpans(d, spans, buffer).events)
         == AudioOf(d.events) + IsoTransfer.Concat(IsoTransfer.Accepted(spans), buffer)
    decreases |spans|
  {
    if spans != [] {
      OneSpanPlays(d, spans[0], buffer);
      AcceptedHead(spans, buffer);
      var d' := EnqueueFrame(d, AudioOutFrame, IsoTransfer.Bytes(spans[0], buffer));
      var sent := if spans[0].length <= IsoTransfer.FRAME_MAX_PAYLOAD then IsoTransfer.Bytes(spans[0], buffer) else [];
      SpansPlay(d', spans[1..], buffer);
      Assoc(AudioOf(d.events), sent, IsoTransfer.Concat(IsoTransfer.Accepted(spans[1..]), buffer));
    }
  }

  /**
   Handing back an OUT transfer with room in the event queue passes the daemon exactly the
   bytes the host played, if and only if no valid descriptor exceeds one frame.
   */
  lemma HandBackPlaysExactly(d: Dev, c: Context)
    requires c.status == 0 && c.deliverOut && c.urb.buffer.Some? && !d.stopping
    requires |d.events| + |IsoTransfer.Spans(c.urb.descs, |c.urb.buffer.value|, None)| <= MAX_EVENTS
    ensures var buffer := c.urb.buffer.value;
      AudioOf(Deliver(d, c).0.events) == AudioOf(d.events) + IsoTransfer.PlayedData(c.urb.descs, buffer)
      <==> IsoTransfer.DescsSmall(c.urb.descs, |buffer|)
  {
    var buffer := c.urb.buffer.value;
    var spans := IsoTransfer.Spans(c.urb.descs, |buffer|, None);
    IsoTransfer.OutStreamExact(c.urb.descs, buffer);
    SpansPlay(d, spans, buffer);
    var sent := IsoTransfer.Concat(IsoTransfer.Accepted(spans), buffer);
    var played := IsoTransfer.PlayedData(c.urb.descs, buffer);
    assert AudioOf(d.events) + sent == AudioOf(d.events) + played <==> sent == played by {
      if AudioOf(d.events) + sent == AudioOf(d.events) + played {
        assert sent == (AudioOf(d.events) + sent)[|AudioOf(d.events)|..];
        assert played == (AudioOf(d.events) + played)[|AudioOf(d.events)|..];
      }
    }
  }
}
