/** The invariant of the virtual host controller, and the proof that every step keeps it. */
module HcdInvariant {
  import opened Base
  import opened HcdSpec
  import opened HcdQueue
  import MicQueue
  import IsoTransfer

  function Giving(d: Dev): seq<Context> {
    if d.giving.Some? then [d.giving.value] else []
  }

  /** Every request that reached the completion queue, in completion order. */
  function History(d: Dev): seq<Context> {
    d.returned + Giving(d) + d.completed
  }

  function Total(d: Dev, k: nat): nat {
    Count(d.pendingHidIn, k) + Count(d.pendingFeature, k) + Count(d.completed, k)
    + Count(Giving(d), k) + Count(d.returned, k)
  }

  /**
   Each accepted submission is in exactly one place; `hand` is one the driver has unlinked
   from its list in the middle of a step.
   */
  ghost predicate Once(d: Dev, hand: Option<nat>) {
    forall k: nat :: Total(d, k) == if k < d.accepted && hand != Some(k) then 1 else 0
  }

  predicate StateIs(l: seq<Context>, i: nat, state: ContextState)
    requires i < |l|
  {
    l[i].state == state
  }

  predicate InState(l: seq<Context>, state: ContextState) {
    forall i: nat | i < |l| :: StateIs(l, i, state)
  }

  predicate PlainAt(l: seq<Context>, i: nat, epoch: nat)
    requires i < |l|
  {
    l[i].ready == 0 && !l[i].deliverOut && !l[i].deliverIn && l[i].epoch == epoch
  }

  predicate Plain(l: seq<Context>, epoch: nat) {
    forall i: nat | i < |l| :: PlainAt(l, i, epoch)
  }

  /** The list a request is on is the one its state names. */
  predicate Tagged(d: Dev) {
    && InState(d.pendingHidIn, PendingHidIn) && InState(d.pendingFeature, PendingFeatureGet)
    && InState(d.completed, PendingGiveback) && InState(Giving(d), GivingBack)
    && InState(d.returned, GivingBack)
    && Plain(d.pendingHidIn, d.epoch) && Plain(d.pendingFeature, d.epoch)
  }

  function Clock(d: Dev, stream: Stream): int {
    match stream
    case Untimed => 0
    case OutStream => d.nextIsoOut
    case InStream => d.nextIsoIn
    case HidStream => d.nextHidIn
  }

  predicate ClockedAt(d: Dev, i: nat)
    requires i < |History(d)|
  {
    var c := History(d)[i];
    0 <= c.ready && c.epoch <= d.epoch && (c.epoch == d.epoch ==> c.ready <= Clock(d, StreamOf(c)))
  }

  /** No request of the current connection is ready after its stream's clock. */
  predicate Clocked(d: Dev) {
    && 0 <= d.nextIsoOut && 0 <= d.nextIsoIn && 0 <= d.nextHidIn
    && forall i: nat | i < |History(d)| :: ClockedAt(d, i)
  }

  predicate ScheduledBefore(h: seq<Context>, i: nat, serial: nat)
    requires i < |h|
  {
    StreamOf(h[i]) == HidStream ==> h[i].serial < serial
  }

  /** Input requests wait in submission order, behind those already scheduled. */
  predicate HidFifo(d: Dev) {
    && Increasing(d.pendingHidIn)
    && (d.pendingHidIn != [] ==>
          forall i: nat | i < |History(d)| :: ScheduledBefore(History(d), i, d.pendingHidIn[0].serial))
  }

  /** The requests taken off the completion queue, in order. */
  function Popped(d: Dev): seq<Context> {
    d.returned + Giving(d)
  }

  predicate OnTime(l: seq<Context>, i: nat)
    requires i < |l|
  {
    l[i].ready != 0 ==> l[i].ready - l[i].doneAt < 1000
  }

  /** No timed request was handed back a microsecond or more before its ready time. */
  predicate NotEarly(d: Dev) {
    forall i: nat | i < |Popped(d)| :: OnTime(Popped(d), i)
  }

  ghost predicate Queues(d: Dev, hand: Option<nat>) {
    && Once(d, hand) && Tagged(d) && SortedByReady(d.completed) && Paced(History(d))
    && Clocked(d) && HidFifo(d) && NotEarly(d)
  }

  predicate NotCached(l: seq<Context>, i: nat, cache: map<Byte, seq<Byte>>)
    requires i < |l|
  {
    l[i].reportId !in cache
  }

  predicate Numbered(events: seq<Frame>, i: nat, next: nat)
    requires i < |events|
  {
    events[i].sequence == next - |events| + i
  }

  /** Buffered data: bounded, never beside a waiter for it, and gone once stopping. */
  predicate Buffers(d: Dev) {
    && |d.input| <= 1 && (d.input == [] || d.pendingHidIn == [])
    && (forall i: nat | i < |d.pendingFeature| :: NotCached(d.pendingFeature, i, d.cache))
    && |d.events| <= MAX_EVENTS && d.framesToUser == d.nextSequence
    && (forall i: nat | i < |d.events| :: Numbered(d.events, i, d.nextSequence))
    && |MicQueue.Unread(d.mic)| <= MicQueue.MAX_BYTES
    && (d.stopping ==> d.pendingHidIn == [] && d.pendingFeature == [] && d.input == [] &&
                       d.mic == [] && d.events == [])
  }

  ghost predicate Inv(d: Dev) {
    Queues(d, None) && Buffers(d)
  }

  // One request moving to the completion queue --------------------------------------------

  /** What a request in hand must satisfy to be completed. */
  predicate MayComplete(d: Dev, c: Context) {
    && c.state != PendingGiveback && c.state != GivingBack
    && 0 <= c.ready && c.epoch == d.epoch && c.ready <= Clock(d, StreamOf(c))
    && (forall i: nat | i < |History(d)| :: Precedes(History(d), i, c))
    && (StreamOf(c) == HidStream && d.pendingHidIn != [] ==> c.serial < d.pendingHidIn[0].serial)
  }

  /** The request as it enters the completion queue. */
  function Done(c: Context, status: int): Context {
    c.(status := status, state := PendingGiveback)
  }

  lemma CompleteIsInsert(d: Dev, c: Context, status: int)
    requires c.state != PendingGiveback && c.state != GivingBack
    ensures Complete(d, c, status) == d.(completed := Insert(Done(c, status), d.completed))
    ensures History(Complete(d, c, status)) == Popped(d) + Insert(Done(c, status), d.completed)
  {
  }

  lemma CompleteKeepsOnce(d: Dev, c: Context, status: int)
    requires Once(d, Some(c.serial)) && c.serial < d.accepted
    requires c.state != PendingGiveback && c.state != GivingBack
    ensures Once(Complete(d, c, status), None)
  {
    var d' := Complete(d, c, status);
    forall k: nat
      ensures Total(d', k) == if k < d'.accepted then 1 else 0
    {
      CountInsert(Done(c, status), d.completed, k);
      assert Total(d, k) == if k < d.accepted && Some(c.serial) != Some(k) then 1 else 0;
    }
  }

  lemma CompleteKeepsTags(d: Dev, c: Context, status: int)
    requires Tagged(d) && c.state != PendingGiveback && c.state != GivingBack
    ensures Tagged(Complete(d, c, status))
  {
    var done := Done(c, status);
    var d' := Complete(d, c, status);
    assert Giving(d') == Giving(d);
    forall i: nat | i < |d'.completed|
      ensures StateIs(d'.completed, i, PendingGiveback)
    {
      InsertedAt(done, d.completed, i);
      var s := Slot(done, d.completed);
      if i < s { assert StateIs(d.completed, i, PendingGiveback); }
      else if i > s { assert StateIs(d.completed, i - 1, PendingGiveback); }
    }
  }

  lemma CompleteKeepsOrder(d: Dev, c: Context, status: int)
    requires SortedByReady(d.completed) && Paced(History(d)) && MayComplete(d, c)
    ensures SortedByReady(Complete(d, c, status).completed)
    ensures Paced(History(Complete(d, c, status)))
  {
    var done := Done(c, status);
    CompleteIsInsert(d, c, status);
    InsertSorted(done, d.completed);
    assert History(d) == Popped(d) + d.completed;
    forall i: nat | i < |History(d)|
      ensures Precedes(History(d), i, done)
    {
      assert Precedes(History(d), i, c);
    }
    PacedInsert(Popped(d), done, d.completed);
  }

  /** Where an entry of the new history came from. */
  lemma CompletedHistoryAt(d: Dev, c: Context, status: int, i: nat)
    requires c.state != PendingGiveback && c.state != GivingBack
    requires i < |History(Complete(d, c, status))|
    ensures var s := |Popped(d)| + Slot(Done(c, status), d.completed);
      s <= |History(d)| && |History(Complete(d, c, status))| == |History(d)| + 1 &&
      History(Complete(d, c, status))[i] ==
        if i < s then History(d)[i] else if i == s then Done(c, status) else History(d)[i - 1]
  {
    CompleteIsInsert(d, c, status);
  }

  lemma CompleteKeepsClocks(d: Dev, c: Context, status: int)
    requires Clocked(d) && HidFifo(d) && MayComplete(d, c)
    ensures Clocked(Complete(d, c, status)) && HidFifo(Complete(d, c, status))
  {
    var d' := Complete(d, c, status);
    var s := |Popped(d)| + Slot(Done(c, status), d.completed);
    forall i: nat | i < |History(d')|
      ensures ClockedAt(d', i)
      ensures d.pendingHidIn != [] ==> ScheduledBefore(History(d'), i, d.pendingHidIn[0].serial)
    {
      CompletedHistoryAt(d, c, status, i);
      if i != s {
        var j := if i < s then i else i - 1;
        assert ClockedAt(d, j);
        if d.pendingHidIn != [] { assert ScheduledBefore(History(d), j, d.pendingHidIn[0].serial); }
      }
    }
  }

  lemma CompleteKeepsQueues(d: Dev, c: Context, status: int)
    requires Queues(d, Some(c.serial)) && c.serial < d.accepted && MayComplete(d, c)
    ensures Queues(Complete(d, c, status), None)
  {
    CompleteKeepsOnce(d, c, status);
    CompleteKeepsTags(d, c, status);
    CompleteKeepsOrder(d, c, status);
    CompleteKeepsClocks(d, c, status);
    assert Popped(Complete(d, c, status)) == Popped(d);
  }

  /** Every request the driver knows of was accepted earlier. */
  lemma KnownIsAccepted(d: Dev, hand: Option<nat>, l: seq<Context>, i: nat)
    requires Once(d, hand) && i < |l|
    requires l == d.pendingHidIn || l == d.pendingFeature || l == d.completed || l == Giving(d) || l == d.returned
    ensures l[i].serial < d.accepted && hand != Some(l[i].serial)
  {
    var k := l[i].serial;
    EntryCounts(l, i);
    assert Total(d, k) == if k < d.accepted && hand != Some(k) then 1 else 0;
  }

  lemma HistoryIsAccepted(d: Dev, hand: Option<nat>, i: nat)
    requires Once(d, hand) && i < |History(d)|
    ensures History(d)[i].serial < d.accepted && hand != Some(History(d)[i].serial)
  {
    var m := |d.returned|;
    var n := |Popped(d)|;
    if i < m {
      KnownIsAccepted(d, hand, d.returned, i);
    } else if i < n {
      assert History(d)[i] == Giving(d)[i - m];
      KnownIsAccepted(d, hand, Giving(d), i - m);
    } else {
      assert History(d)[i] == d.completed[i - n];
      KnownIsAccepted(d, hand, d.completed, i - n);
    }
  }

  lemma UntimedMayComplete(d: Dev, c: Context)
    requires c.ready == 0 && c.epoch == d.epoch
    requires c.state != PendingGiveback && c.state != GivingBack
    ensures MayComplete(d, c)
  {
  }

  // Unlinking a waiting request -------------------------------------------------------------

  lemma InStateWithout(l: seq<Context>, i: nat, state: ContextState)
    requires InState(l, state) && i < |l|
    ensures InState(Without(i, l), state)
  {
    forall j: nat | j < |Without(i, l)|
      ensures StateIs(Without(i, l), j, state)
    {
      assert StateIs(l, if j < i then j else j + 1, state);
    }
  }

  lemma PlainWithout(d: Dev, d': Dev, l: seq<Context>, i: nat)
    requires Plain(l, d.epoch) && i < |l| && d'.epoch == d.epoch
    ensures Plain(Without(i, l), d'.epoch)
  {
    forall j: nat | j < |Without(i, l)|
      ensures PlainAt(Without(i, l), j, d'.epoch)
    {
      assert PlainAt(l, if j < i then j else j + 1, d.epoch);
    }
  }

  function UnlinkedHid(d: Dev, i: nat): Dev
    requires i < |d.pendingHidIn|
  {
    d.(pendingHidIn := Without(i, d.pendingHidIn))
  }

  function UnlinkedFeature(d: Dev, i: nat): Dev
    requires i < |d.pendingFeature|
  {
    d.(pendingFeature := Without(i, d.pendingFeature))
  }

  lemma UnlinkOnce(d: Dev, l: seq<Context>, i: nat, d': Dev)
    requires Once(d, None) && i < |l| && d'.accepted == d.accepted
    requires l == d.pendingHidIn || l == d.pendingFeature
    requires forall k: nat :: Total(d', k) + Count(l, k) == Total(d, k) + Count(Without(i, l), k)
    ensures Once(d', Some(l[i].serial)) && l[i].serial < d.accepted
  {
    KnownIsAccepted(d, None, l, i);
    forall k: nat
      ensures Total(d', k) == if k < d'.accepted && Some(l[i].serial) != Some(k) then 1 else 0
    {
      CountWithout(i, l, k);
      assert Total(d, k) == if k < d.accepted then 1 else 0;
    }
  }

  /** Nothing but a waiting list differs. */
  lemma SameHistory(d: Dev, d': Dev)
    requires d'.returned == d.returned && d'.giving == d.giving && d'.completed == d.completed
    requires d'.epoch == d.epoch && Clocked(d) && NotEarly(d)
    requires 0 <= d.nextIsoOut <= d'.nextIsoOut && 0 <= d.nextIsoIn <= d'.nextIsoIn && 0 <= d.nextHidIn <= d'.nextHidIn
    ensures History(d') == History(d) && Popped(d') == Popped(d) && Clocked(d') && NotEarly(d')
  {
    assert History(d') == History(d);
    forall i: nat | i < |History(d')|
      ensures ClockedAt(d', i)
    {
      assert ClockedAt(d, i);
    }
  }

  lemma UnlinkHidFifo(d: Dev, i: nat)
    requires HidFifo(d) && i < |d.pendingHidIn|
    ensures HidFifo(UnlinkedHid(d, i))
  {
    var d' := UnlinkedHid(d, i);
    IncreasingWithout(d.pendingHidIn, i);
    assert History(d') == History(d);
    if d'.pendingHidIn != [] {
      forall j: nat | j < |History(d')|
        ensures ScheduledBefore(History(d'), j, d'.pendingHidIn[0].serial)
      {
        assert ScheduledBefore(History(d), j, d.pendingHidIn[0].serial);
      }
    }
  }

  lemma UnlinkHid(d: Dev, i: nat)
    requires Queues(d, None) && i < |d.pendingHidIn|
    ensures Queues(UnlinkedHid(d, i), Some(d.pendingHidIn[i].serial))
    ensures d.pendingHidIn[i].serial < d.accepted
  {
    var d' := UnlinkedHid(d, i);
    SameHistory(d, d');
    UnlinkOnce(d, d.pendingHidIn, i, d');
    UnlinkHidFifo(d, i);
    InStateWithout(d.pendingHidIn, i, PendingHidIn);
    PlainWithout(d, d', d.pendingHidIn, i);
  }

  lemma FifoFrame(d: Dev, d': Dev)
    requires HidFifo(d) && History(d') == History(d) && d'.pendingHidIn == d.pendingHidIn
    ensures HidFifo(d')
  {
    if d.pendingHidIn != [] {
      forall j: nat | j < |History(d')|
        ensures ScheduledBefore(History(d'), j, d'.pendingHidIn[0].serial)
      {
        assert ScheduledBefore(History(d), j, d.pendingHidIn[0].serial);
      }
    }
  }

  lemma UnlinkFeature(d: Dev, i: nat)
    requires Queues(d, None) && i < |d.pendingFeature|
    ensures Queues(UnlinkedFeature(d, i), Some(d.pendingFeature[i].serial))
    ensures d.pendingFeature[i].serial < d.accepted
  {
    var d' := UnlinkedFeature(d, i);
    SameHistory(d, d');
    FifoFrame(d, d');
    UnlinkOnce(d, d.pendingFeature, i, d');
    InStateWithout(d.pendingFeature, i, PendingFeatureGet);
    PlainWithout(d, d', d.pendingFeature, i);
  }

  function CompletedHid(d: Dev, i: nat, status: int): Dev
    requires i < |d.pendingHidIn|
  {
    Complete(UnlinkedHid(d, i), d.pendingHidIn[i], status)
  }

  /** Completing a waiting input request untimed, as cancelling does. */
  lemma CompleteHid(d: Dev, i: nat, status: int)
    requires Queues(d, None) && i < |d.pendingHidIn|
    ensures Queues(CompletedHid(d, i, status), None)
  {
    assert StateIs(d.pendingHidIn, i, PendingHidIn) && PlainAt(d.pendingHidIn, i, d.epoch);
    UnlinkHid(d, i);
    UntimedMayComplete(UnlinkedHid(d, i), d.pendingHidIn[i]);
    CompleteKeepsQueues(UnlinkedHid(d, i), d.pendingHidIn[i], status);
  }

  function CompletedFeature(d: Dev, i: nat, c: Context, status: int): Dev
    requires i < |d.pendingFeature|
  {
    Complete(UnlinkedFeature(d, i), c, status)
  }

  /** Completing a waiting feature request, possibly answered, as replies and cancels do. */
  lemma CompleteFeature(d: Dev, i: nat, c: Context, status: int)
    requires Queues(d, None) && i < |d.pendingFeature|
    requires c.serial == d.pendingFeature[i].serial && c.epoch == d.pendingFeature[i].epoch
    requires c.ready == 0 && c.state == PendingFeatureGet
    ensures Queues(CompletedFeature(d, i, c, status), None)
  {
    assert PlainAt(d.pendingFeature, i, d.epoch);
    UnlinkFeature(d, i);
    UntimedMayComplete(UnlinkedFeature(d, i), c);
    CompleteKeepsQueues(UnlinkedFeature(d, i), c, status);
  }

  // Cancelling everything that waits ----------------------------------------------------------

  function CancelledHid(d: Dev, status: int): Dev {
    d.(completed := QueueAll(d.pendingHidIn, status, d.completed), pendingHidIn := [])
  }

  function CancelledFeature(d: Dev, status: int): Dev {
    d.(completed := QueueAll(d.pendingFeature, status, d.completed), pendingFeature := [])
  }

  lemma {:induction false} CancelHidKeeps(d: Dev, status: int)
    requires Queues(d, None)
    ensures Queues(CancelledHid(d, status), None)
    decreases |d.pendingHidIn|
  {
    if d.pendingHidIn == [] {
      assert CancelledHid(d, status) == d;
    } else {
      assert Without(0, d.pendingHidIn) == d.pendingHidIn[1..];
      CompleteHid(d, 0, status);
      CancelHidKeeps(CompletedHid(d, 0, status), status);
      assert CancelledHid(CompletedHid(d, 0, status), status) == CancelledHid(d, status);
    }
  }

  lemma {:induction false} CancelFeatureKeeps(d: Dev, status: int)
    requires Queues(d, None)
    ensures Queues(CancelledFeature(d, status), None)
    decreases |d.pendingFeature|
  {
    if d.pendingFeature == [] {
      assert CancelledFeature(d, status) == d;
    } else {
      var c := d.pendingFeature[0];
      assert StateIs(d.pendingFeature, 0, PendingFeatureGet) && PlainAt(d.pendingFeature, 0, d.epoch);
      assert Without(0, d.pendingFeature) == d.pendingFeature[1..];
      CompleteFeature(d, 0, c, status);
      CancelFeatureKeeps(CompletedFeature(d, 0, c, status), status);
      assert CancelledFeature(CompletedFeature(d, 0, c, status), status) == CancelledFeature(d, status);
    }
  }

  lemma CancelPendingKeeps(d: Dev, status: int)
    requires Queues(d, None)
    ensures Queues(CancelPending(d, status), None)
  {
    CancelHidKeeps(d, status);
    CancelFeatureKeeps(CancelledHid(d, status), status);
    assert CancelPending(d, status) == CancelledFeature(CancelledHid(d, status), status);
  }

  // Changes that leave the queues alone --------------------------------------------------------

  predicate SameQueues(d: Dev, d': Dev) {
    && d'.pendingHidIn == d.pendingHidIn && d'.pendingFeature == d.pendingFeature
    && d'.completed == d.completed && d'.giving == d.giving && d'.returned == d.returned
    && d'.accepted == d.accepted
  }

  lemma SameOnce(d: Dev, d': Dev, hand: Option<nat>)
    requires Once(d, hand) && d'.accepted == d.accepted
    requires forall k: nat :: Total(d', k) == Total(d, k)
    ensures Once(d', hand)
  {
    forall k: nat
      ensures Total(d', k) == if k < d'.accepted && hand != Some(k) then 1 else 0
    {
      assert Total(d, k) == if k < d.accepted && hand != Some(k) then 1 else 0;
    }
  }

  lemma SameQueuesKeep(d: Dev, d': Dev, hand: Option<nat>)
    requires Queues(d, hand) && SameQueues(d, d') && d'.epoch == d.epoch
    requires d'.nextIsoOut >= d.nextIsoOut && d'.nextIsoIn >= d.nextIsoIn && d'.nextHidIn >= d.nextHidIn
    ensures Queues(d', hand)
  {
    SameHistory(d, d');
    FifoFrame(d, d');
    SameOnce(d, d', hand);
  }

  /** Zeroing the clocks is sound because the epoch moves on with it. */
  lemma ResetKeeps(d: Dev, d': Dev)
    requires Queues(d, None) && SameQueues(d, d') && d'.epoch == d.epoch + 1
    requires d.pendingHidIn == [] && d.pendingFeature == []
    requires d'.nextIsoOut == 0 && d'.nextIsoIn == 0 && d'.nextHidIn == 0
    ensures Queues(d', None)
  {
    assert History(d') == History(d) && Popped(d') == Popped(d);
    forall i: nat | i < |History(d')|
      ensures ClockedAt(d', i)
    {
      assert ClockedAt(d, i);
    }
    SameOnce(d, d', None);
  }

  // Events ------------------------------------------------------------------------------------

  lemma EnqueueFrameKeeps(d: Dev, kind: FrameKind, payload: seq<Byte>)
    requires Buffers(d)
    ensures Buffers(EnqueueFrame(d, kind, payload)) && SameQueues(d, EnqueueFrame(d, kind, payload))
  {
    var d' := EnqueueFrame(d, kind, payload);
    forall i: nat | i < |d'.events|
      ensures Numbered(d'.events, i, d'.nextSequence)
    {
      if i < |d.events| { assert Numbered(d.events, i, d.nextSequence); }
    }
    forall i: nat | i < |d'.pendingFeature|
      ensures NotCached(d'.pendingFeature, i, d'.cache)
    {
      assert NotCached(d.pendingFeature, i, d.cache);
    }
  }

  lemma {:induction false} EnqueueSpansKeeps(d: Dev, spans: seq<IsoTransfer.Span>, buffer: seq<Byte>)
    requires IsoTransfer.Inside(spans, |buffer|) && Buffers(d)
    ensures Buffers(EnqueueSpans(d, spans, buffer))
    ensures EnqueueSpans(d, spans, buffer) == d.(events := EnqueueSpans(d, spans, buffer).events,
      nextSequence := EnqueueSpans(d, spans, buffer).nextSequence,
      framesToUser := EnqueueSpans(d, spans, buffer).framesToUser)
    decreases |spans|
  {
    if spans != [] {
      var payload := IsoTransfer.Bytes(spans[0], buffer);
      EnqueueFrameKeeps(d, AudioOutFrame, payload);
      EnqueueSpansKeeps(EnqueueFrame(d, AudioOutFrame, payload), spans[1..], buffer);
    }
  }
}
