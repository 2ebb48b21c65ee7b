/** What each critical section of the output queue does, and what the device is given for each report. */
module OutputOutcome {
  import opened Base
  import opened OutputSpec
  import opened OutputTheorems

  /** The report, filled up with zeros to the device's length. */
  predicate FilledUp(buffer: seq<Byte>, report: seq<Byte>, length: nat) {
    && |buffer| == length && |report| <= length
    && forall i | 0 <= i < length :: buffer[i] == if i < |report| then report[i] else 0
  }

  predicate OldestAudio(queue: seq<Write>, i: nat) {
    i < |queue| && queue[i].audio && forall k | 0 <= k < i :: !queue[k].audio
  }

  predicate NoAudio(queue: seq<Write>) {
    forall i | 0 <= i < |queue| :: !queue[i].audio
  }

  // Queueing -------------------------------------------------------------------------------

  /** The report is refused: too long, or the writer has failed. Nothing changes. */
  predicate Refuses(s: Writer, report: seq<Byte>) {
    |report| > s.length || s.error
  }

  /** There is no room, and no queued audio report to give way to an audio report. */
  predicate Full(s: Writer, audio: bool) {
    |s.queue| >= 64 && (audio ==> NoAudio(s.queue))
  }

  predicate Queues(s: Writer, q: Writer, report: seq<Byte>, audio: bool, w: Write) {
    && w.ticket == s.queued && w.audio == audio && FilledUp(w.buffer, report, s.length)
    && q.queued == s.queued + 1 && q.accepted == s.accepted + [w] && q.rejected == s.rejected
  }

  predicate Joins(s: Writer, q: Writer, w: Write) {
    q.queue == s.queue + [w] && q.fates == s.fates && q.coalesced == s.coalesced
  }

  /** The oldest queued audio report gives way. */
  predicate Replaces(s: Writer, q: Writer, w: Write, i: nat) {
    && OldestAudio(s.queue, i)
    && q.queue == s.queue[..i] + s.queue[i + 1..] + [w]
    && q.fates == s.fates + [Replaced(s.queue[i], w.ticket)] && q.coalesced == s.coalesced + 1
  }

  predicate SameThread(s: Writer, q: Writer) {
    && q.active == s.active && q.error == s.error && q.stopped == s.stopped && q.length == s.length
    && q.completed == s.completed && q.audioErrors == s.audioErrors
  }

  lemma PaddedFills(report: seq<Byte>, length: nat)
    requires |report| <= length
    ensures FilledUp(Padded(report, length), report, length)
  {
  }

  lemma FirstAudioIs(queue: seq<Write>)
    ensures if FirstAudio(queue) < |queue| then OldestAudio(queue, FirstAudio(queue)) else NoAudio(queue)
  {
  }

  /** A report is refused, rejected for want of room, or queued behind all others in full length. */
  lemma ReportIsQueued(s: Writer, report: seq<Byte>, audio: bool) returns (w: Write)
    ensures var q := Step(s, DoEnqueue(report, audio));
      if Refuses(s, report) then q == s
      else if Full(s, audio) then q == s.(rejected := s.rejected + 1)
      else
        && SameThread(s, q) && Queues(s, q, report, audio, w)
        && (if audio && !NoAudio(s.queue) then exists i: nat :: Replaces(s, q, w, i) else Joins(s, q, w))
  {
    w := Write(s.queued, Padded(report, s.length), audio);
    FirstAudioIs(s.queue);
    if !Refuses(s, report) {
      PaddedFills(report, s.length);
      var i := FirstAudio(s.queue);
      if audio && i < |s.queue| {
        assert Replaces(s, Step(s, DoEnqueue(report, audio)), w, i);
      }
    }
  }

  // Writing --------------------------------------------------------------------------------

  /** What becomes of the report being written. */
  function Written(w: Write, success: bool): Fate {
    if success then Sent(w) else if w.audio then AudioFailed(w) else FatallyFailed(w)
  }

  /** The writer goes on after a failed audio report and stops for good after any other. */
  lemma OutcomeIsRecorded(s: Writer, success: bool)
    requires s.active.Some?
    ensures var w, q := s.active.value, Step(s, DoFinish(success));
      && q.active.None? && q.fates == s.fates + [Written(w, success)]
      && q.error == (s.error || (!success && !w.audio))
      && q.completed == s.completed + (if success then 1 else 0)
      && q.audioErrors == s.audioErrors + (if !success && w.audio then 1 else 0)
      && q.queue == s.queue && q.accepted == s.accepted && q.queued == s.queued && q.stopped == s.stopped
  {
  }

  /** Reports are taken in the order they wait in. */
  lemma OldestIsTaken(s: Writer)
    requires CanTake(s)
    ensures var q := Step(s, DoTake);
      && s.queue != [] && !s.error && !s.stopped && s.active.None?
      && q == s.(active := Some(s.queue[0]), queue := q.queue) && s.queue == [s.queue[0]] + q.queue
  {
  }

  predicate AllDiscarded(fates: seq<Fate>, queue: seq<Write>) {
    |fates| == |queue| && forall i | 0 <= i < |queue| :: fates[i] == Discarded(queue[i])
  }

  lemma {:induction false} DiscardsAll(queue: seq<Write>)
    ensures AllDiscarded(DiscardAll(queue), queue)
  {
    if queue != [] {
      DiscardsAll(queue[..|queue| - 1]);
    }
  }

  /** Stopping discards what waits, once, and leaves the report being written. */
  lemma StopDiscards(s: Writer) returns (fates: seq<Fate>)
    ensures var q := Step(s, DoStop);
      if s.stopped then q == s
      else q == s.(stopped := true, queue := [], fates := s.fates + fates) && AllDiscarded(fates, s.queue)
  {
    fates := DiscardAll(s.queue);
    DiscardsAll(s.queue);
  }

  // Runs -----------------------------------------------------------------------------------

  /** A report offered to the transport. */
  datatype Offer = Offer(report: seq<Byte>, audio: bool)

  /** The report a step accepts, if it accepts one. */
  function TakenBy(s: Writer, e: Event): seq<Offer> {
    if e.DoEnqueue? && !Refuses(s, e.report) && !Full(s, e.audio) then [Offer(e.report, e.audio)] else []
  }

  /** The reports accepted over a run, in order. */
  function Taken(s: Writer, events: seq<Event>): seq<Offer>
    requires Run(s, events).Some?
    decreases |events|
  {
    if events == [] then [] else TakenBy(s, events[0]) + Taken(Step(s, events[0]), events[1..])
  }

  predicate WriteIs(w: Write, o: Offer, ticket: nat, length: nat) {
    w.ticket == ticket && w.audio == o.audio && FilledUp(w.buffer, o.report, length)
  }

  predicate WritesAre(writes: seq<Write>, offers: seq<Offer>, first: nat, length: nat) {
    |writes| == |offers| && forall i | 0 <= i < |writes| :: WriteIs(writes[i], offers[i], first + i, length)
  }

  lemma OthersAcceptNothing(s: Writer, e: Event)
    requires GoodEvent(s, e) && !e.DoEnqueue?
    ensures var q := Step(s, e); q.length == s.length && q.queued == s.queued && q.accepted == s.accepted
  {
  }

  lemma StepAccepts(s: Writer, e: Event) returns (writes: seq<Write>)
    requires GoodEvent(s, e)
    ensures WritesAre(writes, TakenBy(s, e), s.queued, s.length)
    ensures var q := Step(s, e);
      q.length == s.length && q.accepted == s.accepted + writes && q.queued == s.queued + |writes|
  {
    writes := [];
    if e.DoEnqueue? {
      var w := ReportIsQueued(s, e.report, e.audio);
      if TakenBy(s, e) != [] { writes := [w]; }
    } else {
      OthersAcceptNothing(s, e);
    }
  }

  lemma WritesConcat(a: seq<Write>, b: seq<Write>, x: seq<Offer>, y: seq<Offer>, first: nat, length: nat)
    requires WritesAre(a, x, first, length) && WritesAre(b, y, first + |a|, length)
    ensures WritesAre(a + b, x + y, first, length)
  {
    forall i | 0 <= i < |a + b|
      ensures WriteIs((a + b)[i], (x + y)[i], first + i, length)
    {
      if i >= |a| { assert WriteIs(b[i - |a|], y[i - |a|], first + |a| + (i - |a|), length); }
    }
  }

  lemma {:induction false} RunAccepts(s: Writer, events: seq<Event>) returns (writes: seq<Write>)
    requires Run(s, events).Some?
    ensures Run(s, events).value.accepted == s.accepted + writes
    ensures WritesAre(writes, Taken(s, events), s.queued, s.length)
    decreases |events|
  {
    if events == [] {
      writes := [];
    } else {
      var first := StepAccepts(s, events[0]);
      var more := RunAccepts(Step(s, events[0]), events[1..]);
      WritesConcat(first, more, TakenBy(s, events[0]), Taken(Step(s, events[0]), events[1..]), s.queued, s.length);
      Assoc(s.accepted, first, more);
      writes := first + more;
    }
  }

  /** Over any run, the device is given each accepted report as it was offered, filled up with zeros. */
  lemma AcceptedAsOffered(s: Writer, events: seq<Event>)
    requires Untouched(s) && Run(s, events).Some?
    ensures WritesAre(Run(s, events).value.accepted, Taken(s, events), 0, s.length)
  {
    var writes := RunAccepts(s, events);
    assert [] + writes == writes;
  }
}
