/** Every accepted report has exactly one fate, and reports reach the device in order. */
module OutputTheorems {
  import opened Base
  import opened OutputSpec

  // Where a ticket is --------------------------------------------------------------------

  function In(queue: seq<Write>, t: nat): nat {
    if queue == [] then 0
    else In(queue[..|queue| - 1], t) + (if queue[|queue| - 1].ticket == t then 1 else 0)
  }

  function InActive(active: Option<Write>, t: nat): nat {
    if active.Some? && active.value.ticket == t then 1 else 0
  }

  function InFates(fates: seq<Fate>, t: nat): nat {
    if fates == [] then 0
    else InFates(fates[..|fates| - 1], t) + (if fates[|fates| - 1].write.ticket == t then 1 else 0)
  }

  function Places(s: Writer, t: nat): nat {
    In(s.queue, t) + InActive(s.active, t) + InFates(s.fates, t)
  }

  lemma InMore(queue: seq<Write>, w: Write, t: nat)
    ensures In(queue + [w], t) == In(queue, t) + if w.ticket == t then 1 else 0
  {
    assert (queue + [w])[..|queue|] == queue;
  }

  lemma InFatesMore(fates: seq<Fate>, f: Fate, t: nat)
    ensures InFates(fates + [f], t) == InFates(fates, t) + if f.write.ticket == t then 1 else 0
  {
    assert (fates + [f])[..|fates|] == fates;
  }

  lemma {:induction false} InWithout(queue: seq<Write>, i: nat, t: nat)
    requires i < |queue|
    ensures In(Without(queue, i), t) == In(queue, t) - if queue[i].ticket == t then 1 else 0
  {
    var last := |queue| - 1;
    if i == last {
      assert Without(queue, i) == queue[..last];
    } else {
      InWithout(queue[..last], i, t);
      assert Without(queue, i) == Without(queue[..last], i) + [queue[last]];
      InMore(Without(queue[..last], i), queue[last], t);
    }
  }

  lemma {:induction false} InFatesDiscarded(fates: seq<Fate>, queue: seq<Write>, t: nat)
    ensures InFates(fates + DiscardAll(queue), t) == InFates(fates, t) + In(queue, t)
  {
    if queue == [] {
      assert fates + DiscardAll(queue) == fates;
    } else {
      var front := queue[..|queue| - 1];
      var f := Discarded(queue[|queue| - 1]);
      InFatesDiscarded(fates, front, t);
      assert fates + DiscardAll(queue) == (fates + DiscardAll(front)) + [f];
      InFatesMore(fates + DiscardAll(front), f, t);
    }
  }

  lemma {:induction false} NotQueued(queue: seq<Write>, n: int, t: nat)
    requires AllAfter(queue, n) && t <= n
    ensures In(queue, t) == 0
  {
    if queue != [] {
      NotQueued(queue[..|queue| - 1], n, t);
    }
  }

  lemma {:induction false} FoundInFates(fates: seq<Fate>, t: nat)
    requires InFates(fates, t) > 0
    ensures exists i :: 0 <= i < |fates| && fates[i].write.ticket == t
  {
    if fates[|fates| - 1].write.ticket != t {
      FoundInFates(fates[..|fates| - 1], t);
      var i :| 0 <= i < |fates| - 1 && fates[..|fates| - 1][i].write.ticket == t;
      assert fates[i].write.ticket == t;
    }
  }

  // The queue ----------------------------------------------------------------------------

  predicate Known(w: Write, accepted: seq<Write>) {
    w.ticket < |accepted| && accepted[w.ticket] == w
  }

  predicate Ordered(queue: seq<Write>) {
    forall i, j | 0 <= i < j < |queue| :: queue[i].ticket < queue[j].ticket
  }

  predicate OneAudio(queue: seq<Write>) {
    forall i, j | 0 <= i < j < |queue| :: !(queue[i].audio && queue[j].audio)
  }

  predicate AllKnown(queue: seq<Write>, accepted: seq<Write>) {
    forall i | 0 <= i < |queue| :: Known(queue[i], accepted)
  }

  /** Nothing queued or being written was taken before the ticket `n`. */
  predicate AllAfter(queue: seq<Write>, n: int) {
    forall i | 0 <= i < |queue| :: n < queue[i].ticket
  }

  predicate GoodQueue(queue: seq<Write>, accepted: seq<Write>) {
    && |queue| <= MAX_PENDING && Ordered(queue) && OneAudio(queue) && AllKnown(queue, accepted)
    && forall t | 0 <= t < |accepted| :: accepted[t].ticket == t
  }

  lemma WithoutAt(queue: seq<Write>, i: nat)
    requires i < |queue|
    ensures |Without(queue, i)| == |queue| - 1
    ensures forall k | 0 <= k < |queue| - 1 :: Without(queue, i)[k] == queue[if k < i then k else k + 1]
  {}

  lemma WithoutIsGood(queue: seq<Write>, accepted: seq<Write>, i: nat)
    requires GoodQueue(queue, accepted) && i < |queue|
    ensures GoodQueue(Without(queue, i), accepted)
  {
    WithoutAt(queue, i);
  }

  lemma WithoutIsAfter(queue: seq<Write>, n: int, i: nat)
    requires AllAfter(queue, n) && i < |queue|
    ensures AllAfter(Without(queue, i), n)
  {
    WithoutAt(queue, i);
  }

  /** With at most one audio report queued, dropping the first drops them all. */
  lemma NoSecondAudio(queue: seq<Write>, i: nat)
    requires OneAudio(queue) && i == FirstAudio(queue) < |queue|
    ensures FirstAudio(Without(queue, i)) == |queue| - 1
  {
    WithoutAt(queue, i);
    var kept := Without(queue, i);
    assert queue[i].audio;
    forall k | 0 <= k < |kept|
      ensures !kept[k].audio
    {
      var j := if k < i then k else k + 1;
      assert kept[k] == queue[j] && !queue[j].audio;
    }
  }

  // The fates ----------------------------------------------------------------------------

  function LastStarted(fates: seq<Fate>): int {
    if fates == [] then -1
    else if fates[|fates| - 1].Started() then fates[|fates| - 1].write.ticket
    else LastStarted(fates[..|fates| - 1])
  }

  /** Reports start in ticket order; only audio fails softly or gives way, and only to a later audio report. */
  predicate GoodFate(before: seq<Fate>, f: Fate, accepted: seq<Write>) {
    && Known(f.write, accepted)
    && (f.Started() ==> LastStarted(before) < f.write.ticket)
    && match f
       case AudioFailed(w) => w.audio
       case FatallyFailed(w) => !w.audio
       case Replaced(w, later) => w.audio && w.ticket < later < |accepted| && accepted[later].audio
       case _ => true
  }

  predicate GoodFates(fates: seq<Fate>, accepted: seq<Write>) {
    fates == [] ||
    (GoodFates(fates[..|fates| - 1], accepted) && GoodFate(fates[..|fates| - 1], fates[|fates| - 1], accepted))
  }

  datatype Kind = SentKind | AudioFailedKind | FatalKind | ReplacedKind | DiscardedKind

  function KindOf(f: Fate): Kind {
    match f
    case Sent(_) => SentKind
    case AudioFailed(_) => AudioFailedKind
    case FatallyFailed(_) => FatalKind
    case Replaced(_, _) => ReplacedKind
    case Discarded(_) => DiscardedKind
  }

  function Count(fates: seq<Fate>, kind: Kind): nat {
    if fates == [] then 0
    else Count(fates[..|fates| - 1], kind) + (if KindOf(fates[|fates| - 1]) == kind then 1 else 0)
  }

  lemma {:induction false} KindsAddUp(fates: seq<Fate>)
    ensures |fates| == Count(fates, SentKind) + Count(fates, AudioFailedKind) + Count(fates, FatalKind)
                       + Count(fates, ReplacedKind) + Count(fates, DiscardedKind)
  {
    if fates != [] {
      KindsAddUp(fates[..|fates| - 1]);
    }
  }

  lemma MoreFates(fates: seq<Fate>, f: Fate, accepted: seq<Write>)
    requires GoodFates(fates, accepted) && GoodFate(fates, f, accepted)
    ensures GoodFates(fates + [f], accepted)
    ensures forall k :: Count(fates + [f], k) == Count(fates, k) + if KindOf(f) == k then 1 else 0
    ensures LastStarted(fates + [f]) == if f.Started() then f.write.ticket else LastStarted(fates)
  {
    var all := fates + [f];
    assert all[..|all| - 1] == fates && all[|all| - 1] == f;
  }

  lemma {:induction false} MoreAccepted(fates: seq<Fate>, accepted: seq<Write>, w: Write)
    requires GoodFates(fates, accepted)
    ensures GoodFates(fates, accepted + [w])
  {
    if fates != [] {
      MoreAccepted(fates[..|fates| - 1], accepted, w);
      assert GoodFate(fates[..|fates| - 1], fates[|fates| - 1], accepted + [w]);
    }
  }

  lemma {:induction false} DiscardedFates(fates: seq<Fate>, queue: seq<Write>, accepted: seq<Write>)
    requires GoodFates(fates, accepted) && AllKnown(queue, accepted)
    ensures var all := fates + DiscardAll(queue);
      && GoodFates(all, accepted) && LastStarted(all) == LastStarted(fates)
      && forall k :: Count(all, k) == Count(fates, k) + if k.DiscardedKind? then |queue| else 0
  {
    if queue == [] {
      assert fates + DiscardAll(queue) == fates;
    } else {
      var front := queue[..|queue| - 1];
      DiscardedFates(fates, front, accepted);
      var f := Discarded(queue[|queue| - 1]);
      assert fates + DiscardAll(queue) == (fates + DiscardAll(front)) + [f];
      assert GoodFate(fates + DiscardAll(front), f, accepted);
      MoreFates(fates + DiscardAll(front), f, accepted);
    }
  }

  // The invariant ------------------------------------------------------------------------

  /** Every ticket given out is in exactly one place. */
  ghost predicate OncePlaced(s: Writer) {
    forall t: nat :: Places(s, t) == if t < s.queued then 1 else 0
  }

  predicate Counted(s: Writer) {
    && s.queued == |s.accepted| == |s.queue| + (if s.active.Some? then 1 else 0) + |s.fates|
    && Count(s.fates, SentKind) == s.completed
    && Count(s.fates, AudioFailedKind) == s.audioErrors
    && Count(s.fates, ReplacedKind) == s.coalesced
    && Count(s.fates, FatalKind) == (if s.error then 1 else 0)
    && (!s.stopped ==> Count(s.fates, DiscardedKind) == 0)
  }

  predicate InOrder(s: Writer) {
    && AllAfter(s.queue, LastStarted(s.fates))
    && (s.active.Some? ==>
          && !s.error && Known(s.active.value, s.accepted)
          && LastStarted(s.fates) < s.active.value.ticket && AllAfter(s.queue, s.active.value.ticket))
  }

  ghost predicate Inv(s: Writer) {
    && GoodQueue(s.queue, s.accepted) && GoodFates(s.fates, s.accepted)
    && InOrder(s) && Counted(s) && OncePlaced(s)
  }

  // Joining the queue --------------------------------------------------------------------

  lemma JoinPlaces(s: Writer, buffer: seq<Byte>, audio: bool)
    requires OncePlaced(s)
    ensures OncePlaced(Join(s, buffer, audio))
  {
    var q := Join(s, buffer, audio);
    var w := Write(s.queued, buffer, audio);
    forall t: nat
      ensures Places(q, t) == if t < q.queued then 1 else 0
    {
      assert Places(s, t) == if t < s.queued then 1 else 0;
      InMore(s.queue, w, t);
    }
  }

  lemma JoinQueue(queue: seq<Write>, accepted: seq<Write>, w: Write)
    requires GoodQueue(queue, accepted) && |queue| < MAX_PENDING && w.ticket == |accepted|
    requires w.audio ==> FirstAudio(queue) == |queue|
    ensures GoodQueue(queue + [w], accepted + [w])
  {
    var q := queue + [w];
    assert forall i | 0 <= i < |queue| :: q[i] == queue[i] && Known(queue[i], accepted);
  }

  lemma JoinKeeps(s: Writer, buffer: seq<Byte>, audio: bool)
    requires Inv(s) && |s.queue| < MAX_PENDING && (audio ==> FirstAudio(s.queue) == |s.queue|)
    ensures Inv(Join(s, buffer, audio))
  {
    var q := Join(s, buffer, audio);
    var w := Write(s.queued, buffer, audio);
    JoinQueue(s.queue, s.accepted, w);
    MoreAccepted(s.fates, s.accepted, w);
    JoinPlaces(s, buffer, audio);
    LastStartedIsKnown(s.fates, s.accepted);
    assert InOrder(q);
  }

  lemma {:induction false} LastStartedIsKnown(fates: seq<Fate>, accepted: seq<Write>)
    requires GoodFates(fates, accepted)
    ensures LastStarted(fates) < |accepted|
  {
    if fates != [] {
      LastStartedIsKnown(fates[..|fates| - 1], accepted);
    }
  }

  lemma ReplaceOrder(queue: seq<Write>, i: nat, n: int, w: Write)
    requires AllAfter(queue, n) && i < |queue| && n < w.ticket
    ensures AllAfter(Without(queue, i) + [w], n)
  {
    WithoutIsAfter(queue, n, i);
  }

  lemma ReplaceQueue(queue: seq<Write>, accepted: seq<Write>, i: nat, w: Write)
    requires GoodQueue(queue, accepted) && i == FirstAudio(queue) < |queue| && w.ticket == |accepted|
    ensures GoodQueue(Without(queue, i) + [w], accepted + [w])
  {
    WithoutIsGood(queue, accepted, i);
    NoSecondAudio(queue, i);
    JoinQueue(Without(queue, i), accepted, w);
  }

  lemma ReplaceFates(s: Writer, w: Write, i: nat)
    requires GoodQueue(s.queue, s.accepted) && GoodFates(s.fates, s.accepted) && i < |s.queue|
    requires s.queue[i].audio && w.audio && w.ticket == |s.accepted|
    ensures var all := s.fates + [Replaced(s.queue[i], w.ticket)];
      && GoodFates(all, s.accepted + [w]) && LastStarted(all) == LastStarted(s.fates) < w.ticket
      && forall k :: Count(all, k) == Count(s.fates, k) + if k.ReplacedKind? then 1 else 0
  {
    var f := Replaced(s.queue[i], w.ticket);
    MoreAccepted(s.fates, s.accepted, w);
    LastStartedIsKnown(s.fates, s.accepted);
    assert Known(s.queue[i], s.accepted);
    assert GoodFate(s.fates, f, s.accepted + [w]);
    MoreFates(s.fates, f, s.accepted + [w]);
  }

  /** Replacing and joining in one go: the fate names the report that joins. */
  lemma ReplaceKeeps(s: Writer, q: Writer, w: Write, i: nat)
    requires Inv(s) && i == FirstAudio(s.queue) < |s.queue|
    requires w == Write(s.queued, w.buffer, true) && q == Join(Replace(s), w.buffer, true)
    ensures Inv(q)
  {
    ReplaceQueue(s.queue, s.accepted, i, w);
    ReplaceFates(s, w, i);
    ReplaceOrder(s.queue, i, LastStarted(s.fates), w);
    if s.active.Some? {
      ReplaceOrder(s.queue, i, s.active.value.ticket, w);
    }
    ReplacePlaces(s, i);
    JoinPlaces(Replace(s), w.buffer, true);
    assert q.queue == Without(s.queue, i) + [w] && q.accepted == s.accepted + [w];
    assert q.fates == s.fates + [Replaced(s.queue[i], w.ticket)];
    assert InOrder(q);
    assert Counted(q);
  }

  lemma ReplacePlaces(s: Writer, i: nat)
    requires OncePlaced(s) && i == FirstAudio(s.queue) < |s.queue|
    ensures OncePlaced(Replace(s))
  {
    var q := Replace(s);
    forall t: nat
      ensures Places(q, t) == if t < q.queued then 1 else 0
    {
      assert Places(s, t) == if t < s.queued then 1 else 0;
      InWithout(s.queue, i, t);
      InFatesMore(s.fates, Replaced(s.queue[i], s.queued), t);
    }
  }

  lemma AdmitKeeps(s: Writer, buffer: seq<Byte>, audio: bool)
    requires Inv(s)
    ensures Inv(Admit(s, buffer, audio))
  {
    if audio && FirstAudio(s.queue) < |s.queue| {
      ReplaceKeeps(s, Admit(s, buffer, audio), Write(s.queued, buffer, true), FirstAudio(s.queue));
    } else if |s.queue| >= MAX_PENDING {
      RejectKeeps(s);
    } else {
      JoinKeeps(s, buffer, audio);
    }
  }

  lemma RejectKeeps(s: Writer)
    requires Inv(s)
    ensures Inv(s.(rejected := s.rejected + 1))
  {
    var q := s.(rejected := s.rejected + 1);
    forall t: nat
      ensures Places(q, t) == Places(s, t)
    {}
  }

  // Writing ------------------------------------------------------------------------------

  lemma TakePlaces(s: Writer)
    requires OncePlaced(s) && CanTake(s)
    ensures OncePlaced(Take(s))
  {
    var q := Take(s);
    assert q.queue == Without(s.queue, 0);
    forall t: nat
      ensures Places(q, t) == if t < q.queued then 1 else 0
    {
      assert Places(s, t) == if t < s.queued then 1 else 0;
      InWithout(s.queue, 0, t);
    }
  }

  lemma TakeKeeps(s: Writer)
    requires Inv(s) && CanTake(s)
    ensures Inv(Take(s))
  {
    var q := Take(s);
    assert q.queue == Without(s.queue, 0);
    WithoutIsGood(s.queue, s.accepted, 0);
    WithoutIsAfter(s.queue, LastStarted(s.fates), 0);
    TakePlaces(s);
    assert Known(s.queue[0], s.accepted);
    assert AllAfter(q.queue, s.queue[0].ticket);
    assert InOrder(q);
  }

  function Outcome(w: Write, success: bool): Fate {
    if success then Sent(w) else if w.audio then AudioFailed(w) else FatallyFailed(w)
  }

  lemma FinishPlaces(s: Writer, f: Fate, success: bool)
    requires OncePlaced(s) && s.active.Some? && f == Outcome(s.active.value, success)
    ensures OncePlaced(Finish(s, success))
  {
    var q := Finish(s, success);
    forall t: nat
      ensures Places(q, t) == if t < q.queued then 1 else 0
    {
      assert Places(s, t) == if t < s.queued then 1 else 0;
      InFatesMore(s.fates, f, t);
    }
  }

  lemma FinishKeeps(s: Writer, success: bool)
    requires Inv(s) && s.active.Some?
    ensures Inv(Finish(s, success))
  {
    var f := Outcome(s.active.value, success);
    assert GoodFate(s.fates, f, s.accepted);
    MoreFates(s.fates, f, s.accepted);
    FinishPlaces(s, f, success);
    assert InOrder(Finish(s, success));
    assert Counted(Finish(s, success));
  }

  lemma StopKeeps(s: Writer)
    requires Inv(s)
    ensures Inv(Stop(s))
  {
    if !s.stopped {
      var q := Stop(s);
      DiscardedFates(s.fates, s.queue, s.accepted);
      forall t: nat
        ensures Places(q, t) == if t < q.queued then 1 else 0
      {
        assert Places(s, t) == if t < s.queued then 1 else 0;
        InFatesDiscarded(s.fates, s.queue, t);
      }
    }
  }

  // Runs ---------------------------------------------------------------------------------

  lemma UntouchedIsGood(s: Writer)
    requires Untouched(s)
    ensures Inv(s)
  {
    assert forall t: nat :: Places(s, t) == 0;
  }

  lemma StepKeeps(s: Writer, e: Event)
    requires Inv(s) && GoodEvent(s, e)
    ensures Inv(Step(s, e))
  {
    match e
    case DoEnqueue(report, audio) =>
      if |report| <= s.length && !s.error { AdmitKeeps(s, Padded(report, s.length), audio); }
    case DoTake => TakeKeeps(s);
    case DoFinish(success) => FinishKeeps(s, success);
    case DoStop => StopKeeps(s);
  }

  lemma {:induction false} RunKeeps(s: Writer, events: seq<Event>)
    requires Inv(s) && Run(s, events).Some?
    ensures Inv(Run(s, events).value)
    decreases |events|
  {
    if events != [] {
      StepKeeps(s, events[0]);
      RunKeeps(Step(s, events[0]), events[1..]);
    }
  }

  // The properties -----------------------------------------------------------------------

  predicate Reaches(start: Writer, events: seq<Event>, s: Writer) {
    Untouched(start) && Run(start, events) == Some(s)
  }

  lemma ReachedIsGood(start: Writer, events: seq<Event>, s: Writer)
    requires Reaches(start, events, s)
    ensures Inv(s)
  {
    UntouchedIsGood(start);
    RunKeeps(start, events);
  }

  /** The report with this ticket was handed to the device. */
  predicate WasWritten(s: Writer, t: nat) {
    exists i :: 0 <= i < |s.fates| && s.fates[i].write.ticket == t && s.fates[i].Started()
  }

  predicate HasStarted(s: Writer, t: nat) {
    (s.active.Some? && s.active.value.ticket == t) || WasWritten(s, t)
  }

  /** Nothing accepted disappears, and the queue stays within its limits. */
  lemma ReportsAreConserved(start: Writer, events: seq<Event>, s: Writer)
    requires Reaches(start, events, s)
    ensures s.queued == |s.queue| + (if s.active.Some? then 1 else 0) + s.completed + s.coalesced + s.audioErrors
                     + (if s.error then 1 else 0) + Count(s.fates, DiscardedKind)
      && (!s.stopped ==> Count(s.fates, DiscardedKind) == 0)
      && |s.queue| <= MAX_PENDING && OneAudio(s.queue)
  {
    KindsAddUp(s.fates);
    ReachedIsGood(start, events, s);
  }

  /** Each ticket is queued, being written or has met its fate: exactly one of these, and once. */
  lemma OneFateEach(start: Writer, events: seq<Event>, s: Writer, t: nat)
    requires Reaches(start, events, s)
    ensures In(s.queue, t) + InActive(s.active, t) + InFates(s.fates, t) == if t < s.queued then 1 else 0
  {
    ReachedIsGood(start, events, s);
    assert Places(s, t) == if t < s.queued then 1 else 0;
  }

  lemma {:induction false} EveryFateIsGood(fates: seq<Fate>, accepted: seq<Write>, i: nat)
    requires GoodFates(fates, accepted) && i < |fates|
    ensures GoodFate(fates[..i], fates[i], accepted)
    ensures fates[i].Started() ==> fates[i].write.ticket <= LastStarted(fates)
  {
    var front := fates[..|fates| - 1];
    if i < |front| {
      EveryFateIsGood(front, accepted, i);
      assert front[..i] == fates[..i];
    } else {
      assert fates[..i] == front;
    }
  }

  lemma {:induction false} PrefixIsGood(fates: seq<Fate>, accepted: seq<Write>, n: nat)
    requires GoodFates(fates, accepted) && n <= |fates|
    ensures GoodFates(fates[..n], accepted)
  {
    if n < |fates| {
      PrefixIsGood(fates[..|fates| - 1], accepted, n);
      assert fates[..|fates| - 1][..n] == fates[..n];
    } else {
      assert fates[..n] == fates;
    }
  }

  /** Reports are written in the order they were accepted. */
  lemma WrittenInOrder(start: Writer, events: seq<Event>, s: Writer, i: nat, j: nat)
    requires Reaches(start, events, s)
    requires i < j < |s.fates| && s.fates[i].Started() && s.fates[j].Started()
    ensures s.fates[i].write.ticket < s.fates[j].write.ticket
  {
    ReachedIsGood(start, events, s);
    EveryFateIsGood(s.fates, s.accepted, j);
    PrefixIsGood(s.fates, s.accepted, j);
    EveryFateIsGood(s.fates[..j], s.accepted, i);
  }

  /** Only audio is ever discarded from the queue of a running writer, and only for a later audio report. */
  lemma OnlyAudioGivesWay(start: Writer, events: seq<Event>, s: Writer, i: nat)
    requires Reaches(start, events, s)
    requires i < |s.fates| && s.fates[i].Replaced?
    ensures s.fates[i].write.audio && s.fates[i].write.ticket < s.fates[i].later < |s.accepted|
      && s.accepted[s.fates[i].later].audio
  {
    ReachedIsGood(start, events, s);
    EveryFateIsGood(s.fates, s.accepted, i);
  }

  /** Once a report is being written or was, every earlier report that is not audio was started before it. */
  lemma NothingIsOvertaken(start: Writer, events: seq<Event>, s: Writer, t: nat, u: nat)
    requires Reaches(start, events, s)
    requires !s.stopped && t < u < |s.accepted| && !s.accepted[t].audio
    requires HasStarted(s, u)
    ensures WasWritten(s, t)
  {
    ReachedIsGood(start, events, s);
    StartedBefore(s, t, u);
  }

  function LastBegun(s: Writer): int {
    if s.active.Some? then s.active.value.ticket else LastStarted(s.fates)
  }

  lemma StartedBefore(s: Writer, t: nat, u: nat)
    requires Inv(s) && !s.stopped && t < u < |s.accepted| && !s.accepted[t].audio
    requires HasStarted(s, u)
    ensures WasWritten(s, t)
  {
    if s.active.None? || s.active.value.ticket != u {
      var j :| 0 <= j < |s.fates| && s.fates[j].Started() && s.fates[j].write.ticket == u;
      EveryFateIsGood(s.fates, s.accepted, j);
    }
    assert Places(s, t) == 1;
    NotQueued(s.queue, LastBegun(s), t);
    assert InActive(s.active, t) == 0;
    FoundInFates(s.fates, t);
    var i :| 0 <= i < |s.fates| && s.fates[i].write.ticket == t;
    EveryFateIsGood(s.fates, s.accepted, i);
    if s.fates[i].Discarded? {
      DiscardedIsCounted(s.fates, i);
    }
  }

  lemma {:induction false} DiscardedIsCounted(fates: seq<Fate>, i: nat)
    requires i < |fates| && fates[i].Discarded?
    ensures Count(fates, DiscardedKind) > 0
  {
    if i < |fates| - 1 {
      DiscardedIsCounted(fates[..|fates| - 1], i);
    }
  }
}
