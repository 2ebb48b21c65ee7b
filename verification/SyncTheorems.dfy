/** What the controller receives, over any run and any pattern of blocked sends. */
module SyncTheorems {
  import opened Base
  import opened PcmExtractor
  import opened SyncSpec

  // The log ------------------------------------------------------------------------------

  /** The last full state the controller was given. */
  function LastFull(log: seq<Entry>): Option<DsState> {
    if log == [] then None
    else
      match log[|log| - 1]
      case MicSent(_, _) => LastFull(log[..|log| - 1])
      case MicSwitched(_, _) => LastFull(log[..|log| - 1])
      case e => Some(e.state)
  }

  /** `payload` is the first 47 bytes of `state`. */
  predicate Carries(payload: seq<Byte>, state: DsState) {
    |payload| == Min(|state|, 47) && forall i | 0 <= i < |payload| :: payload[i] == state[i]
  }

  lemma CarriedIs(state: DsState)
    ensures Carries(Carried(state), state)
  {
  }

  /** All five microphone settings lie in the first 47 bytes. */
  lemma MicIsCarried(payload: seq<Byte>, state: DsState)
    requires Carries(payload, state)
    ensures MicOf(payload) == MicOf(state)
  {
  }

  /** When the last audio packet of this connection left. */
  function LastTime(log: seq<Entry>): Option<nat> {
    if log == [] then None
    else
      match log[|log| - 1]
      case Initial(_) => None
      case AudioSent(_, _, _, time) => Some(time)
      case _ => LastTime(log[..|log| - 1])
  }

  function LastIndex(log: seq<Entry>): int {
    if log == [] then -1
    else
      match log[|log| - 1]
      case AudioSent(_, index, _, _) => index
      case _ => LastIndex(log[..|log| - 1])
  }

  predicate Paced(last: Option<nat>, time: nat) {
    last.Some? ==> last.value + AUDIO_INTERVAL <= time
  }

  /** No state is repeated; audio leaves in order, each chunk once, at its pace. */
  predicate GoodEntry(before: seq<Entry>, e: Entry, pushed: seq<Chunk>) {
    match e
    case StateSent(report, state) => Carries(report.payload, state) && LastFull(before) != Some(state)
    case AudioSent(chunk, index, _, time) =>
      && LastIndex(before) < index && 0 <= index < |pushed| && pushed[index] == chunk
      && Paced(LastTime(before), time)
    case _ => true
  }

  predicate GoodLog(log: seq<Entry>, pushed: seq<Chunk>) {
    log == [] ||
    (GoodLog(log[..|log| - 1], pushed) && GoodEntry(log[..|log| - 1], log[|log| - 1], pushed))
  }

  lemma Appended(log: seq<Entry>, e: Entry, pushed: seq<Chunk>)
    requires GoodLog(log, pushed) && GoodEntry(log, e, pushed)
    ensures GoodLog(log + [e], pushed)
    ensures LastFull(log + [e]) == if e.MicSent? || e.MicSwitched? then LastFull(log) else Some(e.state)
    ensures LastTime(log + [e]) ==
            if e.Initial? then None else if e.AudioSent? then Some(e.time) else LastTime(log)
    ensures LastIndex(log + [e]) == if e.AudioSent? then e.index else LastIndex(log)
  {
    var all := log + [e];
    assert all[..|all| - 1] == log && all[|all| - 1] == e;
  }

  lemma {:induction false} MorePushed(log: seq<Entry>, pushed: seq<Chunk>, more: seq<Chunk>)
    requires GoodLog(log, pushed)
    ensures GoodLog(log, pushed + more)
  {
    if log != [] {
      MorePushed(log[..|log| - 1], pushed, more);
      assert GoodEntry(log[..|log| - 1], log[|log| - 1], pushed + more);
    }
  }

  // The invariant ------------------------------------------------------------------------

  /** A deferred state and its report are set together and agree; it is not what was sent last. */
  predicate PendingAgrees(p: Port) {
    && p.pendingState.Some? == p.pendingReport.Some?
    && (p.pendingState.Some? ==>
          && Carries(p.pendingReport.value.payload, p.pendingState.value)
          && (p.connected ==> p.pendingState != p.lastSent))
  }

  /** The queue is what was pushed last, and nothing in it was sent already. */
  predicate QueueInOrder(p: Port) {
    && |p.audio| <= MAX_PENDING_CHUNKS
    && |p.audio| <= |p.pushed| && p.audio == Newest(p.pushed, |p.audio|)
    && LastIndex(p.log) < |p.pushed| - |p.audio|
  }

  predicate Timed(p: Port) {
    p.connected && LastTime(p.log).Some? ==> LastTime(p.log).value + AUDIO_INTERVAL <= p.nextSend
  }

  predicate Inv(p: Port) {
    && PendingAgrees(p) && QueueInOrder(p) && Timed(p) && GoodLog(p.log, p.pushed)
    && p.sequence < 16 && p.micSequence < 16
    && (p.connected ==> p.lastSent.Some? && p.lastSent == LastFull(p.log))
  }

  /** The controller has the current state, or will get it by flushing. */
  predicate Settled(p: Port) {
    if p.pendingState.Some? then p.pendingState == Some(p.state) else p.lastSent == Some(p.state)
  }

  // Steps --------------------------------------------------------------------------------

  lemma FlushStateKeeps(p: Port, accepted: bool)
    requires Inv(p) && p.connected
    ensures Inv(FlushState(p, accepted)) && FlushState(p, accepted).connected == p.connected
    ensures p.pendingState.None? || accepted ==> FlushState(p, accepted).pendingState.None?
  {
    if p.pendingState.Some? && accepted {
      Appended(p.log, StateSent(p.pendingReport.value, p.pendingState.value), p.pushed);
    }
  }

  lemma SendStateKeeps(p: Port, accepted: bool)
    requires Inv(p) && p.connected && p.lastSent != Some(p.state)
    ensures Inv(SendState(p, accepted))
  {
    CarriedIs(p.state);
    if accepted {
      Appended(p.log, StateSent(StateReport(p.sequence, Carried(p.state)), p.state), p.pushed);
    }
  }

  lemma ForwardKeeps(p: Port, resend: bool, send: bool)
    requires Inv(p) && p.connected
    ensures Inv(Forward(p, resend, send))
  {
    FlushStateKeeps(p, resend);
    var q := FlushState(p, resend);
    if q.lastSent != Some(q.state) && q.pendingState != Some(q.state) {
      SendStateKeeps(q, send);
    }
  }

  lemma MicKeeps(p: Port, next: DsState, accepted: bool)
    requires Inv(p)
    ensures Inv(Mic(p, next, accepted))
  {
    if accepted {
      Appended(p.log, MicSent(p.sequence, MicOf(next)), p.pushed);
    }
  }

  lemma MicSwitchKeeps(p: Port, open: bool, accepted: bool)
    requires Inv(p)
    ensures Inv(MicSwitch(p, open, accepted))
  {
    if accepted {
      Appended(p.log, MicSwitched(p.micSequence, open), p.pushed);
    }
  }

  lemma NewestOfMore(pushed: seq<Chunk>, n: nat, more: seq<Chunk>, k: nat)
    requires n <= |pushed| && k <= n + |more|
    ensures Newest(Newest(pushed, n) + more, k) == Newest(pushed + more, k)
  {}

  lemma PushKeeps(p: Port, chunks: seq<Chunk>)
    requires Inv(p)
    ensures Inv(Push(p, chunks))
  {
    MorePushed(p.log, p.pushed, chunks);
    var q := Push(p, chunks);
    NewestOfMore(p.pushed, |p.audio|, chunks, |q.audio|);
  }

  lemma AddToneKeeps(p: Port, chunks: seq<Chunk>)
    requires Inv(p)
    ensures Inv(AddTone(p, chunks))
    ensures AddTone(p, chunks).connected == p.connected && AddTone(p, chunks).pendingState == p.pendingState
  {
    if p.waveout && p.audio == [] {
      var q := AddTone(p, chunks);
      MorePushed(p.log, p.pushed, q.audio);
      assert q.audio == Newest(q.pushed, |q.audio|);
    }
  }

  /** Dropping the oldest chunks leaves the newest. */
  lemma Shorter(p: Port, n: nat)
    requires QueueInOrder(p) && n <= |p.audio|
    ensures p.audio[|p.audio| - n..] == Newest(p.pushed, n)
  {}

  lemma KeptIsNewest(p: Port, index: int)
    requires QueueInOrder(p) && p.audio != [] && index == |p.pushed| - |Kept(p)|
    ensures 0 <= index < |p.pushed| && p.pushed[index] == Kept(p)[0] && LastIndex(p.log) < index
    ensures |Kept(p)[1..]| == |p.pushed| - index - 1 && Kept(p)[1..] == Newest(p.pushed, |Kept(p)[1..]|)
  {
    Shorter(p, |Kept(p)|);
    Shorter(p, |Kept(p)| - 1);
  }

  lemma AudioBlockedKeeps(p: Port, now: nat, after: nat)
    requires Inv(p) && AudioIsDue(p, now) && now <= after
    ensures Inv(AudioBlocked(p, after))
  {
    KeptIsNewest(p, |p.pushed| - |Kept(p)|);
    assert QueueInOrder(AudioBlocked(p, after));
  }

  lemma AudioAcceptedKeeps(p: Port, now: nat, log: seq<Entry>)
    requires Inv(p) && p.connected && AudioIsDue(p, now) && p.pendingState.None?
    requires log == AudioAccepted(p, now).log
    ensures Inv(AudioAccepted(p, now))
  {
    var index := |p.pushed| - |Kept(p)|;
    KeptIsNewest(p, index);
    var e := AudioSent(Kept(p)[0], index, p.state, now);
    assert log == p.log + [e];
    assert GoodEntry(p.log, e, p.pushed);
    Appended(p.log, e, p.pushed);
    assert LastIndex(log) == index && LastTime(log) == Some(now) && LastFull(log) == Some(p.state);
    assert QueueInOrder(AudioAccepted(p, now));
  }

  lemma SendAudioKeeps(p: Port, now: nat, after: nat, accepted: bool)
    requires Inv(p) && p.connected && now <= after && p.pendingState.None?
    ensures Inv(SendAudio(p, now, after, accepted))
  {
    if AudioIsDue(p, now) {
      if accepted {
        AudioAcceptedKeeps(p, now, AudioAccepted(p, now).log);
      } else {
        AudioBlockedKeeps(p, now, after);
      }
    }
  }

  lemma RestKeeps(p: Port, q: Port, tone: seq<Chunk>, now: nat, after: nat, send: bool)
    requires Inv(p) && p.connected && p.pendingState.None? && now <= after
    requires q == SendAudio(AddTone(p, tone), now, after, send)
    ensures Inv(q)
  {
    AddToneKeeps(p, tone);
    SendAudioKeeps(AddTone(p, tone), now, after, send);
  }

  lemma OutputsKeeps(p: Port, q: Port, tone: seq<Chunk>, now: nat, after: nat, resend: bool, send: bool)
    requires Inv(p) && p.connected && now <= after
    requires q == Outputs(p, tone, now, after, resend, send)
    ensures Inv(q)
  {
    FlushStateKeeps(p, resend);
    if p.pendingState.None? || resend {
      RestKeeps(FlushState(p, resend), q, tone, now, after, send);
    }
  }

  lemma ConnectKeeps(p: Port, initial: DsState)
    requires Inv(p)
    ensures Inv(Connect(p, initial))
  {
    Appended(p.log, Initial(initial), p.pushed);
  }

  lemma StepKeeps(p: Port, e: Event)
    requires Inv(p) && GoodEvent(p, e)
    ensures Inv(Step(p, e))
  {
    match e
    case DoConnect(initial) => ConnectKeeps(p, initial);
    case DoDisconnect =>
    case DoRelease => assert QueueInOrder(Step(p, e));
    case DoForward(next, resend, send) =>
      if p.connected { ForwardKeeps(p.(state := next), resend, send); }
    case DoRoute(next, tone, resend, send) =>
      var q := p.(state := next, waveout := tone, audio := if tone then p.audio else []);
      assert QueueInOrder(q);
      if p.connected { ForwardKeeps(q, resend, send); }
    case DoMic(next, send) => MicKeeps(p, next, send);
    case DoMicStream(next, open, send, switch) =>
      MicKeeps(p, next, send);
      MicSwitchKeeps(Mic(p, next, send), open, switch);
    case DoPush(chunks) => PushKeeps(p, chunks);
    case DoStreamOff => assert QueueInOrder(Step(p, e));
    case DoOutputs(tone, now, after, resend, send) =>
      if p.connected { OutputsKeeps(p, Step(p, e), tone, now, after, resend, send); }
  }

  lemma {:induction false} RunKeeps(p: Port, events: seq<Event>)
    requires Inv(p) && Run(p, events).Some?
    ensures Inv(Run(p, events).value)
    decreases |events|
  {
    if events != [] {
      StepKeeps(p, events[0]);
      RunKeeps(Step(p, events[0]), events[1..]);
    }
  }

  /** Every state a port can reach. */
  lemma ReachableIsGood(initial: DsState, events: seq<Event>)
    requires Run(Fresh(initial), events).Some?
    ensures Inv(Run(Fresh(initial), events).value)
  {
    RunKeeps(Fresh(initial), events);
  }

  // What the log shows -------------------------------------------------------------------

  lemma {:induction false} EveryEntryIsGood(log: seq<Entry>, pushed: seq<Chunk>, i: nat)
    requires GoodLog(log, pushed) && i < |log|
    ensures GoodEntry(log[..i], log[i], pushed)
  {
    var front := log[..|log| - 1];
    if i < |front| {
      EveryEntryIsGood(front, pushed, i);
      assert front[..i] == log[..i];
    }
  }

  lemma {:induction false} IndexIsLast(log: seq<Entry>, pushed: seq<Chunk>, i: nat)
    requires GoodLog(log, pushed) && i < |log| && log[i].AudioSent?
    ensures log[i].index <= LastIndex(log)
  {
    var front := log[..|log| - 1];
    if i < |front| {
      IndexIsLast(front, pushed, i);
    }
  }

  lemma {:induction false} TimeIsLast(log: seq<Entry>, pushed: seq<Chunk>, i: nat)
    requires GoodLog(log, pushed) && i < |log| && log[i].AudioSent?
    requires forall k | i < k < |log| :: !log[k].Initial?
    ensures LastTime(log).Some? && log[i].time <= LastTime(log).value
  {
    var front := log[..|log| - 1];
    if i < |front| {
      assert forall k | i < k < |front| :: !front[k].Initial?;
      TimeIsLast(front, pushed, i);
      assert !log[|log| - 1].Initial?;
    }
  }

  /** Chunks reach the controller in the order they were queued, none of them twice. */
  lemma AudioKeepsItsOrder(initial: DsState, events: seq<Event>, i: nat, j: nat)
    requires Run(Fresh(initial), events).Some?
    requires var log := Run(Fresh(initial), events).value.log;
      i < j < |log| && log[i].AudioSent? && log[j].AudioSent?
    ensures var p := Run(Fresh(initial), events).value;
      && 0 <= p.log[i].index < p.log[j].index < |p.pushed|
      && p.log[i].chunk == p.pushed[p.log[i].index] && p.log[j].chunk == p.pushed[p.log[j].index]
  {
    ReachableIsGood(initial, events);
    var p := Run(Fresh(initial), events).value;
    EveryEntryIsGood(p.log, p.pushed, i);
    EveryEntryIsGood(p.log, p.pushed, j);
    PrefixIsGood(p.log, p.pushed, j);
    IndexIsLast(p.log[..j], p.pushed, i);
  }

  lemma {:induction false} PrefixIsGood(log: seq<Entry>, pushed: seq<Chunk>, n: nat)
    requires GoodLog(log, pushed) && n <= |log|
    ensures GoodLog(log[..n], pushed)
  {
    if n < |log| {
      PrefixIsGood(log[..|log| - 1], pushed, n);
      assert log[..|log| - 1][..n] == log[..n];
    } else {
      assert log[..n] == log;
    }
  }

  /** Within a connection, audio packets leave at least ten milliseconds apart. */
  lemma AudioIsPaced(initial: DsState, events: seq<Event>, i: nat, j: nat)
    requires Run(Fresh(initial), events).Some?
    requires var log := Run(Fresh(initial), events).value.log;
      && i < j < |log| && log[i].AudioSent? && log[j].AudioSent?
      && forall k | i < k < j :: !log[k].Initial?
    ensures var log := Run(Fresh(initial), events).value.log;
      log[i].time + AUDIO_INTERVAL <= log[j].time
  {
    ReachableIsGood(initial, events);
    var p := Run(Fresh(initial), events).value;
    EveryEntryIsGood(p.log, p.pushed, j);
    PrefixIsGood(p.log, p.pushed, j);
    TimeIsLast(p.log[..j], p.pushed, i);
  }

  /** No state report repeats the state the controller was given last. */
  lemma NoStateIsRepeated(initial: DsState, events: seq<Event>, j: nat)
    requires Run(Fresh(initial), events).Some?
    requires var log := Run(Fresh(initial), events).value.log; j < |log| && log[j].StateSent?
    ensures var log := Run(Fresh(initial), events).value.log;
      && |log[j].report.payload| == Min(|log[j].state|, 47)
      && (forall i | 0 <= i < |log[j].report.payload| :: log[j].report.payload[i] == log[j].state[i])
      && LastFull(log[..j]) != Some(log[j].state)
  {
    ReachableIsGood(initial, events);
    var p := Run(Fresh(initial), events).value;
    EveryEntryIsGood(p.log, p.pushed, j);
  }

  /** A deferred report carries the first 47 bytes of the state it was built for. */
  lemma DeferredCarriesState(initial: DsState, events: seq<Event>)
    requires Run(Fresh(initial), events).Some?
    ensures var p := Run(Fresh(initial), events).value;
      && p.pendingState.Some? == p.pendingReport.Some?
      && (p.pendingState.Some? ==>
            && |p.pendingReport.value.payload| == Min(|p.pendingState.value|, 47)
            && forall i | 0 <= i < |p.pendingReport.value.payload| ::
                 p.pendingReport.value.payload[i] == p.pendingState.value[i])
  {
    ReachableIsGood(initial, events);
  }

  /** The report deferred, and the one sent last, carry their states. */
  predicate ReportsCarry(p: Port) {
    && (p.pendingReport.Some? ==>
          p.pendingState.Some? && Carries(p.pendingReport.value.payload, p.pendingState.value))
    && (p.log != [] && p.log[|p.log| - 1].StateSent? ==>
          Carries(p.log[|p.log| - 1].report.payload, p.log[|p.log| - 1].state))
  }

  lemma GoodReportsCarry(p: Port)
    requires Inv(p)
    ensures ReportsCarry(p)
  {
    if p.log != [] { EveryEntryIsGood(p.log, p.pushed, |p.log| - 1); }
  }

  /** The bytes of state in an entry: a state report has its payload, the others the whole state. */
  function BytesIn(e: Entry): seq<Byte>
    requires !e.MicSent? && !e.MicSwitched?
  {
    if e.StateSent? then e.report.payload else e.state
  }

  /** The state bytes the controller was given last. */
  function LastBytes(log: seq<Entry>): Option<seq<Byte>> {
    if log == [] then None
    else
      var last := log[|log| - 1];
      if last.MicSent? || last.MicSwitched? then LastBytes(log[..|log| - 1]) else Some(BytesIn(last))
  }

  /** The bytes a state report can carry are those of `state`. */
  predicate Shows(bytes: Option<seq<Byte>>, state: DsState) {
    bytes.Some? && forall i: nat | i < 47 :: At(bytes.value, i) == At(state, i)
  }

  /** What was really sent last shows the state the port takes for sent. */
  lemma {:induction false} LastFullIsShown(log: seq<Entry>, pushed: seq<Chunk>)
    requires GoodLog(log, pushed)
    ensures LastFull(log).Some? ==> Shows(LastBytes(log), LastFull(log).value)
  {
    if log != [] {
      LastFullIsShown(log[..|log| - 1], pushed);
    }
  }

  // Nothing is lost ----------------------------------------------------------------------

  /** After forwarding, either the state was sent and nothing waits, or the state waits. */
  lemma ForwardSettles(p: Port, resend: bool, send: bool)
    requires Inv(p) && p.connected
    ensures var q := Forward(p, resend, send);
      && q.state == p.state && Settled(q)
      && (resend && send ==> q.lastSent == Some(p.state) && q.pendingState.None?)
      && (q.lastSent == Some(p.state) <==> q.pendingState.None?)
  {
    ForwardKeeps(p, resend, send);
  }

  /** What a settled port is about to have told the controller. */
  function Target(p: Port): Option<DsState> {
    if p.pendingState.Some? then p.pendingState else p.lastSent
  }

  /** An audio packet leaves only with nothing deferred, and carries the current state. */
  lemma AudioWaitsForState(p: Port, tone: seq<Chunk>, now: nat, after: nat, resend: bool, send: bool)
    requires Inv(p) && p.connected && now <= after
    ensures var q := Outputs(p, tone, now, after, resend, send);
      && (forall i | |p.log| <= i < |q.log| && q.log[i].AudioSent? ::
            && i == |q.log| - 1 && q.log[i].state == p.state
            && (p.pendingState.Some? ==>
                  i == |p.log| + 1 && q.log[|p.log|] == StateSent(p.pendingReport.value, p.pendingState.value))
            && q.pendingState.None? && q.lastSent == Some(q.state)
            && |q.pushed| - FRESH_PENDING_CHUNKS <= q.log[i].index)
      && (p.pendingState.Some? && !resend ==> q == p)
  {
    var q := Outputs(p, tone, now, after, resend, send);
    if p.pendingState.Some? && !resend {
      assert q == p;
    } else {
      var flushed := FlushState(p, resend);
      var before := AddTone(flushed, tone);
      assert before.log == flushed.log && before.pendingState.None?;
      assert q.log == before.log || (|q.log| == |before.log| + 1 && q.log[..|before.log|] == before.log);
    }
  }

  /** Whether the step reports the microphone, and the state it leaves. */
  function MicChange(e: Event): Option<DsState> {
    match e
    case DoMic(next, _) => Some(next)
    case DoMicStream(next, _, _, _) => Some(next)
    case _ => None
  }

  /** A settled port stays settled unless a microphone report changes the state: exactly then it does not. */
  lemma SettledExactly(p: Port, e: Event)
    requires Inv(p) && GoodEvent(p, e) && p.connected && Step(p, e).connected && Settled(p)
    ensures Settled(Step(p, e)) <==> (MicChange(e).Some? ==> MicChange(e).value == p.state)
  {
    match e
    case DoForward(next, resend, send) =>
      ForwardSettles(p.(state := next), resend, send);
    case DoRoute(next, tone, resend, send) =>
      var q := p.(state := next, waveout := tone, audio := if tone then p.audio else []);
      assert QueueInOrder(q);
      ForwardSettles(q, resend, send);
    case _ =>
  }

  predicate KeepsConnection(events: seq<Event>) {
    forall i | 0 <= i < |events| :: !events[i].DoConnect? && !events[i].DoDisconnect? && !events[i].DoRelease?
  }

  /** Settled now and after each of the events. */
  predicate AlwaysSettled(p: Port, events: seq<Event>)
    decreases |events|
  {
    Settled(p) && (events == [] || AlwaysSettled(Step(p, events[0]), events[1..]))
  }

  /** No microphone report along the run changes the state it finds. */
  predicate NoMicChange(p: Port, events: seq<Event>)
    decreases |events|
  {
    events == [] ||
    (&& (MicChange(events[0]).Some? ==> MicChange(events[0]).value == p.state)
     && NoMicChange(Step(p, events[0]), events[1..]))
  }

  /** Through a connection, however sends block, the port is settled all along if and only if no microphone report changes the state. */
  lemma {:induction false} AlwaysSettledExactly(p: Port, events: seq<Event>)
    requires Inv(p) && p.connected && Settled(p) && KeepsConnection(events) && Run(p, events).Some?
    ensures AlwaysSettled(p, events) <==> NoMicChange(p, events)
    decreases |events|
  {
    if events != [] {
      var e, q := events[0], Step(p, events[0]);
      StepKeeps(p, e);
      StaysConnected(p, e);
      SettledExactly(p, e);
      assert forall i | 0 <= i < |events[1..]| :: events[1..][i] == events[i + 1];
      if Settled(q) {
        AlwaysSettledExactly(q, events[1..]);
      }
    }
  }

  lemma StaysConnected(p: Port, e: Event)
    requires p.connected && !e.DoConnect? && !e.DoDisconnect? && !e.DoRelease?
    ensures Step(p, e).connected
  {}

  /** A port that is behind catches up by forwarding, by an accepted audio packet, or by going back to what was sent. */
  lemma CaughtUpExactly(p: Port, e: Event)
    requires Inv(p) && GoodEvent(p, e) && p.connected && Step(p, e).connected && !Settled(p)
    ensures Settled(Step(p, e)) <==>
      match e
      case DoForward(_, _, _) => true
      case DoRoute(_, _, _, _) => true
      case DoMic(next, _) => Target(p) == Some(next)
      case DoMicStream(next, _, _, _) => Target(p) == Some(next)
      case DoOutputs(tone, now, _, resend, send) =>
        (p.pendingState.None? || resend) && send && AudioIsDue(AddTone(p, tone), now)
      case _ => false
  {
    match e
    case DoForward(next, resend, send) =>
      ForwardSettles(p.(state := next), resend, send);
    case DoRoute(next, tone, resend, send) =>
      var q := p.(state := next, waveout := tone, audio := if tone then p.audio else []);
      assert QueueInOrder(q);
      ForwardSettles(q, resend, send);
    case _ =>
  }

  /** A settled port needs one unblocked round to bring the controller up to date. */
  lemma OneRoundSuffices(p: Port, tone: seq<Chunk>, now: nat, after: nat, send: bool)
    requires Inv(p) && p.connected && now <= after && Settled(p)
    ensures var q := Outputs(p, tone, now, after, true, send);
      q.state == p.state && LastFull(q.log) == Some(p.state) && q.pendingState.None? && Shows(LastBytes(q.log), p.state)
  {
    var q := Outputs(p, tone, now, after, true, send);
    OutputsKeeps(p, q, tone, now, after, true, send);
    LastFullIsShown(q.log, q.pushed);
  }

  // The microphone's settings --------------------------------------------------------------

  /** The reports that carry the microphone's settings: all but the one that opens or closes it. */
  function ReportsOf(log: seq<Entry>): seq<Entry> {
    if log == [] then []
    else
      var last := log[|log| - 1];
      ReportsOf(log[..|log| - 1]) + (if last.MicSwitched? then [] else [last])
  }

  function MicIn(e: Entry): MicFields
    requires !e.MicSwitched?
  {
    if e.MicSent? then e.mic else MicOf(BytesIn(e))
  }

  lemma {:induction false} ReportsCarryMic(log: seq<Entry>)
    ensures forall e | e in ReportsOf(log) :: !e.MicSwitched?
  {
    if log != [] {
      ReportsCarryMic(log[..|log| - 1]);
    }
  }

  predicate Reported(log: seq<Entry>) { ReportsOf(log) != [] }

  function LastReport(log: seq<Entry>): (e: Entry)
    requires Reported(log)
    ensures !e.MicSwitched?
  {
    ReportsCarryMic(log);
    ReportsOf(log)[|ReportsOf(log)| - 1]
  }

  /** The microphone settings the controller was told last. */
  function Told(log: seq<Entry>): Option<MicFields> {
    if Reported(log) then Some(MicIn(LastReport(log))) else None
  }

  lemma OneMore(log: seq<Entry>, e: Entry)
    ensures ReportsOf(log + [e]) == if e.MicSwitched? then ReportsOf(log) else ReportsOf(log) + [e]
  {
    assert (log + [e])[..|log|] == log;
  }

  /** The report that was deferred in `p`, and the one logged. */
  predicate WasDeferred(p: Port, e: Entry) {
    && p.pendingState.Some? && p.pendingReport.Some?
    && e == StateSent(p.pendingReport.value, p.pendingState.value)
  }

  /** What is known of a log since `p`: nothing was reported, or the newest report carries `mic` or was deferred. */
  predicate LogTracks(p: Port, log: seq<Entry>, mic: MicFields) {
    && |ReportsOf(p.log)| <= |ReportsOf(log)|
    && if |ReportsOf(log)| == |ReportsOf(p.log)| then ReportsOf(log) == ReportsOf(p.log)
       else MicIn(LastReport(log)) == mic || WasDeferred(p, LastReport(log))
  }

  predicate PendingTracks(p: Port, q: Port, mic: MicFields) {
    q.pendingState.Some? ==>
      || (q.pendingReport.Some? && MicOf(q.pendingState.value) == mic && MicOf(q.pendingReport.value.payload) == mic)
      || (q.pendingState == p.pendingState && q.pendingReport == p.pendingReport)
  }

  predicate Tracks(p: Port, q: Port, mic: MicFields) {
    && q.connected && MicOf(q.state) == mic && PendingTracks(p, q, mic) && LogTracks(p, q.log, mic)
  }

  lemma LogMore(p: Port, log: seq<Entry>, e: Entry, mic: MicFields)
    requires LogTracks(p, log, mic)
    requires e.MicSwitched? || MicIn(e) == mic || WasDeferred(p, e)
    ensures LogTracks(p, log + [e], mic)
  {
    OneMore(log, e);
  }

  lemma FlushTracks(p: Port, q: Port, accepted: bool, mic: MicFields)
    requires Tracks(p, q, mic)
    ensures Tracks(p, FlushState(q, accepted), mic)
  {
    if q.pendingState.Some? && q.pendingReport.Some? && accepted {
      LogMore(p, q.log, StateSent(q.pendingReport.value, q.pendingState.value), mic);
    }
  }

  lemma SendTracks(p: Port, q: Port, accepted: bool, mic: MicFields)
    requires Tracks(p, q, mic)
    ensures Tracks(p, SendState(q, accepted), mic)
  {
    CarriedIs(q.state);
    MicIsCarried(Carried(q.state), q.state);
    if accepted {
      LogMore(p, q.log, StateSent(StateReport(q.sequence, Carried(q.state)), q.state), mic);
    }
  }

  lemma ForwardTracks(p: Port, q: Port, resend: bool, send: bool, mic: MicFields)
    requires Tracks(p, q, mic)
    ensures Tracks(p, Forward(q, resend, send), mic)
  {
    FlushTracks(p, q, resend, mic);
    SendTracks(p, FlushState(q, resend), send, mic);
  }

  lemma MicTracks(p: Port, q: Port, next: DsState, accepted: bool, mic: MicFields)
    requires Tracks(p, q, mic) && MicOf(next) == mic
    ensures Tracks(p, Mic(q, next, accepted), mic)
  {
    if accepted {
      LogMore(p, q.log, MicSent(q.sequence, mic), mic);
    }
  }

  lemma SwitchTracks(p: Port, q: Port, open: bool, accepted: bool, mic: MicFields)
    requires Tracks(p, q, mic)
    ensures Tracks(p, MicSwitch(q, open, accepted), mic)
  {
    if accepted {
      LogMore(p, q.log, MicSwitched(q.micSequence, open), mic);
    }
  }

  lemma AudioTracks(p: Port, q: Port, now: nat, after: nat, accepted: bool, mic: MicFields)
    requires Tracks(p, q, mic)
    ensures Tracks(p, SendAudio(q, now, after, accepted), mic)
  {
    if AudioIsDue(q, now) && accepted {
      LogMore(p, q.log, AudioSent(Kept(q)[0], |q.pushed| - |Kept(q)|, q.state, now), mic);
    }
  }

  lemma OutputsTrack(p: Port, q: Port, e: Event, mic: MicFields)
    requires Tracks(p, q, mic) && e.DoOutputs?
    ensures Tracks(p, Step(q, e), mic)
  {
    FlushTracks(p, q, e.resend, mic);
    var flushed := FlushState(q, e.resend);
    assert Tracks(p, AddTone(flushed, e.chunks), mic);
    AudioTracks(p, AddTone(flushed, e.chunks), e.now, e.after, e.send, mic);
  }

  /** The connection lasts and the microphone's settings stay `mic`. */
  predicate KeepsMic(e: Event, mic: MicFields) {
    match e
    case DoConnect(_) => false
    case DoDisconnect => false
    case DoRelease => false
    case DoForward(next, _, _) => MicOf(next) == mic
    case DoRoute(next, _, _, _) => MicOf(next) == mic
    case DoMic(next, _) => MicOf(next) == mic
    case DoMicStream(next, _, _, _) => MicOf(next) == mic
    case _ => true
  }

  predicate AllKeepMic(events: seq<Event>, mic: MicFields) {
    forall i | 0 <= i < |events| :: KeepsMic(events[i], mic)
  }

  lemma StepTracks(p: Port, q: Port, e: Event, mic: MicFields)
    requires Tracks(p, q, mic) && KeepsMic(e, mic)
    ensures Tracks(p, Step(q, e), mic)
  {
    match e
    case DoForward(next, resend, send) => ForwardTracks(p, q.(state := next), resend, send, mic);
    case DoRoute(next, tone, resend, send) =>
      ForwardTracks(
        p, q.(state := next, waveout := tone, audio := if tone then q.audio else []), resend, send, mic);
    case DoMic(next, send) => MicTracks(p, q, next, send, mic);
    case DoMicStream(next, open, send, switch) =>
      MicTracks(p, q, next, send, mic);
      SwitchTracks(p, Mic(q, next, send), open, switch, mic);
    case DoOutputs(_, _, _, _, _) => OutputsTrack(p, q, e, mic);
    case _ =>
  }

  // One step --------------------------------------------------------------------------------

  /** A deferred report goes out again in this step. */
  predicate Resends(p: Port, e: Event) {
    && p.pendingState.Some? && p.pendingReport.Some?
    && match e
       case DoForward(_, resend, _) => resend
       case DoRoute(_, _, resend, _) => resend
       case DoOutputs(_, _, _, resend, _) => resend
       case _ => false
  }

  /** Forwarding `next` builds a new report, after the deferred one went out or did not. */
  predicate BuildsReport(p: Port, next: DsState, resent: bool) {
    if resent then p.pendingState != Some(next) else p.lastSent != Some(next) && p.pendingState != Some(next)
  }

  /** The step's own new report is accepted. */
  predicate Reports(p: Port, e: Event) {
    match e
    case DoForward(next, _, send) => send && BuildsReport(p, next, Resends(p, e))
    case DoRoute(next, _, _, send) => send && BuildsReport(p, next, Resends(p, e))
    case DoMic(_, send) => send
    case DoMicStream(_, _, send, _) => send
    case DoOutputs(tone, now, _, _, send) =>
      send && (p.pendingState.None? || Resends(p, e)) && AudioIsDue(AddTone(p, tone), now)
    case _ => false
  }

  lemma ToldMore(log: seq<Entry>, e: Entry)
    ensures Told(log + [e]) == if e.MicSwitched? then Told(log) else Some(MicIn(e))
  {
    OneMore(log, e);
  }

  lemma FlushTells(p: Port, accepted: bool)
    requires PendingAgrees(p)
    ensures Told(FlushState(p, accepted).log) ==
            if p.pendingState.Some? && p.pendingReport.Some? && accepted then Some(MicOf(p.pendingState.value))
            else Told(p.log)
  {
    if p.pendingState.Some? && p.pendingReport.Some? && accepted {
      MicIsCarried(p.pendingReport.value.payload, p.pendingState.value);
      ToldMore(p.log, StateSent(p.pendingReport.value, p.pendingState.value));
    }
  }

  lemma ForwardTells(p: Port, resend: bool, send: bool)
    requires PendingAgrees(p)
    ensures var resent := p.pendingState.Some? && resend;
      Told(Forward(p, resend, send).log) ==
        if send && BuildsReport(p, p.state, resent) then Some(MicOf(p.state))
        else if resent then Some(MicOf(p.pendingState.value)) else Told(p.log)
  {
    var q := FlushState(p, resend);
    FlushTells(p, resend);
    CarriedIs(q.state);
    MicIsCarried(Carried(q.state), q.state);
    ToldMore(q.log, StateSent(StateReport(q.sequence, Carried(q.state)), q.state));
  }

  lemma AudioTells(p: Port, now: nat, after: nat, accepted: bool)
    ensures Told(SendAudio(p, now, after, accepted).log) ==
            if accepted && AudioIsDue(p, now) then Some(MicOf(p.state)) else Told(p.log)
  {
    if AudioIsDue(p, now) {
      ToldMore(p.log, AudioSent(Kept(p)[0], |p.pushed| - |Kept(p)|, p.state, now));
    }
  }

  /** Flushing leaves the audio and the state alone. */
  lemma FlushedTone(p: Port, accepted: bool, tone: seq<Chunk>, now: nat)
    ensures var q := AddTone(FlushState(p, accepted), tone);
      && q.log == FlushState(p, accepted).log && q.state == p.state
      && AudioIsDue(q, now) == AudioIsDue(AddTone(p, tone), now)
  {}

  lemma OutputsTell(p: Port, e: Event)
    requires e.DoOutputs? && p.connected && PendingAgrees(p)
    ensures Told(Step(p, e).log) ==
      if Reports(p, e) then Some(MicOf(p.state))
      else if Resends(p, e) then Some(MicOf(p.pendingState.value)) else Told(p.log)
  {
    FlushTells(p, e.resend);
    FlushedTone(p, e.resend, e.chunks, e.now);
    AudioTells(AddTone(FlushState(p, e.resend), e.chunks), e.now, e.after, e.send);
  }

  /**
   Whether the controller has the microphone's settings after a step that keeps them: exactly when the step's
   own report is accepted, or else when the deferred report it sends again carries them, or else when it had them.
   */
  lemma StepTellsExactly(p: Port, e: Event)
    requires Inv(p) && p.connected && GoodEvent(p, e) && KeepsMic(e, MicOf(p.state))
    ensures Told(Step(p, e).log) == Some(MicOf(p.state)) <==>
      || Reports(p, e)
      || (if Resends(p, e) then MicOf(p.pendingState.value) == MicOf(p.state) else Told(p.log) == Some(MicOf(p.state)))
  {
    match e
    case DoForward(next, resend, send) => ForwardTells(p.(state := next), resend, send);
    case DoRoute(next, tone, resend, send) =>
      ForwardTells(p.(state := next, waveout := tone, audio := if tone then p.audio else []), resend, send);
    case DoMic(next, send) => ToldMore(p.log, MicSent(p.sequence, MicOf(next)));
    case DoMicStream(next, open, send, switch) =>
      var q := Mic(p, next, send);
      ToldMore(p.log, MicSent(p.sequence, MicOf(next)));
      ToldMore(q.log, MicSwitched(q.micSequence, open));
    case DoOutputs(_, _, _, _, _) => OutputsTell(p, e);
    case _ =>
  }

  lemma {:induction false} RunTracks(p: Port, q: Port, events: seq<Event>, mic: MicFields)
    requires Tracks(p, q, mic) && AllKeepMic(events, mic) && Run(q, events).Some?
    ensures Tracks(p, Run(q, events).value, mic)
    decreases |events|
  {
    if events != [] {
      assert KeepsMic(events[0], mic);
      StepTracks(p, q, events[0], mic);
      assert forall i | 0 <= i < |events[1..]| :: events[1..][i] == events[i + 1];
      RunTracks(p, Step(q, events[0]), events[1..], mic);
    }
  }

  /** A microphone report starts to track its settings. */
  lemma MicStarts(p: Port, next: DsState, accepted: bool)
    requires p.connected
    ensures Tracks(p, Mic(p, next, accepted), MicOf(next))
    ensures Tracks(Mic(p, next, accepted), Mic(p, next, accepted), MicOf(next))
    ensures |ReportsOf(Mic(p, next, accepted).log)| == |ReportsOf(p.log)| + if accepted then 1 else 0
  {
    if accepted {
      OneMore(p.log, MicSent(p.sequence, MicOf(next)));
    }
  }

  /**
   Whether the controller has the microphone settings of a report, however the run goes on while they
   are kept: if something was reported since, unless the newest report is the one that was already
   deferred and carries others; if nothing was, when it had them before.
   */
  lemma MicReachesExactly(p: Port, next: DsState, accepted: bool, later: seq<Event>, q: Port)
    requires Inv(p) && p.connected && AllKeepMic(later, MicOf(next))
    requires Run(Mic(p, next, accepted), later) == Some(q)
    ensures MicOf(q.state) == MicOf(next) && |ReportsOf(p.log)| <= |ReportsOf(q.log)|
    ensures Told(q.log) == Some(MicOf(next)) <==>
      if |ReportsOf(q.log)| == |ReportsOf(p.log)| then Told(p.log) == Some(MicOf(next))
      else !(WasDeferred(p, LastReport(q.log)) && MicOf(p.pendingState.value) != MicOf(next))
  {
    MicStarts(p, next, accepted);
    RunTracks(p, Mic(p, next, accepted), later, MicOf(next));
  }

  /** With nothing deferred: when the report was accepted, or any later one was, or the controller knew. */
  lemma MicReachesWhenAccepted(p: Port, next: DsState, accepted: bool, later: seq<Event>, q: Port)
    requires Inv(p) && p.connected && p.pendingState.None? && AllKeepMic(later, MicOf(next))
    requires Run(Mic(p, next, accepted), later) == Some(q)
    ensures Told(q.log) == Some(MicOf(next)) <==>
      || Told(p.log) == Some(MicOf(next)) || accepted
      || |ReportsOf(Mic(p, next, accepted).log)| < |ReportsOf(q.log)|
  {
    var sent := Mic(p, next, accepted);
    MicReachesExactly(p, next, accepted, later, q);
    MicStarts(p, next, accepted);
    RunTracks(sent, sent, later, MicOf(next));
  }

  /** When nothing else is to be sent, no number of rounds makes up for a blocked report: it is told if and only if accepted. */
  lemma {:induction false} BlockedMicReportIsNotRetried(p: Port, next: DsState, accepted: bool, rounds: seq<Event>)
    requires Inv(p) && p.connected && p.pendingState.None? && p.audio == [] && !p.waveout
    requires Told(p.log) != Some(MicOf(next))
    requires forall i | 0 <= i < |rounds| :: rounds[i].DoOutputs? && GoodEvent(p, rounds[i])
    ensures var q := Run(Mic(p, next, accepted), rounds);
      q.Some? && q.value.state == next && (Told(q.value.log) == Some(MicOf(next)) <==> accepted)
  {
    var sent := Mic(p, next, accepted);
    RoundsDoNothing(sent, rounds);
    RoundsKeepMic(rounds, MicOf(next));
    MicReachesWhenAccepted(p, next, accepted, rounds, sent);
  }

  lemma RoundsKeepMic(rounds: seq<Event>, mic: MicFields)
    requires forall i | 0 <= i < |rounds| :: rounds[i].DoOutputs?
    ensures AllKeepMic(rounds, mic)
  {
    forall i | 0 <= i < |rounds|
      ensures KeepsMic(rounds[i], mic)
    {
      assert rounds[i].DoOutputs?;
    }
  }

  /** A report deferred before, and sent after, undoes an accepted microphone report, and nothing is left to send. */
  lemma DeferredReportUndoesMic(a: DsState, b: DsState, c: DsState)
    requires a != b && MicOf(b) != MicOf(c)
    ensures var blocked := [DoConnect(a), DoForward(b, false, false)];
      var r := Run(Fresh(a), blocked + [DoMic(c, true), DoOutputs([], 0, 0, true, true)]);
      && r.Some? && Told(r.value.log) == Some(MicOf(b)) != Some(MicOf(r.value.state))
      && r.value.pendingState.None? && r.value.audio == [] && !r.value.waveout
  {
    var p1 := Step(Fresh(a), DoConnect(a));
    var p2 := Step(p1, DoForward(b, false, false));
    var p3 := Step(p2, DoMic(c, true));
    var p4 := Step(p3, DoOutputs([], 0, 0, true, true));
    var report := StateReport(0, Carried(b));
    CarriedIs(b);
    MicIsCarried(Carried(b), b);
    assert p2.pendingState == Some(b) && p2.pendingReport == Some(report);
    assert p4.log == p3.log + [StateSent(report, b)];
    OneMore(p3.log, StateSent(report, b));
    RunOfFour(Fresh(a), DoConnect(a), DoForward(b, false, false), DoMic(c, true), DoOutputs([], 0, 0, true, true));
  }

  lemma RunOfFour(p: Port, e1: Event, e2: Event, e3: Event, e4: Event)
    requires GoodEvent(p, e1) && GoodEvent(Step(p, e1), e2) && GoodEvent(Step(Step(p, e1), e2), e3)
    requires GoodEvent(Step(Step(Step(p, e1), e2), e3), e4)
    ensures Run(p, [e1, e2] + [e3, e4]) == Some(Step(Step(Step(Step(p, e1), e2), e3), e4))
  {
    var all := [e1, e2] + [e3, e4];
    assert all[1..] == [e2, e3, e4] && [e2, e3, e4][1..] == [e3, e4] && [e3, e4][1..] == [e4] && [e4][1..] == [];
    assert Run(Step(Step(Step(p, e1), e2), e3), [e4]) == Some(Step(Step(Step(Step(p, e1), e2), e3), e4));
    assert Run(Step(Step(p, e1), e2), [e3, e4]) == Run(Step(Step(Step(p, e1), e2), e3), [e4]);
  }

  lemma {:induction false} RoundsDoNothing(q: Port, rounds: seq<Event>)
    requires q.connected && q.pendingState.None? && q.audio == [] && !q.waveout
    requires forall i | 0 <= i < |rounds| :: rounds[i].DoOutputs? && GoodEvent(q, rounds[i])
    ensures Run(q, rounds) == Some(q)
    decreases |rounds|
  {
    if rounds != [] {
      var e := rounds[0];
      assert e.DoOutputs? && GoodEvent(q, e);
      assert Step(q, e) == q;
      forall i | 0 <= i < |rounds[1..]|
        ensures rounds[1..][i].DoOutputs? && GoodEvent(q, rounds[1..][i])
      {
        assert rounds[1..][i] == rounds[i + 1];
      }
      RoundsDoNothing(q, rounds[1..]);
    }
  }

  // Report numbers -------------------------------------------------------------------------

  function Renumbered(sequence: nat, n: nat): nat {
    if n == 0 then sequence else Bumped(Renumbered(sequence, n - 1))
  }

  lemma {:induction false} RenumberedIs(sequence: nat, n: nat)
    requires sequence < 16
    ensures Renumbered(sequence, n) == (sequence + n) % 16
  {
    if n > 0 {
      RenumberedIs(sequence, n - 1);
      OneMoreModulo(sequence + n - 1, Renumbered(sequence, n - 1));
    }
  }

  lemma OneMoreModulo(total: nat, rest: nat)
    requires rest == total % 16
    ensures Bumped(rest) == (total + 1) % 16
  {}

  /** Reports built one after the other carry the same number exactly when a multiple of sixteen apart. */
  lemma NumbersRepeatAtSixteen(sequence: nat, m: nat, n: nat)
    requires sequence < 16 && m <= n
    ensures Renumbered(sequence, m) == Renumbered(sequence, n) <==> (n - m) % 16 == 0
  {
    RenumberedIs(sequence, m);
    RenumberedIs(sequence, n);
    SameRemainder(sequence + m, n - m);
  }

  lemma SameRemainder(a: nat, b: nat)
    ensures a % 16 == (a + b) % 16 <==> b % 16 == 0
  {
    var p, q := a / 16, b / 16;
    assert a == 16 * p + a % 16 && b == 16 * q + b % 16;
  }
}
