/** What one step of a virtual port leaves: its report numbers, its audio queue and its connection. */
module SyncOutcome {
  import opened Base
  import opened PcmExtractor
  import opened SyncSpec
  import opened SyncTheorems

  // The microphone's settings --------------------------------------------------------------

  /** Where the settings are in the state. */
  lemma MicSettingsAre(state: DsState)
    requires |state| >= 47
    ensures MicOf(state) == MicFields(state[6], state[7], state[8], state[9], state[37])
  {
  }

  // Report numbers -------------------------------------------------------------------------

  /** The entry is the deferred report, or carries the next number of its kind. */
  predicate NumberedNext(p: Port, e: Entry) {
    match e
    case StateSent(report, _) => Some(report) == p.pendingReport || report.sequence == p.sequence
    case MicSent(sequence, mic) => sequence == p.sequence
    case MicSwitched(sequence, _) => sequence == p.micSequence
    case _ => true
  }

  /** The step builds a report, whether it is accepted or not. */
  predicate Builds(p: Port, e: Event) {
    match e
    case DoForward(next, _, _) => p.connected && BuildsReport(p, next, Resends(p, e))
    case DoRoute(next, _, _, _) => p.connected && BuildsReport(p, next, Resends(p, e))
    case DoMic(_, _) => p.connected
    case DoMicStream(_, _, _, _) => p.connected
    case _ => false
  }

  predicate NumbersMove(p: Port, q: Port, e: Event) {
    && q.sequence == (if Builds(p, e) then (p.sequence + 1) % 16 else p.sequence)
    && q.micSequence == (if e.DoMicStream? && p.connected then (p.micSequence + 1) % 16 else p.micSequence)
    && (q.pendingReport.Some? ==> q.pendingReport == p.pendingReport || q.pendingReport.value.sequence == p.sequence)
  }

  /** Everything logged since `p` was numbered in `p`. */
  predicate LogNumbered(p: Port, log: seq<Entry>) {
    p.log <= log && forall i | |p.log| <= i < |log| :: NumberedNext(p, log[i])
  }

  lemma ForwardNumbers(p: Port, resend: bool, send: bool)
    requires PendingAgrees(p)
    ensures var q, resent := Forward(p, resend, send), p.pendingState.Some? && resend;
      && q.sequence == (if BuildsReport(p, p.state, resent) then (p.sequence + 1) % 16 else p.sequence)
      && q.micSequence == p.micSequence && LogNumbered(p, q.log)
      && (q.pendingReport.Some? ==> q.pendingReport == p.pendingReport || q.pendingReport.value.sequence == p.sequence)
  {
  }

  lemma MicNumbers(p: Port, e: Event)
    requires p.connected && (e.DoMic? || e.DoMicStream?)
    ensures NumbersMove(p, Step(p, e), e) && LogNumbered(p, Step(p, e).log)
  {
  }

  lemma SendNumbers(p: Port, now: nat, after: nat, accepted: bool)
    ensures var q := SendAudio(p, now, after, accepted);
      && q.sequence == p.sequence && q.micSequence == p.micSequence && p.log <= q.log
      && (forall i | |p.log| <= i < |q.log| :: q.log[i].AudioSent?)
      && (q.pendingReport.Some? ==> q.pendingReport == p.pendingReport)
  {
  }

  lemma FlushNumbers(p: Port, accepted: bool)
    ensures var q := FlushState(p, accepted);
      && q.sequence == p.sequence && q.micSequence == p.micSequence && LogNumbered(p, q.log)
      && (q.pendingReport.Some? ==> q.pendingReport == p.pendingReport)
  {
  }

  lemma RoundNumbers(p: Port, e: Event)
    requires e.DoOutputs?
    ensures NumbersMove(p, Step(p, e), e) && LogNumbered(p, Step(p, e).log)
  {
    if p.connected {
      var q := FlushState(p, e.resend);
      FlushNumbers(p, e.resend);
      SendNumbers(AddTone(q, e.chunks), e.now, e.after, e.send);
    }
  }

  /** Reports are numbered in the order they are built, modulo sixteen; a blocked one uses up its number. */
  lemma ReportsAreNumbered(p: Port, e: Event)
    requires Inv(p) && !e.DoConnect?
    ensures NumbersMove(p, Step(p, e), e) && LogNumbered(p, Step(p, e).log)
  {
    match e
    case DoForward(next, resend, send) => if p.connected { ForwardNumbers(p.(state := next), resend, send); }
    case DoRoute(next, tone, resend, send) =>
      if p.connected {
        ForwardNumbers(p.(state := next, waveout := tone, audio := if tone then p.audio else []), resend, send);
      }
    case DoMic(_, _) => if p.connected { MicNumbers(p, e); }
    case DoMicStream(_, _, _, _) => if p.connected { MicNumbers(p, e); }
    case DoOutputs(_, _, _, _, _) => RoundNumbers(p, e);
    case _ => QuietNumbers(p, e);
  }

  lemma QuietNumbers(p: Port, e: Event)
    requires e.DoDisconnect? || e.DoRelease? || e.DoPush? || e.DoStreamOff?
    ensures NumbersMove(p, Step(p, e), e) && LogNumbered(p, Step(p, e).log)
  {
  }

  // Audio ----------------------------------------------------------------------------------

  /** `t` is the last `n` of `s`, or all there are. */
  predicate IsLast(t: seq<Chunk>, s: seq<Chunk>, n: nat) {
    |t| == Min(|s|, n) && t == s[|s| - |t|..]
  }

  lemma NewestIsLast(s: seq<Chunk>, n: nat)
    ensures IsLast(Newest(s, n), s, n)
  {
  }

  /** Chunks from the host go behind the queue, which keeps the last eight. */
  lemma PushKeepsLast(p: Port, chunks: seq<Chunk>)
    ensures var q := Step(p, DoPush(chunks));
      if p.connected then IsLast(q.audio, p.audio + chunks, 8) && q.pushed == p.pushed + chunks else q == p
  {
    NewestIsLast(p.audio + chunks, 8);
  }

  /** The queue with the tone put in, when it was empty and the tone plays. */
  function WithTone(p: Port, tone: seq<Chunk>): seq<Chunk> {
    if p.waveout && p.audio == [] then (if |tone| <= 8 then tone else tone[..8]) else p.audio
  }

  predicate Waits(p: Port, queue: seq<Chunk>, now: nat) {
    queue == [] || (p.nextSend != 0 && now < p.nextSend)
  }

  /** A packet was due: all but the last four chunks are dropped, and the first of those is gone. */
  predicate TakesChunk(p: Port, q: Port, queue: seq<Chunk>, kept: seq<Chunk>, now: nat, after: nat, send: bool) {
    && IsLast(kept, queue, 4) && kept != [] && q.audio == kept[1..]
    && q.nextSend == (if send then now + 10_000 else after + 2_000)
    && (send ==> |q.log| > 0 && q.log[|q.log| - 1].AudioSent? && q.log[|q.log| - 1].chunk == kept[0]
                 && q.log[|q.log| - 1].time == now && q.log[|q.log| - 1].state == p.state)
  }

  lemma SendTakesChunk(p: Port, now: nat, after: nat, send: bool) returns (kept: seq<Chunk>)
    ensures var q := SendAudio(p, now, after, send);
      if Waits(p, p.audio, now) then q == p else TakesChunk(p, q, p.audio, kept, now, after, send)
  {
    kept := Newest(p.audio, 4);
    NewestIsLast(p.audio, 4);
  }

  lemma FlushKeepsAudio(p: Port, accepted: bool, tone: seq<Chunk>)
    ensures var q := AddTone(FlushState(p, accepted), tone);
      q.audio == WithTone(p, tone) && q.nextSend == p.nextSend && q.state == p.state
  {
  }

  /** One round: nothing while a deferred report stays blocked; otherwise the tone, then a packet when one is due. */
  lemma RoundMovesAudio(p: Port, tone: seq<Chunk>, now: nat, after: nat, resend: bool, send: bool) returns (kept: seq<Chunk>)
    requires p.connected && p.pendingState.Some? == p.pendingReport.Some?
    ensures var q := Step(p, DoOutputs(tone, now, after, resend, send));
      var queue := WithTone(p, tone);
      if p.pendingState.Some? && !resend then q == p
      else if Waits(p, queue, now) then q.audio == queue && q.nextSend == p.nextSend
      else TakesChunk(p, q, queue, kept, now, after, send)
  {
    FlushKeepsAudio(p, resend, tone);
    kept := SendTakesChunk(AddTone(FlushState(p, resend), tone), now, after, send);
  }

  /** A round leaves the state alone, and what it sends counts as the state sent last. */
  lemma RoundKeepsState(p: Port, tone: seq<Chunk>, now: nat, after: nat, resend: bool, send: bool)
    requires p.connected && p.pendingState.Some? == p.pendingReport.Some?
    ensures var q := Step(p, DoOutputs(tone, now, after, resend, send));
      && q.state == p.state && q.connected && q.waveout == p.waveout
      && q.pushed == p.pushed + (if (p.pendingState.None? || resend) && p.waveout && p.audio == [] then WithTone(p, tone) else [])
  {
  }

  // State and connection -------------------------------------------------------------------

  /** The state the step leaves. */
  function StateAfter(p: Port, e: Event): DsState {
    match e
    case DoConnect(initial) => initial
    case DoForward(next, _, _) => next
    case DoRoute(next, _, _, _) => next
    case DoMic(next, _) => if p.connected then next else p.state
    case DoMicStream(next, _, _, _) => if p.connected then next else p.state
    case _ => p.state
  }

  function ToneAfter(p: Port, e: Event): bool {
    match e
    case DoConnect(_) => false
    case DoDisconnect => p.waveout && !p.connected
    case DoRelease => false
    case DoRoute(_, tone, _, _) => tone
    case _ => p.waveout
  }

  function ConnectedAfter(p: Port, e: Event): bool {
    match e
    case DoConnect(_) => true
    case DoDisconnect => false
    case DoRelease => false
    case _ => p.connected
  }

  predicate SameStanding(p: Port, q: Port) {
    q.state == p.state && q.waveout == p.waveout && q.connected == p.connected
  }

  lemma ForwardStands(p: Port, resend: bool, send: bool)
    ensures SameStanding(p, Forwarded(p, resend, send))
  {
  }

  lemma RoundStands(p: Port, e: Event)
    requires e.DoOutputs?
    ensures SameStanding(p, Step(p, e))
  {
    var q := FlushState(p, e.resend);
    assert SameStanding(p, q) && SameStanding(p, AddTone(q, e.chunks));
  }

  lemma StateMoves(p: Port, e: Event)
    ensures var q := Step(p, e);
      q.state == StateAfter(p, e) && q.waveout == ToneAfter(p, e) && q.connected == ConnectedAfter(p, e)
  {
    match e
    case DoForward(next, resend, send) => ForwardStands(p.(state := next), resend, send);
    case DoRoute(next, tone, resend, send) =>
      ForwardStands(p.(state := next, waveout := tone, audio := if tone then p.audio else []), resend, send);
    case DoOutputs(_, _, _, _, _) => RoundStands(p, e);
    case _ =>
  }

  predicate SameAudio(p: Port, q: Port) {
    q.audio == p.audio && q.pushed == p.pushed && q.nextSend == p.nextSend
  }

  lemma ForwardKeepsAudio(p: Port, resend: bool, send: bool)
    ensures SameAudio(p, Forwarded(p, resend, send))
  {
  }

  /** The steps other than pushing and a round only ever empty the audio queue. */
  lemma QueueIsEmptied(p: Port, e: Event)
    requires !e.DoPush? && !e.DoOutputs?
    ensures var q := Step(p, e);
      && q.pushed == p.pushed
      && q.audio == (if e.DoConnect? || (e.DoDisconnect? && p.connected) || e.DoRelease? || e.DoStreamOff?
                        || (e.DoRoute? && !e.tone) then [] else p.audio)
      && q.nextSend == (if e.DoConnect? || (e.DoDisconnect? && p.connected) || e.DoRelease? then 0 else p.nextSend)
  {
    match e
    case DoForward(next, resend, send) => ForwardKeepsAudio(p.(state := next), resend, send);
    case DoRoute(next, tone, resend, send) =>
      ForwardKeepsAudio(p.(state := next, waveout := tone, audio := if tone then p.audio else []), resend, send);
    case _ =>
  }

  /** A connection starts afresh, with the initial state sent. */
  lemma ConnectionStarts(p: Port, initial: DsState)
    ensures var q := Step(p, DoConnect(initial));
      && q.log == p.log + [Initial(initial)] && q.lastSent == Some(initial)
      && q.pendingState.None? && q.pendingReport.None? && q.sequence == 0 && q.micSequence == 0
  {
  }

  /** What was deferred is forgotten with the connection, but not when the controller is taken away. */
  lemma ConnectionEnds(p: Port)
    requires p.connected
    ensures var q := Step(p, DoDisconnect);
      q.pendingState.None? && q.pendingReport.None? && q.log == p.log && q.lastSent == p.lastSent
    ensures var q := Step(p, DoRelease);
      q.pendingState == p.pendingState && q.pendingReport == p.pendingReport && q.log == p.log && q.lastSent == p.lastSent
  {
  }

  /** The settings go out first and the switch after them, each if its report is accepted. */
  lemma MicStreamTells(p: Port, next: DsState, open: bool, send: bool, switch: bool)
    requires p.connected && |next| >= 47
    ensures Step(p, DoMicStream(next, open, send, switch)).log == p.log
      + (if send then [MicSent(p.sequence, MicFields(next[6], next[7], next[8], next[9], next[37]))] else [])
      + (if switch then [MicSwitched(p.micSequence, open)] else [])
    ensures Step(p, DoMic(next, send)).log == p.log
      + (if send then [MicSent(p.sequence, MicFields(next[6], next[7], next[8], next[9], next[37]))] else [])
  {
    MicSettingsAre(next);
  }
}
