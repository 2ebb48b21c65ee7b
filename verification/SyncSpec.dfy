/**
 What a virtual port of src/platform/linux/vdsd.cc still has to send to its controller, and the
 steps that send it. Whether a send is accepted or would block is an input of each step.
 Times are in microseconds.
 */
module SyncSpec {
  import opened Base
  import opened PcmExtractor

  /** The 63 bytes of controller state; a state report carries the first 47. */
  type DsState = seq<Byte>

  const SET_STATE_SIZE: nat := 47
  const MAX_PENDING_CHUNKS: nat := 8
  const FRESH_PENDING_CHUNKS: nat := 4
  const AUDIO_INTERVAL: nat := 10_000
  const BLOCKED_RETRY: nat := 2_000

  // Where the microphone's settings are in the state.
  const MIC_VOLUME: nat := 6
  const AUDIO_CONTROL: nat := 7
  const MUTE_LED: nat := 8
  const POWER_SAVE_CONTROL: nat := 9
  const AUDIO_CONTROL_2: nat := 37

  datatype MicFields = MicFields(volume: Byte, audioControl: Byte, muteLed: Byte, powerSave: Byte, audioControl2: Byte)

  function At(state: DsState, offset: nat): Byte {
    if offset < |state| then state[offset] else 0
  }

  function MicOf(state: DsState): MicFields {
    MicFields(At(state, MIC_VOLUME), At(state, AUDIO_CONTROL), At(state, MUTE_LED), At(state, POWER_SAVE_CONTROL),
              At(state, AUDIO_CONTROL_2))
  }

  datatype StateReport = StateReport(sequence: nat, payload: seq<Byte>)

  /** What the controller has received. */
  datatype Entry =
    | Initial(state: DsState)
    | StateSent(report: StateReport, state: DsState)
    | AudioSent(chunk: Chunk, index: int, state: DsState, time: nat)
    | MicSent(sequence: nat, mic: MicFields)
    | MicSwitched(micSequence: nat, open: bool)

  /** `log` and `pushed` are history: what was accepted, and every chunk ever queued. */
  datatype Port = Port(
    state: DsState, sequence: nat, micSequence: nat,
    lastSent: Option<DsState>, pendingState: Option<DsState>, pendingReport: Option<StateReport>,
    audio: seq<Chunk>, nextSend: nat, waveout: bool, connected: bool,
    log: seq<Entry>, pushed: seq<Chunk>)
  {
    function Cleared(): Port {
      this.(pendingState := None, pendingReport := None)
    }
  }

  function Fresh(initial: DsState): Port {
    Port(initial, 0, 0, None, None, None, [], 0, false, false, [], [])
  }

  function Carried(state: DsState): seq<Byte> {
    if |state| <= SET_STATE_SIZE then state else state[..SET_STATE_SIZE]
  }

  function Bumped(sequence: nat): nat {
    (sequence + 1) % 16
  }

  /** The newest `n` elements. */
  function Newest<T>(s: seq<T>, n: nat): (r: seq<T>)
    ensures |r| == Min(|s|, n)
  {
    if |s| <= n then s else s[|s| - n..]
  }

  // State reports ------------------------------------------------------------------------

  function FlushState(p: Port, accepted: bool): Port {
    if p.pendingState.Some? && p.pendingReport.Some? && accepted then
      p.Cleared().(
        lastSent := p.pendingState,
        log := p.log + [StateSent(p.pendingReport.value, p.pendingState.value)])
    else p
  }

  /** A new report for the current state goes out, or is kept for later. */
  function SendState(p: Port, accepted: bool): Port {
    var report := StateReport(p.sequence, Carried(p.state));
    var q := p.(sequence := Bumped(p.sequence));
    if accepted then
      q.Cleared().(lastSent := Some(p.state), log := p.log + [StateSent(report, p.state)])
    else
      q.(pendingState := Some(p.state), pendingReport := Some(report))
  }

  /** `resend` and `send` tell whether the deferred report and the new one are accepted. */
  function Forward(p: Port, resend: bool, send: bool): Port {
    var q := FlushState(p, resend);
    if q.lastSent == Some(q.state) then
      if q.pendingState.Some? then q.Cleared() else q
    else if q.pendingState == Some(q.state) then q
    else SendState(q, send)
  }

  /** A report of the microphone's settings in the new state: sent at most once. */
  function Mic(p: Port, next: DsState, accepted: bool): Port {
    p.(
      state := next, sequence := Bumped(p.sequence),
      log := if accepted then p.log + [MicSent(p.sequence, MicOf(next))] else p.log)
  }

  /** The report that opens or closes the microphone. */
  function MicSwitch(p: Port, open: bool, accepted: bool): Port {
    p.(
      micSequence := Bumped(p.micSequence),
      log := if accepted then p.log + [MicSwitched(p.micSequence, open)] else p.log)
  }

  // Audio --------------------------------------------------------------------------------

  /** Chunks from the host: the oldest make room. */
  function Push(p: Port, chunks: seq<Chunk>): Port {
    p.(audio := Newest(p.audio + chunks, MAX_PENDING_CHUNKS), pushed := p.pushed + chunks)
  }

  /** Chunks of the test tone: only into an empty queue, and only as many as fit. */
  function AddTone(p: Port, chunks: seq<Chunk>): Port {
    if !p.waveout || p.audio != [] then p
    else
      var taken := if |chunks| <= MAX_PENDING_CHUNKS then chunks else chunks[..MAX_PENDING_CHUNKS];
      p.(audio := taken, pushed := p.pushed + taken)
  }

  predicate AudioIsDue(p: Port, now: nat) {
    p.audio != [] && (p.nextSend == 0 || p.nextSend <= now)
  }

  /** The chunks left once the stale ones are dropped; the first of them is sent. */
  function Kept(p: Port): seq<Chunk> {
    Newest(p.audio, FRESH_PENDING_CHUNKS)
  }

  function AudioBlocked(p: Port, after: nat): Port
    requires p.audio != []
  {
    p.(audio := Kept(p)[1..], nextSend := after + BLOCKED_RETRY)
  }

  /** The packet carries the state as it is now. */
  function AudioAccepted(p: Port, now: nat): Port
    requires p.audio != []
  {
    var q := p.(
      audio := Kept(p)[1..], lastSent := Some(p.state), nextSend := now + AUDIO_INTERVAL,
      log := p.log + [AudioSent(Kept(p)[0], |p.pushed| - |Kept(p)|, p.state, now)]);
    if q.pendingState == Some(p.state) then q.Cleared() else q
  }

  /** `now` is the time of the call and `after` the time when the send has returned. */
  function SendAudio(p: Port, now: nat, after: nat, accepted: bool): Port {
    if !AudioIsDue(p, now) then p
    else if accepted then AudioAccepted(p, now)
    else AudioBlocked(p, after)
  }

  /** One round of the event loop: the deferred report first, then audio. */
  function Outputs(p: Port, tone: seq<Chunk>, now: nat, after: nat, resend: bool, send: bool): Port {
    var q := FlushState(p, resend);
    if p.pendingState.Some? && p.pendingReport.Some? && !resend then q
    else SendAudio(AddTone(q, tone), now, after, send)
  }

  // Connection ---------------------------------------------------------------------------

  /** Everything is reset, and the controller is sent the initial state. */
  function Connect(p: Port, initial: DsState): Port {
    Fresh(initial).(
      lastSent := Some(initial), connected := true, log := p.log + [Initial(initial)], pushed := p.pushed)
  }

  /** The controller was taken away from the port, which keeps what it still had to send. */
  function Release(p: Port): Port {
    p.(audio := [], nextSend := 0, waveout := false, connected := false)
  }

  function Disconnect(p: Port): Port {
    Release(p.Cleared())
  }

  // Runs ---------------------------------------------------------------------------------

  /** A failed send throws and ends in `DoDisconnect`; a changed database may end in `DoRelease`. */
  datatype Event =
    | DoConnect(initial: DsState)
    | DoDisconnect
    | DoRelease
    | DoForward(next: DsState, resend: bool, send: bool)
    | DoRoute(next: DsState, tone: bool, resend: bool, send: bool)
    | DoMic(next: DsState, send: bool)
    | DoMicStream(next: DsState, open: bool, send: bool, switch: bool)
    | DoPush(chunks: seq<Chunk>)
    | DoStreamOff
    | DoOutputs(chunks: seq<Chunk>, now: nat, after: nat, resend: bool, send: bool)

  /** Changing the state without a controller only changes the state. */
  function Forwarded(p: Port, resend: bool, send: bool): Port {
    if p.connected then Forward(p, resend, send) else p
  }

  predicate GoodEvent(p: Port, e: Event) {
    match e
    case DoConnect(_) => !p.connected
    case DoOutputs(_, now, after, _, _) => now <= after
    case _ => true
  }

  function Step(p: Port, e: Event): Port {
    match e
    case DoConnect(initial) => Connect(p, initial)
    case DoDisconnect => if p.connected then Disconnect(p) else p
    case DoRelease => Release(p)
    case DoForward(next, resend, send) => Forwarded(p.(state := next), resend, send)
    case DoRoute(next, tone, resend, send) =>
      Forwarded(p.(state := next, waveout := tone, audio := if tone then p.audio else []), resend, send)
    case DoMic(next, send) => if p.connected then Mic(p, next, send) else p
    case DoMicStream(next, open, send, switch) =>
      if p.connected then MicSwitch(Mic(p, next, send), open, switch) else p
    case DoPush(chunks) => if p.connected then Push(p, chunks) else p
    case DoStreamOff => p.(audio := [])
    case DoOutputs(tone, now, after, resend, send) =>
      if p.connected then Outputs(p, tone, now, after, resend, send) else p
  }

  function Run(p: Port, events: seq<Event>): Option<Port>
    decreases |events|
  {
    if events == [] then Some(p)
    else if !GoodEvent(p, events[0]) then None
    else Run(Step(p, events[0]), events[1..])
  }
}
