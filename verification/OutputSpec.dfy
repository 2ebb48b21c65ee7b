/**
 The queue between the callers that write output reports and the thread that writes them to the
 device: src/platform/win32/vds_bt.cc. Each step is one critical section of the output mutex.
 */
module OutputSpec {
  import opened Base

  const MAX_PENDING: nat := 64

  /** A report accepted for writing; tickets number the accepted reports. */
  datatype Write = Write(ticket: nat, buffer: seq<Byte>, audio: bool)

  datatype Fate =
    | Sent(write: Write)
    | AudioFailed(write: Write)
    | FatallyFailed(write: Write)
    | Replaced(write: Write, later: nat)
    | Discarded(write: Write)
  {
    predicate Started() { Sent? || AudioFailed? || FatallyFailed? }
  }

  /** Output reports have `length` bytes. `accepted` and `fates` are history: what was accepted, what became of it. */
  datatype Writer = Writer(
    length: nat, queue: seq<Write>, active: Option<Write>, error: bool, stopped: bool,
    queued: nat, completed: nat, rejected: nat, coalesced: nat, audioErrors: nat,
    accepted: seq<Write>, fates: seq<Fate>)

  /** A writer for which nothing has happened yet. */
  predicate Untouched(s: Writer) {
    && s.queue == [] && s.active.None? && !s.error && !s.stopped
    && s.queued == s.completed == s.rejected == s.coalesced == s.audioErrors == 0
    && s.accepted == [] && s.fates == []
  }

  function FirstAudio(queue: seq<Write>): (i: nat)
    ensures i <= |queue|
    ensures i < |queue| ==> queue[i].audio
    ensures forall k | 0 <= k < i :: !queue[k].audio
  {
    if queue == [] || queue[0].audio then 0 else 1 + FirstAudio(queue[1..])
  }

  function Without<T>(s: seq<T>, i: nat): seq<T>
    requires i < |s|
  {
    s[..i] + s[i + 1..]
  }

  function Join(s: Writer, buffer: seq<Byte>, audio: bool): Writer {
    var w := Write(s.queued, buffer, audio);
    s.(queue := s.queue + [w], queued := s.queued + 1, accepted := s.accepted + [w])
  }

  /** The queued audio report gives way to the one that takes the next ticket. */
  function Replace(s: Writer): Writer {
    var i := FirstAudio(s.queue);
    if i == |s.queue| then s
    else
      s.(queue := Without(s.queue, i), coalesced := s.coalesced + 1,
         fates := s.fates + [Replaced(s.queue[i], s.queued)])
  }

  /** A shorter report is filled up with zeros. */
  function Padded(report: seq<Byte>, length: nat): seq<Byte> {
    if |report| <= length then report + Zeros(length - |report|) else report
  }

  /** A new audio report takes the place of a queued one; anything else needs room. */
  function Enqueue(s: Writer, report: seq<Byte>, audio: bool): Writer {
    if |report| > s.length || s.error then s
    else Admit(s, Padded(report, s.length), audio)
  }

  function Admit(s: Writer, buffer: seq<Byte>, audio: bool): Writer {
    if audio && FirstAudio(s.queue) < |s.queue| then Join(Replace(s), buffer, audio)
    else if |s.queue| >= MAX_PENDING then s.(rejected := s.rejected + 1)
    else Join(s, buffer, audio)
  }

  /** The writer thread is waiting for work and may start it. */
  predicate CanTake(s: Writer) {
    !s.stopped && !s.error && s.active.None? && s.queue != []
  }

  function Take(s: Writer): Writer
    requires CanTake(s)
  {
    s.(active := Some(s.queue[0]), queue := s.queue[1..])
  }

  /** The outcome of writing the active report; failing to write anything but audio ends the thread. */
  function Finish(s: Writer, success: bool): Writer
    requires s.active.Some?
  {
    var w := s.active.value;
    var q := s.(active := None);
    if success then q.(completed := s.completed + 1, fates := s.fates + [Sent(w)])
    else if w.audio then q.(audioErrors := s.audioErrors + 1, fates := s.fates + [AudioFailed(w)])
    else q.(error := true, fates := s.fates + [FatallyFailed(w)])
  }

  function DiscardAll(queue: seq<Write>): (r: seq<Fate>)
    ensures |r| == |queue|
  {
    if queue == [] then [] else DiscardAll(queue[..|queue| - 1]) + [Discarded(queue[|queue| - 1])]
  }

  function Stop(s: Writer): Writer {
    if s.stopped then s else s.(stopped := true, queue := [], fates := s.fates + DiscardAll(s.queue))
  }

  // Runs ---------------------------------------------------------------------------------

  datatype Event = DoEnqueue(report: seq<Byte>, audio: bool) | DoTake | DoFinish(success: bool) | DoStop

  predicate GoodEvent(s: Writer, e: Event) {
    match e
    case DoTake => CanTake(s)
    case DoFinish(_) => s.active.Some?
    case _ => true
  }

  function Step(s: Writer, e: Event): Writer
    requires GoodEvent(s, e)
  {
    match e
    case DoEnqueue(report, audio) => Enqueue(s, report, audio)
    case DoTake => Take(s)
    case DoFinish(success) => Finish(s, success)
    case DoStop => Stop(s)
  }

  function Run(s: Writer, events: seq<Event>): Option<Writer>
    decreases |events|
  {
    if events == [] then Some(s)
    else if !GoodEvent(s, events[0]) then None
    else Run(Step(s, events[0]), events[1..])
  }
}
