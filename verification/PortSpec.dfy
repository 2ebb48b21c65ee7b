/**
 Which controller may use which virtual port: the allocation state of src/platform/linux/vdsd.cc
 and the steps that change it. A port is its number; its path is derived from it.
 */
module PortSpec {
  import opened Base
  import opened ConfigSpec

  datatype Failure = ProviderUnavailable | NoAvailablePort | PortDisappeared | ConnectFailed

  /** A controller with its channels: a connected back-end, or channels that still wait for each other. */
  datatype Controller = Controller(
    config: Config, device: Option<nat>, backend: bool, control: bool, interrupt: bool, connected: bool,
    lastError: Option<Failure>)
  {
    predicate Uses() { backend || control || interrupt || connected }

    /** No channel, no device. */
    function Released(): Controller {
      Controller(config, None, false, false, false, false, lastError)
    }

    /** Idle, waiting for the second channel, or connected. */
    predicate Phase() {
      && backend == connected
      && (backend ==> !control && !interrupt) && !(control && interrupt)
    }
  }

  function Idle(config: Config): Controller {
    Controller(config, None, false, false, false, false, None)
  }

  datatype State = State(ports: seq<nat>, controllers: seq<Controller>)

  // Choosing a port ----------------------------------------------------------------------

  function PortIndex(path: nat): Option<nat> {
    if path < MAX_PORT_COUNT then Some(path) else None
  }

  predicate Allows(config: Config, path: nat) {
    PortIndex(path).Some? && (config.ports == [] || path in config.ports)
  }

  function Targets(config: Config): seq<nat> {
    if config.ports == [] then [0, 1, 2, 3] else config.ports
  }

  predicate HeldBy(c: Controller, path: nat) {
    c.device == Some(path) && c.Uses()
  }

  /** Some controller other than `self` uses `path`. */
  predicate UsedByOther(controllers: seq<Controller>, self: nat, path: nat) {
    exists j | 0 <= j < |controllers| && j != self :: HeldBy(controllers[j], path)
  }

  predicate Free(s: State, self: nat, port: nat) {
    port in s.ports && PortIndex(port).Some? && !UsedByOther(s.controllers, self, port)
  }

  /** The first of the targets that is present and free. */
  function FirstFree(s: State, self: nat, targets: seq<nat>): (r: Option<nat>)
    ensures r.Some? ==> r.value in targets && Free(s, self, r.value)
    ensures r.None? ==> forall t | t in targets :: !Free(s, self, t)
  {
    if targets == [] then None
    else if Free(s, self, targets[0]) then Some(targets[0])
    else FirstFree(s, self, targets[1..])
  }

  function FindAddress(controllers: seq<Controller>, address: string): (i: nat)
    ensures i <= |controllers|
    ensures i < |controllers| ==> controllers[i].config.address == address
    ensures forall k | 0 <= k < i :: controllers[k].config.address != address
  {
    if controllers == [] || controllers[0].config.address == address then 0
    else 1 + FindAddress(controllers[1..], address)
  }

  function Update(s: State, i: nat, c: Controller): State
    requires i < |s.controllers|
  {
    s.(controllers := s.controllers[i := c])
  }

  // Steps --------------------------------------------------------------------------------

  /** The device a channel of controller `i` goes to: its own if it still may, else a free one. */
  function DeviceFor(s: State, i: nat): Option<nat>
    requires i < |s.controllers|
  {
    var c := s.controllers[i];
    if c.device.Some? && c.device.value in s.ports && !UsedByOther(s.controllers, i, c.device.value) then c.device
    else FirstFree(s, i, Targets(c.config))
  }

  /** A channel added to a controller bound to `device`; `completes` tells whether connecting works. */
  function WithChannel(c: Controller, device: nat, control: bool, completes: bool): Controller {
    var more := c.(device := Some(device), control := c.control || control, interrupt := c.interrupt || !control);
    if !(more.control && more.interrupt) then more
    else if completes then
      more.(backend := true, control := false, interrupt := false, connected := true, lastError := None)
    else more.Released().(lastError := Some(ConnectFailed))
  }

  function Accept(s: State, address: string, control: bool, completes: bool): State {
    var i := FindAddress(s.controllers, address);
    if i == |s.controllers| || s.controllers[i].backend then s
    else
      var c := s.controllers[i];
      match DeviceFor(s, i)
      case None =>
        Update(s, i, c.(lastError := Some(if s.ports == [] then ProviderUnavailable else NoAvailablePort)))
      case Some(device) => Update(s, i, WithChannel(c, device, control, completes))
  }

  function Dropped(c: Controller): Controller {
    if !c.backend && !c.connected then c else c.Released()
  }

  function Drop(s: State, i: nat): State
    requires i < |s.controllers|
  {
    Update(s, i, Dropped(s.controllers[i]))
  }

  /** A controller after a flush; `fails` says that sending failed. */
  function Flushed(c: Controller, ports: seq<nat>, fails: bool): Controller {
    if !c.backend then c
    else if c.device.None? || c.device.value !in ports then c.Released()
    else if fails then Dropped(c)
    else c
  }

  function Flush(s: State, fails: seq<bool>): (r: State)
    requires |fails| == |s.controllers|
    ensures r.ports == s.ports && |r.controllers| == |s.controllers|
    ensures forall i | 0 <= i < |s.controllers| :: r.controllers[i] == Flushed(s.controllers[i], s.ports, fails[i])
  {
    s.(controllers := seq(|fails|, i requires 0 <= i < |fails| => Flushed(s.controllers[i], s.ports, fails[i])))
  }

  /** A controller whose port is gone from `devices` lets go of it. */
  function Cleared(c: Controller, devices: seq<nat>): Controller {
    if c.Uses() && (c.device.None? || c.device.value !in devices) then c.Released() else c
  }

  function ClearAll(controllers: seq<Controller>, devices: seq<nat>): (r: seq<Controller>)
    ensures |r| == |controllers|
    ensures forall i | 0 <= i < |controllers| :: r[i] == Cleared(controllers[i], devices)
  {
    if controllers == [] then []
    else ClearAll(controllers[..|controllers| - 1], devices) + [Cleared(controllers[|controllers| - 1], devices)]
  }

  predicate SameBinding(c: Controller, config: Config) {
    c.config.address == config.address && c.config.profile == config.profile
  }

  /** The first earlier controller with this address and profile, or the length. */
  function FindBinding(before: seq<Controller>, config: Config): (i: nat)
    ensures i <= |before|
    ensures i < |before| ==> SameBinding(before[i], config)
    ensures forall k | 0 <= k < i :: !SameBinding(before[k], config)
  {
    if before == [] || SameBinding(before[0], config) then 0 else 1 + FindBinding(before[1..], config)
  }

  predicate MayKeep(c: Controller, config: Config, devices: seq<nat>) {
    c.Uses() && c.device.Some? && c.device.value in devices && Allows(config, c.device.value)
  }

  /** What a record of the new database starts with: what its controller had, if it may keep it. */
  function NextController(before: seq<Controller>, config: Config, devices: seq<nat>): Controller {
    var i := FindBinding(before, config);
    if i == |before| then Idle(config)
    else if MayKeep(before[i], config, devices) then before[i].(config := config)
    else Idle(config).(lastError := before[i].lastError)
  }

  function NextControllers(before: seq<Controller>, db: seq<Config>, devices: seq<nat>): (next: seq<Controller>)
    ensures |next| == |db|
    ensures forall k | 0 <= k < |db| :: next[k] == NextController(before, db[k], devices)
  {
    if db == [] then []
    else NextControllers(before, db[..|db| - 1], devices) + [NextController(before, db[|db| - 1], devices)]
  }

  /** `db` is nothing when the database cannot be read. */
  function Reconcile(s: State, devices: seq<nat>, db: Option<seq<Config>>): State {
    var cleared := ClearAll(s.controllers, devices);
    match db
    case None => State(devices, cleared)
    case Some(configs) => State(devices, NextControllers(cleared, configs, devices))
  }

  // Runs ---------------------------------------------------------------------------------

  datatype Event =
    | DoAccept(address: string, control: bool, completes: bool)
    | DoDrop(controller: nat)
    | DoFlush(fails: seq<bool>)
    | DoReconcile(devices: seq<nat>, db: Option<seq<Config>>)

  predicate NoDuplicates(s: seq<nat>) {
    s == [] || (s[0] !in s[1..] && NoDuplicates(s[1..]))
  }

  /** Device listings name a port once; a database that could be read is well-formed. */
  predicate GoodEvent(s: State, e: Event) {
    match e
    case DoAccept(_, _, _) => true
    case DoDrop(i) => i < |s.controllers|
    case DoFlush(fails) => |fails| == |s.controllers|
    case DoReconcile(devices, db) => NoDuplicates(devices) && (db.Some? ==> WellFormed(db.value))
  }

  function Step(s: State, e: Event): State
    requires GoodEvent(s, e)
  {
    match e
    case DoAccept(address, control, completes) => Accept(s, address, control, completes)
    case DoDrop(i) => Drop(s, i)
    case DoFlush(fails) => Flush(s, fails)
    case DoReconcile(devices, db) => Reconcile(s, devices, db)
  }

  function Run(s: State, events: seq<Event>): Option<State>
    decreases |events|
  {
    if events == [] then Some(s)
    else if !GoodEvent(s, events[0]) then None
    else Run(Step(s, events[0]), events[1..])
  }
}
