/**
 What each step of the allocator does, said from the controllers and ports before it: which port a channel
 gets, what is released, and what a reloaded record keeps.
 */
module PortOutcome {
  import opened Base
  import opened ConfigSpec
  import opened PortSpec
  import opened PortTheorems
  import ConfigTheorems

  // Which port -----------------------------------------------------------------------------

  predicate Busy(c: Controller) { c.backend || c.control || c.interrupt || c.connected }

  predicate Taken(s: State, self: nat, port: nat) {
    exists j | 0 <= j < |s.controllers| && j != self :: s.controllers[j].device == Some(port) && Busy(s.controllers[j])
  }

  /** Present, one of the four ports there can be, and nobody else's. */
  predicate Open(s: State, self: nat, port: nat) {
    port in s.ports && port < 4 && !Taken(s, self, port)
  }

  predicate Permits(config: Config, port: nat) {
    config.ports == [] || port in config.ports
  }

  /** `targets[i]` is open and none before it is. */
  predicate FirstOpenAt(s: State, self: nat, targets: seq<nat>, i: nat) {
    i < |targets| && Open(s, self, targets[i]) && forall j | 0 <= j < i :: !Open(s, self, targets[j])
  }

  predicate LowestOpen(s: State, self: nat, config: Config, port: nat) {
    && Open(s, self, port) && Permits(config, port)
    && forall p: nat | p < port :: !(Open(s, self, p) && Permits(config, p))
  }

  predicate NoneOpen(s: State, self: nat, config: Config) {
    forall p: nat | p < 4 :: !(Open(s, self, p) && Permits(config, p))
  }

  lemma TakenIsUsed(s: State, self: nat, port: nat)
    ensures Taken(s, self, port) <==> UsedByOther(s.controllers, self, port)
  {
    if j :| 0 <= j < |s.controllers| && j != self && s.controllers[j].device == Some(port) && Busy(s.controllers[j]) {
      assert HeldBy(s.controllers[j], port);
    }
    if j :| 0 <= j < |s.controllers| && j != self && HeldBy(s.controllers[j], port) {
      assert s.controllers[j].device == Some(port) && Busy(s.controllers[j]);
    }
  }

  lemma OpenIsFree(s: State, self: nat, port: nat)
    ensures Open(s, self, port) <==> Free(s, self, port)
  {
    TakenIsUsed(s, self, port);
  }

  /** The targets are tried in their order. */
  lemma {:induction false} ChosenIsFirst(s: State, self: nat, targets: seq<nat>) returns (i: nat)
    ensures FirstFree(s, self, targets).Some? ==> FirstOpenAt(s, self, targets, i) && FirstFree(s, self, targets) == Some(targets[i])
    ensures FirstFree(s, self, targets).None? ==> forall j | 0 <= j < |targets| :: !Open(s, self, targets[j])
  {
    i := 0;
    if targets != [] {
      OpenIsFree(s, self, targets[0]);
      if !Free(s, self, targets[0]) {
        var k := ChosenIsFirst(s, self, targets[1..]);
        assert forall j | 1 <= j < |targets| :: targets[j] == targets[1..][j - 1];
        i := k + 1;
      }
    }
  }

  /** What a search over targets must find. */
  ghost predicate Finds(s: State, self: nat, targets: seq<nat>, found: Option<nat>) {
    match found
    case Some(port) => exists i: nat :: FirstOpenAt(s, self, targets, i) && targets[i] == port
    case None => forall j | 0 <= j < |targets| :: !Open(s, self, targets[j])
  }

  lemma SearchFinds(s: State, self: nat, targets: seq<nat>)
    ensures Finds(s, self, targets, FirstFree(s, self, targets))
  {
    var i := ChosenIsFirst(s, self, targets);
  }

  /** What the search for a record's port must find. */
  predicate FindsLowest(s: State, self: nat, config: Config, found: Option<nat>) {
    if found.Some? then LowestOpen(s, self, config, found.value) else NoneOpen(s, self, config)
  }

  lemma SearchFindsLowest(s: State, self: nat, config: Config)
    requires Increasing(config.ports)
    ensures FindsLowest(s, self, config, FirstFree(s, self, Targets(config)))
  {
    var i := ChosenIsFirst(s, self, Targets(config));
    if FirstFree(s, self, Targets(config)).Some? {
      FirstIsLowest(s, self, config, i);
    } else {
      NoTargetOpen(s, self, config);
    }
  }

  lemma {:induction false} IncreasingOrder(ports: seq<nat>, i: nat, j: nat)
    requires Increasing(ports) && i < j < |ports|
    ensures ports[i] < ports[j]
    decreases j
  {
    if i > 0 {
      IncreasingOrder(ports[1..], i - 1, j - 1);
    } else if j > 1 {
      IncreasingOrder(ports[1..], 0, j - 1);
    }
  }

  lemma TargetsAre(config: Config, port: nat)
    requires port < 4
    ensures Permits(config, port) <==> port in Targets(config)
  {
    if config.ports == [] {
      assert Targets(config)[port] == port;
    }
  }

  /** With the ports of a record in order, the first open target is the lowest open port it permits. */
  lemma FirstIsLowest(s: State, self: nat, config: Config, i: nat)
    requires Increasing(config.ports) && FirstOpenAt(s, self, Targets(config), i)
    ensures LowestOpen(s, self, config, Targets(config)[i])
  {
    var targets := Targets(config);
    assert Increasing(targets) by { assert config.ports == [] ==> Increasing([0, 1, 2, 3]); }
    TargetsAre(config, targets[i]);
    forall p: nat | p < targets[i]
      ensures !(Open(s, self, p) && Permits(config, p))
    {
      if Open(s, self, p) && Permits(config, p) {
        TargetsAre(config, p);
        var j :| 0 <= j < |targets| && targets[j] == p;
        if i < j { IncreasingOrder(targets, i, j); }
      }
    }
  }

  lemma NoTargetOpen(s: State, self: nat, config: Config)
    requires forall j | 0 <= j < |Targets(config)| :: !Open(s, self, Targets(config)[j])
    ensures NoneOpen(s, self, config)
  {
    forall p: nat | p < 4
      ensures !(Open(s, self, p) && Permits(config, p))
    {
      TargetsAre(config, p);
    }
  }

  /** A controller keeps its port; one without gets the lowest open port its record permits, if there is one. */
  lemma DeviceIsLowest(s: State, i: nat)
    requires Inv(s) && i < |s.controllers| && Increasing(s.controllers[i].config.ports)
    ensures var c, device := s.controllers[i], DeviceFor(s, i);
      if c.device.Some? then device == c.device
      else if device.Some? then LowestOpen(s, i, c.config, device.value) else NoneOpen(s, i, c.config)
  {
    var c := s.controllers[i];
    if c.device.Some? {
      OwnDeviceIsUsable(s, i);
    } else {
      SearchFindsLowest(s, i, c.config);
    }
  }

  // Channels -------------------------------------------------------------------------------

  /** Only controller `i` differs. */
  predicate OnlyChanges(s: State, t: State, i: nat) {
    && t.ports == s.ports && |t.controllers| == |s.controllers|
    && forall j | 0 <= j < |s.controllers| && j != i :: t.controllers[j] == s.controllers[j]
  }

  predicate HasNothing(c: Controller) {
    !c.backend && !c.control && !c.interrupt && !c.connected && c.device.None?
  }

  /** The controller waits for its other channel on `port`. */
  predicate WaitsOn(c: Controller, port: nat, control: bool, before: Controller) {
    && c == before.(device := c.device, control := c.control, interrupt := c.interrupt)
    && c.device == Some(port) && c.control == control && c.interrupt == !control
  }

  predicate ConnectedOn(c: Controller, port: nat) {
    c.device == Some(port) && c.backend && c.connected && !c.control && !c.interrupt && c.lastError.None?
  }

  /** `before` has the other channel already. */
  predicate Completes(before: Controller, control: bool) {
    if control then before.interrupt else before.control
  }

  predicate GetsPort(s: State, i: nat, port: nat)
    requires i < |s.controllers|
  {
    var c := s.controllers[i];
    if c.device.Some? then c.device.value == port else LowestOpen(s, i, c.config, port)
  }

  predicate Serves(s: State, i: nat, control: bool, works: bool, after: Controller, port: nat)
    requires i < |s.controllers|
  {
    && GetsPort(s, i, port)
    && (if !Completes(s.controllers[i], control) then WaitsOn(after, port, control, s.controllers[i])
        else if works then ConnectedOn(after, port)
        else HasNothing(after) && after.lastError == Some(ConnectFailed))
  }

  predicate TurnsAway(s: State, i: nat, after: Controller)
    requires i < |s.controllers|
  {
    var c := s.controllers[i];
    && c.device.None? && NoneOpen(s, i, c.config)
    && after == c.(lastError := Some(if s.ports == [] then ProviderUnavailable else NoAvailablePort))
  }

  lemma FoundAddress(s: State, i: nat)
    requires Inv(s) && i < |s.controllers|
    ensures FindAddress(s.controllers, s.controllers[i].config.address) == i
  {
    var k := FindAddress(s.controllers, s.controllers[i].config.address);
    if k < i { Both(s, k, i); }
  }

  /** A channel of a controller that is not connected: it gets a port, or there is none for it. */
  lemma ChannelIsServed(s: State, i: nat, control: bool, works: bool)
    requires Inv(s) && i < |s.controllers| && !s.controllers[i].backend
    requires Increasing(s.controllers[i].config.ports)
    ensures var t := Step(s, DoAccept(s.controllers[i].config.address, control, works));
      && OnlyChanges(s, t, i) && t.controllers[i].config == s.controllers[i].config
      && ((exists port: nat :: Serves(s, i, control, works, t.controllers[i], port)) || TurnsAway(s, i, t.controllers[i]))
  {
    var c := s.controllers[i];
    assert SoundAt(s, i);
    FoundAddress(s, i);
    DeviceIsLowest(s, i);
    if DeviceFor(s, i).Some? {
      var port := DeviceFor(s, i).value;
      assert Serves(s, i, control, works, WithChannel(c, port, control, works), port);
    }
  }

  /** A channel from an unknown address, or of a controller that is connected, is refused. */
  lemma ChannelIsRefused(s: State, address: string, control: bool, works: bool)
    requires Inv(s)
    requires forall i | 0 <= i < |s.controllers| && s.controllers[i].config.address == address :: s.controllers[i].backend
    ensures Step(s, DoAccept(address, control, works)) == s
  {
  }

  // Letting go -----------------------------------------------------------------------------

  predicate Releases(before: Controller, after: Controller) {
    HasNothing(after) && after.config == before.config && after.lastError == before.lastError
  }

  /** Dropping a connected controller frees its port; one that only waits keeps its channel. */
  lemma DropReleases(s: State, i: nat)
    requires Inv(s) && i < |s.controllers|
    ensures var c, t := s.controllers[i], Step(s, DoDrop(i));
      OnlyChanges(s, t, i) && if c.connected then Releases(c, t.controllers[i]) else t == s
  {
    assert SoundAt(s, i);
    assert s.controllers[i := s.controllers[i]] == s.controllers;
  }

  /** A sending round frees the ports of the controllers to which sending fails, and changes nothing else. */
  lemma FlushReleases(s: State, fails: seq<bool>, i: nat)
    requires Inv(s) && |fails| == |s.controllers| && i < |fails|
    ensures var t := Step(s, DoFlush(fails));
      && t.ports == s.ports && |t.controllers| == |s.controllers|
      && (if s.controllers[i].connected && fails[i] then Releases(s.controllers[i], t.controllers[i])
          else t.controllers[i] == s.controllers[i])
  {
    assert SoundAt(s, i);
    assert Step(s, DoFlush(fails)).controllers[i] == Flushed(s.controllers[i], s.ports, fails[i]);
  }

  // Reloading ------------------------------------------------------------------------------

  /** Controller `j` is the one record `config` names. */
  predicate Names(s: State, config: Config, j: nat) {
    j < |s.controllers| && s.controllers[j].config.address == config.address && s.controllers[j].config.profile == config.profile
  }

  /** It goes on with its port and channels: the port is still there and permitted. */
  predicate GoesOn(s: State, devices: seq<nat>, config: Config, j: nat)
    requires j < |s.controllers|
  {
    s.controllers[j].device.Some? && s.controllers[j].device.value in devices && Permits(config, s.controllers[j].device.value)
  }

  predicate Reloads(s: State, devices: seq<nat>, config: Config, j: nat, after: Controller)
    requires j < |s.controllers|
  {
    if GoesOn(s, devices, config, j) then after == s.controllers[j].(config := config)
    else HasNothing(after) && after.config == config && after.lastError == s.controllers[j].lastError
  }

  lemma ClearedHasError(s: State, devices: seq<nat>, j: nat)
    requires Inv(s) && j < |s.controllers|
    ensures var c := ClearAll(s.controllers, devices)[j];
      && c.config == s.controllers[j].config && c.lastError == s.controllers[j].lastError
      && (if s.controllers[j].device.Some? && s.controllers[j].device.value in devices then c == s.controllers[j] else HasNothing(c))
  {
    assert SoundAt(s, j);
    assert ClearAll(s.controllers, devices)[j] == Cleared(s.controllers[j], devices);
  }

  lemma OneBinding(s: State, devices: seq<nat>, config: Config, j: nat)
    requires Inv(s) && Names(s, config, j)
    ensures FindBinding(ClearAll(s.controllers, devices), config) == j
  {
    var cleared := ClearAll(s.controllers, devices);
    var k := FindBinding(cleared, config);
    ClearedHasError(s, devices, j);
    if k < j {
      ClearedHasError(s, devices, k);
      Both(s, k, j);
    }
  }

  lemma BindingIsNamed(s: State, devices: seq<nat>, config: Config)
    requires Inv(s)
    ensures var k := FindBinding(ClearAll(s.controllers, devices), config);
      k < |s.controllers| ==> Names(s, config, k)
  {
    var k := FindBinding(ClearAll(s.controllers, devices), config);
    if k < |s.controllers| { ClearedHasError(s, devices, k); }
  }

  /** A record that names an earlier controller keeps what it had, if its port is still there and permitted. */
  lemma ReloadKeeps(s: State, devices: seq<nat>, configs: seq<Config>, k: nat, j: nat)
    requires Inv(s) && WellFormed(configs) && NoDuplicates(devices) && k < |configs| && Names(s, configs[k], j)
    ensures var t := Step(s, DoReconcile(devices, Some(configs)));
      t.ports == devices && |t.controllers| == |configs| && Reloads(s, devices, configs[k], j, t.controllers[k])
  {
    var cleared := ClearAll(s.controllers, devices);
    OneBinding(s, devices, configs[k], j);
    ClearedHasError(s, devices, j);
    assert SoundAt(s, j);
    assert NextControllers(cleared, configs, devices)[k] == NextController(cleared, configs[k], devices);
  }

  /** A record that names no earlier controller starts with nothing. */
  lemma ReloadStarts(s: State, devices: seq<nat>, configs: seq<Config>, k: nat)
    requires Inv(s) && WellFormed(configs) && NoDuplicates(devices) && k < |configs|
    requires forall j: nat :: !Names(s, configs[k], j)
    ensures var t := Step(s, DoReconcile(devices, Some(configs)));
      && t.ports == devices && |t.controllers| == |configs|
      && HasNothing(t.controllers[k]) && t.controllers[k].config == configs[k] && t.controllers[k].lastError.None?
  {
    var cleared := ClearAll(s.controllers, devices);
    BindingIsNamed(s, devices, configs[k]);
    assert NextControllers(cleared, configs, devices)[k] == NextController(cleared, configs[k], devices);
  }

  /** When the database cannot be read, the ports are renewed and controllers whose port is gone are released. */
  lemma UnreadableReload(s: State, devices: seq<nat>, j: nat)
    requires Inv(s) && NoDuplicates(devices) && j < |s.controllers|
    ensures var t := Step(s, DoReconcile(devices, None));
      && t.ports == devices && |t.controllers| == |s.controllers|
      && (if s.controllers[j].device.Some? && s.controllers[j].device.value in devices
          then t.controllers[j] == s.controllers[j] else Releases(s.controllers[j], t.controllers[j]))
  {
    ClearedHasError(s, devices, j);
  }

  // Runs -----------------------------------------------------------------------------------

  predicate RecordAt(s: State, i: nat) {
    i < |s.controllers| ==> Increasing(s.controllers[i].config.ports)
  }

  ghost predicate Recorded(s: State) {
    forall i: nat :: RecordAt(s, i)
  }

  lemma {:induction false} RecordsAreOrdered(db: seq<Config>, i: nat)
    requires WellFormed(db) && i < |db|
    ensures Increasing(db[i].ports)
    decreases |db|
  {
    if i < |db| - 1 {
      RecordsAreOrdered(db[..|db| - 1], i);
    }
  }

  lemma StepRecords(s: State, e: Event)
    requires Inv(s) && Recorded(s) && GoodEvent(s, e)
    ensures Recorded(Step(s, e))
  {
    var t := Step(s, e);
    forall i: nat
      ensures RecordAt(t, i)
    {
      assert RecordAt(s, i);
      if e.DoReconcile? && i < |t.controllers| {
        if e.db.Some? {
          RecordsAreOrdered(e.db.value, i);
          NextHolds(ClearAll(s.controllers, e.devices), e.db.value[i], e.devices);
        } else {
          ClearedHasError(s, e.devices, i);
        }
      }
    }
  }

  lemma {:induction false} RunRecords(s: State, events: seq<Event>)
    requires Inv(s) && Recorded(s) && Run(s, events).Some?
    ensures Inv(Run(s, events).value) && Recorded(Run(s, events).value)
    decreases |events|
  {
    if events != [] {
      StepKeeps(s, events[0]);
      StepRecords(s, events[0]);
      RunRecords(Step(s, events[0]), events[1..]);
    }
  }

  /**
   After any run, the next channel of a controller that is not connected is served on the port the controller
   has or on the lowest-numbered port that is present, permitted and unused; it is turned away when there is none.
   */
  lemma LowestPortIsChosen(events: seq<Event>, i: nat, control: bool, works: bool)
    requires Run(State([], []), events).Some?
    requires var s := Run(State([], []), events).value; i < |s.controllers| && !s.controllers[i].backend
    ensures var s := Run(State([], []), events).value;
      var t := Step(s, DoAccept(s.controllers[i].config.address, control, works));
      && OnlyChanges(s, t, i)
      && ((exists port: nat :: Serves(s, i, control, works, t.controllers[i], port)) || TurnsAway(s, i, t.controllers[i]))
  {
    StartIsGood();
    RunRecords(State([], []), events);
    var s := Run(State([], []), events).value;
    assert RecordAt(s, i);
    ChannelIsServed(s, i, control, works);
  }
}
