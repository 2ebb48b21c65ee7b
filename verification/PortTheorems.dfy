/** No two controllers ever share a virtual port, over any run of the daemon. */
module PortTheorems {
  import opened Base
  import opened ConfigSpec
  import opened PortSpec
  import ConfigTheorems

  // The invariant ------------------------------------------------------------------------

  /** A controller names a device exactly while it uses one; the device is present and allowed. */
  predicate Sound(c: Controller, ports: seq<nat>) {
    && c.Phase() && (c.Uses() <==> c.device.Some?)
    && (c.device.Some? ==> c.device.value in ports && Allows(c.config, c.device.value))
  }

  predicate Apart(c: Controller, d: Controller) {
    && c.config.address != d.config.address
    && (c.device.Some? ==> c.device != d.device)
  }

  predicate SoundAt(s: State, i: nat) {
    i < |s.controllers| ==> Sound(s.controllers[i], s.ports)
  }

  predicate ApartAt(s: State, i: nat, j: nat) {
    i < j < |s.controllers| ==> Apart(s.controllers[i], s.controllers[j])
  }

  ghost predicate Inv(s: State) {
    && (forall i: nat :: SoundAt(s, i))
    && (forall i: nat, j: nat :: ApartAt(s, i, j))
  }

  lemma Both(s: State, i: nat, j: nat)
    requires Inv(s) && i < |s.controllers| && j < |s.controllers| && i != j
    ensures Sound(s.controllers[i], s.ports) && Sound(s.controllers[j], s.ports)
    ensures Apart(s.controllers[i], s.controllers[j]) && Apart(s.controllers[j], s.controllers[i])
  {
    assert SoundAt(s, i) && SoundAt(s, j) && ApartAt(s, i, j) && ApartAt(s, j, i);
  }

  /** Replacing one controller keeps the invariant when the new one is sound and shares nothing. */
  lemma UpdateKeeps(s: State, k: nat, c: Controller)
    requires Inv(s) && k < |s.controllers| && Sound(c, s.ports)
    requires c.config.address == s.controllers[k].config.address
    requires c.device.Some? ==> !UsedByOther(s.controllers, k, c.device.value)
    ensures Inv(Update(s, k, c))
  {
    var t := Update(s, k, c);
    forall i: nat
      ensures SoundAt(t, i)
    {
      assert SoundAt(s, i);
    }
    forall i: nat, j: nat
      ensures ApartAt(t, i, j)
    {
      if i < j < |s.controllers| {
        assert ApartAt(s, i, j);
        if i == k || j == k {
          var other := if i == k then j else i;
          Both(s, k, other);
          assert c.device.Some? ==> !HeldBy(s.controllers[other], c.device.value);
        }
      }
    }
  }

  lemma ReleasedIsSound(c: Controller, ports: seq<nat>)
    ensures Sound(c.Released(), ports)
  {}

  // Accepting ----------------------------------------------------------------------------

  /** Under the invariant a controller that has a device may go on using it. */
  lemma OwnDeviceIsUsable(s: State, i: nat)
    requires Inv(s) && i < |s.controllers| && s.controllers[i].device.Some?
    ensures s.controllers[i].device.value in s.ports
    ensures !UsedByOther(s.controllers, i, s.controllers[i].device.value)
    ensures DeviceFor(s, i) == s.controllers[i].device
  {
    assert SoundAt(s, i);
    var path := s.controllers[i].device.value;
    forall j | 0 <= j < |s.controllers| && j != i
      ensures !HeldBy(s.controllers[j], path)
    {
      Both(s, i, j);
    }
  }

  lemma TargetsAreAllowed(config: Config, port: nat)
    requires port in Targets(config) && PortIndex(port).Some?
    ensures Allows(config, port)
  {}

  lemma DeviceForIsGood(s: State, i: nat)
    requires Inv(s) && i < |s.controllers| && DeviceFor(s, i).Some?
    ensures var device := DeviceFor(s, i).value;
      device in s.ports && Allows(s.controllers[i].config, device) && !UsedByOther(s.controllers, i, device)
  {
    if s.controllers[i].device.Some? {
      OwnDeviceIsUsable(s, i);
      assert SoundAt(s, i);
    } else {
      TargetsAreAllowed(s.controllers[i].config, DeviceFor(s, i).value);
    }
  }

  lemma AcceptKeeps(s: State, address: string, control: bool, completes: bool)
    requires Inv(s)
    ensures Inv(Accept(s, address, control, completes))
  {
    var i := FindAddress(s.controllers, address);
    if i < |s.controllers| && !s.controllers[i].backend {
      var c := s.controllers[i];
      assert SoundAt(s, i);
      match DeviceFor(s, i)
      case None =>
        if c.device.Some? { OwnDeviceIsUsable(s, i); }
        UpdateKeeps(s, i, c.(lastError := Some(if s.ports == [] then ProviderUnavailable else NoAvailablePort)));
      case Some(device) =>
        DeviceForIsGood(s, i);
        UpdateKeeps(s, i, WithChannel(c, device, control, completes));
    }
  }

  predicate AllAllowedTaken(s: State, i: nat)
    requires i < |s.controllers|
  {
    forall p | p in s.ports && Allows(s.controllers[i].config, p) :: UsedByOther(s.controllers, i, p)
  }

  /** A waiting controller is turned away exactly when every port it may use is missing or taken. */
  lemma RefusedExactlyWhenFull(s: State, i: nat)
    requires Inv(s) && i < |s.controllers| && !s.controllers[i].backend
    ensures DeviceFor(s, i).None? <==> AllAllowedTaken(s, i)
  {
    var c := s.controllers[i];
    assert SoundAt(s, i);
    if DeviceFor(s, i).Some? {
      DeviceForIsGood(s, i);
    } else {
      if c.device.Some? { OwnDeviceIsUsable(s, i); }
      forall p | p in s.ports && Allows(c.config, p)
        ensures UsedByOther(s.controllers, i, p)
      {
        assert p in Targets(c.config);
        assert !Free(s, i, p);
      }
    }
  }

  // Letting go ---------------------------------------------------------------------------

  lemma DropKeeps(s: State, i: nat)
    requires Inv(s) && i < |s.controllers|
    ensures Inv(Drop(s, i))
  {
    assert SoundAt(s, i);
    var c := s.controllers[i];
    if c.backend || c.connected {
      UpdateKeeps(s, i, c.Released());
    } else {
      assert s.controllers[i := c] == s.controllers;
    }
  }

  /** Releasing some controllers keeps the invariant. */
  lemma ReleasingKeeps(s: State, t: State)
    requires Inv(s) && |t.controllers| == |s.controllers|
    requires forall i | 0 <= i < |s.controllers| ::
      t.controllers[i] == s.controllers[i].Released() ||
      (t.controllers[i] == s.controllers[i] && Sound(t.controllers[i], t.ports))
    ensures Inv(t)
  {
    forall i: nat
      ensures SoundAt(t, i)
    {
      if i < |t.controllers| { ReleasedIsSound(s.controllers[i], t.ports); }
    }
    forall i: nat, j: nat
      ensures ApartAt(t, i, j)
    {
      assert ApartAt(s, i, j);
    }
  }

  lemma FlushKeeps(s: State, fails: seq<bool>)
    requires Inv(s) && |fails| == |s.controllers|
    ensures Inv(Flush(s, fails))
  {
    var t := Flush(s, fails);
    forall i | 0 <= i < |s.controllers|
      ensures t.controllers[i] == s.controllers[i].Released() ||
        (t.controllers[i] == s.controllers[i] && Sound(t.controllers[i], t.ports))
    {
      assert SoundAt(s, i);
      assert t.controllers[i] == Flushed(s.controllers[i], s.ports, fails[i]);
    }
    ReleasingKeeps(s, t);
  }

  /** The flush never finds a connected controller without its port. */
  lemma FlushFindsEveryPort(s: State, i: nat)
    requires Inv(s) && i < |s.controllers| && s.controllers[i].backend
    ensures s.controllers[i].device.Some? && s.controllers[i].device.value in s.ports
  {
    assert SoundAt(s, i);
  }

  // Reloading ----------------------------------------------------------------------------

  lemma ClearKeeps(s: State, devices: seq<nat>)
    requires Inv(s)
    ensures Inv(State(devices, ClearAll(s.controllers, devices)))
  {
    var t := State(devices, ClearAll(s.controllers, devices));
    forall i | 0 <= i < |s.controllers|
      ensures t.controllers[i] == s.controllers[i].Released() ||
        (t.controllers[i] == s.controllers[i] && Sound(t.controllers[i], t.ports))
    {
      assert SoundAt(s, i);
    }
    ReleasingKeeps(s, t);
  }

  /** What a new controller holds, the old one of the same address held. */
  lemma NextHolds(cleared: seq<Controller>, config: Config, devices: seq<nat>)
    ensures var next, k := NextController(cleared, config, devices), FindBinding(cleared, config);
      next.config == config && (next.device.Some? ==>
        k < |cleared| && cleared[k].config.address == config.address && next.device == cleared[k].device)
  {}

  lemma NextIsSound(cleared: seq<Controller>, config: Config, devices: seq<nat>)
    requires forall k | 0 <= k < |cleared| :: Sound(cleared[k], devices)
    ensures Sound(NextController(cleared, config, devices), devices)
  {}

  lemma NextApart(t: State, x: Config, y: Config)
    requires Inv(t) && x.address != y.address
    ensures Apart(NextController(t.controllers, x, t.ports), NextController(t.controllers, y, t.ports))
  {
    NextHolds(t.controllers, x, t.ports);
    NextHolds(t.controllers, y, t.ports);
    var k, l := FindBinding(t.controllers, x), FindBinding(t.controllers, y);
    if k < |t.controllers| && l < |t.controllers| {
      Both(t, k, l);
    }
  }

  lemma ReconcileKeeps(s: State, devices: seq<nat>, db: Option<seq<Config>>)
    requires Inv(s) && (db.Some? ==> WellFormed(db.value))
    ensures Inv(Reconcile(s, devices, db))
  {
    ClearKeeps(s, devices);
    if db.Some? {
      var t := State(devices, ClearAll(s.controllers, devices));
      var r := Reconcile(s, devices, db);
      forall k | 0 <= k < |t.controllers|
        ensures Sound(t.controllers[k], devices)
      {
        assert SoundAt(t, k);
      }
      forall i: nat
        ensures SoundAt(r, i)
      {
        if i < |r.controllers| { NextIsSound(t.controllers, db.value[i], devices); }
      }
      forall i: nat, j: nat
        ensures ApartAt(r, i, j)
      {
        if i < j < |r.controllers| {
          ConfigTheorems.AddressesAreDistinct(db.value, i, j);
          NextApart(t, db.value[i], db.value[j]);
        }
      }
    }
  }

  // Runs ---------------------------------------------------------------------------------

  lemma StepKeeps(s: State, e: Event)
    requires Inv(s) && GoodEvent(s, e)
    ensures Inv(Step(s, e))
  {
    match e
    case DoAccept(address, control, completes) => AcceptKeeps(s, address, control, completes);
    case DoDrop(i) => DropKeeps(s, i);
    case DoFlush(fails) => FlushKeeps(s, fails);
    case DoReconcile(devices, db) => ReconcileKeeps(s, devices, db);
  }

  lemma {:induction false} RunKeeps(s: State, events: seq<Event>)
    requires Inv(s) && Run(s, events).Some?
    ensures Inv(Run(s, events).value)
    decreases |events|
  {
    if events != [] {
      StepKeeps(s, events[0]);
      RunKeeps(Step(s, events[0]), events[1..]);
    }
  }

  lemma StartIsGood()
    ensures Inv(State([], []))
  {}

  /** In every reachable state held devices are present, allowed and held once. */
  lemma NoSharedDevice(events: seq<Event>, i: nat, j: nat)
    requires Run(State([], []), events).Some?
    requires var cs := Run(State([], []), events).value.controllers;
      i < |cs| && j < |cs| && i != j && cs[i].Uses()
    ensures var t := Run(State([], []), events).value;
      var c := t.controllers[i];
      c.device.Some? && c.device.value in t.ports && Allows(c.config, c.device.value) &&
      t.controllers[j].device != c.device
  {
    StartIsGood();
    RunKeeps(State([], []), events);
    Both(Run(State([], []), events).value, i, j);
  }
}
