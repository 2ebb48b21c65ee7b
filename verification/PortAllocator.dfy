/** The daemon code of src/platform/linux/vdsd.cc that hands out virtual ports. */
module PortAllocator {
  import opened Base
  import opened ConfigSpec
  import opened PortSpec
  import opened PortTheorems
  import PortOutcome
  import ConfigTheorems

  class Daemon {
    var ports: seq<nat>
    var controllers: seq<Controller>

    ghost function Current(): State
      reads this
    {
      State(ports, controllers)
    }

    constructor ()
      ensures Current() == State([], []) && Inv(Current())
    {
      ports, controllers := [], [];
    }

    // Looking for a port -----------------------------------------------------------------

    method PortUsedByOther(self: nat, device: nat) returns (used: bool)
      ensures used == UsedByOther(controllers, self, device)
    {
      for j := 0 to |controllers|
        invariant forall k | 0 <= k < j && k != self :: !HeldBy(controllers[k], device)
      {
        if j != self && controllers[j].device == Some(device) && controllers[j].Uses() {
          return true;
        }
      }
      used := false;
    }

    /** The port numbers of the devices the other controllers use. */
    method OccupiedPorts(self: nat) returns (occupied: seq<nat>)
      ensures forall p :: p in occupied <==> PortIndex(p).Some? && UsedByOther(controllers, self, p)
    {
      occupied := [];
      for j := 0 to |controllers|
        invariant forall p :: p in occupied <==>
          PortIndex(p).Some? && exists k | 0 <= k < j && k != self :: HeldBy(controllers[k], p)
      {
        var other := controllers[j];
        if j != self && other.Uses() && other.device.Some? {
          var index := PortIndex(other.device.value);
          if index.Some? {
            occupied := occupied + [index.value];
          }
        }
      }
    }

    static method SelectPort(targets: seq<nat>, candidates: seq<nat>, occupied: seq<nat>, ghost s: State, ghost self: nat)
      returns (selected: Option<nat>)
      requires forall p :: p in candidates && p !in occupied <==> Free(s, self, p)
      ensures selected == FirstFree(s, self, targets) && PortOutcome.Finds(s, self, targets, selected)
    {
      PortOutcome.SearchFinds(s, self, targets);
      var i := 0;
      assert targets[0..] == targets;
      while i < |targets|
        invariant i <= |targets| && FirstFree(s, self, targets[i..]) == FirstFree(s, self, targets)
      {
        assert targets[i..][0] == targets[i] && targets[i..][1..] == targets[i + 1..];
        if targets[i] in candidates && targets[i] !in occupied {
          return Some(targets[i]);
        }
        i := i + 1;
      }
      selected := None;
    }

    method AvailablePort(self: nat) returns (port: Option<nat>)
      requires self < |controllers|
      ensures port == FirstFree(Current(), self, Targets(controllers[self].config))
      ensures Increasing(controllers[self].config.ports) ==>
              PortOutcome.FindsLowest(Current(), self, controllers[self].config, port)
    {
      if Increasing(controllers[self].config.ports) {
        PortOutcome.SearchFindsLowest(Current(), self, controllers[self].config);
      }
      var candidates: seq<nat> := [];
      for i := 0 to |ports|
        invariant forall p :: p in candidates <==> PortIndex(p).Some? && p in ports[..i]
      {
        if PortIndex(ports[i]).Some? {
          candidates := candidates + [ports[i]];
        }
      }
      assert ports[..|ports|] == ports;
      var occupied := OccupiedPorts(self);
      port := SelectPort(Targets(controllers[self].config), candidates, occupied, Current(), self);
    }

    // Accepting a channel ----------------------------------------------------------------

    method FindController(address: string) returns (i: nat)
      ensures i == FindAddress(controllers, address)
    {
      i := 0;
      assert controllers[0..] == controllers;
      while i < |controllers| && controllers[i].config.address != address
        invariant i <= |controllers|
        invariant i + FindAddress(controllers[i..], address) == FindAddress(controllers, address)
      {
        assert controllers[i..][1..] == controllers[i + 1..];
        i := i + 1;
      }
    }

    method ChooseDevice(i: nat) returns (device: Option<nat>)
      requires i < |controllers|
      ensures device == DeviceFor(Current(), i)
    {
      var own := controllers[i].device;
      if own.Some? && own.value in ports {
        var used := PortUsedByOther(i, own.value);
        if !used {
          return own;
        }
      }
      device := AvailablePort(i);
    }

    /** One accepted channel; `completes` tells whether bringing the controller up works. */
    method HandleBtAccept(address: string, controlChannel: bool, completes: bool)
      requires Inv(Current())
      modifies this
      ensures Current() == Accept(old(Current()), address, controlChannel, completes) && Inv(Current())
    {
      AcceptKeeps(Current(), address, controlChannel, completes);
      var i := FindController(address);
      if i == |controllers| || controllers[i].backend { return; }
      ghost var before := Current();
      var device := ChooseDevice(i);
      var c := controllers[i];
      if device.None? {
        NoPortsNoDevice(before, i);
        c := c.(lastError := Some(if ports == [] then ProviderUnavailable else NoAvailablePort));
        controllers := controllers[i := c];
        return;
      }
      DeviceForIsGood(before, i);
      c := c.(device := device);
      if controlChannel { c := c.(control := true); } else { c := c.(interrupt := true); }
      if c.control && c.interrupt {
        if device.value !in ports {
          assert false;
        } else if completes {
          c := c.(control := false, interrupt := false);
          c := c.(backend := true, connected := true, lastError := None);
        } else {
          c := c.(backend := false, control := false, interrupt := false, connected := false, device := None);
          c := c.(lastError := Some(ConnectFailed));
        }
      }
      controllers := controllers[i := c];
    }

    // Letting go -------------------------------------------------------------------------

    method DropBtBackend(i: nat)
      requires Inv(Current()) && i < |controllers|
      modifies this
      ensures Current() == Drop(old(Current()), i) && Inv(Current())
    {
      DropKeeps(Current(), i);
      var c := controllers[i];
      if !c.backend && !c.connected {
        assert controllers[i := c] == controllers;
        return;
      }
      c := c.(backend := false, control := false, interrupt := false, connected := false, device := None);
      controllers := controllers[i := c];
    }

    /** One round of sending; `fails[i]` says that sending to controller `i` fails. */
    method FlushPendingOutputs(fails: seq<bool>)
      requires Inv(Current()) && |fails| == |controllers|
      modifies this
      ensures Current() == Flush(old(Current()), fails) && Inv(Current())
    {
      FlushKeeps(Current(), fails);
      ghost var before := controllers;
      for i := 0 to |fails|
        invariant |controllers| == |fails| && ports == old(ports)
        invariant forall k | 0 <= k < i :: controllers[k] == Flushed(before[k], ports, fails[k])
        invariant forall k | i <= k < |fails| :: controllers[k] == before[k]
      {
        var c := controllers[i];
        if c.backend {
          if c.device.None? || c.device.value !in ports {
            controllers := controllers[i := c.Released()];
          } else if fails[i] {
            controllers := controllers[i := Dropped(c)];
          }
        }
      }
      assert controllers == Flush(State(old(ports), before), fails).controllers;
    }

    // Reloading --------------------------------------------------------------------------

    method ReleaseMissing(devices: seq<nat>)
      modifies this`controllers
      ensures controllers == ClearAll(old(controllers), devices)
    {
      ghost var before := controllers;
      for i := 0 to |controllers|
        invariant |controllers| == |before|
        invariant forall k | 0 <= k < i :: controllers[k] == Cleared(before[k], devices)
        invariant forall k | i <= k < |before| :: controllers[k] == before[k]
      {
        var c := controllers[i];
        if c.Uses() && (c.device.None? || c.device.value !in devices) {
          controllers := controllers[i := c.Released()];
        }
      }
      assert controllers == ClearAll(before, devices);
    }

    /** The first controller not taken over yet that has this address and profile. */
    method FindOld(config: Config, preserved: seq<bool>) returns (i: nat)
      requires |preserved| == |controllers|
      requires forall k | 0 <= k < |controllers| :: preserved[k] ==> !SameBinding(controllers[k], config)
      ensures i == FindBinding(controllers, config)
    {
      i := 0;
      assert controllers[0..] == controllers;
      while i < |controllers| && (preserved[i] || !SameBinding(controllers[i], config))
        invariant i <= |controllers|
        invariant i + FindBinding(controllers[i..], config) == FindBinding(controllers, config)
      {
        assert controllers[i..][1..] == controllers[i + 1..];
        i := i + 1;
      }
    }

    /** `db` is nothing when the database cannot be read: the ports are renewed all the same. */
    method ReconcileConfigs(devices: seq<nat>, db: Option<seq<Config>>)
      requires Inv(Current()) && (db.Some? ==> WellFormed(db.value))
      modifies this
      ensures Current() == Reconcile(old(Current()), devices, db) && Inv(Current())
    {
      ReconcileKeeps(Current(), devices, db);
      ClearKeeps(Current(), devices);
      ReleaseMissing(devices);
      ports := devices;
      if db.Some? {
        var next := TakeOver(db.value);
        controllers := next;
      }
    }

    /** What the record `config` takes over from controller `k`; `active` holds the devices handed on already. */
    method TakeOne(config: Config, k: nat, active: seq<nat>) returns (c: Controller, more: seq<nat>)
      requires k == FindBinding(controllers, config)
      requires NotYetActive(NextController(controllers, config, ports), active)
      ensures c == NextController(controllers, config, ports)
      ensures more == active || (c.device.Some? && more == active + [c.device.value])
    {
      c := Idle(config);
      more := active;
      if k < |controllers| {
        var before := controllers[k];
        c := c.(lastError := before.lastError);
        if before.Uses() && before.device.Some? && before.device.value in ports && Allows(config, before.device.value)
           && before.device.value !in active {
          c := before.(config := config);
          more := active + [before.device.value];
        }
      }
    }

    /** The controllers of the new database, each with what it may keep. */
    method TakeOver(configs: seq<Config>) returns (next: seq<Controller>)
      requires Inv(Current()) && WellFormed(configs)
      ensures next == NextControllers(controllers, configs, ports)
    {
      var preserved := seq(|controllers|, i => false);
      var active: seq<nat> := [];
      next := [];
      for n := 0 to |configs|
        invariant |preserved| == |controllers|
        invariant AreNext(Current(), configs, n, next)
        invariant HeldAmong(next, active)
        invariant BoundAmong(controllers, preserved, configs[..n])
      {
        PreservedIsOther(configs, n, controllers, preserved);
        ActiveIsOther(Current(), configs, n, next, active);
        var k := FindOld(configs[n], preserved);
        var c, more := TakeOne(configs[n], k, active);
        HandedOn(next, active, c, more);
        TakenOver(controllers, preserved, configs, n, k);
        ExtendNext(Current(), configs, n, next, c);
        if k < |controllers| {
          preserved := preserved[k := true];
        }
        active := more;
        next := next + [c];
      }
      assert next == NextControllers(controllers, configs, ports) by { AllNext(Current(), configs, next); }
    }
  }

  // What the records before `n` took over --------------------------------------------------

  predicate NotYetActive(c: Controller, active: seq<nat>) {
    c.device.Some? ==> c.device.value !in active
  }

  predicate AreNext(t: State, configs: seq<Config>, n: nat, next: seq<Controller>) {
    && n <= |configs| && |next| == n
    && forall m | 0 <= m < n :: next[m] == NextController(t.controllers, configs[m], t.ports)
  }

  predicate Holds(next: seq<Controller>, d: nat) {
    exists m | 0 <= m < |next| :: next[m].device == Some(d)
  }

  predicate HeldAmong(next: seq<Controller>, active: seq<nat>) {
    forall d | d in active :: Holds(next, d)
  }

  predicate AddressAmong(configs: seq<Config>, address: string) {
    exists m | 0 <= m < |configs| :: configs[m].address == address
  }

  predicate BoundAmong(controllers: seq<Controller>, preserved: seq<bool>, configs: seq<Config>)
    requires |preserved| == |controllers|
  {
    forall k | 0 <= k < |controllers| && preserved[k] :: AddressAmong(configs, controllers[k].config.address)
  }

  lemma ExtendNext(t: State, configs: seq<Config>, n: nat, next: seq<Controller>, c: Controller)
    requires AreNext(t, configs, n, next) && n < |configs|
    requires c == NextController(t.controllers, configs[n], t.ports)
    ensures AreNext(t, configs, n + 1, next + [c])
  {}

  lemma AllNext(t: State, configs: seq<Config>, next: seq<Controller>)
    requires AreNext(t, configs, |configs|, next)
    ensures next == NextControllers(t.controllers, configs, t.ports)
  {}

  lemma HandedOn(next: seq<Controller>, active: seq<nat>, c: Controller, more: seq<nat>)
    requires HeldAmong(next, active)
    requires more == active || (c.device.Some? && more == active + [c.device.value])
    ensures HeldAmong(next + [c], more)
  {
    var all := next + [c];
    assert all[|next|] == c;
    forall d | d in more
      ensures Holds(all, d)
    {
      if d in active {
        assert Holds(next, d);
        var m :| 0 <= m < |next| && next[m].device == Some(d);
        assert all[m].device == Some(d);
      }
    }
  }

  lemma TakenOver(controllers: seq<Controller>, preserved: seq<bool>, configs: seq<Config>, n: nat, k: nat)
    requires |preserved| == |controllers| && n < |configs| && BoundAmong(controllers, preserved, configs[..n])
    requires k < |controllers| ==> controllers[k].config.address == configs[n].address
    ensures BoundAmong(controllers, if k < |controllers| then preserved[k := true] else preserved, configs[..n + 1])
  {
    var marked := if k < |controllers| then preserved[k := true] else preserved;
    forall i | 0 <= i < |controllers| && marked[i]
      ensures AddressAmong(configs[..n + 1], controllers[i].config.address)
    {
      if i == k {
        assert configs[..n + 1][n].address == controllers[i].config.address;
      } else {
        assert AddressAmong(configs[..n], controllers[i].config.address);
        var m :| 0 <= m < n && configs[..n][m].address == controllers[i].config.address;
        assert configs[..n + 1][m].address == controllers[i].config.address;
      }
    }
  }

  /** A controller taken over already belongs to another record. */
  lemma PreservedIsOther(configs: seq<Config>, n: nat, controllers: seq<Controller>, preserved: seq<bool>)
    requires WellFormed(configs) && n < |configs| && |preserved| == |controllers|
    requires BoundAmong(controllers, preserved, configs[..n])
    ensures forall k | 0 <= k < |controllers| :: preserved[k] ==> !SameBinding(controllers[k], configs[n])
  {
    forall k | 0 <= k < |controllers| && preserved[k]
      ensures !SameBinding(controllers[k], configs[n])
    {
      assert AddressAmong(configs[..n], controllers[k].config.address);
      var m :| 0 <= m < n && configs[..n][m].address == controllers[k].config.address;
      ConfigTheorems.AddressesAreDistinct(configs, m, n);
    }
  }

  /** The test for devices handed on already never fires: a device has one holder. */
  lemma ActiveIsOther(t: State, configs: seq<Config>, n: nat, next: seq<Controller>, active: seq<nat>)
    requires Inv(t) && WellFormed(configs) && n < |configs|
    requires AreNext(t, configs, n, next) && HeldAmong(next, active)
    ensures NotYetActive(NextController(t.controllers, configs[n], t.ports), active)
  {
    var c := NextController(t.controllers, configs[n], t.ports);
    if c.device.Some? && c.device.value in active {
      assert Holds(next, c.device.value);
      var m :| 0 <= m < n && next[m].device == Some(c.device.value);
      ConfigTheorems.AddressesAreDistinct(configs, m, n);
      NextApart(t, configs[m], configs[n]);
    }
  }

  lemma NoPortsNoDevice(s: State, i: nat)
    requires Inv(s) && i < |s.controllers| && DeviceFor(s, i).None?
    ensures s.controllers[i].device.None?
  {
    if s.controllers[i].device.Some? {
      OwnDeviceIsUsable(s, i);
    }
  }
}
