/** What the port manager's methods do to a device, seen as a value. */
module DevicePatching {
  import opened Base
  import opened Wirings
  import opened Patching
  import opened PortSettings

  function StateOf(p: Port): PortState
    reads p
  {
    PortState(p.uniqueId, p.capability, p.BoundTo(), p.priority, p.mode)
  }

  function States(ports: seq<Port>): (s: seq<PortState>)
    reads ports
    ensures |s| == |ports| && forall i :: 0 <= i < |ports| ==> s[i] == StateOf(ports[i])
  {
    seq(|ports|, i requires 0 <= i < |ports| reads ports => StateOf(ports[i]))
  }

  /** The state of a port has all its settings. */
  lemma StatesShow(ports: seq<Port>, i: nat)
    requires i < |ports|
    ensures
      var s := States(ports)[i];
      && s.id == ports[i].uniqueId && s.capability == ports[i].capability
      && s.universe == (if ports[i].universe == null then None else Some(ports[i].universe.id))
      && s.priority == ports[i].priority && s.mode == ports[i].mode
  {}

  function DeviceStateOf(d: Device): DeviceState
    reads d, d.inputPorts, d.outputPorts
  {
    DeviceState(d.allowLooping, d.allowMultiPortPatching, States(d.inputPorts), States(d.outputPorts))
  }

  lemma StateHasTheWiring(d: Device)
    ensures DeviceStateOf(d).Wiring() == d.Wiring()
  {
    assert Universes(States(d.inputPorts)) == Bindings(d.inputPorts);
    assert Universes(States(d.outputPorts)) == Bindings(d.outputPorts);
  }

  /** A device's state with one port replaced. */
  function WithPort(s: DeviceState, input: bool, k: nat, p: PortState): DeviceState
    requires k < |s.Ports(input)|
  {
    s.With(input, s.Ports(input)[k := p])
  }

  ghost predicate AllBut(states: seq<PortState>, ports: seq<Port>, k: int)
    reads ports
  {
    |states| == |ports| && forall i :: 0 <= i < |ports| && i != k ==> states[i] == StateOf(ports[i])
  }

  /** When only one port of a device differs, the device's state differs there only. */
  lemma OnePort(d: Device, before: DeviceState, input: bool, k: nat)
    requires before.looping == d.allowLooping && before.multi == d.allowMultiPortPatching
    requires k < |d.Ports(input)| && AllBut(before.Ports(input), d.Ports(input), k)
    requires AllBut(before.Ports(!input), d.Ports(!input), -1)
    ensures DeviceStateOf(d) == WithPort(before, input, k, StateOf(d.Ports(input)[k]))
    ensures d.Wiring() == before.Wiring().Bound(input, k, d.Ports(input)[k].BoundTo())
  {
    var after := WithPort(before, input, k, StateOf(d.Ports(input)[k]));
    assert States(d.Ports(input)) == after.Ports(input);
    assert States(d.Ports(!input)) == after.Ports(!input);
    StateHasTheWiring(d);
    assert Universes(after.Ports(input)) == Universes(before.Ports(input))[k := d.Ports(input)[k].BoundTo()];
  }

  lemma Itself(d: Device, input: bool, port: Port, k: nat)
    requires d.Valid() && k < |d.Ports(input)| && d.Ports(input)[k] == port
    ensures port.isInput == input && port.device == d && port !in d.Ports(!input)
    ensures forall i :: 0 <= i < |d.Ports(input)| && i != k ==> d.Ports(input)[i] != port
    ensures forall u :: MayPatch(port, u) == d.Wiring().Allows(input, port.BoundTo(), u)
  {
    assert port in d.Ports(input);
  }

  /** PatchPort on one port of a device. */
  method PatchOnDevice(manager: PortManager, d: Device, input: bool, port: Port, ghost k: nat, u: nat) returns (ok: bool)
    requires manager.Valid() && d.Valid() && Knows(manager, d)
    requires k < |d.Ports(input)| && d.Ports(input)[k] == port
    modifies manager`universes, manager.universes.Values, port`universe
    ensures manager.Valid() && d.Valid() && manager.ports == old(manager.ports)
    ensures fresh(manager.universes.Values - old(manager.universes.Values))
    ensures ok == old(d.Wiring().Allows(input, port.BoundTo(), u))
    ensures ok ==> DeviceStateOf(d) == old(WithPort(DeviceStateOf(d), input, k, StateOf(port).(universe := Some(u))))
    ensures !ok ==> DeviceStateOf(d) == old(DeviceStateOf(d))
    ensures d.Wiring() == old(d.Wiring().Patched(input, k, u))
  {
    Itself(d, input, port, k);
    assert port in d.Ports(input);
    ghost var before := DeviceStateOf(d);
    StateHasTheWiring(d);
    assert before.Wiring().Same(input)[k] == port.BoundTo();
    hide PortManager.Valid, Device.Valid, MayPatch, Wiring.Allows, Knows;
    ok := manager.PatchPort(port, u);
    assert AllBut(before.Ports(input), d.Ports(input), k);
    assert AllBut(before.Ports(!input), d.Ports(!input), -1);
    hide AllBut, Device.Wiring;
    OnePort(d, before, input, k);
    assert !ok ==> StateOf(port) == before.Ports(input)[k] && before.Ports(input)[k].universe == port.BoundTo();
    hide DeviceStateOf, StateOf;
    SamePort(before, input, k);
  }

  lemma SamePort(s: DeviceState, input: bool, k: nat)
    requires k < |s.Ports(input)|
    ensures WithPort(s, input, k, s.Ports(input)[k]) == s
    ensures s.Wiring().Bound(input, k, s.Ports(input)[k].universe) == s.Wiring()
  {
    assert s.Ports(input)[k := s.Ports(input)[k]] == s.Ports(input);
    assert s.Wiring().Same(input) == Universes(s.Ports(input));
    assert Universes(s.Ports(input))[k := s.Ports(input)[k].universe] == Universes(s.Ports(input));
  }

  /** UnPatchPort on one port of a device. */
  method UnpatchOnDevice(manager: PortManager, d: Device, input: bool, port: Port, ghost k: nat)
    requires manager.Valid() && d.Valid() && Knows(manager, d)
    requires k < |d.Ports(input)| && d.Ports(input)[k] == port
    modifies port.universe, port`universe
    ensures manager.Valid() && d.Valid()
    ensures DeviceStateOf(d) == old(WithPort(DeviceStateOf(d), input, k, StateOf(port).(universe := None)))
    ensures d.Wiring() == old(d.Wiring().Bound(input, k, None))
  {
    Itself(d, input, port, k);
    assert port in d.Ports(input);
    ghost var before := DeviceStateOf(d);
    StateHasTheWiring(d);
    hide PortManager.Valid, Device.Valid, MayPatch;
    manager.UnPatchPort(port);
    assert AllBut(before.Ports(input), d.Ports(input), k);
    assert AllBut(before.Ports(!input), d.Ports(!input), -1);
    hide AllBut, Device.Wiring;
    OnePort(d, before, input, k);
  }

  // ----- Any sequence of calls on any devices

  datatype Call = Patch(device: Device, input: bool, port: nat, universe: nat)
                | Unpatch(device: Device, input: bool, port: nat)

  ghost predicate Settled(manager: PortManager, d: Device)
    reads manager, d, d.inputPorts, d.outputPorts
  {
    d.Valid() && Knows(manager, d) && d.Wiring().Lawful()
  }

  /** Another device's port is none of d's. */
  lemma Elsewhere(d: Device, port: Port)
    requires d.Valid() && port.device != d
    ensures port !in d.inputPorts && port !in d.outputPorts
  {}

  function ChangeOf(c: Call): Change {
    if c.Patch? then Wirings.Patch(c.input, c.port, c.universe) else Wirings.Unpatch(c.input, c.port)
  }

  lemma ApplyOf(w: Wiring, c: Call)
    requires c.port < |w.Same(c.input)|
    ensures c.Patch? ==> Apply(w, ChangeOf(c)) == w.Patched(c.input, c.port, c.universe)
    ensures c.Unpatch? ==> Apply(w, ChangeOf(c)) == w.Bound(c.input, c.port, None)
  {}

  /** One call, for the device it is about; only that port and the universes move. */
  method MakeOwnCall(manager: PortManager, c: Call, port: Port)
    requires manager.Valid() && c.device.Valid() && Knows(manager, c.device)
    requires c.port < |c.device.Ports(c.input)| && port == c.device.Ports(c.input)[c.port]
    modifies manager`universes, manager.universes.Values, port`universe
    ensures manager.Valid() && manager.ports == old(manager.ports)
    ensures fresh(manager.universes.Values - old(manager.universes.Values))
    ensures c.device.Wiring() == Apply(old(c.device.Wiring()), ChangeOf(c))
  {
    ghost var w := c.device.Wiring();
    assert |w.Same(c.input)| == |c.device.Ports(c.input)|;
    ApplyOf(w, c);
    hide *;
    if c.Patch? {
      var _ := PatchOnDevice(manager, c.device, c.input, port, c.port, c.universe);
    } else {
      UnpatchOnDevice(manager, c.device, c.input, port, c.port);
    }
  }

  method MakeCall(manager: PortManager, c: Call, ghost devices: set<Device>)
    requires manager.Valid() && c.device in devices && c.port < |c.device.Ports(c.input)|
    requires forall d :: d in devices ==> Settled(manager, d)
    modifies manager`universes, manager.universes.Values, manager.ports`universe
    ensures manager.Valid() && manager.ports == old(manager.ports)
    ensures fresh(manager.universes.Values - old(manager.universes.Values))
    ensures forall d :: d in devices ==> Settled(manager, d)
    ensures c.device.Wiring() == Apply(old(c.device.Wiring()), ChangeOf(c))
    ensures forall d :: d in devices && d != c.device ==> d.Wiring() == old(d.Wiring())
  {
    var port := c.device.Ports(c.input)[c.port];
    Itself(c.device, c.input, port, c.port);
    assert port in c.device.Ports(c.input) && port in manager.ports;
    ApplyLawful(c.device.Wiring(), ChangeOf(c));
    forall d | d in devices && d != c.device ensures port !in d.inputPorts && port !in d.outputPorts {
      Elsewhere(d, port);
    }
    hide PortManager.Valid, Device.Valid, Device.Wiring, Apply, Wiring.Lawful, Device.Ports, ChangeOf;
    MakeOwnCall(manager, c, port);
    forall d | d in devices && d != c.device ensures d.Wiring() == old(d.Wiring()) {
      assert port !in d.inputPorts && port !in d.outputPorts;
    }
  }

  /**
   * Whatever calls are made on whatever devices, all devices keep to their rules, and a port
   * stays in a universe's list exactly as long as it points to that universe.
   */
  method MakeCalls(manager: PortManager, calls: seq<Call>, ghost devices: set<Device>)
    requires manager.Valid() && forall d :: d in devices ==> Settled(manager, d)
    requires forall i :: 0 <= i < |calls| ==>
               calls[i].device in devices && calls[i].port < |calls[i].device.Ports(calls[i].input)|
    modifies manager`universes, manager.universes.Values, manager.ports`universe
    ensures manager.Valid() && forall d :: d in devices ==> Settled(manager, d)
  {
    for i := 0 to |calls|
      invariant manager.Valid() && manager.ports == old(manager.ports)
      invariant fresh(manager.universes.Values - old(manager.universes.Values))
      invariant forall d :: d in devices ==> Settled(manager, d)
    {
      hide PortManager.Valid, Settled;
      MakeCall(manager, calls[i], devices);
    }
  }
}
