/** Ports, universes and the port manager of olad, which bind and release ports in place. */
module Patching {
  import opened Base
  import opened Wirings

  const PRIORITY_MAX := 200
  const PRIORITY_DEFAULT := 100

  datatype Capability = NoPriority | Static | Full

  datatype Mode = Inherit | Override

  class Universe {
    const id: nat
    var inputPorts: seq<Port>
    var outputPorts: seq<Port>

    constructor (id: nat)
      ensures this.id == id && inputPorts == [] && outputPorts == []
    {
      this.id := id;
      inputPorts, outputPorts := [], [];
    }

    function Ports(input: bool): seq<Port>
      reads this
    {
      if input then inputPorts else outputPorts
    }

    /** Universe::AddPort */
    method AddPort(port: Port)
      modifies this
      ensures Ports(port.isInput) == old(Ports(port.isInput)) + if port in old(Ports(port.isInput)) then [] else [port]
      ensures Ports(!port.isInput) == old(Ports(!port.isInput))
    {
      if port.isInput {
        if port !in inputPorts {
          inputPorts := inputPorts + [port];
        }
      } else {
        if port !in outputPorts {
          outputPorts := outputPorts + [port];
        }
      }
    }

    /** Universe::RemovePort */
    method RemovePort(port: Port)
      requires NoDuplicates(Ports(port.isInput))
      modifies this
      ensures NoDuplicates(Ports(port.isInput))
      ensures forall p :: p in Ports(port.isInput) <==> p in old(Ports(port.isInput)) && p != port
      ensures Ports(!port.isInput) == old(Ports(!port.isInput))
    {
      var ports := Ports(port.isInput);
      var i := 0;
      while i < |ports| && ports[i] != port
        invariant 0 <= i <= |ports|
        invariant port !in ports[..i]
      {
        i := i + 1;
      }
      if i == |ports| {
        return;
      }
      if port.isInput {
        inputPorts := ports[..i] + ports[i + 1..];
      } else {
        outputPorts := ports[..i] + ports[i + 1..];
      }
    }
  }

  ghost predicate NoDuplicates(ports: seq<Port>) {
    forall i, j :: 0 <= i < j < |ports| ==> ports[i] != ports[j]
  }

  class Port {
    const isInput: bool
    const capability: Capability
    const uniqueId: string
    const device: Device?
    var universe: Universe?
    var priority: Byte
    var mode: Mode

    constructor (device: Device?, isInput: bool, capability: Capability, uniqueId: string)
      ensures this.device == device && this.isInput == isInput
      ensures this.capability == capability && this.uniqueId == uniqueId
      ensures universe == null && priority == PRIORITY_DEFAULT && mode == Inherit
    {
      this.device, this.isInput, this.capability, this.uniqueId := device, isInput, capability, uniqueId;
      universe, priority, mode := null, PRIORITY_DEFAULT, Inherit;
    }

    function BoundTo(): Option<nat>
      reads this
    {
      if universe == null then None else Some(universe.id)
    }

    /** Port::SetPriority refuses values above the maximum. */
    method SetPriority(value: Byte)
      modifies this`priority
      ensures priority == if value > PRIORITY_MAX then old(priority) else value
    {
      if value <= PRIORITY_MAX {
        priority := value;
      }
    }
  }

  class Device {
    const uniqueId: string
    const allowLooping: bool
    const allowMultiPortPatching: bool
    var inputPorts: seq<Port>
    var outputPorts: seq<Port>

    constructor (uniqueId: string, allowLooping: bool, allowMultiPortPatching: bool)
      ensures this.uniqueId == uniqueId && this.allowLooping == allowLooping
      ensures this.allowMultiPortPatching == allowMultiPortPatching
      ensures inputPorts == [] && outputPorts == []
    {
      this.uniqueId := uniqueId;
      this.allowLooping, this.allowMultiPortPatching := allowLooping, allowMultiPortPatching;
      inputPorts, outputPorts := [], [];
    }

    function Ports(input: bool): seq<Port>
      reads this
    {
      if input then inputPorts else outputPorts
    }

    /** The device's ports are its own, of the right kind, and listed once. */
    ghost predicate Valid()
      reads this
    {
      && NoDuplicates(inputPorts) && NoDuplicates(outputPorts)
      && (forall p :: p in inputPorts ==> p.isInput && p.device == this)
      && (forall p :: p in outputPorts ==> !p.isInput && p.device == this)
    }

    function Wiring(): Wiring
      reads this, inputPorts, outputPorts
    {
      Wirings.Wiring(allowLooping, allowMultiPortPatching, Bindings(inputPorts), Bindings(outputPorts))
    }
  }

  function Bindings(ports: seq<Port>): (side: Side)
    reads ports
    ensures |side| == |ports|
    ensures forall i :: 0 <= i < |ports| ==> side[i] == ports[i].BoundTo()
  {
    seq(|ports|, i requires 0 <= i < |ports| reads ports => ports[i].BoundTo())
  }

  /** What the port manager decides about a port and a universe. */
  predicate MayPatch(port: Port, u: nat)
    reads port, port.device
    reads if port.device == null then [] else port.device.inputPorts
    reads if port.device == null then [] else port.device.outputPorts
  {
    port.device == null || port.device.Wiring().Allows(port.isInput, port.BoundTo(), u)
  }

  ghost predicate Knows(manager: PortManager, d: Device)
    reads manager, d
  {
    (forall p :: p in d.inputPorts ==> p in manager.ports) && (forall p :: p in d.outputPorts ==> p in manager.ports)
  }

  class PortManager {
    var universes: map<nat, Universe>    // the universe store
    ghost var ports: set<Port>           // every port there is

    /** A port is in a universe's list exactly when it points to that universe. */
    ghost predicate Valid()
      reads this, ports, universes.Values
    {
      && (forall u :: u in universes ==> universes[u].id == u)
      && (forall p :: p in ports && p.universe != null ==>
            p.universe.id in universes && universes[p.universe.id] == p.universe)
      && (forall u :: u in universes ==> Lists(universes[u], true) && Lists(universes[u], false))
    }

    ghost predicate Lists(u: Universe, input: bool)
      reads this, ports, u
    {
      && NoDuplicates(u.Ports(input))
      && (forall p :: p in u.Ports(input) ==> p in ports && p.isInput == input && p.universe == u)
      && (forall p :: p in ports && p.isInput == input && p.universe == u ==> p in u.Ports(input))
    }

    constructor (ghost ports: set<Port>)
      requires forall p :: p in ports ==> p.universe == null
      ensures Valid() && this.ports == ports && universes == map[]
    {
      universes := map[];
      this.ports := ports;
    }

    /** CheckForPortMatchingUniverse */
    static method AnyPortOn(ports: seq<Port>, u: nat) returns (found: bool)
      ensures found <==> Some(u) in Bindings(ports)
    {
      for i := 0 to |ports|
        invariant forall j :: 0 <= j < i ==> ports[j].BoundTo() != Some(u)
      {
        if ports[i].universe != null && ports[i].universe.id == u {
          assert Bindings(ports)[i] == Some(u);
          return true;
        }
      }
      return false;
    }

    /** CheckLooping and CheckMultiPort for a port that is not bound to u. */
    static method Conflicts(port: Port, device: Device, u: nat) returns (conflict: bool)
      requires port.BoundTo() != Some(u)
      ensures conflict <==> !device.Wiring().Allows(port.isInput, port.BoundTo(), u)
    {
      if !device.allowLooping {
        conflict := AnyPortOn(device.Ports(!port.isInput), u);
        if conflict {
          return;
        }
      }
      if !device.allowMultiPortPatching {
        conflict := AnyPortOn(device.Ports(port.isInput), u);
        return;
      }
      return false;
    }

    /** UniverseStore::GetUniverseOrCreate */
    method GetUniverseOrCreate(u: nat) returns (universe: Universe)
      requires Valid()
      modifies this`universes
      ensures Valid() && u in universes && universes[u] == universe
      ensures universes == old(universes)[u := universe]
      ensures u in old(universes) ==> universe == old(universes)[u]
      ensures u !in old(universes) ==> fresh(universe)
    {
      if u in universes {
        universe := universes[u];
      } else {
        universe := new Universe(u);
        universes := universes[u := universe];
      }
    }

    /** Takes a port off the universe it points to. */
    method Detach(port: Port)
      requires Valid() && port in ports && port.universe != null
      modifies port.universe, port`universe
      ensures Valid() && port.universe == null
    {
      var universe := port.universe;
      assert Lists(universe, true) && Lists(universe, false);
      hide NoDuplicates;
      universe.RemovePort(port);
      port.universe := null;
      assert Lists(universe, true) && Lists(universe, false);
      forall u | u in universes && universes[u] != universe
        ensures Lists(universes[u], true) && Lists(universes[u], false)
      {
        assert old(Lists(universes[u], true) && Lists(universes[u], false));
        assert port !in universes[u].Ports(port.isInput);
      }
      hide Lists;
    }

    method Attach(port: Port, universe: Universe)
      requires Valid() && port in ports && port.universe == null
      requires universe.id in universes && universes[universe.id] == universe
      modifies universe, port`universe
      ensures Valid() && port.universe == universe
    {
      assert Lists(universe, true) && Lists(universe, false);
      universe.AddPort(port);
      port.universe := universe;
      assert Lists(universe, true) && Lists(universe, false);
      forall u | u in universes && universes[u] != universe
        ensures Lists(universes[u], true) && Lists(universes[u], false)
      {
        assert old(Lists(universes[u], true) && Lists(universes[u], false));
      }
      hide Lists;
    }

    /** GenericPatchPort, for a port that GetUniverseOrCreate and PreSetUniverse do not refuse. */
    method PatchPort(port: Port, u: nat) returns (ok: bool)
      requires Valid() && port in ports
      modifies this`universes, universes.Values, port`universe
      ensures Valid() && ports == old(ports)
      ensures ok == old(MayPatch(port, u))
      ensures ok ==> port.BoundTo() == Some(u)
      ensures !ok ==> port.universe == old(port.universe) && universes == old(universes)
      ensures !ok ==> unchanged(universes.Values)
      ensures fresh(universes.Values - old(universes.Values))
    {
      if port.universe != null && port.universe.id == u {
        return true;
      }
      if port.device != null {
        var conflict := Conflicts(port, port.device, u);
        if conflict {
          return false;
        }
      }
      hide MayPatch, Lists;
      if port.universe != null {
        Detach(port);
      }
      var universe := GetUniverseOrCreate(u);
      Attach(port, universe);
      return true;
    }

    /** GenericUnPatchPort */
    method UnPatchPort(port: Port)
      requires Valid() && port in ports
      modifies port.universe, port`universe
      ensures Valid() && port.universe == null
    {
      if port.universe != null {
        Detach(port);
      }
    }

    method SetPriorityInherit(port: Port)
      modifies port`mode
      ensures port.mode == if port.capability.NoPriority? then old(port.mode) else Inherit
    {
      if port.capability.NoPriority? {
        return;
      }
      if port.mode != Inherit {
        port.mode := Inherit;
      }
    }

    method SetPriorityOverride(port: Port, value: Byte)
      modifies port`mode, port`priority
      ensures port.mode == if port.capability.Full? then Override else old(port.mode)
      ensures port.priority == if port.capability.NoPriority? then old(port.priority) else Min(value, PRIORITY_MAX)
    {
      if port.capability.NoPriority? {
        return;
      }
      if port.capability.Full? && port.mode != Override {
        port.mode := Override;
      }
      var capped: Byte := if value > PRIORITY_MAX then PRIORITY_MAX else value;
      if port.priority != capped {
        port.SetPriority(capped);
      }
    }
  }
}
