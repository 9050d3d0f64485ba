/** The device manager of olad, which registers devices and keeps their port settings. */
module DeviceManagers {
  import opened Base
  import opened NumberText
  import opened Wirings
  import opened Patching
  import opened PortSettings
  import opened SavedDevices
  import opened DevicePatching
  import opened DeviceRegistry

  class PortPreferences {
    var values: Preferences

    constructor ()
      ensures values == map[]
    {
      values := map[];
    }

    method SetValue(key: string, value: string)
      modifies this
      ensures values == old(values)[key := value]
    {
      values := values[key := value];
    }

    method RemoveValue(key: string)
      modifies this
      ensures values == old(values) - {key}
    {
      values := values - {key};
    }

    function GetValue(key: string): string
      reads this
    {
      Lookup(values, key)
    }
  }

  /** m_port_preferences may be null: then nothing is saved or restored. */
  class DeviceManager {
    const preferences: PortPreferences?
    const portManager: PortManager
    var devices: map<string, Entry<Device>>
    var aliasMap: map<nat, Device>
    var nextAlias: nat

    constructor (preferences: PortPreferences?, portManager: PortManager)
      ensures this.preferences == preferences && this.portManager == portManager
      ensures Registry() == Fresh()
    {
      this.preferences, this.portManager := preferences, portManager;
      devices, aliasMap, nextAlias := map[], map[], FIRST_DEVICE_ALIAS;
    }

    function Registry(): Registry<Device>
      reads this
    {
      DeviceRegistry.Registry(devices, aliasMap, nextAlias)
    }

    // ----- Saving

    method SavePortPatchings(ports: seq<Port>)
      requires preferences != null
      modifies preferences
      ensures preferences.values == SavePatchings(old(preferences.values), States(ports))
    {
      ghost var states := States(ports);
      hide IntToString;
      for i := 0 to |ports|
        invariant SavePatchings(preferences.values, states[i..]) == SavePatchings(old(preferences.values), states)
      {
        var id := ports[i].uniqueId;
        assert states[i..][0] == StateOf(ports[i]) && states[i..][1..] == states[i + 1..];
        if id == "" {
          return;
        }
        if ports[i].universe != null {
          preferences.SetValue(id, IntToString(ports[i].universe.id));
        } else {
          preferences.RemoveValue(id);
        }
      }
    }

    method SavePortPriority(port: Port)
      requires preferences != null
      modifies preferences
      ensures preferences.values == SavePriority(old(preferences.values), StateOf(port))
    {
      hide IntToString;
      if port.capability.NoPriority? {
        return;
      }
      var id := port.uniqueId;
      if id == "" {
        return;
      }
      preferences.SetValue(id + VALUE_SUFFIX, IntToString(port.priority));
      if port.capability.Full? {
        preferences.SetValue(id + MODE_SUFFIX, IntToString(ModeNumber(port.mode)));
      }
    }

    method SavePortPriorities(ports: seq<Port>)
      requires preferences != null
      modifies preferences
      ensures preferences.values == SavePriorities(old(preferences.values), States(ports))
    {
      ghost var states := States(ports);
      hide SavePriority;
      for i := 0 to |ports|
        invariant SavePriorities(preferences.values, states[i..]) == SavePriorities(old(preferences.values), states)
      {
        assert states[i..][0] == StateOf(ports[i]) && states[i..][1..] == states[i + 1..];
        SavePortPriority(ports[i]);
      }
    }

    method SaveDevicePortSettings(device: Device?)
      modifies preferences
      ensures preferences != null && device != null ==>
                preferences.values == Save(old(preferences.values), DeviceStateOf(device))
      ensures preferences != null && device == null ==> preferences.values == old(preferences.values)
    {
      hide SavePatchings, SavePriorities, States;
      if preferences == null || device == null {
        return;
      }
      SavePortPatchings(device.inputPorts);
      SavePortPatchings(device.outputPorts);
      SavePortPriorities(device.inputPorts);
      SavePortPriorities(device.outputPorts);
    }

    // ----- Restoring

    method RestorePortPriority(port: Port)
      requires preferences != null
      modifies port`mode, port`priority
      ensures StateOf(port) == RestorePriority(preferences.values, old(StateOf(port)))
    {
      hide StringToUInt8;
      if port.capability.NoPriority? {
        return;
      }
      var id := port.uniqueId;
      if id == "" {
        return;
      }
      var value, mode := preferences.GetValue(id + VALUE_SUFFIX), preferences.GetValue(id + MODE_SUFFIX);
      if value == "" && mode == "" {
        NothingSpelled();
        return;
      }
      var priority := StringToUInt8(value);
      if priority.Some? {
        portManager.SetPriorityOverride(port, priority.value);
      }
      var number := StringToUInt8(mode);
      if number == Some(ModeNumber(Inherit)) {
        portManager.SetPriorityInherit(port);
      }
    }

    lemma NothingSpelled()
      ensures StringToUInt8("") == None
    {}

    method RestorePortPriorities(ports: seq<Port>)
      requires preferences != null
      requires NoDuplicates(ports)
      modifies ports`mode, ports`priority
      ensures States(ports) == RestorePriorities(preferences.values, old(States(ports)))
    {
      hide RestorePriority;
      for i := 0 to |ports|
        invariant forall j :: 0 <= j < i ==> StateOf(ports[j]) == RestorePriority(preferences.values, old(StateOf(ports[j])))
        invariant forall j :: i <= j < |ports| ==> StateOf(ports[j]) == old(StateOf(ports[j]))
      {
        RestorePortPriority(ports[i]);
      }
    }

    /** RestorePortPatchings; a universe that PatchPort refuses is left out. */
    method RestorePortPatchings(d: Device, input: bool)
      requires preferences != null
      requires portManager.Valid() && d.Valid() && Knows(portManager, d)
      modifies portManager`universes, portManager.universes.Values, d.Ports(input)`universe
      ensures portManager.Valid() && portManager.ports == old(portManager.ports)
      ensures fresh(portManager.universes.Values - old(portManager.universes.Values))
      ensures DeviceStateOf(d) == RestorePatchings(preferences.values, old(DeviceStateOf(d)), input, 0)
    {
      hide PortManager.Valid, ReadUniverse, DeviceStateOf, RestorePatching, Device.Valid;
      var ports := d.Ports(input);
      ghost var start := DeviceStateOf(d);
      SameCount(d);
      for i := 0 to |ports|
        invariant portManager.Valid() && portManager.ports == old(portManager.ports)
        invariant fresh(portManager.universes.Values - old(portManager.universes.Values))
        invariant RestorePatchings(preferences.values, DeviceStateOf(d), input, i) == RestorePatchings(preferences.values, start, input, 0)
      {
        SameCount(d);
        RestoreOnePort(d, input, ports[i], i);
      }
      SameCount(d);
    }

    lemma SameCount(d: Device)
      ensures |DeviceStateOf(d).inputs| == |d.inputPorts| && |DeviceStateOf(d).outputs| == |d.outputPorts|
    {}

    method RestoreOnePort(d: Device, input: bool, port: Port, ghost k: nat)
      requires preferences != null
      requires portManager.Valid() && d.Valid() && Knows(portManager, d)
      requires k < |d.Ports(input)| && d.Ports(input)[k] == port
      modifies portManager`universes, portManager.universes.Values, port`universe
      ensures portManager.Valid() && portManager.ports == old(portManager.ports)
      ensures fresh(portManager.universes.Values - old(portManager.universes.Values))
      ensures DeviceStateOf(d) == RestorePatching(preferences.values, old(DeviceStateOf(d)), input, k)
    {
      ghost var before, allowed := DeviceStateOf(d), d.Wiring();
      assert before.Ports(input)[k] == StateOf(port);
      StateHasTheWiring(d);
      assert before.Wiring() == allowed;
      hide *;
      var id := port.uniqueId;
      if id != "" {
        var u := ReadUniverse(preferences.GetValue(id));
        if u.Some? {
          var _ := PatchOnDevice(portManager, d, input, port, k, u.value);
        }
      }
      RestoredOne(preferences.values, before, DeviceStateOf(d), input, k);
    }

    lemma RestoredOne(prefs: Preferences, before: DeviceState, after: DeviceState, input: bool, k: nat)
      requires k < |before.Ports(input)|
      requires
        var p := before.Ports(input)[k];
        var u := ReadUniverse(Lookup(prefs, p.id));
        after == if p.id != "" && u.Some? && before.Wiring().Allows(input, p.universe, u.value)
                 then WithPort(before, input, k, p.(universe := u)) else before
      ensures after == RestorePatching(prefs, before, input, k)
    {
      hide ReadUniverse, Wiring.Allows;
    }

    /** Priorities are no concern of the port manager's. */
    method RestoreSidePriorities(ports: seq<Port>)
      requires preferences != null && portManager.Valid() && NoDuplicates(ports)
      modifies ports`mode, ports`priority
      ensures portManager.Valid()
      ensures States(ports) == RestorePriorities(preferences.values, old(States(ports)))
    {
      hide NoDuplicates, States, RestorePriorities;
      RestorePortPriorities(ports);
      forall u | u in portManager.universes
        ensures portManager.Lists(portManager.universes[u], true) && portManager.Lists(portManager.universes[u], false)
      {
        var universe := portManager.universes[u];
        assert old(portManager.Lists(universe, true) && portManager.Lists(universe, false));
      }
      hide PortManager.Lists;
    }

    method RestorePriorityOfPorts(d: Device)
      requires preferences != null && portManager.Valid() && d.Valid()
      modifies d.inputPorts`mode, d.inputPorts`priority, d.outputPorts`mode, d.outputPorts`priority
      ensures portManager.Valid()
      ensures
        var before := old(DeviceStateOf(d));
        DeviceStateOf(d) == before.(inputs := RestorePriorities(preferences.values, before.inputs),
                                    outputs := RestorePriorities(preferences.values, before.outputs))
    {
      OtherSide(d);
      hide RestorePriority, StateOf, PortManager.Valid, Device.Valid;
      ghost var outputs := States(d.outputPorts);
      RestoreSidePriorities(d.inputPorts);
      ghost var inputs := States(d.inputPorts);
      assert States(d.outputPorts) == outputs;
      RestoreSidePriorities(d.outputPorts);
      assert States(d.inputPorts) == inputs;
    }

    lemma OtherSide(d: Device)
      requires d.Valid()
      ensures NoDuplicates(d.inputPorts) && NoDuplicates(d.outputPorts)
      ensures forall i, j :: 0 <= i < |d.inputPorts| && 0 <= j < |d.outputPorts| ==> d.inputPorts[i] != d.outputPorts[j]
    {
      forall i, j | 0 <= i < |d.inputPorts| && 0 <= j < |d.outputPorts| ensures d.inputPorts[i] != d.outputPorts[j] {
        assert d.inputPorts[i] in d.inputPorts && d.outputPorts[j] in d.outputPorts;
      }
    }

    method RestoreDevicePortSettings(d: Device)
      requires portManager.Valid() && d.Valid() && Knows(portManager, d)
      modifies portManager`universes, portManager.universes.Values
      modifies d.inputPorts`universe, d.inputPorts`mode, d.inputPorts`priority
      modifies d.outputPorts`universe, d.outputPorts`mode, d.outputPorts`priority
      ensures portManager.Valid() && portManager.ports == old(portManager.ports)
      ensures fresh(portManager.universes.Values - old(portManager.universes.Values))
      ensures preferences != null ==> DeviceStateOf(d) == Restore(preferences.values, old(DeviceStateOf(d)))
      ensures preferences == null ==> DeviceStateOf(d) == old(DeviceStateOf(d))
    {
      hide PortManager.Valid, Device.Valid, DeviceStateOf, RestorePatchings, RestorePriorities;
      if preferences == null {
        return;
      }
      RestorePortPatchings(d, true);
      RestorePortPatchings(d, false);
      RestorePriorityOfPorts(d);
    }

    // ----- Registering

    method RegisterDevice(device: Device?) returns (ok: bool)
      requires portManager.Valid() && (device != null ==> device.Valid() && Knows(portManager, device))
      modifies this`devices, this`aliasMap, this`nextAlias, portManager`universes, portManager.universes.Values
      modifies (if device == null then [] else device.inputPorts)`universe
      modifies (if device == null then [] else device.inputPorts)`mode
      modifies (if device == null then [] else device.inputPorts)`priority
      modifies (if device == null then [] else device.outputPorts)`universe
      modifies (if device == null then [] else device.outputPorts)`mode
      modifies (if device == null then [] else device.outputPorts)`priority
      ensures portManager.Valid() && portManager.ports == old(portManager.ports)
      ensures fresh(portManager.universes.Values - old(portManager.universes.Values))
      ensures ok == (device != null && CanRegister(old(Registry()), device.uniqueId))
      ensures Registry() == if ok then Registered(old(Registry()), device.uniqueId, device) else old(Registry())
      ensures ok && preferences != null ==> DeviceStateOf(device) == Restore(preferences.values, old(DeviceStateOf(device)))
      ensures device != null && !(ok && preferences != null) ==> DeviceStateOf(device) == old(DeviceStateOf(device))
    {
      hide PortManager.Valid, Device.Valid, DeviceStateOf, Restore;
      if device == null {
        return false;
      }
      var id := device.uniqueId;
      if id == "" {
        return false;
      }
      var alias;
      if id in devices {
        if devices[id].device.Some? {
          return false;
        }
        alias := devices[id].alias;
        devices := devices[id := Entry(alias, Some(device))];
      } else {
        alias := nextAlias;
        nextAlias := Wrapped(nextAlias + 1);
        devices := devices[id := Entry(alias, Some(device))];
      }
      aliasMap := aliasMap[alias := device];
      RestoreDevicePortSettings(device);
      return true;
    }

    method UnregisterDevice(id: string) returns (ok: bool)
      modifies this`devices, this`aliasMap, preferences
      ensures ok == CanUnregister(old(Registry()), id)
      ensures Registry() == Unregistered(old(Registry()), id)
      ensures ok && preferences != null ==>
                preferences.values == Save(old(preferences.values), DeviceStateOf(old(devices[id]).device.value))
      ensures !ok && preferences != null ==> preferences.values == old(preferences.values)
    {
      hide Save, DeviceStateOf;
      if id !in devices || devices[id].device.None? {
        return false;
      }
      SaveDevicePortSettings(devices[id].device.value);
      aliasMap := aliasMap - {devices[id].alias};
      devices := devices[id := devices[id].(device := None)];
      return true;
    }

    method UnregisterDeviceByPointer(device: Device?) returns (ok: bool)
      modifies this`devices, this`aliasMap, preferences
      ensures ok == (device != null && device.uniqueId != "" && CanUnregister(old(Registry()), device.uniqueId))
      ensures Registry() == if ok then Unregistered(old(Registry()), device.uniqueId) else old(Registry())
      ensures ok && preferences != null ==>
                preferences.values
                == Save(old(preferences.values), DeviceStateOf(old(devices[device.uniqueId]).device.value))
      ensures !ok && preferences != null ==> preferences.values == old(preferences.values)
    {
      hide Save, DeviceStateOf;
      if device == null || device.uniqueId == "" {
        return false;
      }
      ok := UnregisterDevice(device.uniqueId);
    }

    method GetDevice(alias: nat) returns (device: Option<Device>)
      ensures device == ByAlias(Registry(), alias)
    {
      device := if alias in aliasMap then Some(aliasMap[alias]) else None;
    }

    method GetDeviceById(id: string) returns (entry: Entry<Device>)
      ensures entry == ById(Registry(), id)
    {
      if id in devices && devices[id].device.Some? {
        return devices[id];
      }
      return Entry(MISSING_DEVICE_ALIAS, None);
    }

    /** The devices outside todo, in ascending order, and their states. */
    ghost predicate Walked(states: map<string, DeviceState>, todo: set<string>, order: seq<string>, saved: seq<DeviceState>) {
      && |saved| == |order| && (forall i, j :: 0 <= i < j < |order| ==> Before(order[i], order[j]))
      && (forall id :: id in order <==> id in states && id !in todo)
      && (forall i, id :: 0 <= i < |order| && id in todo ==> Before(order[i], id))
      && (forall i :: 0 <= i < |order| ==> order[i] in states && saved[i] == states[order[i]])
    }

    lemma WalkStep(states: map<string, DeviceState>, todo: set<string>, order: seq<string>, saved: seq<DeviceState>, id: string)
      requires Walked(states, todo, order, saved) && First(id, todo)
      ensures id in states ==> Walked(states, todo - {id}, order + [id], saved + [states[id]])
      ensures id !in states ==> Walked(states, todo - {id}, order, saved)
    {}

    method FirstId(ids: set<string>) returns (id: string)
      requires ids != {}
      ensures First(id, ids)
    {
      SomeIdIsFirst(ids);
      id :| id in ids && forall other :: other in ids && other != id ==> Before(id, other);
    }

    /** The loop body of UnregisterAllDevices */
    method SaveAndForget(id: string)
      requires id in devices
      modifies this`devices, preferences
      ensures devices == old(devices)[id := Entry(old(devices)[id].alias, None)]
      ensures preferences != null ==>
                preferences.values == match old(devices)[id].device
                                      case Some(d) => Save(old(preferences.values), DeviceStateOf(d))
                                      case None => old(preferences.values)
    {
      hide Save, DeviceStateOf;
      if devices[id].device.Some? {
        SaveDevicePortSettings(devices[id].device.value);
      }
      devices := devices[id := devices[id].(device := None)];
    }

    /** Walks the devices in the order of their ids; `order` and `saved` tell which ones and what was saved. */
    method UnregisterAllDevices() returns (ghost order: seq<string>, ghost saved: seq<DeviceState>)
      modifies this`devices, this`aliasMap, preferences
      ensures Registry() == Emptied(old(Registry()))
      ensures |saved| == |order| && (forall i, j :: 0 <= i < j < |order| ==> Before(order[i], order[j]))
      ensures forall id :: id in order <==> CanUnregister(old(Registry()), id)
      ensures forall i :: 0 <= i < |order| ==>
                CanUnregister(old(Registry()), order[i])
                && saved[i] == old(DeviceStateOf(devices[order[i]].device.value))
      ensures preferences != null ==> preferences.values == SaveAll(old(preferences.values), saved)
    {
      hide Save, DeviceStateOf, SaveAll;
      order, saved := [], [];
      var todo := devices.Keys;
      ghost var was := devices;
      ghost var states := map id | id in was && was[id].device.Some? :: DeviceStateOf(was[id].device.value);
      SaveAllEmpty();
      while todo != {}
        invariant devices.Keys == was.Keys && todo <= was.Keys
        invariant forall id :: id in was ==> devices[id] == if id in todo then was[id] else Entry(was[id].alias, None)
        invariant Walked(states, todo, order, saved)
        invariant preferences != null ==> preferences.values == SaveAll(old(preferences.values), saved)
        decreases todo
      {
        var id := FirstId(todo);
        WalkStep(states, todo, order, saved, id);
        hide Walked, First;
        assert id in states ==> DeviceStateOf(was[id].device.value) == states[id];
        SaveAndForget(id);
        if id in states {
          if preferences != null {
            SaveAllSnoc(old(preferences.values), saved, states[id]);
          }
          order, saved := order + [id], saved + [states[id]];
        }
        todo := todo - {id};
      }
      aliasMap := map[];
    }

    /** An event concerns devices whose ports the port manager knows, under their own ids. */
    ghost predicate Proper(e: Event<Device>)
      reads portManager, if e.Register? then {e.device} else {}
    {
      e.Register? ==> e.device.Valid() && Knows(portManager, e.device) && e.id == e.device.uniqueId
    }

    method HandleEvent(e: Event<Device>)
      requires portManager.Valid() && Proper(e)
      modifies this`devices, this`aliasMap, this`nextAlias, preferences, portManager`universes, portManager.universes.Values
      modifies portManager.ports`universe, portManager.ports`mode, portManager.ports`priority
      ensures portManager.Valid() && portManager.ports == old(portManager.ports)
      ensures fresh(portManager.universes.Values - old(portManager.universes.Values))
      ensures Registry() == Step(old(Registry()), e)
    {
      hide PortManager.Valid, Device.Valid, DeviceStateOf, Restore, SaveAll, Save, Emptied, Unregistered, Registered;
      match e {
        case Register(id, device) =>
          var ok := RegisterDevice(device);
          assert !ok ==> Registered(old(Registry()), id, device) == old(Registry()) by { RefusedStays(old(Registry()), id, device); }
        case Unregister(id) =>
          var _ := UnregisterDevice(id);
        case UnregisterAll =>
          var _, _ := UnregisterAllDevices();
      }
    }

    lemma RefusedStays(r: Registry<Device>, id: string, d: Device)
      ensures !CanRegister(r, id) ==> Registered(r, id, d) == r
    {}

    /** Whatever devices come and go, a new manager's two maps stay in step. */
    method HandleEvents(es: seq<Event<Device>>)
      requires portManager.Valid() && Registry() == Fresh() && |Ids(es)| < ALIASES
      requires forall i :: 0 <= i < |es| ==> Proper(es[i])
      modifies this`devices, this`aliasMap, this`nextAlias, preferences, portManager`universes, portManager.universes.Values
      modifies portManager.ports`universe, portManager.ports`mode, portManager.ports`priority
      ensures portManager.Valid() && Registry() == Run(Fresh(), es) && Consistent(Registry())
    {
      ReachableIsConsistent(es);
      assert es[0..] == es;
      hide PortManager.Valid, Step, Consistent, Fresh;
      for i := 0 to |es|
        invariant portManager.Valid() && portManager.ports == old(portManager.ports)
        invariant fresh(portManager.universes.Values - old(portManager.universes.Values))
        invariant Run(Registry(), es[i..]) == Run(Fresh(), es)
      {
        ghost var rest := es[i..];
        assert rest[0] == es[i] && rest[1..] == es[i + 1..];
        HandleEvent(es[i]);
      }
    }

    lemma SaveAllEmpty()
      ensures forall prefs :: SaveAll(prefs, []) == prefs
    {}

    lemma {:induction false} SaveAllSnoc(prefs: Preferences, ds: seq<DeviceState>, d: DeviceState)
      ensures SaveAll(prefs, ds + [d]) == Save(SaveAll(prefs, ds), d)
      decreases |ds|
    {
      hide Save;
      if ds == [] {
        SaveAllEmpty();
        assert ([] + [d])[1..] == [];
      } else {
        assert (ds + [d])[1..] == ds[1..] + [d];
        SaveAllSnoc(Save(prefs, ds[0]), ds[1..], d);
      }
    }
  }
}
