/**
 * How the device manager saves the settings of a device's ports to preferences and restores
 * them, as functions on values, and what the round trip gives back.
 */
module PortSettings {
  import opened Base
  import opened NumberText
  import opened Wirings
  import opened Patching

  const VALUE_SUFFIX := "_priority_value"
  const MODE_SUFFIX := "_priority_mode"

  type Preferences = map<string, string>

  datatype PortState = PortState(id: string, capability: Capability, universe: Option<nat>,
                                 priority: Byte, mode: Mode)

  datatype DeviceState = DeviceState(looping: bool, multi: bool, inputs: seq<PortState>, outputs: seq<PortState>)
  {
    function Ports(input: bool): seq<PortState> { if input then inputs else outputs }

    function AllPorts(): seq<PortState> { inputs + outputs }

    function With(input: bool, ports: seq<PortState>): DeviceState {
      if input then this.(inputs := ports) else this.(outputs := ports)
    }

    function Wiring(): Wiring {
      Wirings.Wiring(looping, multi, Universes(inputs), Universes(outputs))
    }
  }

  function Universes(ports: seq<PortState>): Side {
    seq(|ports|, i requires 0 <= i < |ports| => ports[i].universe)
  }

  /** GetValue: a missing key reads as the empty string. */
  function Lookup(prefs: Preferences, key: string): string {
    if key in prefs then prefs[key] else ""
  }

  // ----- Saving

  /** The preferences with one port's patching saved. */
  function Patched(prefs: Preferences, p: PortState): Preferences {
    if p.universe.Some? then prefs[p.id := IntToString(p.universe.value)] else prefs - {p.id}
  }

  /** SavePortPatchings: a port without an id ends the walk. */
  function SavePatchings(prefs: Preferences, ports: seq<PortState>): Preferences
    decreases |ports|
  {
    if ports == [] || ports[0].id == "" then prefs
    else SavePatchings(Patched(prefs, ports[0]), ports[1..])
  }

  function ModeNumber(mode: Mode): nat { if mode.Inherit? then 0 else 1 }

  /** SavePortPriority */
  function SavePriority(prefs: Preferences, p: PortState): Preferences {
    if p.capability.NoPriority? || p.id == "" then prefs
    else
      var saved := prefs[p.id + VALUE_SUFFIX := IntToString(p.priority)];
      if p.capability.Full? then saved[p.id + MODE_SUFFIX := IntToString(ModeNumber(p.mode))] else saved
  }

  function SavePriorities(prefs: Preferences, ports: seq<PortState>): Preferences
    decreases |ports|
  {
    if ports == [] then prefs else SavePriorities(SavePriority(prefs, ports[0]), ports[1..])
  }

  /** SaveDevicePortSettings */
  function Save(prefs: Preferences, d: DeviceState): Preferences {
    SavePriorities(SavePriorities(SavePatchings(SavePatchings(prefs, d.inputs), d.outputs), d.inputs), d.outputs)
  }

  // ----- Restoring

  /** One port of RestorePortPatchings, through PatchPort. */
  function RestorePatching(prefs: Preferences, d: DeviceState, input: bool, k: nat): DeviceState
    requires k < |d.Ports(input)|
  {
    var p := d.Ports(input)[k];
    var u := ReadUniverse(Lookup(prefs, p.id));
    if p.id == "" || u.None? || !d.Wiring().Allows(input, p.universe, u.value) then d
    else d.With(input, d.Ports(input)[k := p.(universe := u)])
  }

  /** RestorePortPatchings from the k-th port on */
  function RestorePatchings(prefs: Preferences, d: DeviceState, input: bool, k: nat): (r: DeviceState)
    ensures |r.inputs| == |d.inputs| && |r.outputs| == |d.outputs|
    decreases |d.Ports(input)| - k
  {
    if k >= |d.Ports(input)| then d else RestorePatchings(prefs, RestorePatching(prefs, d, input, k), input, k + 1)
  }

  /** SetPriorityOverride */
  function Overridden(p: PortState, value: Byte): PortState {
    if p.capability.NoPriority? then p
    else p.(mode := if p.capability.Full? then Override else p.mode, priority := Min(value, PRIORITY_MAX))
  }

  /** SetPriorityInherit */
  function Inherited(p: PortState): PortState {
    if p.capability.NoPriority? then p else p.(mode := Inherit)
  }

  /** RestorePortPriority */
  function RestorePriority(prefs: Preferences, p: PortState): PortState {
    if p.capability.NoPriority? || p.id == "" then p
    else
      var value := StringToUInt8(Lookup(prefs, p.id + VALUE_SUFFIX));
      var mode := StringToUInt8(Lookup(prefs, p.id + MODE_SUFFIX));
      var q := if value.Some? then Overridden(p, value.value) else p;
      if mode == Some(0) then Inherited(q) else q
  }

  function RestorePriorities(prefs: Preferences, ports: seq<PortState>): seq<PortState> {
    seq(|ports|, i requires 0 <= i < |ports| => RestorePriority(prefs, ports[i]))
  }

  /** RestoreDevicePortSettings */
  function Restore(prefs: Preferences, d: DeviceState): DeviceState {
    var r := RestorePatchings(prefs, RestorePatchings(prefs, d, true, 0), false, 0);
    r.(inputs := RestorePriorities(prefs, r.inputs), outputs := RestorePriorities(prefs, r.outputs))
  }

  // ----- When the keys of a device's ports do not collide

  /** The keys under which a port's priority is saved, as far as its capability has one. */
  predicate PriorityKey(p: PortState, key: string) {
    || (!p.capability.NoPriority? && key == p.id + VALUE_SUFFIX)
    || (p.capability.Full? && key == p.id + MODE_SUFFIX)
  }

  /** Distinct ids, none of them empty and none of them a key some port's priority is saved under. */
  ghost predicate KeysApart(ports: seq<PortState>) {
    && HaveIds(ports)
    && (forall i, j :: 0 <= i < j < |ports| ==> ports[i].id != ports[j].id)
    && (forall i, j :: 0 <= i < |ports| && 0 <= j < |ports| ==> !PriorityKey(ports[j], ports[i].id))
  }

  ghost predicate HaveIds(ports: seq<PortState>) {
    forall i :: 0 <= i < |ports| ==> ports[i].id != ""
  }

  lemma SuffixKeys(a: string, b: string)
    ensures a + VALUE_SUFFIX != b + MODE_SUFFIX
    ensures a + VALUE_SUFFIX == b + VALUE_SUFFIX ==> a == b
    ensures a + MODE_SUFFIX == b + MODE_SUFFIX ==> a == b
  {
    var x, y := a + VALUE_SUFFIX, b + MODE_SUFFIX;
    assert x[|x| - 2] == 'u' && y[|y| - 2] == 'd';
    SameSuffix(a, b, VALUE_SUFFIX);
    SameSuffix(a, b, MODE_SUFFIX);
  }

  lemma SameSuffix(a: string, b: string, suffix: string)
    ensures a + suffix == b + suffix ==> a == b
  {
    if a + suffix == b + suffix {
      assert |a| == |b| && (a + suffix)[..|a|] == a && (b + suffix)[..|b|] == b;
    }
  }

  // ----- What saving leaves in the preferences

  function PatchText(p: PortState): string {
    if p.universe.Some? then IntToString(p.universe.value) else ""
  }

  /** A key that is no port's id is not touched, whatever the ids. */
  lemma {:induction false} PatchingsLeave(prefs: Preferences, ports: seq<PortState>, key: string)
    requires forall i :: 0 <= i < |ports| ==> ports[i].id != key
    ensures Lookup(SavePatchings(prefs, ports), key) == Lookup(prefs, key)
    decreases |ports|
  {
    if ports != [] && ports[0].id != "" {
      hide IntToString;
      PatchingsLeave(Patched(prefs, ports[0]), ports[1..], key);
    }
  }

  /** The last port with an id has its patching saved. */
  lemma {:induction false} SavedPatchings(prefs: Preferences, ports: seq<PortState>, k: nat)
    requires HaveIds(ports) && k < |ports| && forall i :: k < i < |ports| ==> ports[i].id != ports[k].id
    ensures Lookup(SavePatchings(prefs, ports), ports[k].id) == PatchText(ports[k])
    decreases |ports|
  {
    hide IntToString;
    if k > 0 {
      SavedPatchings(Patched(prefs, ports[0]), ports[1..], k - 1);
    } else {
      PatchingsLeave(Patched(prefs, ports[0]), ports[1..], ports[0].id);
    }
  }

  lemma {:induction false} PrioritiesLeave(prefs: Preferences, ports: seq<PortState>, key: string)
    requires forall i :: 0 <= i < |ports| ==> !PriorityKey(ports[i], key)
    ensures Lookup(SavePriorities(prefs, ports), key) == Lookup(prefs, key)
    decreases |ports|
  {
    if ports != [] {
      hide IntToString;
      PrioritiesLeave(SavePriority(prefs, ports[0]), ports[1..], key);
    }
  }

  /** With ids throughout, a save is one walk for the patchings and one for the priorities. */
  lemma SaveInOneWalk(prefs: Preferences, d: DeviceState)
    requires HaveIds(d.AllPorts())
    ensures Save(prefs, d) == SavePriorities(SavePatchings(prefs, d.AllPorts()), d.AllPorts())
  {
    assert forall i :: 0 <= i < |d.inputs| ==> d.AllPorts()[i] == d.inputs[i];
    PatchingsJoin(prefs, d.inputs, d.outputs);
    PrioritiesJoin(SavePatchings(prefs, d.AllPorts()), d.inputs, d.outputs);
  }

  lemma {:induction false} PatchingsJoin(prefs: Preferences, a: seq<PortState>, b: seq<PortState>)
    requires HaveIds(a)
    ensures SavePatchings(prefs, a + b) == SavePatchings(SavePatchings(prefs, a), b)
    decreases |a|
  {
    hide IntToString;
    if a == [] {
      assert a + b == b;
    } else {
      assert (a + b)[1..] == a[1..] + b;
      PatchingsJoin(Patched(prefs, a[0]), a[1..], b);
    }
  }

  lemma {:induction false} PrioritiesJoin(prefs: Preferences, a: seq<PortState>, b: seq<PortState>)
    ensures SavePriorities(prefs, a + b) == SavePriorities(SavePriorities(prefs, a), b)
    decreases |a|
  {
    hide SavePriority;
    if a == [] {
      assert a + b == b;
    } else {
      assert (a + b)[1..] == a[1..] + b;
      PrioritiesJoin(SavePriority(prefs, a[0]), a[1..], b);
    }
  }

  /** The preferences hold what SavePortPriority writes for a port. */
  ghost predicate HoldsPriority(prefs: Preferences, p: PortState) {
    && (!p.capability.NoPriority? ==> Lookup(prefs, p.id + VALUE_SUFFIX) == IntToString(p.priority))
    && (p.capability.Full? ==> Lookup(prefs, p.id + MODE_SUFFIX) == IntToString(ModeNumber(p.mode)))
  }

  lemma SavePriorityHolds(prefs: Preferences, p: PortState)
    requires p.id != ""
    ensures HoldsPriority(SavePriority(prefs, p), p)
  {
    SuffixKeys(p.id, p.id);
  }

  lemma {:induction false} SavedPriorities(prefs: Preferences, ports: seq<PortState>, k: nat)
    requires k < |ports| && ports[k].id != "" && forall i :: k < i < |ports| ==> ports[i].id != ports[k].id
    ensures HoldsPriority(SavePriorities(prefs, ports), ports[k])
    decreases |ports|
  {
    if k > 0 {
      SavedPriorities(SavePriority(prefs, ports[0]), ports[1..], k - 1);
    } else {
      SavePriorityHolds(prefs, ports[0]);
      OthersKeepPriority(SavePriority(prefs, ports[0]), ports[1..], ports[0]);
    }
  }

  lemma OthersKeepPriority(prefs: Preferences, ports: seq<PortState>, p: PortState)
    requires HoldsPriority(prefs, p)
    requires forall i :: 0 <= i < |ports| ==> ports[i].id != p.id
    ensures HoldsPriority(SavePriorities(prefs, ports), p)
  {
    forall i | 0 <= i < |ports|
      ensures !PriorityKey(ports[i], p.id + VALUE_SUFFIX) && !PriorityKey(ports[i], p.id + MODE_SUFFIX)
    {
      SuffixKeys(p.id, ports[i].id);
      SuffixKeys(ports[i].id, p.id);
    }
    PrioritiesLeave(prefs, ports, p.id + VALUE_SUFFIX);
    PrioritiesLeave(prefs, ports, p.id + MODE_SUFFIX);
  }

  ghost predicate HoldsPort(prefs: Preferences, p: PortState) {
    Lookup(prefs, p.id) == PatchText(p) && HoldsPriority(prefs, p)
  }

  lemma SaveHolds(prefs: Preferences, d: DeviceState, k: nat)
    requires KeysApart(d.AllPorts()) && k < |d.AllPorts()|
    ensures HoldsPort(Save(prefs, d), d.AllPorts()[k])
  {
    var all, p := d.AllPorts(), d.AllPorts()[k];
    SaveInOneWalk(prefs, d);
    SavedPatchings(prefs, all, k);
    PrioritiesLeave(SavePatchings(prefs, all), all, p.id);
    SavedPriorities(SavePatchings(prefs, all), all, k);
  }

  ghost predicate Holds(prefs: Preferences, d: DeviceState) {
    forall k :: 0 <= k < |d.AllPorts()| ==> HoldsPort(prefs, d.AllPorts()[k])
  }

  /** After a save the preferences hold every port of the device. */
  lemma SaveHoldsDevice(prefs: Preferences, d: DeviceState)
    requires KeysApart(d.AllPorts())
    ensures Holds(Save(prefs, d), d)
  {
    forall k | 0 <= k < |d.AllPorts()| ensures HoldsPort(Save(prefs, d), d.AllPorts()[k]) {
      SaveHolds(prefs, d, k);
    }
  }

  lemma SidesHold(prefs: Preferences, d: DeviceState, input: bool)
    requires Holds(prefs, d) && HaveIds(d.AllPorts())
    ensures forall i :: 0 <= i < |d.Ports(input)| ==> d.Ports(input)[i].id != "" && HoldsPort(prefs, d.Ports(input)[i])
  {
    hide HoldsPort;
    forall i | 0 <= i < |d.Ports(input)|
      ensures d.Ports(input)[i].id != "" && HoldsPort(prefs, d.Ports(input)[i])
    {
      assert d.AllPorts()[if input then i else |d.inputs| + i] == d.Ports(input)[i];
    }
  }

  // ----- What restoring makes of it

  /** What an int keeps of an unsigned universe id. */
  function Kept(u: Option<nat>): Option<nat> {
    if u.Some? && u.value < 0x8000_0000 then u else None
  }

  lemma ReadBack(p: PortState)
    requires p.universe.Some? ==> p.universe.value < 0x1_0000_0000
    ensures ReadUniverse(PatchText(p)) == Kept(p.universe)
  {
    if p.universe.Some? { UniverseRoundTrip(p.universe.value); }
  }

  ghost predicate SmallIds(ports: seq<PortState>) {
    forall i :: 0 <= i < |ports| && ports[i].universe.Some? ==> ports[i].universe.value < 0x1_0000_0000
  }

  /** e lists the ports of d, restored up to the k-th of one side. */
  ghost predicate HalfWay(e: DeviceState, d: DeviceState, input: bool, k: nat) {
    && e.looping == d.looping && e.multi == d.multi
    && |e.Ports(input)| == |d.Ports(input)|
    && (forall i :: 0 <= i < |d.Ports(input)| ==>
          && e.Ports(input)[i].id == d.Ports(input)[i].id
          && e.Ports(input)[i].universe == if i < k then Kept(d.Ports(input)[i].universe) else None)
    && (!d.looping ==> NoLoop(d.Ports(input), e.Ports(!input)))
  }

  ghost predicate NoLoop(side: seq<PortState>, opposite: seq<PortState>) {
    forall i, j :: 0 <= i < |side| && 0 <= j < |opposite| ==>
      Kept(side[i].universe).Some? ==> Kept(side[i].universe) != opposite[j].universe
  }

  lemma RestoreOne(prefs: Preferences, e: DeviceState, d: DeviceState, input: bool, k: nat)
    requires k < |d.Ports(input)| && HalfWay(e, d, input, k)
    requires d.Ports(input)[k].id != "" && HoldsPort(prefs, d.Ports(input)[k])
    requires SmallIds(d.Ports(input)) && (!d.multi ==> NoRepeats(Universes(d.Ports(input))))
    ensures RestorePatching(prefs, e, input, k)
            == e.With(input, e.Ports(input)[k := e.Ports(input)[k].(universe := Kept(d.Ports(input)[k].universe))])
    ensures HalfWay(RestorePatching(prefs, e, input, k), d, input, k + 1)
  {
    var p := d.Ports(input)[k];
    ReadBack(p);
    hide ReadUniverse, PatchText, HoldsPriority;
    var u := Kept(p.universe);
    if u.Some? {
      AllowedAgain(e, d, input, k, u.value);
    } else {
      assert e.Ports(input)[k].(universe := None) == e.Ports(input)[k];
      assert e.Ports(input)[k := e.Ports(input)[k]] == e.Ports(input);
      assert RestorePatching(prefs, e, input, k) == e;
    }
  }

  lemma AllowedAgain(e: DeviceState, d: DeviceState, input: bool, k: nat, u: nat)
    requires k < |d.Ports(input)| && HalfWay(e, d, input, k) && Kept(d.Ports(input)[k].universe) == Some(u)
    requires !d.multi ==> NoRepeats(Universes(d.Ports(input)))
    ensures e.Wiring().Allows(input, e.Ports(input)[k].universe, u)
  {
    var w := e.Wiring();
    assert w.Same(input) == Universes(e.Ports(input)) && w.Opposite(input) == Universes(e.Ports(!input));
    if !d.multi {
      forall i | 0 <= i < |w.Same(input)| ensures w.Same(input)[i] != Some(u) {
        assert w.Same(input)[i] == e.Ports(input)[i].universe;
        assert Universes(d.Ports(input))[k] == d.Ports(input)[k].universe;
        assert i < k ==> Universes(d.Ports(input))[i] != Universes(d.Ports(input))[k];
      }
    }
    if !d.looping {
      forall j | 0 <= j < |w.Opposite(input)| ensures w.Opposite(input)[j] != Some(u) {
        assert w.Opposite(input)[j] == e.Ports(!input)[j].universe;
      }
    }
  }

  /** The ports of e with the universes an int keeps of those of d. */
  function Rebound(e: seq<PortState>, d: seq<PortState>): seq<PortState>
    requires |e| == |d|
  {
    seq(|e|, i requires 0 <= i < |e| => e[i].(universe := Kept(d[i].universe)))
  }

  lemma {:induction false} RestoreSide(prefs: Preferences, e: DeviceState, d: DeviceState, input: bool, k: nat)
    requires k <= |d.Ports(input)| && HalfWay(e, d, input, k)
    requires forall i :: 0 <= i < |d.Ports(input)| ==> d.Ports(input)[i].id != "" && HoldsPort(prefs, d.Ports(input)[i])
    requires SmallIds(d.Ports(input)) && (!d.multi ==> NoRepeats(Universes(d.Ports(input))))
    ensures RestorePatchings(prefs, e, input, k) == e.With(input, Rebound(e.Ports(input), d.Ports(input)))
    decreases |d.Ports(input)| - k
  {
    hide HoldsPort, SmallIds, RestorePatching;
    if k < |d.Ports(input)| {
      RestoreOne(prefs, e, d, input, k);
      var next := RestorePatching(prefs, e, input, k);
      RestoreSide(prefs, next, d, input, k + 1);
      assert Rebound(next.Ports(input), d.Ports(input)) == Rebound(e.Ports(input), d.Ports(input));
    } else {
      assert Rebound(e.Ports(input), d.Ports(input)) == e.Ports(input);
    }
  }

  /** e is d as it registers again: the same ports in the same order, none of them patched. */
  ghost predicate Unpatched(e: DeviceState, d: DeviceState) {
    && e.looping == d.looping && e.multi == d.multi
    && SamePorts(e.inputs, d.inputs) && SamePorts(e.outputs, d.outputs)
  }

  ghost predicate SamePorts(e: seq<PortState>, d: seq<PortState>) {
    && |e| == |d|
    && forall i :: 0 <= i < |d| ==> e[i].id == d[i].id && e[i].capability == d[i].capability && e[i].universe.None?
  }

  /** What the round trip makes of a port: p was saved, q came back. */
  function Returned(p: PortState, q: PortState, r: PortState): bool {
    && r.id == p.id && r.capability == p.capability
    && r.universe == Kept(p.universe)
    && (match p.capability
        case Full => r.priority == p.priority && r.mode == p.mode
        case Static => r.priority == p.priority && (r.mode == q.mode || r.mode == Inherit)
        case NoPriority => r.priority == q.priority && r.mode == q.mode)
  }

  lemma PriorityComesBack(prefs: Preferences, p: PortState, q: PortState)
    requires HoldsPriority(prefs, p) && p.id != "" && p.priority <= PRIORITY_MAX
    requires q.id == p.id && q.capability == p.capability && q.universe.None?
    ensures Returned(p, q, RestorePriority(prefs, q.(universe := Kept(p.universe))))
  {
    ByteRoundTrip(p.priority);
    ByteRoundTrip(ModeNumber(p.mode));
    hide StringToUInt8, IntToString;
  }

  lemma SidesComeBack(saved: Preferences, d: DeviceState, e: DeviceState)
    requires Holds(saved, d) && HaveIds(d.AllPorts()) && d.Wiring().Lawful()
    requires SmallIds(d.inputs) && SmallIds(d.outputs) && Unpatched(e, d)
    ensures RestorePatchings(saved, RestorePatchings(saved, e, true, 0), false, 0)
            == e.(inputs := Rebound(e.inputs, d.inputs), outputs := Rebound(e.outputs, d.outputs))
  {
    SidesHold(saved, d, true);
    SidesHold(saved, d, false);
    hide HoldsPort, RestorePatchings, HalfWay, SmallIds, Holds;
    var half := e.(inputs := Rebound(e.inputs, d.inputs));
    BeforeInputs(e, d);
    BeforeOutputs(e, d);
    LawfulSides(d);
    assert forall i :: 0 <= i < |d.inputs| ==> d.Ports(true)[i] == d.inputs[i];
    assert forall i :: 0 <= i < |d.outputs| ==> d.Ports(false)[i] == d.outputs[i];
    RestoreSide(saved, e, d, true, 0);
    RestoreSide(saved, half, d, false, 0);
  }

  lemma LawfulSides(d: DeviceState)
    requires d.Wiring().Lawful()
    ensures !d.multi ==> NoRepeats(Universes(d.Ports(true))) && NoRepeats(Universes(d.Ports(false)))
  {}

  lemma BeforeInputs(e: DeviceState, d: DeviceState)
    requires Unpatched(e, d)
    ensures HalfWay(e, d, true, 0)
  {
    assert NoLoop(d.inputs, e.outputs);
  }

  lemma BeforeOutputs(e: DeviceState, d: DeviceState)
    requires Unpatched(e, d) && d.Wiring().Lawful()
    ensures HalfWay(e.(inputs := Rebound(e.inputs, d.inputs)), d, false, 0)
  {
    var half, w := e.(inputs := Rebound(e.inputs, d.inputs)), d.Wiring();
    forall i, j | 0 <= i < |d.outputs| && 0 <= j < |half.inputs| && !d.looping && Kept(d.outputs[i].universe).Some?
      ensures Kept(d.outputs[i].universe) != half.inputs[j].universe
    {
      assert w.inputs[j] == d.inputs[j].universe && w.outputs[i] == d.outputs[i].universe;
    }
    assert !d.looping ==> NoLoop(d.outputs, half.inputs);
  }

  /** Whatever preferences hold a device's settings give them back to it. */
  lemma HeldSettingsComeBack(saved: Preferences, d: DeviceState, e: DeviceState, input: bool, k: nat)
    requires Holds(saved, d) && HaveIds(d.AllPorts()) && d.Wiring().Lawful()
    requires SmallIds(d.inputs) && SmallIds(d.outputs) && Unpatched(e, d)
    requires k < |d.Ports(input)| && d.Ports(input)[k].priority <= PRIORITY_MAX
    ensures
      var r := Restore(saved, e);
      && |r.Ports(input)| == |d.Ports(input)|
      && Returned(d.Ports(input)[k], e.Ports(input)[k], r.Ports(input)[k])
  {
    SidesComeBack(saved, d, e);
    SidesHold(saved, d, input);
    PriorityComesBack(saved, d.Ports(input)[k], e.Ports(input)[k]);
    hide RestorePatchings, RestorePriority, Returned, Holds, HoldsPort;
  }

  /**
   * The round trip: a device that is saved and registered again with its ports unpatched gets
   * back every port's universe, as far as it fits an int, and the priority settings its
   * capability covers.
   */
  lemma SaveRestoreRoundTrip(prefs: Preferences, d: DeviceState, e: DeviceState, input: bool, k: nat)
    requires KeysApart(d.AllPorts()) && d.Wiring().Lawful()
    requires SmallIds(d.inputs) && SmallIds(d.outputs) && Unpatched(e, d)
    requires k < |d.Ports(input)| && d.Ports(input)[k].priority <= PRIORITY_MAX
    ensures
      var r := Restore(Save(prefs, d), e);
      && |r.Ports(input)| == |d.Ports(input)|
      && Returned(d.Ports(input)[k], e.Ports(input)[k], r.Ports(input)[k])
  {
    SaveHoldsDevice(prefs, d);
    hide Save, Restore, Returned, Holds;
    HeldSettingsComeBack(Save(prefs, d), d, e, input, k);
  }

  // ----- Whatever the preferences say

  lemma RestorePatchingLawful(prefs: Preferences, d: DeviceState, input: bool, k: nat)
    requires k < |d.Ports(input)| && d.Wiring().Lawful()
    ensures RestorePatching(prefs, d, input, k).Wiring().Lawful()
  {
    hide ReadUniverse, Wiring.Lawful;
    var e, u := RestorePatching(prefs, d, input, k), ReadUniverse(Lookup(prefs, d.Ports(input)[k].id));
    if e != d {
      ApplyLawful(d.Wiring(), Patch(input, k, u.value));
      assert Universes(e.Ports(input)) == Universes(d.Ports(input))[k := u];
      assert e.Wiring() == Apply(d.Wiring(), Patch(input, k, u.value));
    }
  }

  lemma {:induction false} RestorePatchingsLawful(prefs: Preferences, d: DeviceState, input: bool, k: nat)
    requires d.Wiring().Lawful()
    ensures RestorePatchings(prefs, d, input, k).Wiring().Lawful()
    decreases |d.Ports(input)| - k
  {
    hide RestorePatching, Wiring.Lawful, DeviceState.Wiring;
    if k < |d.Ports(input)| {
      RestorePatchingLawful(prefs, d, input, k);
      RestoreKeepsCount(prefs, d, input, k);
      RestorePatchingsLawful(prefs, RestorePatching(prefs, d, input, k), input, k + 1);
    }
  }

  lemma RestoreKeepsCount(prefs: Preferences, d: DeviceState, input: bool, k: nat)
    requires k < |d.Ports(input)|
    ensures |RestorePatching(prefs, d, input, k).Ports(input)| == |d.Ports(input)|
  {
    hide ReadUniverse;
  }

  /** Restoring never breaks a device's rules, however the preferences came about. */
  lemma RestoreStaysLawful(prefs: Preferences, d: DeviceState)
    requires d.Wiring().Lawful()
    ensures Restore(prefs, d).Wiring().Lawful()
  {
    var half := RestorePatchings(prefs, d, true, 0);
    var r := RestorePatchings(prefs, half, false, 0);
    RestorePatchingsLawful(prefs, d, true, 0);
    RestorePatchingsLawful(prefs, half, false, 0);
    hide RestorePatchings, Wiring.Lawful, RestorePriority;
    PrioritiesKeepUniverses(prefs, r.inputs);
    PrioritiesKeepUniverses(prefs, r.outputs);
  }

  lemma PrioritiesKeepUniverses(prefs: Preferences, ports: seq<PortState>)
    ensures Universes(RestorePriorities(prefs, ports)) == Universes(ports)
  {
    hide StringToUInt8;
  }

  /** The ports behind one without an id are not saved. */
  lemma {:induction false} WalkEndsWithoutId(prefs: Preferences, a: seq<PortState>, p: PortState, b: seq<PortState>)
    requires p.id == ""
    ensures SavePatchings(prefs, a + [p] + b) == SavePatchings(prefs, a)
    decreases |a|
  {
    hide IntToString;
    var all := a + [p] + b;
    if a == [] {
      assert all[0] == p;
    } else if a[0].id != "" {
      assert all[0] == a[0] && all[1..] == a[1..] + [p] + b;
      WalkEndsWithoutId(Patched(prefs, a[0]), a[1..], p, b);
    }
  }

  /** None of the keys of a port is in the preferences. */
  ghost predicate Unknown(prefs: Preferences, p: PortState) {
    p.id !in prefs && p.id + VALUE_SUFFIX !in prefs && p.id + MODE_SUFFIX !in prefs
  }

  /** The first time a device registers, restoring leaves it as it is. */
  lemma NothingSavedNothingChanges(prefs: Preferences, d: DeviceState)
    requires forall k :: 0 <= k < |d.AllPorts()| ==> Unknown(prefs, d.AllPorts()[k])
    ensures Restore(prefs, d) == d
  {
    forall input: bool, k: nat | k < |d.Ports(input)| ensures Unknown(prefs, d.Ports(input)[k]) {
      assert d.AllPorts()[if input then k else |d.inputs| + k] == d.Ports(input)[k];
    }
    UnknownPatchings(prefs, d, true, 0);
    UnknownPatchings(prefs, d, false, 0);
    UnknownPriorities(prefs, d.Ports(true));
    UnknownPriorities(prefs, d.Ports(false));
    hide RestorePatchings, RestorePriorities;
  }

  lemma NothingIsRead()
    ensures ReadUniverse("") == None && StringToUInt8("") == None
  {}

  lemma {:induction false} UnknownPatchings(prefs: Preferences, d: DeviceState, input: bool, k: nat)
    requires forall j :: 0 <= j < |d.Ports(input)| ==> Unknown(prefs, d.Ports(input)[j])
    ensures RestorePatchings(prefs, d, input, k) == d
    decreases |d.Ports(input)| - k
  {
    if k < |d.Ports(input)| {
      NothingIsRead();
      assert Unknown(prefs, d.Ports(input)[k]);
      hide ReadUniverse, Unknown;
      assert RestorePatching(prefs, d, input, k) == d;
      UnknownPatchings(prefs, d, input, k + 1);
    }
  }

  lemma UnknownPriorities(prefs: Preferences, ports: seq<PortState>)
    requires forall j :: 0 <= j < |ports| ==> Unknown(prefs, ports[j])
    ensures RestorePriorities(prefs, ports) == ports
  {
    NothingIsRead();
    hide StringToUInt8;
    forall j | 0 <= j < |ports| ensures RestorePriority(prefs, ports[j]) == ports[j] {
      assert Unknown(prefs, ports[j]);
    }
  }

  /**
   * What restoring makes of a port's priority: a legible value is taken, cut to 200; a port that can
   * have both modes overrides then; and a saved inherit mode has the last word.
   */
  lemma RestoredPriorityIs(prefs: Preferences, p: PortState)
    requires p.id != ""
    ensures
      var value := StringToUInt8(Lookup(prefs, p.id + VALUE_SUFFIX));
      var mode := StringToUInt8(Lookup(prefs, p.id + MODE_SUFFIX));
      var r := RestorePriority(prefs, p);
      && (p.capability.NoPriority? ==> r == p)
      && (!p.capability.NoPriority? ==>
            && r == p.(priority := r.priority, mode := r.mode)
            && (value.None? ==> r.priority == p.priority)
            && (value.Some? ==> r.priority == if value.value > 200 then 200 else value.value)
            && (mode == Some(0) ==> r.mode == Inherit)
            && (mode != Some(0) && p.capability.Full? && value.Some? ==> r.mode == Override)
            && (mode != Some(0) && !(p.capability.Full? && value.Some?) ==> r.mode == p.mode))
  {
    hide StringToUInt8;
  }
}
