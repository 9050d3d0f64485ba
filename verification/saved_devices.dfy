/** Saving the ports of several devices to the same preferences, as UnregisterAllDevices does. */
module SavedDevices {
  import opened NumberText
  import opened Patching
  import opened PortSettings
  import opened PortIds

  function SaveAll(prefs: Preferences, ds: seq<DeviceState>): Preferences
    decreases |ds|
  {
    if ds == [] then prefs else SaveAll(Save(prefs, ds[0]), ds[1..])
  }

  /** No port of one list has the id of a port of the other, or the key of its priority. */
  ghost predicate Apart(a: seq<PortState>, b: seq<PortState>) {
    forall i, j :: 0 <= i < |a| && 0 <= j < |b| ==> PortsApart(a[i], b[j])
  }

  predicate PortsApart(p: PortState, q: PortState) {
    p.id != q.id && !PriorityKey(p, q.id) && !PriorityKey(q, p.id)
  }

  lemma SidesOf(d: DeviceState)
    ensures |d.AllPorts()| == |d.inputs| + |d.outputs|
    ensures forall j :: 0 <= j < |d.inputs| ==> d.AllPorts()[j] == d.inputs[j]
    ensures forall j :: 0 <= j < |d.outputs| ==> d.AllPorts()[|d.inputs| + j] == d.outputs[j]
  {}

  lemma SaveLeavesPatching(prefs: Preferences, d: DeviceState, key: string)
    requires forall j :: 0 <= j < |d.AllPorts()| ==> d.AllPorts()[j].id != key
    ensures Lookup(SavePatchings(SavePatchings(prefs, d.inputs), d.outputs), key) == Lookup(prefs, key)
  {
    SidesOf(d);
    assert forall j :: 0 <= j < |d.inputs| ==> d.inputs[j] == d.AllPorts()[j];
    assert forall j :: 0 <= j < |d.outputs| ==> d.outputs[j] == d.AllPorts()[|d.inputs| + j];
    PatchingsLeave(prefs, d.inputs, key);
    PatchingsLeave(SavePatchings(prefs, d.inputs), d.outputs, key);
  }

  lemma SaveLeavesPriorities(prefs: Preferences, d: DeviceState, p: PortState)
    requires Apart([p], d.AllPorts())
    ensures Lookup(SavePriorities(SavePriorities(prefs, d.inputs), d.outputs), p.id) == Lookup(prefs, p.id)
    ensures HoldsPriority(prefs, p) ==> HoldsPriority(SavePriorities(SavePriorities(prefs, d.inputs), d.outputs), p)
  {
    SidesOf(d);
    assert forall j :: 0 <= j < |d.AllPorts()| ==> PortsApart([p][0], d.AllPorts()[j]);
    assert forall j :: 0 <= j < |d.inputs| ==> d.inputs[j] == d.AllPorts()[j];
    assert forall j :: 0 <= j < |d.outputs| ==> d.outputs[j] == d.AllPorts()[|d.inputs| + j];
    hide HoldsPriority, SavePriorities;
    var next := SavePriorities(prefs, d.inputs);
    PrioritiesLeave(prefs, d.inputs, p.id);
    PrioritiesLeave(next, d.outputs, p.id);
    if HoldsPriority(prefs, p) {
      OthersKeepPriority(prefs, d.inputs, p);
      OthersKeepPriority(next, d.outputs, p);
    }
  }

  /** Saving a device, whatever its own ids, leaves what is saved of a port apart from it. */
  lemma SaveKeepsPort(prefs: Preferences, d: DeviceState, p: PortState)
    requires HoldsPort(prefs, p) && Apart([p], d.AllPorts())
    ensures HoldsPort(Save(prefs, d), p)
  {
    forall j | 0 <= j < |d.AllPorts()|
      ensures d.AllPorts()[j].id != p.id
      ensures !p.capability.NoPriority? ==> d.AllPorts()[j].id != p.id + VALUE_SUFFIX
      ensures p.capability.Full? ==> d.AllPorts()[j].id != p.id + MODE_SUFFIX
    {
      assert PortsApart([p][0], d.AllPorts()[j]);
    }
    SaveLeavesPatching(prefs, d, p.id);
    if !p.capability.NoPriority? { SaveLeavesPatching(prefs, d, p.id + VALUE_SUFFIX); }
    if p.capability.Full? { SaveLeavesPatching(prefs, d, p.id + MODE_SUFFIX); }
    var patched := SavePatchings(SavePatchings(prefs, d.inputs), d.outputs);
    assert HoldsPriority(patched, p);
    hide SavePatchings, SavePriorities, HoldsPriority, Apart;
    SaveLeavesPriorities(patched, d, p);
  }

  lemma SaveKeepsDevice(prefs: Preferences, d: DeviceState, other: DeviceState)
    requires Holds(prefs, other) && Apart(other.AllPorts(), d.AllPorts())
    ensures Holds(Save(prefs, d), other)
  {
    hide Save, HoldsPort, PortsApart;
    forall k | 0 <= k < |other.AllPorts()| ensures HoldsPort(Save(prefs, d), other.AllPorts()[k]) {
      var p := other.AllPorts()[k];
      assert HoldsPort(prefs, p) && Apart([p], d.AllPorts());
      SaveKeepsPort(prefs, d, p);
    }
  }

  lemma {:induction false} SaveAllKeeps(prefs: Preferences, ds: seq<DeviceState>, other: DeviceState)
    requires Holds(prefs, other) && forall i :: 0 <= i < |ds| ==> Apart(other.AllPorts(), ds[i].AllPorts())
    ensures Holds(SaveAll(prefs, ds), other)
    decreases |ds|
  {
    if ds != [] {
      hide Save, Holds, Apart;
      SaveKeepsDevice(prefs, ds[0], other);
      SaveAllKeeps(Save(prefs, ds[0]), ds[1..], other);
    }
  }

  /** The i-th save is the last one that touches the keys of its device. */
  ghost predicate LastSave(ds: seq<DeviceState>, i: nat) {
    i < |ds| && forall j :: i < j < |ds| ==> Apart(ds[i].AllPorts(), ds[j].AllPorts())
  }

  /** Whatever has been saved before, and of whichever other devices after, the last save holds. */
  lemma {:induction false} SaveAllHolds(prefs: Preferences, ds: seq<DeviceState>, i: nat)
    requires LastSave(ds, i) && KeysApart(ds[i].AllPorts())
    ensures Holds(SaveAll(prefs, ds), ds[i])
    decreases |ds|
  {
    hide Save, Holds, KeysApart, Apart;
    if i > 0 {
      assert forall j :: i < j < |ds| ==> ds[1..][j - 1] == ds[j];
      SaveAllHolds(Save(prefs, ds[0]), ds[1..], i - 1);
    } else {
      SaveHoldsDevice(prefs, ds[0]);
      SaveAllKeeps(Save(prefs, ds[0]), ds[1..], ds[0]);
    }
  }

  /** Whatever devices are saved, how often and in whatever order, each gets its last settings back. */
  lemma EveryDeviceComesBack(prefs: Preferences, ds: seq<DeviceState>, i: nat, e: DeviceState, input: bool, k: nat)
    requires LastSave(ds, i) && KeysApart(ds[i].AllPorts()) && ds[i].Wiring().Lawful()
    requires SmallIds(ds[i].inputs) && SmallIds(ds[i].outputs) && Unpatched(e, ds[i])
    requires k < |ds[i].Ports(input)| && ds[i].Ports(input)[k].priority <= PRIORITY_MAX
    ensures
      var r := Restore(SaveAll(prefs, ds), e);
      && |r.Ports(input)| == |ds[i].Ports(input)|
      && Returned(ds[i].Ports(input)[k], e.Ports(input)[k], r.Ports(input)[k])
  {
    SaveAllHolds(prefs, ds, i);
    hide SaveAll, Restore, Returned, Holds, Apart, Unpatched;
    HeldSettingsComeBack(SaveAll(prefs, ds), ds[i], e, input, k);
  }

  // ----- The ids olad makes

  /** Where the number at the end of a port id starts: after the last character that is no digit. */
  lemma NumberStarts(device: string, input: bool, number: nat)
    ensures
      var id, n := PortId(device, input, number), |IntToString(number)|;
      && |id| == |device| + 3 + n
      && !IsDigit(id[|id| - n - 1]) && (forall i :: |id| - n <= i < |id| ==> IsDigit(id[i]))
  {
    var id, n := PortId(device, input, number), IntToString(number);
    forall i | |id| - |n| <= i < |id| ensures IsDigit(id[i]) { assert id[i] == n[i - (|id| - |n|)]; }
  }

  lemma OtherDevicesIdsDiffer(a: string, ai: bool, m: nat, b: string, bi: bool, n: nat)
    requires a != b
    ensures PortId(a, ai, m) != PortId(b, bi, n)
  {
    NumberStarts(a, ai, m);
    NumberStarts(b, bi, n);
    var x, y := PortId(a, ai, m), PortId(b, bi, n);
    assert x[..|a|] == a && y[..|b|] == b;
  }

  lemma StandardPort(d: DeviceState, device: string, ins: seq<nat>, outs: seq<nat>, i: nat)
    requires Standard(d, device, ins, outs) && i < |d.AllPorts()|
    ensures d.AllPorts()[i].id == PortId(device, i < |ins|, (ins + outs)[i])
  {
    hide PortId;
  }

  /** Ports of devices with different ids never share a key. */
  lemma StandardDevicesAreApart(a: DeviceState, aId: string, aIns: seq<nat>, aOuts: seq<nat>,
                                b: DeviceState, bId: string, bIns: seq<nat>, bOuts: seq<nat>)
    requires Standard(a, aId, aIns, aOuts) && Standard(b, bId, bIns, bOuts) && aId != bId
    ensures Apart(a.AllPorts(), b.AllPorts())
  {
    forall i, j | 0 <= i < |a.AllPorts()| && 0 <= j < |b.AllPorts()|
      ensures PortsApart(a.AllPorts()[i], b.AllPorts()[j])
    {
      hide PortId, Standard;
      StandardPort(a, aId, aIns, aOuts, i);
      StandardPort(b, bId, bIns, bOuts, j);
      var p, q := a.AllPorts()[i], b.AllPorts()[j];
      var m, n := (aIns + aOuts)[i], (bIns + bOuts)[j];
      OtherDevicesIdsDiffer(aId, i < |aIns|, m, bId, j < |bIns|, n);
      PortIdIsNoKey(aId, i < |aIns|, m, q.id);
      PortIdIsNoKey(bId, j < |bIns|, n, p.id);
    }
  }
}
