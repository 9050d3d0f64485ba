/** For which port ids the save and restore round trip holds, and that olad makes such ids. */
module PortIds {
  import opened Base
  import opened NumberText
  import opened Wirings
  import opened Patching
  import opened PortSettings

  /** BasicInputPort::UniqueId and BasicOutputPort::UniqueId */
  function PortId(device: string, input: bool, number: nat): string {
    device + (if input then "-I-" else "-O-") + IntToString(number)
  }

  lemma PortIdEnds(device: string, input: bool, number: nat)
    ensures PortId(device, input, number) != "" && IsDigit(PortId(device, input, number)[|PortId(device, input, number)| - 1])
  {
    var n := IntToString(number);
    var id := PortId(device, input, number);
    assert id[|id| - 1] == n[|n| - 1];
  }

  lemma PortIdsDiffer(device: string, a: bool, m: nat, b: bool, n: nat)
    requires a != b || m != n
    ensures PortId(device, a, m) != PortId(device, b, n)
  {
    var x, y := PortId(device, a, m), PortId(device, b, n);
    var l := |device|;
    if a != b {
      assert x[l + 1] != y[l + 1];
    } else if x == y {
      assert x[l + 3..] == IntToString(m) && y[l + 3..] == IntToString(n);
      TextIsInjective(m, n);
    }
  }

  /** No port id is another port's id with a priority suffix: ids end in a digit. */
  lemma PortIdIsNoKey(device: string, input: bool, number: nat, other: string)
    ensures PortId(device, input, number) != other + VALUE_SUFFIX
    ensures PortId(device, input, number) != other + MODE_SUFFIX
  {
    PortIdEnds(device, input, number);
    var v, m := other + VALUE_SUFFIX, other + MODE_SUFFIX;
    assert v[|v| - 1] == 'e' && m[|m| - 1] == 'e';
  }

  /** The ports of a device carry the ids olad makes of distinct port numbers. */
  ghost predicate Standard(d: DeviceState, device: string, ins: seq<nat>, outs: seq<nat>) {
    && |ins| == |d.inputs| && |outs| == |d.outputs|
    && (forall i, j :: 0 <= i < j < |ins| ==> ins[i] != ins[j])
    && (forall i, j :: 0 <= i < j < |outs| ==> outs[i] != outs[j])
    && (forall i :: 0 <= i < |ins| ==> d.inputs[i].id == PortId(device, true, ins[i]))
    && (forall i :: 0 <= i < |outs| ==> d.outputs[i].id == PortId(device, false, outs[i]))
  }

  /** The ids olad makes never meet, nor does one meet the key of another's priority. */
  lemma StandardIdsAreApart(d: DeviceState, device: string, ins: seq<nat>, outs: seq<nat>)
    requires Standard(d, device, ins, outs)
    ensures KeysApart(d.AllPorts())
  {
    hide PortId;
    var all := d.AllPorts();
    var numbers := ins + outs;
    forall i | 0 <= i < |all| ensures all[i].id == PortId(device, i < |ins|, numbers[i]) {}
    forall i | 0 <= i < |all| ensures all[i].id != "" {
      PortIdEnds(device, i < |ins|, numbers[i]);
    }
    forall i, j | 0 <= i < j < |all| ensures all[i].id != all[j].id {
      PortIdsDiffer(device, i < |ins|, numbers[i], j < |ins|, numbers[j]);
    }
    forall i, j | 0 <= i < |all| && 0 <= j < |all| ensures !PriorityKey(all[j], all[i].id) {
      PortIdIsNoKey(device, i < |ins|, numbers[i], all[j].id);
    }
  }

  /** The device with every port unpatched and nothing else changed. */
  function Unbound(d: DeviceState): DeviceState {
    d.(inputs := AllUnbound(d.inputs), outputs := AllUnbound(d.outputs))
  }

  function AllUnbound(ports: seq<PortState>): seq<PortState> {
    seq(|ports|, i requires 0 <= i < |ports| => ports[i].(universe := None))
  }

  ghost predicate FitsInt(ports: seq<PortState>) {
    forall i :: 0 <= i < |ports| && ports[i].universe.Some? ==> ports[i].universe.value < 0x8000_0000
  }

  /** Settings the manager leaves on a port: a legal priority, and no override without the capability. */
  ghost predicate Ordinary(ports: seq<PortState>) {
    forall i :: 0 <= i < |ports| ==>
      ports[i].priority <= PRIORITY_MAX && (ports[i].capability.Static? ==> ports[i].mode.Inherit?)
  }

  lemma PortComesBack(prefs: Preferences, d: DeviceState, input: bool, k: nat)
    requires KeysApart(d.AllPorts()) && d.Wiring().Lawful()
    requires SmallIds(d.inputs) && SmallIds(d.outputs) && Ordinary(d.Ports(input)) && k < |d.Ports(input)|
    ensures
      var r := Restore(Save(prefs, d), Unbound(d));
      && |r.Ports(input)| == |d.Ports(input)|
      && r.Ports(input)[k] == d.Ports(input)[k].(universe := Kept(d.Ports(input)[k].universe))
  {
    var e, p := Unbound(d), d.Ports(input)[k];
    assert SamePorts(e.inputs, d.inputs) && SamePorts(e.outputs, d.outputs);
    assert e.Ports(input)[k] == p.(universe := None);
    SaveRestoreRoundTrip(prefs, d, e, input, k);
    hide Restore, Save;
  }

  /**
   * A device whose ports are saved, unpatched and restored is exactly what it was if and only
   * if every universe id fits an int.
   */
  lemma ReRegistrationRestoresIff(prefs: Preferences, d: DeviceState)
    requires KeysApart(d.AllPorts()) && d.Wiring().Lawful()
    requires SmallIds(d.inputs) && SmallIds(d.outputs) && Ordinary(d.inputs) && Ordinary(d.outputs)
    ensures Restore(Save(prefs, d), Unbound(d)) == d <==> FitsInt(d.inputs) && FitsInt(d.outputs)
  {
    var r := Restore(Save(prefs, d), Unbound(d));
    SidesKeepLength(prefs, d);
    hide Restore, Save;
    forall k | 0 <= k < |d.inputs| ensures r.inputs[k] == d.inputs[k].(universe := Kept(d.inputs[k].universe)) {
      assert d.Ports(true)[k] == d.inputs[k];
      PortComesBack(prefs, d, true, k);
    }
    forall k | 0 <= k < |d.outputs| ensures r.outputs[k] == d.outputs[k].(universe := Kept(d.outputs[k].universe)) {
      assert d.Ports(false)[k] == d.outputs[k];
      PortComesBack(prefs, d, false, k);
    }
    SideIff(r.inputs, d.inputs);
    SideIff(r.outputs, d.outputs);
  }

  lemma SideIff(r: seq<PortState>, d: seq<PortState>)
    requires |r| == |d| && forall k :: 0 <= k < |d| ==> r[k] == d[k].(universe := Kept(d[k].universe))
    ensures r == d <==> FitsInt(d)
  {
    if r == d {
      forall i | 0 <= i < |d| && d[i].universe.Some? ensures d[i].universe.value < 0x8000_0000 {
        assert r[i] == d[i];
      }
    }
    if FitsInt(d) {
      forall i | 0 <= i < |d| ensures r[i] == d[i] {}
      assert r == d;
    }
  }

  lemma SidesKeepLength(prefs: Preferences, d: DeviceState)
    ensures
      var r := Restore(Save(prefs, d), Unbound(d));
      |r.inputs| == |d.inputs| && |r.outputs| == |d.outputs| && r.looping == d.looping && r.multi == d.multi
  {
    FlagsStay(Save(prefs, d), Unbound(d), true, 0);
    FlagsStay(Save(prefs, d), RestorePatchings(Save(prefs, d), Unbound(d), true, 0), false, 0);
  }

  lemma {:induction false} FlagsStay(prefs: Preferences, d: DeviceState, input: bool, k: nat)
    ensures
      var r := RestorePatchings(prefs, d, input, k);
      r.looping == d.looping && r.multi == d.multi
    decreases |d.Ports(input)| - k
  {
    if k < |d.Ports(input)| {
      hide ReadUniverse;
      FlagsStay(prefs, RestorePatching(prefs, d, input, k), input, k + 1);
    }
  }

  // ----- Exactly which ids

  /** The same ports as d has, with whatever settings. */
  ghost predicate Like(e: DeviceState, d: DeviceState) {
    && e.looping == d.looping && e.multi == d.multi
    && LikePorts(e.inputs, d.inputs) && LikePorts(e.outputs, d.outputs)
  }

  ghost predicate LikePorts(e: seq<PortState>, d: seq<PortState>) {
    |e| == |d| && forall i :: 0 <= i < |d| ==> e[i].id == d[i].id && e[i].capability == d[i].capability
  }

  /** Settings that are saved in full. */
  ghost predicate Savable(d: DeviceState) {
    && d.Wiring().Lawful() && Ordinary(d.inputs) && Ordinary(d.outputs)
    && FitsInt(d.inputs) && FitsInt(d.outputs)
  }

  ghost predicate ComesBack(prefs: Preferences, d: DeviceState) {
    Restore(Save(prefs, d), Unbound(d)) == d
  }

  /** All ports at rest but the n-th, which is bound to universe 300. */
  function Quiet(ports: seq<PortState>, n: int): seq<PortState> {
    seq(|ports|, i requires 0 <= i < |ports| =>
      ports[i].(universe := if i == n then Some(300) else None, priority := PRIORITY_DEFAULT, mode := Inherit))
  }

  function OneBound(d: DeviceState, n: int): DeviceState {
    d.(inputs := Quiet(d.inputs, n), outputs := Quiet(d.outputs, n - |d.inputs|))
  }

  lemma OneBoundIsSavable(d: DeviceState, n: nat)
    requires n < |d.AllPorts()|
    ensures Like(OneBound(d, n), d) && Savable(OneBound(d, n))
    ensures OneBound(d, n).AllPorts() == Quiet(d.AllPorts(), n)
  {
    var e := OneBound(d, n);
    assert forall i :: 0 <= i < |e.inputs| ==> e.Wiring().inputs[i] == e.inputs[i].universe;
    assert forall i :: 0 <= i < |e.outputs| ==> e.Wiring().outputs[i] == e.outputs[i].universe;
    assert e.AllPorts() == Quiet(d.AllPorts(), n);
  }

  /** What the texts that a save of resting ports writes for a priority or a mode are read as. */
  predicate PriorityText(s: string) {
    s == IntToString(PRIORITY_DEFAULT) || s == IntToString(ModeNumber(Inherit))
  }

  lemma ReadPriorityText(s: string)
    requires PriorityText(s) || s == ""
    ensures ReadUniverse(s) != Some(300)
  {
    UniverseRoundTrip(PRIORITY_DEFAULT);
    UniverseRoundTrip(ModeNumber(Inherit));
    hide IntToString, Strtol;
  }

  ghost predicate AtRest(ports: seq<PortState>) {
    forall i :: 0 <= i < |ports| ==> ports[i].priority == PRIORITY_DEFAULT && ports[i].mode == Inherit
  }

  /** A key that holds a priority, or that one of the ports writes a priority to, ends up holding one. */
  lemma {:induction false} PrioritiesWrite(prefs: Preferences, ports: seq<PortState>, key: string)
    requires AtRest(ports) && HaveIds(ports)
    ensures Lookup(SavePriorities(prefs, ports), key) == Lookup(prefs, key)
            || PriorityText(Lookup(SavePriorities(prefs, ports), key))
    ensures (exists j :: 0 <= j < |ports| && PriorityKey(ports[j], key)) ==>
              PriorityText(Lookup(SavePriorities(prefs, ports), key))
    decreases |ports|
  {
    hide IntToString;
    if ports != [] {
      var next := SavePriority(prefs, ports[0]);
      PrioritiesWrite(next, ports[1..], key);
      assert PriorityKey(ports[0], key) ==> PriorityText(Lookup(next, key));
      assert !PriorityKey(ports[0], key) ==> Lookup(next, key) == Lookup(prefs, key);
      forall j | 0 < j < |ports| && PriorityKey(ports[j], key) ensures PriorityKey(ports[1..][j - 1], key) {}
    }
  }

  lemma {:induction false} LastWithId(ports: seq<PortState>, j: nat) returns (m: nat)
    requires j < |ports|
    ensures j <= m < |ports| && ports[m].id == ports[j].id
    ensures forall i :: m < i < |ports| ==> ports[i].id != ports[m].id
    decreases |ports| - j
  {
    if i :| j < i < |ports| && ports[i].id == ports[j].id {
      m := LastWithId(ports, i);
    } else {
      m := j;
    }
  }

  /** The n-th port's universe is not what its key holds after the save. */
  ghost predicate Overwritten(ports: seq<PortState>, n: nat) {
    && n < |ports|
    && ((exists j :: n < j < |ports| && ports[j].id == ports[n].id)
        || (exists j :: 0 <= j < |ports| && PriorityKey(ports[j], ports[n].id)))
  }

  lemma OverwrittenText(prefs: Preferences, ports: seq<PortState>, n: nat)
    requires HaveIds(ports) && AtRest(ports) && Overwritten(ports, n)
    requires forall i :: 0 <= i < |ports| && i != n ==> ports[i].universe.None?
    ensures
      var text := Lookup(SavePriorities(SavePatchings(prefs, ports), ports), ports[n].id);
      PriorityText(text) || text == ""
  {
    hide SavePatchings, SavePriorities, PriorityText, PriorityKey;
    PrioritiesWrite(SavePatchings(prefs, ports), ports, ports[n].id);
    if j :| n < j < |ports| && ports[j].id == ports[n].id {
      var m := LastWithId(ports, j);
      SavedPatchings(prefs, ports, m);
    }
  }

  lemma QuietStaysOverwritten(ports: seq<PortState>, n: nat)
    requires HaveIds(ports) && Overwritten(ports, n)
    ensures HaveIds(Quiet(ports, n)) && AtRest(Quiet(ports, n)) && Overwritten(Quiet(ports, n), n)
    ensures forall i :: 0 <= i < |ports| && i != n ==> Quiet(ports, n)[i].universe.None?
  {
    var quiet := Quiet(ports, n);
    if j :| 0 <= j < |ports| && PriorityKey(ports[j], ports[n].id) {
      assert PriorityKey(quiet[j], quiet[n].id);
    } else {
      var j :| n < j < |ports| && ports[j].id == ports[n].id;
      assert quiet[j].id == quiet[n].id;
    }
  }

  lemma OverwrittenIsLost(prefs: Preferences, d: DeviceState, n: nat)
    requires HaveIds(d.AllPorts()) && Overwritten(d.AllPorts(), n)
    ensures
      var text := Lookup(Save(prefs, OneBound(d, n)), d.AllPorts()[n].id);
      PriorityText(text) || text == ""
  {
    OneBoundIsSavable(d, n);
    QuietStaysOverwritten(d.AllPorts(), n);
    assert Quiet(d.AllPorts(), n)[n].id == d.AllPorts()[n].id;
    hide OneBound, Quiet, Overwritten, HaveIds, AtRest, Like, Savable, Save, SavePriorities, SavePatchings, PriorityText;
    SaveInOneWalk(prefs, OneBound(d, n));
    OverwrittenText(prefs, Quiet(d.AllPorts(), n), n);
  }

  // ----- What restoring can bind a port to

  /** Every port keeps its universe or gets the one its key holds. */
  ghost predicate ComesFrom(prefs: Preferences, before: seq<PortState>, after: seq<PortState>) {
    && |after| == |before|
    && forall i :: 0 <= i < |before| ==>
         && after[i].id == before[i].id
         && (after[i].universe == before[i].universe
             || (before[i].id != "" && after[i].universe == ReadUniverse(Lookup(prefs, before[i].id))))
  }

  lemma {:induction false} PatchingsComeFrom(prefs: Preferences, d: DeviceState, input: bool, k: nat)
    ensures ComesFrom(prefs, d.AllPorts(), RestorePatchings(prefs, d, input, k).AllPorts())
    decreases |d.Ports(input)| - k
  {
    hide ReadUniverse;
    if k < |d.Ports(input)| {
      var next := RestorePatching(prefs, d, input, k);
      OneComesFrom(prefs, d, input, k);
      RestoreKeepsCount(prefs, d, input, k);
      hide RestorePatching, ComesFrom;
      PatchingsComeFrom(prefs, next, input, k + 1);
      ComesFromTwice(prefs, d.AllPorts(), next.AllPorts(), RestorePatchings(prefs, next, input, k + 1).AllPorts());
    }
  }

  lemma OneComesFrom(prefs: Preferences, d: DeviceState, input: bool, k: nat)
    requires k < |d.Ports(input)|
    ensures ComesFrom(prefs, d.AllPorts(), RestorePatching(prefs, d, input, k).AllPorts())
  {
    hide ReadUniverse, Wiring.Allows;
    var e := RestorePatching(prefs, d, input, k);
    var at := if input then k else |d.inputs| + k;
    assert d.AllPorts()[at] == d.Ports(input)[k];
    assert e == d || e.AllPorts() == d.AllPorts()[at := e.Ports(input)[k]];
  }

  lemma RestoreComesFrom(prefs: Preferences, d: DeviceState)
    ensures ComesFrom(prefs, d.AllPorts(), Restore(prefs, d).AllPorts())
  {
    var half := RestorePatchings(prefs, d, true, 0);
    var r := RestorePatchings(prefs, half, false, 0);
    PatchingsComeFrom(prefs, d, true, 0);
    PatchingsComeFrom(prefs, half, false, 0);
    ComesFromTwice(prefs, d.AllPorts(), half.AllPorts(), r.AllPorts());
    hide RestorePatchings, RestorePriorities, ComesFrom;
    PrioritiesKeepPorts(prefs, r.inputs);
    PrioritiesKeepPorts(prefs, r.outputs);
    assert KeptPorts(r.AllPorts(), Restore(prefs, d).AllPorts());
    hide Restore, KeptPorts, DeviceState.AllPorts;
    KeptComeFrom(prefs, d.AllPorts(), r.AllPorts(), Restore(prefs, d).AllPorts());
  }

  ghost predicate KeptPorts(before: seq<PortState>, after: seq<PortState>) {
    |after| == |before|
    && forall i :: 0 <= i < |before| ==> after[i].id == before[i].id && after[i].universe == before[i].universe
  }

  lemma KeptComeFrom(prefs: Preferences, a: seq<PortState>, b: seq<PortState>, c: seq<PortState>)
    requires ComesFrom(prefs, a, b) && KeptPorts(b, c)
    ensures ComesFrom(prefs, a, c)
  {
    hide ReadUniverse;
  }

  lemma ComesFromTwice(prefs: Preferences, a: seq<PortState>, b: seq<PortState>, c: seq<PortState>)
    requires ComesFrom(prefs, a, b) && ComesFrom(prefs, b, c)
    ensures ComesFrom(prefs, a, c)
  {
    hide ReadUniverse;
  }

  lemma PrioritiesKeepPorts(prefs: Preferences, ports: seq<PortState>)
    ensures KeptPorts(ports, RestorePriorities(prefs, ports))
  {
    forall i | 0 <= i < |ports|
      ensures RestorePriority(prefs, ports[i]).id == ports[i].id
      ensures RestorePriority(prefs, ports[i]).universe == ports[i].universe
    {
      PriorityKeepsPort(prefs, ports[i]);
    }
  }

  lemma PriorityKeepsPort(prefs: Preferences, p: PortState)
    ensures RestorePriority(prefs, p).id == p.id && RestorePriority(prefs, p).universe == p.universe
  {
    hide StringToUInt8;
  }

  /** A port without an id, or whose key is overwritten, does not get its universe back. */
  lemma LosesUniverse(prefs: Preferences, d: DeviceState, n: nat)
    requires n < |d.AllPorts()|
    requires d.AllPorts()[n].id == "" || (HaveIds(d.AllPorts()) && Overwritten(d.AllPorts(), n))
    ensures !ComesBack(prefs, OneBound(d, n))
  {
    var e := OneBound(d, n);
    OneBoundIsSavable(d, n);
    var saved := Save(prefs, e);
    if d.AllPorts()[n].id != "" {
      OverwrittenIsLost(prefs, d, n);
      ReadPriorityText(Lookup(saved, d.AllPorts()[n].id));
    }
    RestoreComesFrom(saved, Unbound(e));
    hide Restore, Save, ReadUniverse, PriorityText;
    assert e.AllPorts()[n].universe == Some(300) && e.AllPorts()[n].id == d.AllPorts()[n].id;
    assert Unbound(e).AllPorts()[n] == e.AllPorts()[n].(universe := None);
  }

  lemma SavableComesBack(prefs: Preferences, d: DeviceState)
    requires KeysApart(d.AllPorts()) && Savable(d)
    ensures ComesBack(prefs, d)
  {
    hide Restore, Save;
    ReRegistrationRestoresIff(prefs, d);
  }

  lemma LikeKeys(e: DeviceState, d: DeviceState)
    requires Like(e, d) && KeysApart(d.AllPorts())
    ensures KeysApart(e.AllPorts())
  {
    assert forall i :: 0 <= i < |d.AllPorts()| ==>
             e.AllPorts()[i].id == d.AllPorts()[i].id && e.AllPorts()[i].capability == d.AllPorts()[i].capability;
  }

  /**
   * The ports of a device come back with every setting they can have if and only if their ids
   * are distinct, not empty, and none is a key that a port's priority is saved under.
   */
  lemma RoundTripIff(prefs: Preferences, d: DeviceState)
    ensures KeysApart(d.AllPorts()) <==> forall e :: Like(e, d) && Savable(e) ==> ComesBack(prefs, e)
  {
    var all := d.AllPorts();
    if KeysApart(all) {
      forall e | Like(e, d) && Savable(e) ensures ComesBack(prefs, e) {
        LikeKeys(e, d);
        SavableComesBack(prefs, e);
      }
    } else {
      var n := Culprit(all);
      OneBoundIsSavable(d, n);
      LosesUniverse(prefs, d, n);
    }
  }

  lemma Culprit(ports: seq<PortState>) returns (n: nat)
    requires !KeysApart(ports)
    ensures n < |ports| && (ports[n].id == "" || (HaveIds(ports) && Overwritten(ports, n)))
  {
    if !HaveIds(ports) {
      n :| n < |ports| && ports[n].id == "";
    } else if i, j :| 0 <= i < j < |ports| && ports[i].id == ports[j].id {
      n := i;
    } else {
      var i, j :| 0 <= i < |ports| && 0 <= j < |ports| && PriorityKey(ports[j], ports[i].id);
      n := i;
    }
  }

  /** Two ports that lose a patching: the second one's id is the key of the first one's priority. */
  lemma CollidingIdsLoseSettings()
    ensures
      var a := PortState("p", Static, None, 100, Inherit);
      var b := PortState("p" + VALUE_SUFFIX, NoPriority, Some(300), 100, Inherit);
      var d := DeviceState(true, true, [a, b], []);
      a.id != b.id && Savable(d) && !ComesBack(map[], d)
  {
    var a := PortState("p", Static, None, 100, Inherit);
    var b := PortState("p" + VALUE_SUFFIX, NoPriority, Some(300), 100, Inherit);
    var d := DeviceState(true, true, [a, b], []);
    assert d.AllPorts() == [a, b] && PriorityKey(d.AllPorts()[0], d.AllPorts()[1].id);
    assert OneBound(d, 1) == d;
    OneBoundIsSavable(d, 1);
    LosesUniverse(map[], d, 1);
  }
}
