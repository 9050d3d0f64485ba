/** GetCandidatePorts: the ports a client is offered for a universe, device by device. */
module CandidatePorts {
  import opened Base
  import opened Wirings
  import opened Patching

  datatype DeviceInfo = DeviceInfo(alias: nat, device: Device, inputPorts: seq<Port>, outputPorts: seq<Port>)

  datatype Registered = Registered(alias: nat, device: Device)

  function Pick(ports: seq<Port>, ks: seq<nat>): seq<Port>
    requires forall i :: 0 <= i < |ks| ==> ks[i] < |ports|
  {
    seq(|ks|, i requires 0 <= i < |ks| => ports[ks[i]])
  }

  /** The entry of a device in the reply, if it gets one. */
  function InfoOf(r: Registered, universe: Option<nat>): Option<DeviceInfo>
    reads r.device, r.device.inputPorts, r.device.outputPorts
  {
    var d := r.device;
    var ins := Candidates(d.Wiring(), true, universe);
    var outs := Candidates(d.Wiring(), false, universe);
    var skip := if universe.Some? then ins == [] && outs == [] else d.inputPorts == [] && d.outputPorts == [];
    if skip then None
    else Some(DeviceInfo(r.alias, d, Pick(d.inputPorts, ins), Pick(d.outputPorts, outs)))
  }

  function Reply(rs: seq<Registered>, universe: Option<nat>): seq<DeviceInfo>
    reads *
  {
    if rs == [] then []
    else
      var n := |rs| - 1;
      var info := InfoOf(rs[n], universe);
      Reply(rs[..n], universe) + if info.Some? then [info.value] else []
  }

  /**
   * A port is offered for a universe exactly when it is unbound and PatchPort to that universe
   * would succeed in the same state, except that a device without multi-port patching offers
   * only its first such port of each kind.
   */
  lemma OfferedIffPatchable(d: Device, input: bool, u: nat, k: nat)
    requires d.Valid() && k < |d.Ports(input)|
    ensures k in Candidates(d.Wiring(), input, Some(u)) <==>
              && d.Ports(input)[k].universe == null
              && MayPatch(d.Ports(input)[k], u)
              && (d.allowMultiPortPatching || forall j :: 0 <= j < k ==> d.Ports(input)[j].universe != null)
  {
    var w, p := d.Wiring(), d.Ports(input)[k];
    assert w.Same(input) == Bindings(d.Ports(input));
    assert p in d.Ports(input) && p.isInput == input && p.device == d;
    CandidatesAgreeWithPatch(w, input, u, k);
    if p.universe == null {
      assert w.Bound(input, k, Some(u)).Same(input)[k] == Some(u);
    }
  }

  // ----- What a reply says

  ghost predicate Ascending(ks: seq<nat>) {
    forall i, j :: 0 <= i < j < |ks| ==> ks[i] < ks[j]
  }

  /**
   * A port that a client may patch: it is unbound, patching it to the universe in question would
   * succeed, and it is the first unbound one of its kind unless the device may bind several.
   */
  ghost predicate Offerable(d: Device, input: bool, u: Option<nat>, k: nat)
    reads *
  {
    && k < |d.Ports(input)| && d.Ports(input)[k].universe == null
    && (u.Some? ==> MayPatch(d.Ports(input)[k], u.value))
    && (d.allowMultiPortPatching || forall j :: 0 <= j < k ==> d.Ports(input)[j].universe != null)
  }

  /** All the ports of a kind that may be patched, each once, in port order, and no others. */
  ghost predicate ListsExactly(listed: seq<Port>, d: Device, input: bool, u: Option<nat>)
    reads *
  {
    exists ks :: PlacesOf(ks, listed, d, input, u)
  }

  ghost predicate PlacesOf(ks: seq<nat>, listed: seq<Port>, d: Device, input: bool, u: Option<nat>)
    reads *
  {
    && Ascending(ks) && |ks| == |listed|
    && (forall a :: 0 <= a < |ks| ==> ks[a] < |d.Ports(input)| && listed[a] == d.Ports(input)[ks[a]])
    && (forall k: nat :: k in ks <==> Offerable(d, input, u, k))
  }

  /** With a universe, some port may be patched; without one, the device has any ports at all. */
  ghost predicate HasEntry(d: Device, u: Option<nat>)
    reads *
  {
    if u.Some? then exists input, k :: Offerable(d, input, u, k) else d.inputPorts != [] || d.outputPorts != []
  }

  ghost predicate EntryFor(info: DeviceInfo, r: Registered, u: Option<nat>)
    reads *
  {
    && info.alias == r.alias && info.device == r.device
    && ListsExactly(info.inputPorts, r.device, true, u) && ListsExactly(info.outputPorts, r.device, false, u)
  }

  /** One entry for each device that has one, in device order. */
  ghost predicate RepliesExactly(infos: seq<DeviceInfo>, rs: seq<Registered>, u: Option<nat>)
    reads *
  {
    exists ds :: EntriesOf(ds, infos, rs, u)
  }

  ghost predicate EntriesOf(ds: seq<nat>, infos: seq<DeviceInfo>, rs: seq<Registered>, u: Option<nat>)
    reads *
  {
    && Ascending(ds) && |ds| == |infos|
    && (forall a :: 0 <= a < |ds| ==> ds[a] < |rs| && EntryFor(infos[a], rs[ds[a]], u))
    && (forall i :: 0 <= i < |rs| ==> (i in ds <==> HasEntry(rs[i].device, u)))
  }

  lemma {:induction false} FreeAscends(side: Side, k: nat)
    ensures Ascending(Free(side, k))
    decreases |side| - k
  {
    if k < |side| {
      FreeAscends(side, k + 1);
    }
  }

  lemma OfferableIff(d: Device, input: bool, u: Option<nat>, k: nat)
    requires d.Valid()
    ensures k in Candidates(d.Wiring(), input, u) <==> Offerable(d, input, u, k)
  {
    var w := d.Wiring();
    var side := w.Same(input);
    assert side == Bindings(d.Ports(input));
    if k < |side| {
      if u.Some? {
        OfferedIffPatchable(d, input, u.value, k);
      } else {
        FreeExactly(side, 0, k);
        if !w.multi && Free(side, 0) != [] {
          FreeExactly(side, 0, Free(side, 0)[0]);
          assert Free(side, 0)[0] in Free(side, 0);
        }
      }
    }
  }

  lemma CandidatesAscend(w: Wiring, input: bool, u: Option<nat>)
    ensures Ascending(Candidates(w, input, u))
  {
    FreeAscends(w.Same(input), 0);
  }

  lemma PickPlaces(ks: seq<nat>, d: Device, input: bool, u: Option<nat>)
    requires Ascending(ks) && forall a :: 0 <= a < |ks| ==> ks[a] < |d.Ports(input)|
    requires forall k: nat :: k in ks <==> Offerable(d, input, u, k)
    ensures ListsExactly(Pick(d.Ports(input), ks), d, input, u)
    ensures ks != [] <==> exists k :: Offerable(d, input, u, k)
  {
    hide Offerable, Ascending;
    assert PlacesOf(ks, Pick(d.Ports(input), ks), d, input, u);
    hide PlacesOf;
    if ks != [] {
      assert ks[0] in ks;
    }
  }

  lemma PickListsExactly(d: Device, input: bool, u: Option<nat>)
    requires d.Valid()
    ensures |d.Wiring().Same(input)| == |d.Ports(input)|
    ensures ListsExactly(Pick(d.Ports(input), Candidates(d.Wiring(), input, u)), d, input, u)
    ensures Candidates(d.Wiring(), input, u) != [] <==> exists k :: Offerable(d, input, u, k)
  {
    SideLength(d, input);
    var ks := Candidates(d.Wiring(), input, u);
    CandidatesAscend(d.Wiring(), input, u);
    hide Candidates, Offerable, Ascending, Device.Wiring, ListsExactly, Pick, Device.Valid;
    forall k: nat ensures k in ks <==> Offerable(d, input, u, k) {
      OfferableIff(d, input, u, k);
    }
    PickPlaces(ks, d, input, u);
  }

  lemma SideLength(d: Device, input: bool)
    ensures |d.Wiring().Same(input)| == |d.Ports(input)|
  {
    assert d.Wiring().Same(input) == Bindings(d.Ports(input));
  }

  lemma InfoIsExact(r: Registered, u: Option<nat>)
    requires r.device.Valid()
    ensures InfoOf(r, u).Some? <==> HasEntry(r.device, u)
    ensures InfoOf(r, u).Some? ==> EntryFor(InfoOf(r, u).value, r, u)
  {
    PickListsExactly(r.device, true, u);
    PickListsExactly(r.device, false, u);
    hide Candidates, Offerable, ListsExactly, Pick, Device.Valid, Device.Wiring, InfoOf, EntryFor, HasEntry;
    EntryIffCandidates(r, u);
    EntryLists(r, u);
  }

  lemma EntryLists(r: Registered, u: Option<nat>)
    requires
      var d := r.device;
      && |d.Wiring().Same(true)| == |d.inputPorts| && |d.Wiring().Same(false)| == |d.outputPorts|
      && ListsExactly(Pick(d.inputPorts, Candidates(d.Wiring(), true, u)), d, true, u)
      && ListsExactly(Pick(d.outputPorts, Candidates(d.Wiring(), false, u)), d, false, u)
    ensures InfoOf(r, u).Some? ==> EntryFor(InfoOf(r, u).value, r, u)
  {
    hide Candidates, Offerable, ListsExactly, Pick, Device.Wiring;
  }

  lemma EntryIffCandidates(r: Registered, u: Option<nat>)
    requires Candidates(r.device.Wiring(), true, u) != [] <==> exists k :: Offerable(r.device, true, u, k)
    requires Candidates(r.device.Wiring(), false, u) != [] <==> exists k :: Offerable(r.device, false, u, k)
    ensures InfoOf(r, u).Some? <==> HasEntry(r.device, u)
  {
    hide Candidates, Offerable, Pick, Device.Wiring;
  }

  /** The reply is exactly what may be patched. */
  lemma {:induction false} ReplyIsExact(rs: seq<Registered>, u: Option<nat>)
    requires forall i :: 0 <= i < |rs| ==> rs[i].device.Valid()
    ensures RepliesExactly(Reply(rs, u), rs, u)
    decreases |rs|
  {
    hide EntryFor, HasEntry, InfoOf;
    if rs == [] {
      assert EntriesOf([], [], rs, u);
    } else {
      var n := |rs| - 1;
      ReplyIsExact(rs[..n], u);
      InfoIsExact(rs[n], u);
      AddEntry(Reply(rs[..n], u), rs, u, InfoOf(rs[n], u));
    }
  }

  lemma AddEntry(infos: seq<DeviceInfo>, rs: seq<Registered>, u: Option<nat>, info: Option<DeviceInfo>)
    requires rs != [] && RepliesExactly(infos, rs[..|rs| - 1], u)
    requires info.Some? <==> HasEntry(rs[|rs| - 1].device, u)
    requires info.Some? ==> EntryFor(info.value, rs[|rs| - 1], u)
    ensures RepliesExactly(infos + if info.Some? then [info.value] else [], rs, u)
  {
    var n := |rs| - 1;
    var ds :| EntriesOf(ds, infos, rs[..n], u);
    hide RepliesExactly;
    if info.Some? {
      AddSome(ds, infos, rs, u, info.value);
      OneWay(ds + [n], infos + [info.value], rs, u);
    } else {
      AddNone(ds, infos, rs, u);
      assert infos + [] == infos;
      OneWay(ds, infos, rs, u);
    }
  }

  lemma OneWay(ds: seq<nat>, infos: seq<DeviceInfo>, rs: seq<Registered>, u: Option<nat>)
    requires EntriesOf(ds, infos, rs, u)
    ensures RepliesExactly(infos, rs, u)
  {}

  lemma AddSome(ds: seq<nat>, infos: seq<DeviceInfo>, rs: seq<Registered>, u: Option<nat>, info: DeviceInfo)
    requires rs != [] && EntriesOf(ds, infos, rs[..|rs| - 1], u)
    requires HasEntry(rs[|rs| - 1].device, u) && EntryFor(info, rs[|rs| - 1], u)
    ensures EntriesOf(ds + [|rs| - 1], infos + [info], rs, u)
  {
    hide EntryFor, HasEntry;
    var n := |rs| - 1;
    var longer, more := ds + [n], infos + [info];
    forall a | 0 <= a < |longer| ensures longer[a] < |rs| && EntryFor(more[a], rs[longer[a]], u) {
      assert a < |ds| ==> rs[..n][ds[a]] == rs[ds[a]];
    }
    forall i | 0 <= i < |rs| ensures i in longer <==> HasEntry(rs[i].device, u) {
      assert i < n ==> rs[..n][i] == rs[i];
    }
  }

  lemma AddNone(ds: seq<nat>, infos: seq<DeviceInfo>, rs: seq<Registered>, u: Option<nat>)
    requires rs != [] && EntriesOf(ds, infos, rs[..|rs| - 1], u) && !HasEntry(rs[|rs| - 1].device, u)
    ensures EntriesOf(ds, infos, rs, u)
  {
    hide EntryFor, HasEntry;
    var n := |rs| - 1;
    forall a | 0 <= a < |ds| ensures ds[a] < |rs| && EntryFor(infos[a], rs[ds[a]], u) {
      assert rs[..n][ds[a]] == rs[ds[a]];
    }
    forall i | 0 <= i < |rs| ensures i in ds <==> HasEntry(rs[i].device, u) {
      assert i < n ==> rs[..n][i] == rs[i];
    }
  }

  /** Comparing universe pointers is comparing universe ids. */
  lemma SeenIff(manager: PortManager, ports: seq<Port>, universe: Universe)
    requires manager.Valid() && forall p :: p in ports ==> p in manager.ports
    requires universe.id in manager.universes && manager.universes[universe.id] == universe
    ensures (exists i :: 0 <= i < |ports| && ports[i].universe == universe) <==> Some(universe.id) in Bindings(ports)
  {
    if i :| 0 <= i < |ports| && ports[i].universe == universe {
      assert Bindings(ports)[i] == Some(universe.id);
    }
    if Some(universe.id) in Bindings(ports) {
      var i :| 0 <= i < |ports| && Bindings(ports)[i] == Some(universe.id);
      assert ports[i] in manager.ports;
    }
  }

  /** Whether a universe already has a port of a side, and how many ports of the side are unbound. */
  method Survey(ports: seq<Port>, universe: Universe) returns (seen: bool, unpatched: nat)
    ensures seen <==> exists i :: 0 <= i < |ports| && ports[i].universe == universe
    ensures unpatched == |Free(Bindings(ports), 0)|
  {
    seen, unpatched := false, 0;
    for i := 0 to |ports|
      invariant seen <==> exists j :: 0 <= j < i && ports[j].universe == universe
      invariant unpatched + |Free(Bindings(ports), i)| == |Free(Bindings(ports), 0)|
    {
      if ports[i].universe == universe {
        seen := true;
      } else if ports[i].universe == null {
        unpatched := unpatched + 1;
      }
    }
  }

  method SurveyById(manager: PortManager, ports: seq<Port>, universe: Universe) returns (seen: bool, unpatched: nat)
    requires manager.Valid() && forall p :: p in ports ==> p in manager.ports
    requires universe.id in manager.universes && manager.universes[universe.id] == universe
    ensures seen <==> Some(universe.id) in Bindings(ports)
    ensures unpatched == |Free(Bindings(ports), 0)|
  {
    hide Free;
    SeenIff(manager, ports, universe);
    hide Bindings;
    seen, unpatched := Survey(ports, universe);
  }

  /** The loop that lists the ports of one side. */
  method List(ports: seq<Port>, canBind: bool, multi: bool) returns (listed: seq<Port>)
    ensures listed == Pick(ports, if canBind then Offered(Bindings(ports), multi) else [])
  {
    listed := [];
    ghost var side := Bindings(ports);
    hide Free, Bindings, Pick;
    FreeStep(ports, side, |ports|);
    for i := 0 to |ports|
      invariant canBind ==> listed + Pick(ports, Free(side, i)) == Pick(ports, Free(side, 0))
      invariant !canBind || !multi ==> listed == []
    {
      FreeStep(ports, side, i);
      if ports[i].universe != null {
        continue;
      }
      if !canBind {
        break;
      }
      listed := listed + [ports[i]];
      if !multi {
        FirstFree(ports, side, ports[i]);
        return;
      }
    }
    if !multi && canBind {
      FreeStep(ports, side, 0);
      assert Pick(ports, Free(side, 0)) == [];
    }
  }

  lemma FreeStep(ports: seq<Port>, side: Side, i: nat)
    requires |side| == |ports| && i <= |side|
    ensures i == |side| ==> Pick(ports, Free(side, i)) == []
    ensures i < |side| ==>
              Pick(ports, Free(side, i)) == (if side[i].None? then [ports[i]] else []) + Pick(ports, Free(side, i + 1))
    ensures Pick(ports, Free(side, i)) == [] <==> Free(side, i) == []
  {}

  lemma FirstFree(ports: seq<Port>, side: Side, p: Port)
    requires |side| == |ports| && Pick(ports, Free(side, 0)) != [] && Pick(ports, Free(side, 0))[0] == p
    ensures Pick(ports, Offered(side, false)) == [p]
  {}

  function IdOf(universe: Universe?): Option<nat> {
    if universe == null then None else Some(universe.id)
  }

  /** Whether a side may bind one more port, and whether it has one to bind. */
  predicate Open(w: Wiring, input: bool, universe: Option<nat>) {
    universe.None? || w.Allows(input, None, universe.value)
  }

  /** The first loops over a device's ports, and the two conclusions drawn from them. */
  method Tally(manager: PortManager, d: Device, universe: Universe?)
    returns (canIn: bool, canOut: bool, noneIn: bool, noneOut: bool)
    requires manager.Valid() && d.Valid() && Knows(manager, d)
    requires universe != null ==> universe.id in manager.universes && manager.universes[universe.id] == universe
    ensures canIn == Open(d.Wiring(), true, IdOf(universe))
    ensures canOut == Open(d.Wiring(), false, IdOf(universe))
    ensures noneIn == if universe == null then d.inputPorts == [] else Free(Bindings(d.inputPorts), 0) == []
    ensures noneOut == if universe == null then d.outputPorts == [] else Free(Bindings(d.outputPorts), 0) == []
  {
    hide Free, Bindings;
    var seenIn, seenOut := false, false;
    var unpatchedIn, unpatchedOut := |d.inputPorts|, |d.outputPorts|;
    if universe != null {
      seenIn, unpatchedIn := SurveyById(manager, d.inputPorts, universe);
      seenOut, unpatchedOut := SurveyById(manager, d.outputPorts, universe);
    }
    noneIn, noneOut := unpatchedIn == 0, unpatchedOut == 0;
    canIn := (!seenOut || d.allowLooping) && (!seenIn || d.allowMultiPortPatching);
    canOut := (!seenIn || d.allowLooping) && (!seenOut || d.allowMultiPortPatching);
  }

  /** The body of the loop over devices; a null universe stands for none in the request. */
  method CandidatesOf(manager: PortManager, r: Registered, universe: Universe?) returns (info: Option<DeviceInfo>)
    requires manager.Valid() && r.device.Valid() && Knows(manager, r.device)
    requires universe != null ==> universe.id in manager.universes && manager.universes[universe.id] == universe
    ensures info == InfoOf(r, IdOf(universe))
  {
    hide Candidates, Open, Free, Bindings, Pick, Offered;
    var d := r.device;
    var canIn, canOut, noneIn, noneOut := Tally(manager, d, universe);
    SkipIff(d, IdOf(universe));
    if (noneIn || !canIn) && (noneOut || !canOut) {
      return None;
    }
    var ins := List(d.inputPorts, canIn, d.allowMultiPortPatching);
    var outs := List(d.outputPorts, canOut, d.allowMultiPortPatching);
    ListedSides(d, IdOf(universe));
    return Some(DeviceInfo(r.alias, d, ins, outs));
  }

  /** The entry of a device is left out when neither side has a port that could be bound. */
  lemma SkipIff(d: Device, universe: Option<nat>)
    ensures
      var w := d.Wiring();
      (if universe.Some? then Candidates(w, true, universe) == [] && Candidates(w, false, universe) == []
       else d.inputPorts == [] && d.outputPorts == [])
      <==> ((if universe.None? then d.inputPorts == [] else Free(Bindings(d.inputPorts), 0) == [])
            || !Open(w, true, universe))
           && ((if universe.None? then d.outputPorts == [] else Free(Bindings(d.outputPorts), 0) == [])
               || !Open(w, false, universe))
  {
    SideEmptyIff(d.Wiring(), true, universe);
    SideEmptyIff(d.Wiring(), false, universe);
    hide Candidates, Free, Bindings;
  }

  lemma ListedSides(d: Device, universe: Option<nat>)
    ensures Candidates(d.Wiring(), true, universe)
            == if Open(d.Wiring(), true, universe) then Offered(Bindings(d.inputPorts), d.allowMultiPortPatching) else []
    ensures Candidates(d.Wiring(), false, universe)
            == if Open(d.Wiring(), false, universe) then Offered(Bindings(d.outputPorts), d.allowMultiPortPatching) else []
  {}

  lemma SideEmptyIff(w: Wiring, input: bool, universe: Option<nat>)
    ensures Candidates(w, input, universe) == [] <==>
              Free(w.Same(input), 0) == [] || !Open(w, input, universe)
  {}

  /** GetCandidatePorts; None is the reply that the universe is missing. */
  method GetCandidatePorts(manager: PortManager, devices: seq<Registered>, request: Option<nat>)
    returns (reply: Option<seq<DeviceInfo>>)
    requires manager.Valid()
    requires forall i :: 0 <= i < |devices| ==> devices[i].device.Valid()
    requires forall i :: 0 <= i < |devices| ==> Knows(manager, devices[i].device)
    ensures reply == if request.Some? && request.value !in manager.universes then None
                     else Some(Reply(devices, request))
    ensures reply.Some? ==> RepliesExactly(reply.value, devices, request)
  {
    var universe: Universe? := null;
    if request.Some? {
      if request.value !in manager.universes {
        return None;
      }
      universe := manager.universes[request.value];
    }
    hide InfoOf;
    var infos := [];
    for i := 0 to |devices|
      invariant infos == Reply(devices[..i], request)
    {
      var info := CandidatesOf(manager, devices[i], universe);
      assert devices[..i + 1][..i] == devices[..i];
      if info.Some? {
        infos := infos + [info.value];
      }
    }
    assert devices[..|devices|] == devices;
    ReplyIsExact(devices, request);
    hide RepliesExactly;
    return Some(infos);
  }
}
