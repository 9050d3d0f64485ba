/** The output ports of a node as handle_dmx updates them, in place. */
module DmxPorts {
  import opened Base
  import opened DmxMerge

  type Buffer = array<Byte>

  class OutputPort {
    const data: Buffer
    const dataA: Buffer
    const dataB: Buffer
    var length: nat
    var ipA: nat
    var ipB: nat
    var timeA: int
    var timeB: int
    var mode: MergeMode
    var address: Byte
    var enabled: bool
    var active: bool   // the PORT_STATUS_ACT_MASK bit of the port's status

    ghost predicate Valid() {
      && data.Length == dataA.Length == dataB.Length == ARTNET_DMX_LENGTH
      && data != dataA && data != dataB && dataA != dataB
    }

    ghost function Repr(): set<object> { {this, data, dataA, dataB} }

    ghost function Value(): Port
      requires Valid()
      reads Repr()
    {
      Port(ipA, ipB, timeA, timeB, dataA[..], dataB[..], data[..], length, mode)
    }

    constructor (mode: MergeMode)
      ensures Valid() && fresh(Repr())
      ensures Value() == Fresh(mode) && !enabled
    {
      data := new Byte[ARTNET_DMX_LENGTH](_ => 0);
      dataA := new Byte[ARTNET_DMX_LENGTH](_ => 0);
      dataB := new Byte[ARTNET_DMX_LENGTH](_ => 0);
      length, ipA, ipB, timeA, timeB := 0, 0, 0, 0, 0;
      this.mode := mode;
      address, enabled, active := 0, false, false;
    }

    method CheckMergeTimeouts(now: int)
      requires Valid()
      modifies this
      ensures Value() == DropSilent(old(Value()), now)
      ensures address == old(address) && enabled == old(enabled) && active == old(active)
    {
      if now - timeA > MERGE_TIMEOUT_SECONDS {
        ipA := 0;
      }
      if now - timeB > MERGE_TIMEOUT_SECONDS {
        ipB := 0;
      }
    }

    static method Copy(target: Buffer, source: Channels, n: nat)
      requires target.Length == ARTNET_DMX_LENGTH && n <= ARTNET_DMX_LENGTH
      modifies target
      ensures target[..] == Overlay(old(target[..]), source, n)
    {
      forall i | 0 <= i < n {
        target[i] := source[i];
      }
    }

    /** merge */
    method Merge(n: nat, latest: Buffer)
      requires Valid() && n <= ARTNET_DMX_LENGTH && (latest == dataA || latest == dataB)
      modifies data
      ensures Value() == Merged(old(Value()), n, latest[..]).(length := length)
    {
      if mode.Htp? {
        for i := 0 to n
          modifies data
          invariant forall k :: 0 <= k < i ==> data[k] == if dataA[k] > dataB[k] then dataA[k] else dataB[k]
          invariant forall k :: i <= k < ARTNET_DMX_LENGTH ==> data[k] == old(data[k])
        {
          data[i] := if dataA[i] > dataB[i] then dataA[i] else dataB[i];
        }
        assert data[..] == Overlay(old(data[..]), Highest(dataA[..], dataB[..]), n);
      } else {
        Copy(data, latest[..], n);
      }
    }

    method TakeA(e: Arrival)
      requires Valid()
      modifies this, dataA
      ensures Value() == StoreA(old(Value()), e).(length := e.Length())
      ensures address == old(address) && enabled == old(enabled) && active == old(active)
    {
      timeA := e.now;
      Copy(dataA, e.data, e.Length());
      length := e.Length();
    }

    method TakeB(e: Arrival)
      requires Valid()
      modifies this, dataB
      ensures Value() == StoreB(old(Value()), e).(length := e.Length())
      ensures address == old(address) && enabled == old(enabled) && active == old(active)
    {
      timeB := e.now;
      Copy(dataB, e.data, e.Length());
      length := e.Length();
    }

    /** The body of handle_dmx for a port the packet is meant for. */
    method HandlePacket(e: Arrival)
      requires Valid()
      modifies Repr()
      ensures Value() == Handle(old(Value()), e)
      ensures address == old(address) && enabled == old(enabled) && active == old(active)
    {
      var a, b := ipA, ipB;
      CheckMergeTimeouts(e.now);
      if a == 0 && b == 0 {
        ipA := e.from;
        TakeA(e);
        Copy(data, e.data, e.Length());
      } else if a == e.from && b == 0 {
        TakeA(e);
        Copy(data, e.data, e.Length());
      } else if a == 0 && b == e.from {
        TakeB(e);
        Copy(data, e.data, e.Length());
      } else if a != e.from && b == 0 {
        ipB := e.from;
        TakeB(e);
        Merge(e.Length(), dataB);
      // the code repeats the test of the third case here, so that this start of a merge is dead
      } else if a == e.from && b != e.from {
        TakeA(e);
        Merge(e.Length(), dataA);
      } else if a != e.from && b == e.from {
        TakeB(e);
        Merge(e.Length(), dataB);
      }
      // otherwise both slots are the sender's, or neither is: the packet changes no buffer
    }
  }

  ghost predicate Separate(ports: seq<OutputPort>) {
    && (forall i :: 0 <= i < |ports| ==> ports[i].Valid())
    && (forall i, j :: 0 <= i < |ports| && 0 <= j < |ports| && i != j ==> ports[i].Repr() !! ports[j].Repr())
  }

  /** What a packet for a universe makes of a port. */
  function Handled(s: Port, addressed: bool, e: Arrival): Port {
    if addressed then Handle(s, e) else s
  }

  /** The ports below n that a packet is meant for, in order. */
  ghost predicate Calls(called: seq<nat>, meant: seq<bool>, n: nat)
    requires n <= |meant|
  {
    && (forall i :: 0 <= i < n ==> (i in called <==> meant[i]))
    && (forall k :: 0 <= k < |called| ==> called[k] < n)
    && (forall k, l :: 0 <= k < l < |called| ==> called[k] < called[l])
  }

  lemma CallsStep(called: seq<nat>, meant: seq<bool>, n: nat)
    requires n < |meant| && Calls(called, meant, n)
    ensures Calls(if meant[n] then called + [n] else called, meant, n + 1)
  {}

  ghost function Meant(ports: seq<OutputPort>, universe: nat): (meant: seq<bool>)
    reads ports
    ensures |meant| == |ports|
    ensures forall i :: 0 <= i < |ports| ==> (meant[i] <==> universe == ports[i].address && ports[i].enabled)
  {
    seq(|ports|, i requires 0 <= i < |ports| reads ports => universe == ports[i].address && ports[i].enabled)
  }

  /**
   * handle_dmx: every enabled port with the packet's address is marked active and takes it, and no
   * other port moves. The application is called for exactly those ports, in port order.
   */
  method HandleDmx(ports: seq<OutputPort>, universe: nat, e: Arrival) returns (called: seq<nat>)
    requires Separate(ports)
    modifies set i, o | 0 <= i < |ports| && o in ports[i].Repr() :: o
    ensures
      var meant := old(Meant(ports, universe));
      && (forall i :: 0 <= i < |ports| ==> ports[i].Value() == Handled(old(ports[i].Value()), meant[i], e))
      && (forall i :: 0 <= i < |ports| ==> ports[i].active == (old(ports[i].active) || meant[i]))
      && Calls(called, meant, |ports|)
  {
    ghost var meant := Meant(ports, universe);
    hide Handled, Handle, Meant, Calls;
    called := [];
    assert Calls([], meant, 0) by { CallsNone(meant); }
    for i := 0 to |ports|
      invariant forall j :: 0 <= j < i ==> ports[j].Value() == Handled(old(ports[j].Value()), meant[j], e)
      invariant forall j :: 0 <= j < i ==> ports[j].active == (old(ports[j].active) || meant[j])
      invariant forall j :: i <= j < |ports| ==> unchanged(ports[j].Repr())
      invariant Calls(called, meant, i)
    {
      CallsStep(called, meant, i);
      var handled := HandleOne(ports[i], universe, e);
      if handled {
        called := called + [i];
      }
    }
  }

  lemma CallsNone(meant: seq<bool>)
    ensures Calls([], meant, 0)
  {}

  method HandleOne(port: OutputPort, universe: nat, e: Arrival) returns (handled: bool)
    requires port.Valid()
    modifies port.Repr()
    ensures handled <==> universe == old(port.address) && old(port.enabled)
    ensures port.Value() == Handled(old(port.Value()), handled, e)
    ensures port.active == (old(port.active) || handled)
  {
    handled := universe == port.address && port.enabled;
    if handled {
      port.active := true;
      port.HandlePacket(e);
    }
  }
}
