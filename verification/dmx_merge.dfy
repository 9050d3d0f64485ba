/**
 * The two-source DMX merge of a libartnet output port: what one ArtDmx packet does to a port,
 * as a function on values, and what every run of packets leaves in the port's buffers.
 */
module DmxMerge {
  import opened Base

  const ARTNET_DMX_LENGTH := 512
  const MERGE_TIMEOUT_SECONDS := 10

  type Channels = s: seq<Byte> | |s| == ARTNET_DMX_LENGTH witness seq(ARTNET_DMX_LENGTH, _ => 0)

  datatype MergeMode = Htp | Ltp

  /** An ArtDmx packet as it arrives at a port, with the time it is handled. */
  datatype Arrival = Arrival(from: nat, lengthHi: Byte, lengthLo: Byte, data: Channels, now: int)
  {
    /** The announced number of channels, cut to a universe. */
    function Length(): (n: nat)
      ensures n <= ARTNET_DMX_LENGTH
    {
      Min(lengthHi * 0x100 + lengthLo, ARTNET_DMX_LENGTH)
    }
  }

  /** output_port_t; an address of 0 marks an empty slot. */
  datatype Port = Port(ipA: nat, ipB: nat, timeA: int, timeB: int,
                       dataA: Channels, dataB: Channels, data: Channels, length: nat, mode: MergeMode)

  function Zeros(): Channels { seq(ARTNET_DMX_LENGTH, _ => 0) }

  function Fresh(mode: MergeMode): Port { Port(0, 0, 0, 0, Zeros(), Zeros(), Zeros(), 0, mode) }

  // ----- Which case of the merge a packet falls into

  datatype Action =
    | FirstPacket | ContinueA | ContinueB | StartMergeB | StartMergeA | MergeA | MergeB | Invalid | Discard

  /** The chain of tests in handle_dmx, in the code's order. */
  function Dispatch(ipA: nat, ipB: nat, from: nat): Action {
    if ipA == 0 && ipB == 0 then FirstPacket
    else if ipA == from && ipB == 0 then ContinueA
    else if ipA == 0 && ipB == from then ContinueB
    else if ipA != from && ipB == 0 then StartMergeB
    else if ipA == 0 && ipB == from then StartMergeA
    else if ipA == from && ipB != from then MergeA
    else if ipA != from && ipB == from then MergeB
    else if ipA == from && ipB == from then Invalid
    else Discard
  }

  datatype SlotView = Empty | Sender | Other

  function View(ip: nat, from: nat): SlotView {
    if ip == 0 then Empty else if ip == from then Sender else Other
  }

  /** The truth table that documents handle_dmx. */
  function Documented(ipA: nat, ipB: nat, from: nat): Action {
    match (View(ipA, from), View(ipB, from))
    case (Empty, Empty) => FirstPacket
    case (Sender, Empty) => ContinueA
    case (Other, Empty) => StartMergeB
    case (Empty, Sender) => ContinueB
    case (Sender, Sender) => Invalid
    case (Other, Sender) => MergeB
    case (Empty, Other) => StartMergeA
    case (Sender, Other) => MergeA
    case (Other, Other) => Discard
  }

  /**
   * The code follows its table except in one cell: with slot A empty and slot B held by another
   * source the table starts a merge, but the test for it is unreachable and the packet is dropped.
   */
  lemma DispatchMatchesTableIff(ipA: nat, ipB: nat, from: nat)
    requires from != 0
    ensures Dispatch(ipA, ipB, from) == Documented(ipA, ipB, from)
            <==> !(ipA == 0 && ipB != 0 && ipB != from)
    ensures ipA == 0 && ipB != 0 && ipB != from ==> Dispatch(ipA, ipB, from) == Discard
  {
    assert View(ipA, from).Empty? <==> ipA == 0;
  }

  /** The announced length is read high byte first, and anything above a universe is a universe. */
  lemma LengthIs(e: Arrival)
    ensures e.lengthHi < 2 ==> e.Length() / 256 == e.lengthHi && e.Length() % 256 == e.lengthLo
    ensures e.lengthHi >= 2 ==> e.Length() == 512
  {}

  // ----- One packet

  /** memcpy of the first n channels */
  function Overlay(target: Channels, source: Channels, n: nat): Channels
    requires n <= ARTNET_DMX_LENGTH
  {
    source[..n] + target[n..]
  }

  function Highest(a: Channels, b: Channels): Channels {
    seq(ARTNET_DMX_LENGTH, i requires 0 <= i < ARTNET_DMX_LENGTH => if a[i] > b[i] then a[i] else b[i])
  }

  /** check_merge_timeouts */
  function DropSilent(s: Port, now: int): Port {
    s.(ipA := if now - s.timeA > MERGE_TIMEOUT_SECONDS then 0 else s.ipA,
       ipB := if now - s.timeB > MERGE_TIMEOUT_SECONDS then 0 else s.ipB)
  }

  /** merge; `latest` is the buffer the packet was stored in */
  function Merged(s: Port, n: nat, latest: Channels): Port
    requires n <= ARTNET_DMX_LENGTH
  {
    s.(length := n, data := Overlay(s.data, if s.mode.Htp? then Highest(s.dataA, s.dataB) else latest, n))
  }

  function Direct(s: Port, e: Arrival): Port {
    s.(length := e.Length(), data := Overlay(s.data, e.data, e.Length()))
  }

  function StoreA(s: Port, e: Arrival): Port {
    s.(timeA := e.now, dataA := Overlay(s.dataA, e.data, e.Length()))
  }

  function StoreB(s: Port, e: Arrival): Port {
    s.(timeB := e.now, dataB := Overlay(s.dataB, e.data, e.Length()))
  }

  /** handle_dmx for one matching port: the owners are read before silent sources are dropped. */
  function Handle(s: Port, e: Arrival): Port {
    var t := DropSilent(s, e.now);
    match Dispatch(s.ipA, s.ipB, e.from)
    case FirstPacket => Direct(StoreA(t.(ipA := e.from), e), e)
    case ContinueA => Direct(StoreA(t, e), e)
    case ContinueB => Direct(StoreB(t, e), e)
    case StartMergeB => var u := StoreB(t.(ipB := e.from), e); Merged(u, e.Length(), u.dataB)
    case StartMergeA => var u := StoreB(t.(ipA := e.from), e); Merged(u, e.Length(), u.dataA)
    case MergeA => var u := StoreA(t, e); Merged(u, e.Length(), u.dataA)
    case MergeB => var u := StoreB(t, e); Merged(u, e.Length(), u.dataB)
    case Invalid => t
    case Discard => t
  }

  // ----- Any run

  /** The port after a run of packets, the newest last. */
  function After(history: seq<Arrival>, mode: MergeMode): Port {
    if history == [] then Fresh(mode)
    else Handle(After(history[..|history| - 1], mode), history[|history| - 1])
  }

  predicate DistinctOwners(s: Port) {
    s.ipA != 0 && s.ipB != 0 ==> s.ipA != s.ipB
  }

  lemma {:induction false} OwnersStayDistinct(history: seq<Arrival>, mode: MergeMode)
    ensures DistinctOwners(After(history, mode))
    decreases |history|
  {
    if history != [] { OwnersStayDistinct(history[..|history| - 1], mode); }
  }

  /**
   * In every reachable state the branch where both slots belong to the sender is not taken, and
   * a third source changes no buffer.
   */
  lemma ThirdSourceIsIgnored(history: seq<Arrival>, mode: MergeMode, e: Arrival)
    ensures
      var s := After(history, mode);
      var r := Handle(s, e);
      && !Dispatch(s.ipA, s.ipB, e.from).Invalid?
      && !Dispatch(s.ipA, s.ipB, e.from).StartMergeA?
      && (s.ipA != 0 && s.ipB != 0 && e.from != s.ipA && e.from != s.ipB ==>
            r.data == s.data && r.dataA == s.dataA && r.dataB == s.dataB && r.length == s.length)
  {
    OwnersStayDistinct(history, mode);
  }

  /** A known source keeps its slot when its packet is taken if and only if it was not silent. */
  lemma KeepsSlotIff(s: Port, e: Arrival)
    requires DistinctOwners(s) && e.from != 0
    ensures e.from == s.ipA ==> (Handle(s, e).ipA == e.from <==> e.now - s.timeA <= MERGE_TIMEOUT_SECONDS)
    ensures e.from == s.ipB ==> (Handle(s, e).ipB == e.from <==> e.now - s.timeB <= MERGE_TIMEOUT_SECONDS)
  {
    var d := Dispatch(s.ipA, s.ipB, e.from);
    assert e.from == s.ipA ==> d.ContinueA? || d.MergeA?;
  }

  // ----- Two sources

  function LastFrom(history: seq<Arrival>, source: nat): Option<Arrival> {
    if history == [] then None
    else if history[|history| - 1].from == source then Some(history[|history| - 1])
    else LastFrom(history[..|history| - 1], source)
  }

  /** The last value a source sent for a channel, 0 if it never sent one. */
  function LastSent(history: seq<Arrival>, source: nat, channel: nat): Byte
    requires channel < ARTNET_DMX_LENGTH
  {
    if history == [] then 0
    else
      var e := history[|history| - 1];
      if e.from == source && channel < e.Length() then e.data[channel]
      else LastSent(history[..|history| - 1], source, channel)
  }

  predicate Timely(history: seq<Arrival>, source: nat, now: int) {
    var e := LastFrom(history, source);
    e.Some? ==> now - e.value.now <= MERGE_TIMEOUT_SECONDS
  }

  /** x speaks first, only x and y speak, and neither has been silent too long at any packet. */
  predicate TwoSources(history: seq<Arrival>, x: nat, y: nat)
    decreases |history|
  {
    history == [] ||
    (var e, before := history[|history| - 1], history[..|history| - 1];
     && TwoSources(before, x, y)
     && (e.from == x || (e.from == y && before != []))
     && Timely(before, x, e.now) && Timely(before, y, e.now))
  }

  ghost predicate HoldsHistory(s: Port, history: seq<Arrival>, x: nat, y: nat) {
    && s.ipA == (if history == [] then 0 else x)
    && s.ipB == (if LastFrom(history, y).Some? then y else 0)
    && (history != [] ==> LastFrom(history, x).Some? && s.timeA == LastFrom(history, x).value.now)
    && (LastFrom(history, y).Some? ==> s.timeB == LastFrom(history, y).value.now)
    && (forall i :: 0 <= i < ARTNET_DMX_LENGTH ==> s.dataA[i] == LastSent(history, x, i))
    && (forall i :: 0 <= i < ARTNET_DMX_LENGTH ==> s.dataB[i] == LastSent(history, y, i))
  }

  lemma HandleHolds(s: Port, history: seq<Arrival>, x: nat, y: nat)
    requires x != 0 && y != 0 && x != y
    requires history != [] && TwoSources(history, x, y)
    requires HoldsHistory(s, history[..|history| - 1], x, y)
    ensures HoldsHistory(Handle(s, history[|history| - 1]), history, x, y)
  {
    var e, before := history[|history| - 1], history[..|history| - 1];
    var d := Dispatch(s.ipA, s.ipB, e.from);
    if e.from == x {
      assert d.FirstPacket? || d.ContinueA? || d.MergeA?;
    } else {
      assert d.StartMergeB? || d.MergeB?;
    }
  }

  lemma {:induction false} SlotsHoldHistory(history: seq<Arrival>, x: nat, y: nat, mode: MergeMode)
    requires x != 0 && y != 0 && x != y && TwoSources(history, x, y)
    ensures HoldsHistory(After(history, mode), history, x, y)
    decreases |history|
  {
    if history != [] {
      hide Handle, HoldsHistory;
      SlotsHoldHistory(history[..|history| - 1], x, y, mode);
      HandleHolds(After(history[..|history| - 1], mode), history, x, y);
      assert HoldsHistory(After(history, mode), history, x, y);
    }
  }

  lemma {:induction false} ModeStays(history: seq<Arrival>, mode: MergeMode)
    ensures After(history, mode).mode == mode
    decreases |history|
  {
    if history != [] { ModeStays(history[..|history| - 1], mode); }
  }

  /** What a port puts out on a channel its newest packet covers. */
  function Expected(history: seq<Arrival>, x: nat, y: nat, mode: MergeMode, channel: nat): int
    requires history != [] && channel < ARTNET_DMX_LENGTH
  {
    if LastFrom(history, y).Some? && mode.Htp? then
      Max(LastSent(history, x, channel), LastSent(history, y, channel))
    else history[|history| - 1].data[channel]
  }

  /** Both slots hold the history; the newest packet is on the wire and nothing else has moved. */
  ghost predicate Refines(s: Port, before: Port, history: seq<Arrival>, x: nat, y: nat, mode: MergeMode)
    requires history != []
  {
    var n := history[|history| - 1].Length();
    && (forall i :: 0 <= i < ARTNET_DMX_LENGTH ==> s.dataA[i] == LastSent(history, x, i))
    && (forall i :: 0 <= i < ARTNET_DMX_LENGTH ==> s.dataB[i] == LastSent(history, y, i))
    && (forall i :: 0 <= i < n ==> s.data[i] == Expected(history, x, y, mode, i))
    && (forall i :: n <= i < ARTNET_DMX_LENGTH ==> s.data[i] == before.data[i])
    && s.length == n
  }

  predicate Merges(d: Action) { d.StartMergeB? || d.MergeA? || d.MergeB? }

  /** What a packet that is taken leaves on the wire, whatever the port held before. */
  lemma OnTheWire(s: Port, e: Arrival)
    requires !Dispatch(s.ipA, s.ipB, e.from).Invalid? && !Dispatch(s.ipA, s.ipB, e.from).Discard?
    ensures
      var r := Handle(s, e);
      && r.length == e.Length()
      && (forall i :: e.Length() <= i < ARTNET_DMX_LENGTH ==> r.data[i] == s.data[i])
      && (forall i :: 0 <= i < e.Length() ==>
            r.data[i] == if Merges(Dispatch(s.ipA, s.ipB, e.from)) && s.mode.Htp?
                         then Max(r.dataA[i], r.dataB[i]) else e.data[i])
  {}

  lemma HandleRefines(s: Port, history: seq<Arrival>, x: nat, y: nat, mode: MergeMode)
    requires x != 0 && y != 0 && x != y && s.mode == mode
    requires history != [] && TwoSources(history, x, y)
    requires HoldsHistory(s, history[..|history| - 1], x, y)
    requires HoldsHistory(Handle(s, history[|history| - 1]), history, x, y)
    ensures Refines(Handle(s, history[|history| - 1]), s, history, x, y, mode)
  {
    hide Handle, LastSent;
    var e := history[|history| - 1];
    var d := Dispatch(s.ipA, s.ipB, e.from);
    assert Merges(d) <==> LastFrom(history, y).Some?;
    OnTheWire(s, e);
  }

  /**
   * The merge refines the history of packets: for a run of two live sources on a fresh port, the
   * two slots hold the last value each source sent for every channel. Once both have spoken,
   * every packet leaves on each channel it covers the highest of the two (HTP) or its own value
   * (LTP), and touches no other channel.
   */
  lemma MergeRefinesHistory(history: seq<Arrival>, x: nat, y: nat, mode: MergeMode)
    requires x != 0 && y != 0 && x != y
    requires history != [] && TwoSources(history, x, y)
    ensures Refines(After(history, mode), After(history[..|history| - 1], mode), history, x, y, mode)
  {
    hide Handle, HoldsHistory;
    SlotsHoldHistory(history, x, y, mode);
    SlotsHoldHistory(history[..|history| - 1], x, y, mode);
    ModeStays(history[..|history| - 1], mode);
    HandleRefines(After(history[..|history| - 1], mode), history, x, y, mode);
  }

  // ----- A source that has lost slot A

  function HandleAll(s: Port, es: seq<Arrival>): Port
    decreases |es|
  {
    if es == [] then s else HandleAll(Handle(s, es[0]), es[1..])
  }

  /** Slot A is empty, slot B is y's, and y is never silent too long. */
  ghost predicate OnlyB(s: Port, y: nat, es: seq<Arrival>)
    decreases |es|
  {
    && s.ipA == 0 && s.ipB == y != 0
    && (es != [] ==>
          && es[0].from != 0
          && es[0].now - s.timeB <= MERGE_TIMEOUT_SECONDS
          && OnlyB(if es[0].from == y then s.(timeB := es[0].now) else s, y, es[1..]))
  }

  function From(es: seq<Arrival>, y: nat): seq<Arrival> {
    if es == [] then []
    else (if es[0].from == y then [es[0]] else []) + From(es[1..], y)
  }

  /**
   * While y keeps slot B alive and slot A is empty, no other source gets back in: the port ends
   * up as if only y's packets had arrived.
   */
  lemma {:induction false} LockedOutWhileBLives(s: Port, y: nat, es: seq<Arrival>)
    requires OnlyB(s, y, es)
    ensures HandleAll(s, es) == HandleAll(s, From(es, y))
    ensures HandleAll(s, es).ipA == 0
    decreases |es|
  {
    if es != [] {
      var r := Handle(s, es[0]);
      OnlyBIgnoresData(if es[0].from == y then s.(timeB := es[0].now) else s, r, y, es[1..]);
      LockedOutWhileBLives(r, y, es[1..]);
      if es[0].from == y {
        assert From(es, y)[0] == es[0] && From(es, y)[1..] == From(es[1..], y);
      } else {
        assert r == s;
        assert From(es, y) == From(es[1..], y);
      }
    }
  }

  /**
   * A port gets there: a source stops while another one goes on. From then on the first source's
   * packets meet the cell in which the code and its table disagree, and are dropped.
   */
  lemma DeadCellIsReached(x: Arrival, y: Arrival, later: Arrival, last: Arrival, mode: MergeMode)
    requires x.from != 0 && y.from != 0 && x.from != y.from
    requires later.from == last.from == y.from
    requires x.now <= y.now <= x.now + MERGE_TIMEOUT_SECONDS
    requires y.now <= later.now <= x.now + MERGE_TIMEOUT_SECONDS
    requires x.now + MERGE_TIMEOUT_SECONDS < last.now <= later.now + MERGE_TIMEOUT_SECONDS
    ensures
      var s := After([x, y, later, last], mode);
      && s.ipA == 0 && s.ipB == y.from
      && Dispatch(s.ipA, s.ipB, x.from) == Discard && Documented(s.ipA, s.ipB, x.from) == StartMergeA
  {
    hide Overlay, Highest, After;
    AfterOne([], x, mode);
    assert [] + [x] == [x] && [x] + [y] == [x, y];
    assert [x, y] + [later] == [x, y, later] && [x, y, later] + [last] == [x, y, later, last];
    AfterOne([x], y, mode);
    AfterOne([x, y], later, mode);
    AfterOne([x, y, later], last, mode);
    AfterNone(mode);
  }

  lemma AfterNone(mode: MergeMode)
    ensures After([], mode) == Fresh(mode)
  {}

  lemma AfterOne(before: seq<Arrival>, e: Arrival, mode: MergeMode)
    ensures After(before + [e], mode) == Handle(After(before, mode), e)
  {
    assert (before + [e])[..|before + [e]| - 1] == before;
  }

  lemma {:induction false} OnlyBIgnoresData(s: Port, t: Port, y: nat, es: seq<Arrival>)
    requires OnlyB(s, y, es) && t.ipA == s.ipA && t.ipB == s.ipB && t.timeB == s.timeB
    ensures OnlyB(t, y, es)
    decreases |es|
  {
    if es != [] {
      if es[0].from == y {
        OnlyBIgnoresData(s.(timeB := es[0].now), t.(timeB := es[0].now), y, es[1..]);
      } else {
        OnlyBIgnoresData(s, t, y, es[1..]);
      }
    }
  }
}
