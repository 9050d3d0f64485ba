/** The frame server's table of sources as a value, and what it says about the packets received. */
module FrameSources {
  import opened Base
  import opened FrameLayout

  const NUMBUFS := 1000
  const BUFTIMEOUT := 2

  datatype Endpoint = Endpoint(address: nat, port: nat)

  datatype Source = Source(endpoint: Endpoint, frame: Frame, time: int)

  type Table = seq<Source>

  /** The index of a source, or the length of the table. */
  function Position(t: Table, e: Endpoint): (i: nat)
    ensures i <= |t|
    ensures i < |t| ==> t[i].endpoint == e
    ensures forall j :: 0 <= j < i ==> t[j].endpoint != e
    decreases |t|
  {
    if t == [] || t[0].endpoint == e then 0 else 1 + Position(t[1..], e)
  }

  function Lookup(t: Table, e: Endpoint): Option<Source> {
    var i := Position(t, e);
    if i < |t| then Some(t[i]) else None
  }

  /** The table with one source written to its place. */
  function With(t: Table, s: Source): Table {
    var i := Position(t, s.endpoint);
    if i < |t| then t[i := s] else t + [s]
  }

  /** A packet has been received. */
  function Heard(l: Layout, t: Table, buf: seq<Byte>, e: Endpoint, now: int): Table
    requires |buf| == l.Length()
  {
    match Parse(l, buf)
    case None => t
    case Some(f) =>
      if Position(t, e) < |t| || |t| < NUMBUFS then With(t, Source(e, f, now)) else t
  }

  predicate Stale(s: Source, now: int) { now - s.time > BUFTIMEOUT }

  /** The table without its stale sources */
  function Expired(t: Table, now: int): Table
    decreases |t|
  {
    if t == [] then [] else (if Stale(t[0], now) then [] else [t[0]]) + Expired(t[1..], now)
  }

  /** One source for each endpoint, and never more than there are buffers. */
  ghost predicate Good(t: Table) {
    |t| <= NUMBUFS && Distinct(t)
  }

  ghost predicate Distinct(t: Table) {
    forall i, j :: 0 <= i < j < |t| ==> t[i].endpoint != t[j].endpoint
  }

  /** A packet that does not start with the hash changes nothing, whoever sends it. */
  lemma WrongHashIsIgnored(l: Layout, t: Table, buf: seq<Byte>, e: Endpoint, now: int)
    requires |buf| == l.Length() && exists i :: 0 <= i < |HASH| && buf[i] != HASH[i]
    ensures Heard(l, t, buf, e, now) == t
  {
    var i :| 0 <= i < |HASH| && buf[i] != HASH[i];
    assert buf[..|HASH|][i] == buf[i];
  }

  // ----- Expiry

  lemma {:induction false} ExpiredExactly(t: Table, now: int, s: Source)
    ensures s in Expired(t, now) <==> s in t && now - s.time <= BUFTIMEOUT
    ensures |Expired(t, now)| <= |t|
    decreases |t|
  {
    if t != [] {
      ExpiredExactly(t[1..], now, s);
      assert t == [t[0]] + t[1..];
    }
  }

  /** How many of the first k sources are kept: where the k-th goes if it is. */
  function Rank(t: Table, now: int, k: nat): nat
    requires k <= |t|
  {
    |Expired(t[..k], now)|
  }

  lemma {:induction false} ExpiredSplit(t: Table, u: Table, now: int)
    ensures Expired(t + u, now) == Expired(t, now) + Expired(u, now)
    decreases |t|
  {
    if t == [] {
      assert t + u == u;
    } else {
      assert (t + u)[1..] == t[1..] + u;
      ExpiredSplit(t[1..], u, now);
    }
  }

  /** The sources that are kept keep their order. */
  lemma ExpiredInOrder(t: Table, now: int, p: nat, q: nat)
    requires p < q < |t| && now - t[p].time <= BUFTIMEOUT && now - t[q].time <= BUFTIMEOUT
    ensures Rank(t, now, p) < Rank(t, now, q) < |Expired(t, now)|
    ensures Expired(t, now)[Rank(t, now, p)] == t[p] && Expired(t, now)[Rank(t, now, q)] == t[q]
  {
    KeptAt(t, now, p);
    KeptAt(t, now, q);
    KeptAt(t[..q], now, p);
    assert t[..q][..p] == t[..p];
  }

  lemma KeptAt(t: Table, now: int, k: nat)
    requires k < |t| && now - t[k].time <= BUFTIMEOUT
    ensures Rank(t, now, k) < |Expired(t, now)| && Expired(t, now)[Rank(t, now, k)] == t[k]
  {
    assert t == t[..k] + t[k..];
    ExpiredSplit(t[..k], t[k..], now);
  }

  lemma {:induction false} ExpiredGood(t: Table, now: int)
    requires Distinct(t)
    ensures Distinct(Expired(t, now)) && |Expired(t, now)| <= |t|
    decreases |t|
  {
    if t != [] {
      ExpiredGood(t[1..], now);
      forall s | s in Expired(t[1..], now) ensures s.endpoint != t[0].endpoint {
        ExpiredExactly(t[1..], now, s);
      }
    }
  }

  lemma LookupIs(t: Table, s: Source)
    requires Distinct(t)
    ensures Lookup(t, s.endpoint) == Some(s) <==> s in t
  {
    if i :| 0 <= i < |t| && t[i] == s {
      var j := Position(t, s.endpoint);
      assert j >= i ==> j == i;
    }
  }

  /** A source is still known after expiry exactly when it was known and is not stale. */
  lemma ExpiredLookup(t: Table, now: int, e: Endpoint)
    requires Distinct(t)
    ensures Lookup(Expired(t, now), e)
            == if Lookup(t, e).Some? && now - Lookup(t, e).value.time <= BUFTIMEOUT then Lookup(t, e) else None
  {
    ExpiredGood(t, now);
    var before, after := Lookup(t, e), Lookup(Expired(t, now), e);
    if before.Some? {
      LookupIs(t, before.value);
      ExpiredExactly(t, now, before.value);
      LookupIs(Expired(t, now), before.value);
    }
    if after.Some? {
      LookupIs(Expired(t, now), after.value);
      ExpiredExactly(t, now, after.value);
      LookupIs(t, after.value);
    }
  }

  // ----- Runs

  datatype Event = Packet(buf: seq<Byte>, endpoint: Endpoint, now: int) | Expire(now: int)

  /** The receive buffer is as long as a frame, whatever has been received. */
  ghost predicate Buffered(l: Layout, ev: Event) {
    ev.Packet? ==> |ev.buf| == l.Length()
  }

  ghost predicate AllBuffered(l: Layout, evs: seq<Event>) {
    forall i :: 0 <= i < |evs| ==> Buffered(l, evs[i])
  }

  ghost function Step(l: Layout, t: Table, ev: Event): Table
    requires Buffered(l, ev)
  {
    match ev
    case Packet(buf, e, now) => Heard(l, t, buf, e, now)
    case Expire(now) => Expired(t, now)
  }

  ghost function Run(l: Layout, t: Table, evs: seq<Event>): Table
    requires AllBuffered(l, evs)
    decreases |evs|
  {
    if evs == [] then t else Run(l, Step(l, t, evs[0]), evs[1..])
  }

  lemma StepGood(l: Layout, t: Table, ev: Event)
    requires Good(t) && Buffered(l, ev)
    ensures Good(Step(l, t, ev))
  {
    match ev
    case Packet(_, _, _) => hide Parse;
    case Expire(now) => ExpiredGood(t, now);
  }

  /** No interleaving of packets and expiry gives two sources one endpoint or overfills the table. */
  lemma {:induction false} RunGood(l: Layout, t: Table, evs: seq<Event>)
    requires Good(t) && AllBuffered(l, evs)
    ensures Good(Run(l, t, evs))
    decreases |evs|
  {
    if evs != [] {
      StepGood(l, t, evs[0]);
      hide Good, Step;
      RunGood(l, Step(l, t, evs[0]), evs[1..]);
    }
  }

  /** What one endpoint's packets and expiry make of its source, were there no others. */
  ghost function Track(l: Layout, s: Option<Source>, ev: Event, e: Endpoint): Option<Source>
    requires Buffered(l, ev)
  {
    match ev
    case Packet(buf, from, now) =>
      if from == e && Parse(l, buf).Some? then Some(Source(e, Parse(l, buf).value, now)) else s
    case Expire(now) => if s.Some? && now - s.value.time > BUFTIMEOUT then None else s
  }

  /** A new source that finds the table full. */
  ghost predicate Refused(l: Layout, t: Table, ev: Event)
    requires Buffered(l, ev)
  {
    ev.Packet? && Parse(l, ev.buf).Some? && Lookup(t, ev.endpoint).None? && |t| == NUMBUFS
  }

  /** Every endpoint's source is its own affair exactly as long as no packet is refused. */
  lemma StepTracksIff(l: Layout, t: Table, ev: Event)
    requires Good(t) && Buffered(l, ev)
    ensures (forall e :: Lookup(Step(l, t, ev), e) == Track(l, Lookup(t, e), ev, e)) <==> !Refused(l, t, ev)
  {
    hide Parse;
    if Refused(l, t, ev) {
      assert Lookup(Step(l, t, ev), ev.endpoint) != Track(l, Lookup(t, ev.endpoint), ev, ev.endpoint);
    } else {
      forall e ensures Lookup(Step(l, t, ev), e) == Track(l, Lookup(t, e), ev, e) {
        StepTracks(l, t, ev, e);
      }
    }
  }

  lemma StepTracks(l: Layout, t: Table, ev: Event, e: Endpoint)
    requires Good(t) && Buffered(l, ev) && !Refused(l, t, ev)
    ensures Lookup(Step(l, t, ev), e) == Track(l, Lookup(t, e), ev, e)
  {
    match ev
    case Packet(buf, from, now) =>
      hide Parse;
      if Parse(l, buf).Some? {
        Written(t, Source(from, Parse(l, buf).value, now), e);
      }
    case Expire(now) => ExpiredLookup(t, now, e);
  }

  lemma WithKeeps(t: Table, s: Source, other: Source)
    requires Distinct(t) && other.endpoint != s.endpoint
    ensures Distinct(With(t, s)) && s in With(t, s)
    ensures other in With(t, s) <==> other in t
  {
    var i, u := Position(t, s.endpoint), With(t, s);
    assert u[i] == s && forall k :: 0 <= k < |t| && k != i ==> u[k] == t[k];
    if other in t {
      var k :| 0 <= k < |t| && t[k] == other;
      assert u[k] == other;
    }
  }

  /** Writing one source leaves the others alone. */
  lemma Written(t: Table, s: Source, e: Endpoint)
    requires Distinct(t)
    ensures Lookup(With(t, s), e) == if e == s.endpoint then Some(s) else Lookup(t, e)
  {
    WithKeeps(t, s, s.(endpoint := Endpoint(s.endpoint.address + 1, 0)));
    LookupIs(With(t, s), s);
    var before, after := Lookup(t, e), Lookup(With(t, s), e);
    hide With, Distinct;
    if e != s.endpoint && before.Some? {
      WithKeeps(t, s, before.value);
      LookupIs(t, before.value);
      LookupIs(With(t, s), before.value);
    }
    if e != s.endpoint && after.Some? {
      WithKeeps(t, s, after.value);
      LookupIs(t, after.value);
      LookupIs(With(t, s), after.value);
    }
  }

  /** The frame a client draws is the frame the server holds for it, unless the packet is refused. */
  lemma DrawnFrameArrives(l: Layout, t: Table, f: Frame, e: Endpoint, now: int)
    requires Good(t) && l.Shapes(f) && (Lookup(t, e).Some? || |t| < NUMBUFS)
    ensures |Draw(f)| == l.Length()
    ensures Lookup(Heard(l, t, Draw(f), e, now), e) == Some(Source(e, f, now))
  {
    ParseDraw(l, f);
    hide Draw, Parse, With;
    Written(t, Source(e, f, now), e);
  }

  ghost function TrackAll(l: Layout, s: Option<Source>, evs: seq<Event>, e: Endpoint): Option<Source>
    requires AllBuffered(l, evs)
    decreases |evs|
  {
    if evs == [] then s else TrackAll(l, Track(l, s, evs[0], e), evs[1..], e)
  }

  function Senders(evs: seq<Event>): set<Endpoint> {
    set i | 0 <= i < |evs| && evs[i].Packet? :: evs[i].endpoint
  }

  function Endpoints(t: Table): set<Endpoint> {
    set i | 0 <= i < |t| :: t[i].endpoint
  }

  lemma {:induction false} EndpointCount(t: Table)
    requires Distinct(t)
    ensures |Endpoints(t)| == |t|
    decreases |t|
  {
    if t != [] {
      var n := |t| - 1;
      EndpointCount(t[..n]);
      assert forall i :: 0 <= i < n ==> t[..n][i] == t[i];
      assert Endpoints(t) == Endpoints(t[..n]) + {t[n].endpoint};
    }
  }

  lemma SendersSplit(evs: seq<Event>)
    requires evs != []
    ensures Senders(evs) == Senders([evs[0]]) + Senders(evs[1..])
  {
    forall e | e in Senders(evs) ensures e in Senders([evs[0]]) + Senders(evs[1..]) {
      var i :| 0 <= i < |evs| && evs[i].Packet? && evs[i].endpoint == e;
      if i > 0 { assert evs[1..][i - 1] == evs[i]; } else { assert [evs[0]][0] == evs[i]; }
    }
    forall e | e in Senders(evs[1..]) ensures e in Senders(evs) {
      var i :| 0 <= i < |evs[1..]| && evs[1..][i].Packet? && evs[1..][i].endpoint == e;
      assert evs[i + 1] == evs[1..][i];
    }
    forall e | e in Senders([evs[0]]) ensures e in Senders(evs) {
      assert evs[0].Packet? && evs[0].endpoint == e;
    }
  }

  /** Endpoints that fit the table find it open. */
  lemma NotRefused(l: Layout, t: Table, ev: Event)
    requires Good(t) && Buffered(l, ev) && |Endpoints(t) + Senders([ev])| <= NUMBUFS
    ensures !Refused(l, t, ev)
  {
    hide Parse;
    if Refused(l, t, ev) {
      var e := ev.endpoint;
      assert [ev][0].endpoint in Senders([ev]);
      assert e !in Endpoints(t);
      EndpointCount(t);
      SmallerSet(Endpoints(t) + {e}, Endpoints(t) + Senders([ev]));
    }
  }

  lemma StepSenders(l: Layout, t: Table, ev: Event)
    requires Buffered(l, ev)
    ensures Endpoints(Step(l, t, ev)) <= Endpoints(t) + Senders([ev])
  {
    assert ev.Packet? ==> [ev][0].endpoint in Senders([ev]);
    match ev
    case Packet(_, e, _) => hide Parse;
    case Expire(now) =>
      var u := Expired(t, now);
      forall i | 0 <= i < |u| ensures u[i].endpoint in Endpoints(t) {
        ExpiredExactly(t, now, u[i]);
      }
  }

  /**
   * The table refines the packet history: when no more endpoints send than there are buffers,
   * each source is what its own packets and expiry alone make of it.
   */
  lemma {:induction false} RunTracks(l: Layout, t: Table, evs: seq<Event>, e: Endpoint)
    requires Good(t) && AllBuffered(l, evs) && |Endpoints(t) + Senders(evs)| <= NUMBUFS
    ensures Lookup(Run(l, t, evs), e) == TrackAll(l, Lookup(t, e), evs, e)
    decreases |evs|
  {
    if evs != [] {
      var u := Step(l, t, evs[0]);
      SendersSplit(evs);
      SmallerSet(Endpoints(t) + Senders([evs[0]]), Endpoints(t) + Senders(evs));
      StepSenders(l, t, evs[0]);
      NotRefused(l, t, evs[0]);
      SmallerSet(Endpoints(u) + Senders(evs[1..]), Endpoints(t) + Senders(evs));
      StepGood(l, t, evs[0]);
      StepTracks(l, t, evs[0], e);
      hide Good, Step, Track, Refused, Lookup, Senders, Endpoints;
      RunTracks(l, u, evs[1..], e);
    }
  }
}
