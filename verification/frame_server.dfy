/** The frame server: three parallel vectors of sources, grown by listen and shrunk by expire. */
module FrameServers {
  import opened Base
  import opened FrameLayout
  import opened FrameBuffers
  import opened FrameSources

  class Buffer {
    var frame: Frame

    constructor ()
    {
      frame := Frame(0, [], []);
    }

    method Set(frame: Frame)
      modifies this
      ensures this.frame == frame
    {
      this.frame := frame;
    }
  }

  /** Each method is what one of the server's threads does while it holds the lock. */
  class Server {
    const layout: Layout
    var buffers: seq<Buffer>
    var endpoints: seq<Endpoint>
    var times: seq<int>
    var currenttime: int
    var packetcounter: nat

    constructor (layout: Layout)
      ensures Valid() && this.layout == layout && Table() == []
    {
      this.layout := layout;
      buffers, endpoints, times := [], [], [];
      currenttime, packetcounter := 0, 0;
    }

    /** The vectors are aligned, and no buffer is in them twice. */
    ghost predicate Valid()
      reads this
    {
      && |buffers| == |endpoints| == |times|
      && (forall i, j :: 0 <= i < j < |buffers| ==> buffers[i] != buffers[j])
    }

    ghost function Table(): (t: Table)
      requires Valid()
      reads this, buffers
      ensures |t| == |buffers|
      ensures forall i :: 0 <= i < |t| ==> t[i] == Source(endpoints[i], buffers[i].frame, times[i])
    {
      seq(|buffers|, i requires 0 <= i < |buffers| && Valid() reads this, buffers =>
        Source(endpoints[i], buffers[i].frame, times[i]))
    }

    method FindSource(e: Endpoint) returns (bufnum: nat)
      requires Valid()
      ensures bufnum == Position(Table(), e)
    {
      bufnum := 0;
      while bufnum < |buffers| && endpoints[bufnum] != e
        invariant bufnum <= |buffers|
        invariant forall j :: 0 <= j < bufnum ==> Table()[j].endpoint != e
      {
        bufnum := bufnum + 1;
      }
    }

    /** Finds the sender's buffer, or makes one for a new sender if there is room. */
    method Admit(e: Endpoint) returns (bufnum: nat, accepted: bool)
      requires Valid()
      modifies this`buffers, this`endpoints, this`times, this`packetcounter
      ensures Valid()
      ensures bufnum == Position(old(Table()), e)
      ensures accepted == (bufnum < |old(Table())| || |old(Table())| < NUMBUFS)
      ensures bufnum < |buffers| <==> accepted
      ensures buffers == old(buffers) || (|buffers| == |old(buffers)| + 1 && buffers[..|old(buffers)|] == old(buffers)
                                          && fresh(buffers[|old(buffers)|]))
      ensures bufnum < |old(Table())| || !accepted ==> Table() == old(Table())
      ensures bufnum == |old(Table())| && accepted ==>
                Table()[..bufnum] == old(Table()) && Table()[bufnum].endpoint == e
    {
      bufnum := FindSource(e);
      ghost var was := Table();
      if bufnum == |buffers| && |buffers| < NUMBUFS {
        var buffer := new Buffer();
        buffers := buffers + [buffer];
        endpoints := endpoints + [e];
        times := times + [currenttime];
        assert Table()[..bufnum] == was;
      } else if bufnum == |buffers| {
        return bufnum, false;
      }
      packetcounter := packetcounter + 1;
      accepted := true;
    }

    method Store(bufnum: nat, frame: Frame)
      requires Valid() && bufnum < |buffers|
      modifies this`times, buffers[bufnum]
      ensures Valid() && Table() == old(Table())[bufnum := Source(endpoints[bufnum], frame, currenttime)]
    {
      buffers[bufnum].Set(frame);
      times := times[bufnum := currenttime];
    }

    /** A packet is in the receive buffer. */
    method Listen(buf: seq<Byte>, e: Endpoint, now: int)
      requires Valid() && |buf| == layout.Length()
      modifies this, buffers
      ensures Valid() && Table() == Heard(layout, old(Table()), buf, e, now)
      ensures forall b :: b in buffers && b !in old(buffers) ==> fresh(b)
    {
      HeardIs(layout, Table(), buf, e, now);
      hide Grids, Heard;
      if buf[..10] != HASH {
        return;
      }
      currenttime := now;
      var bufnum, accepted := Admit(e);
      if !accepted {
        return;
      }
      var frame := ParseFrame(buf);
      ghost var t := Table();
      hide Position;
      if bufnum < |buffers| {
        Store(bufnum, frame);
        LastReplaced(t, bufnum, Table()[bufnum]);
      }
    }

    /** The cases of a packet: refused, from a known sender, from a new one, or one too many. */
    lemma HeardIs(l: Layout, t: Table, buf: seq<Byte>, e: Endpoint, now: int)
      requires |buf| == l.Length()
      ensures buf[..10] != HASH ==> Heard(l, t, buf, e, now) == t
      ensures buf[..10] == HASH ==>
                var i, s := Position(t, e), Source(e, Grids(l, buf), now);
                && (i < |t| ==> Heard(l, t, buf, e, now) == t[i := s])
                && (i == |t| < NUMBUFS ==> Heard(l, t, buf, e, now) == t + [s])
                && (i == |t| >= NUMBUFS ==> Heard(l, t, buf, e, now) == t)
    {
      hide Grids;
    }

    lemma LastReplaced(t: Table, i: nat, s: Source)
      requires i < |t|
      ensures i == |t| - 1 ==> t[i := s] == t[..i] + [s]
    {}

    method ParseFrame(buf: seq<Byte>) returns (frame: Frame)
      requires |buf| == layout.Length()
      ensures frame == Grids(layout, buf)
    {
      var windows := new Byte[layout.windows.rows, layout.windows.columns, layout.windows.channels];
      var segments := new Byte[layout.segments.rows, layout.segments.columns, layout.segments.channels];
      frame := ParseBuffer(layout, buf, windows, segments);
    }

    /** Erases the sources that have been silent for too long. */
    method Expire(now: int)
      requires Valid()
      modifies this
      ensures Valid() && Table() == Expired(old(Table()), now)
      ensures forall b :: b in buffers ==> b in old(buffers)
    {
      ghost var t := Table();
      assert t[0..] == t && t[..0] + Expired(t, now) == Expired(t, now);
      currenttime := now;
      var i := 0;
      hide Stale, Expired;
      while i < |buffers|
        invariant Valid() && i <= |buffers| && t == Table() && currenttime == now
        invariant t[..i] + Expired(t[i..], now) == Expired(old(Table()), now)
        invariant forall b :: b in buffers ==> b in old(buffers)
        decreases |buffers| - i
      {
        ExpireStep(t, i, now);
        if currenttime - times[i] > BUFTIMEOUT {
          Erase(i);
          t := t[..i] + t[i + 1..];
        } else {
          i := i + 1;
        }
      }
      ExpiredNothing(t, now);
    }

    method HandleEvent(ev: Event)
      requires Valid() && Buffered(layout, ev)
      modifies this, buffers
      ensures Valid() && Table() == Step(layout, old(Table()), ev)
      ensures forall j :: 0 <= j < |buffers| ==> buffers[j] in old(buffers) || fresh(buffers[j])
    {
      hide Heard, Expired;
      match ev {
        case Packet(buf, e, now) => Listen(buf, e, now);
        case Expire(now) => Expire(now);
      }
    }

    /** The table after any interleaving of packets and expiry. */
    method Serve(evs: seq<Event>)
      requires Valid() && Good(Table()) && AllBuffered(layout, evs)
      modifies this, buffers
      ensures Valid() && Table() == Run(layout, old(Table()), evs) && Good(Table())
    {
      ghost var start := Table();
      assert evs[0..] == evs;
      RunGood(layout, start, evs);
      hide Step, Good, Valid, Table, Buffered;
      for i := 0 to |evs|
        invariant Valid() && Run(layout, Table(), evs[i..]) == Run(layout, start, evs)
        invariant forall j :: 0 <= j < |buffers| ==> buffers[j] in old(buffers) || fresh(buffers[j])
      {
        ghost var rest := evs[i..];
        assert rest[0] == evs[i] && rest[1..] == evs[i + 1..];
        HandleEvent(evs[i]);
      }
    }

    method Erase(i: nat)
      requires Valid() && i < |buffers|
      modifies this`buffers, this`times, this`endpoints
      ensures Valid() && |buffers| == |old(buffers)| - 1 && Table() == old(Table())[..i] + old(Table())[i + 1..]
      ensures buffers == old(buffers)[..i] + old(buffers)[i + 1..]
    {
      buffers := buffers[..i] + buffers[i + 1..];
      times := times[..i] + times[i + 1..];
      endpoints := endpoints[..i] + endpoints[i + 1..];
    }

    lemma ExpiredNothing(t: Table, now: int)
      ensures t[|t|..] == [] && Expired([], now) == [] && t[..|t|] + [] == t
    {}

    lemma ExpireStep(t: Table, i: nat, now: int)
      requires i < |t|
      ensures now - t[i].time > BUFTIMEOUT ==>
                var u := t[..i] + t[i + 1..];
                u[..i] + Expired(u[i..], now) == t[..i] + Expired(t[i..], now)
      ensures now - t[i].time <= BUFTIMEOUT ==>
                t[..i + 1] + Expired(t[i + 1..], now) == t[..i] + Expired(t[i..], now)
    {
      assert t[i..][1..] == t[i + 1..];
      var u := t[..i] + t[i + 1..];
      assert u[..i] == t[..i] && u[i..] == t[i + 1..];
      assert t[..i + 1] == t[..i] + [t[i]];
    }
  }
}
