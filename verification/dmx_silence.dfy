/** What becomes of a DMX source that stops while the other one of a merge goes on. */
module DmxSilence {
  import opened Base
  import opened DmxMerge

  /**
   * A packet drops the other source, whichever slot that has, if and only if it comes more than
   * the timeout after the other one's last packet.
   */
  lemma OtherKeepsSlotIff(s: Port, e: Arrival)
    requires DistinctOwners(s) && e.from != 0
    ensures s.ipB != 0 && s.ipB != e.from ==> (Handle(s, e).ipB == s.ipB <==> e.now - s.timeB <= MERGE_TIMEOUT_SECONDS)
    ensures s.ipA != 0 && s.ipA != e.from ==> (Handle(s, e).ipA == s.ipA <==> e.now - s.timeA <= MERGE_TIMEOUT_SECONDS)
  {}

  /** The slots seen from one of the two owners. */
  datatype Side = A | B

  function Owner(s: Port, side: Side): nat { if side.A? then s.ipA else s.ipB }

  function Time(s: Port, side: Side): int { if side.A? then s.timeA else s.timeB }

  function Held(s: Port, side: Side): Channels { if side.A? then s.dataA else s.dataB }

  function Opposite(side: Side): Side { if side.A? then B else A }

  /** Only z sends, and z, last heard at `last`, is never silent for too long. */
  ghost predicate GoesOn(es: seq<Arrival>, z: nat, last: int)
    decreases |es|
  {
    es == [] || (es[0].from == z && es[0].now - last <= MERGE_TIMEOUT_SECONDS && GoesOn(es[1..], z, es[0].now))
  }

  /** Some packet comes more than the timeout after `last`. */
  ghost predicate Late(es: seq<Arrival>, last: int) {
    exists i :: 0 <= i < |es| && es[i].now - last > MERGE_TIMEOUT_SECONDS
  }

  /** z holds its slot, and the other slot has the time and the values it had, and its owner or nobody. */
  ghost predicate Stays(r: Port, s: Port, side: Side, z: nat, gone: bool) {
    && r.mode == s.mode && Owner(r, side) == z
    && Owner(r, Opposite(side)) == (if gone then 0 else Owner(s, Opposite(side)))
    && Time(r, Opposite(side)) == Time(s, Opposite(side)) && Held(r, Opposite(side)) == Held(s, Opposite(side))
  }

  lemma OneMore(s: Port, side: Side, z: nat, e: Arrival)
    requires z != 0 && DistinctOwners(s) && Owner(s, side) == z
    requires e.from == z && e.now - Time(s, side) <= MERGE_TIMEOUT_SECONDS
    ensures Stays(Handle(s, e), s, side, z, e.now - Time(s, Opposite(side)) > MERGE_TIMEOUT_SECONDS)
    ensures Time(Handle(s, e), side) == e.now && DistinctOwners(Handle(s, e))
  {
    hide Overlay, Highest;
  }

  lemma {:induction false} OtherGoneIff(s: Port, side: Side, z: nat, es: seq<Arrival>)
    requires z != 0 && DistinctOwners(s) && Owner(s, side) == z && GoesOn(es, z, Time(s, side))
    ensures Stays(HandleAll(s, es), s, side, z, Late(es, Time(s, Opposite(side))))
    ensures DistinctOwners(HandleAll(s, es))
    ensures es != [] ==> Time(HandleAll(s, es), side) == es[|es| - 1].now
    decreases |es|
  {
    if es != [] {
      OneMore(s, side, z, es[0]);
      OtherGoneIff(Handle(s, es[0]), side, z, es[1..]);
      LateSplit(es, Time(s, Opposite(side)));
      hide Handle, Late, GoesOn;
    }
  }

  lemma LateSplit(es: seq<Arrival>, last: int)
    requires es != []
    ensures Late(es, last) <==> es[0].now - last > MERGE_TIMEOUT_SECONDS || Late(es[1..], last)
  {
    if i :| 0 <= i < |es| && es[i].now - last > MERGE_TIMEOUT_SECONDS {
      assert i > 0 ==> es[1..][i - 1] == es[i];
    }
    if i :| 0 <= i < |es[1..]| && es[1..][i].now - last > MERGE_TIMEOUT_SECONDS {
      assert es[i + 1] == es[1..][i];
    }
  }

  /**
   * One source goes on alone: until a packet has come too late for the other one, every packet is
   * merged with what the other one left; from the packet after that on, it is all that is put out.
   */
  lemma GoesOutAlone(s: Port, side: Side, z: nat, es: seq<Arrival>)
    requires z != 0 && DistinctOwners(s) && Owner(s, side) == z && GoesOn(es, z, Time(s, side)) && es != []
    ensures
      var r, e, before := HandleAll(s, es), es[|es| - 1], es[..|es| - 1];
      var alone := Owner(s, Opposite(side)) == 0 || Late(before, Time(s, Opposite(side)));
      && r.length == e.Length()
      && forall i :: 0 <= i < e.Length() ==>
           r.data[i] == if s.mode.Ltp? || alone then e.data[i] else Max(e.data[i], Held(s, Opposite(side))[i])
  {
    var e, before := es[|es| - 1], es[..|es| - 1];
    GoesOnSplit(es, z, Time(s, side));
    OtherGoneIff(s, side, z, before);
    HandleAllSnoc(s, before, e);
    assert es == before + [e];
    var t := HandleAll(s, before);
    OnTheWire(t, e);
    StoresOwn(t, side, e);
    hide Handle, HandleAll, GoesOn, Late;
  }

  /** A packet of a slot's owner leaves its values in that slot. */
  lemma StoresOwn(t: Port, side: Side, e: Arrival)
    requires e.from != 0 && DistinctOwners(t) && Owner(t, side) == e.from
    ensures
      var d := Dispatch(t.ipA, t.ipB, e.from);
      && !d.Invalid? && !d.Discard?
      && (Merges(d) <==> Owner(t, Opposite(side)) != 0)
      && (forall i :: 0 <= i < e.Length() ==> Held(Handle(t, e), side)[i] == e.data[i])
      && Held(Handle(t, e), Opposite(side)) == Held(t, Opposite(side))
  {
    hide Highest;
  }

  lemma {:induction false} GoesOnSplit(es: seq<Arrival>, z: nat, last: int)
    requires GoesOn(es, z, last) && es != []
    ensures GoesOn(es[..|es| - 1], z, last) && es[|es| - 1].from == z
    ensures es[|es| - 1].now - (if |es| == 1 then last else es[|es| - 2].now) <= MERGE_TIMEOUT_SECONDS
    decreases |es|
  {
    if |es| > 1 {
      GoesOnSplit(es[1..], z, es[0].now);
      assert es[..|es| - 1][1..] == es[1..][..|es| - 2];
    }
  }

  lemma {:induction false} HandleAllSnoc(s: Port, es: seq<Arrival>, e: Arrival)
    ensures HandleAll(s, es + [e]) == Handle(HandleAll(s, es), e)
    decreases |es|
  {
    hide Handle;
    if es == [] {
      assert ([] + [e])[1..] == [];
      assert HandleAll(Handle(s, e), []) == Handle(s, e);
    } else {
      assert (es + [e])[1..] == es[1..] + [e];
      HandleAllSnoc(Handle(s, es[0]), es[1..], e);
    }
  }

  // ----- From a fresh port on

  lemma {:induction false} AfterThen(h: seq<Arrival>, es: seq<Arrival>, mode: MergeMode)
    ensures After(h + es, mode) == HandleAll(After(h, mode), es)
    decreases |es|
  {
    hide Handle;
    if es == [] {
      assert h + es == h;
    } else {
      var n := |es| - 1;
      assert (h + es)[..|h + es| - 1] == h + es[..n];
      AfterThen(h, es[..n], mode);
      HandleAllSnoc(After(h, mode), es[..n], es[n]);
      assert es[..n] + [es[n]] == es;
    }
  }

  /**
   * Two sources have been merged and then only one of them, z, goes on. Its packets are merged
   * with the last values of the other one, w, until one of them has come more than the timeout
   * after w's last packet; from the next one on z's packets are put out as they are.
   */
  lemma MergeEndsIff(h: seq<Arrival>, x: nat, y: nat, mode: MergeMode, es: seq<Arrival>, first: bool)
    requires x != 0 && y != 0 && x != y && TwoSources(h, x, y) && LastFrom(h, x).Some? && LastFrom(h, y).Some?
    requires es != []
    requires GoesOn(es, if first then x else y, LastFrom(h, if first then x else y).value.now)
    ensures
      var w := if first then y else x;
      var r, e := After(h + es, mode), es[|es| - 1];
      var alone := Late(es[..|es| - 1], LastFrom(h, w).value.now);
      && r.length == e.Length()
      && forall i :: 0 <= i < e.Length() ==>
           r.data[i] == if mode.Ltp? || alone then e.data[i] else Max(e.data[i], LastSent(h, w, i))
  {
    hide Handle, TwoSources, HandleAll, GoesOn, Late;
    var s, side := After(h, mode), if first then A else B;
    SlotsHoldHistory(h, x, y, mode);
    ModeStays(h, mode);
    OwnersStayDistinct(h, mode);
    AfterThen(h, es, mode);
    GoesOutAlone(s, side, if first then x else y, es);
  }
}
