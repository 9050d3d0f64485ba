/**
 * Which universes the ports of one device are bound to, as a value: the rules the port manager
 * enforces, and the ports that are offered as candidates for a universe.
 */
module Wirings {
  import opened Base

  type Side = seq<Option<nat>>   // the universe of each port, in port order

  /** looping: input and output ports may share a universe; multi: so may ports of one kind. */
  datatype Wiring = Wiring(looping: bool, multi: bool, inputs: Side, outputs: Side)
  {
    function Same(input: bool): Side { if input then inputs else outputs }

    function Opposite(input: bool): Side { if input then outputs else inputs }

    /** GenericPatchPort's decision for a port that is bound to `current`. */
    predicate Allows(input: bool, current: Option<nat>, u: nat) {
      || current == Some(u)
      || ((looping || Some(u) !in Opposite(input)) && (multi || Some(u) !in Same(input)))
    }

    function Bound(input: bool, k: nat, to: Option<nat>): Wiring
      requires k < |Same(input)|
    {
      if input then this.(inputs := inputs[k := to]) else this.(outputs := outputs[k := to])
    }

    function Patched(input: bool, k: nat, u: nat): Wiring
      requires k < |Same(input)|
    {
      if Allows(input, Same(input)[k], u) then Bound(input, k, Some(u)) else this
    }

    /** No loop unless allowed, and no universe twice on one side unless allowed. */
    ghost predicate Lawful() {
      && (!looping ==> forall i, j :: 0 <= i < |inputs| && 0 <= j < |outputs| && inputs[i].Some? ==>
            inputs[i] != outputs[j])
      && (!multi ==> NoRepeats(inputs) && NoRepeats(outputs))
    }
  }

  ghost predicate NoRepeats(side: Side) {
    forall i, j :: 0 <= i < j < |side| && side[i].Some? ==> side[i] != side[j]
  }

  datatype Change = Patch(input: bool, port: nat, universe: nat) | Unpatch(input: bool, port: nat)

  function Apply(w: Wiring, c: Change): Wiring {
    if c.port >= |w.Same(c.input)| then w
    else if c.Patch? then w.Patched(c.input, c.port, c.universe)
    else w.Bound(c.input, c.port, None)
  }

  function ApplyAll(w: Wiring, cs: seq<Change>): Wiring
    decreases |cs|
  {
    if cs == [] then w else ApplyAll(Apply(w, cs[0]), cs[1..])
  }

  lemma ApplyLawful(w: Wiring, c: Change)
    requires w.Lawful()
    ensures Apply(w, c).Lawful()
  {
    if c.port < |w.Same(c.input)| && c.Patch? && w.Same(c.input)[c.port] == Some(c.universe) {
      assert Apply(w, c) == w;
    }
  }

  /**
   * For a device that keeps its rules, a port may be moved to a universe if and only if the
   * device still keeps them with the port there, wherever the port is bound before.
   */
  lemma AllowedIff(w: Wiring, input: bool, k: nat, u: nat)
    requires w.Lawful() && k < |w.Same(input)|
    ensures w.Allows(input, w.Same(input)[k], u) <==> w.Bound(input, k, Some(u)).Lawful()
  {
    var v := w.Bound(input, k, Some(u));
    if w.Same(input)[k] == Some(u) {
      assert v == w;
    } else {
      assert v.Same(input)[k] == Some(u) && v.Opposite(input) == w.Opposite(input);
      assert forall j :: 0 <= j < |w.Same(input)| && j != k ==> v.Same(input)[j] == w.Same(input)[j];
      if Some(u) in w.Opposite(input) && !w.looping {
        var j :| 0 <= j < |w.Opposite(input)| && w.Opposite(input)[j] == Some(u);
        assert !v.Lawful();
      }
      if Some(u) in w.Same(input) && !w.multi {
        var j :| 0 <= j < |w.Same(input)| && w.Same(input)[j] == Some(u);
        assert !NoRepeats(v.Same(input));
      }
    }
  }

  /** No sequence of patch and unpatch calls breaks a device's rules. */
  lemma {:induction false} ChangesStayLawful(w: Wiring, cs: seq<Change>)
    requires w.Lawful()
    ensures ApplyAll(w, cs).Lawful()
    decreases |cs|
  {
    hide Apply;
    if cs != [] {
      ApplyLawful(w, cs[0]);
      ChangesStayLawful(Apply(w, cs[0]), cs[1..]);
    }
  }

  // ----- Candidates

  /** The unbound ports of a side from the k-th on. */
  function Free(side: Side, k: nat): (ks: seq<nat>)
    ensures forall i :: 0 <= i < |ks| ==> k <= ks[i] < |side|
    decreases |side| - k
  {
    if k >= |side| then []
    else (if side[k].None? then [k] else []) + Free(side, k + 1)
  }

  /** All unbound ports, or just the first if the device may not bind two. */
  function Offered(side: Side, multi: bool): (ks: seq<nat>)
    ensures forall i :: 0 <= i < |ks| ==> ks[i] < |side|
  {
    var free := Free(side, 0);
    if multi || free == [] then free else [free[0]]
  }

  /** The candidate ports of one side; no universe means any universe. */
  function Candidates(w: Wiring, input: bool, universe: Option<nat>): (ks: seq<nat>)
    ensures forall i :: 0 <= i < |ks| ==> ks[i] < |w.Same(input)|
  {
    if universe.None? || w.Allows(input, None, universe.value) then Offered(w.Same(input), w.multi) else []
  }

  lemma {:induction false} FreeExactly(side: Side, from: nat, k: nat)
    ensures k in Free(side, from) <==> from <= k < |side| && side[k].None?
    ensures Free(side, from) != [] ==> forall j :: from <= j < Free(side, from)[0] ==> side[j].Some?
    decreases |side| - from
  {
    if from < |side| { FreeExactly(side, from + 1, k); }
  }

  /**
   * A port is offered for a universe exactly when it is unbound and patching it there would
   * succeed in the same state; a device that may not bind two ports of a kind to a universe
   * offers only the first such port.
   */
  lemma CandidatesAgreeWithPatch(w: Wiring, input: bool, u: nat, k: nat)
    requires k < |w.Same(input)|
    ensures k in Candidates(w, input, Some(u)) <==>
              && w.Same(input)[k].None?
              && w.Patched(input, k, u) == w.Bound(input, k, Some(u))
              && (w.multi || forall j :: 0 <= j < k ==> w.Same(input)[j].Some?)
  {
    var side := w.Same(input);
    FreeExactly(side, 0, k);
    if side[k].None? {
      assert w.Bound(input, k, Some(u)).Same(input)[k] == Some(u);
      if !w.multi {
        FreeExactly(side, 0, Free(side, 0)[0]);
        assert Free(side, 0)[0] in Free(side, 0);
      }
    }
  }

  /** Without a universe the same ports are offered as for any universe no port is bound to. */
  lemma AnyUniverseIsAFreshOne(w: Wiring, input: bool, u: nat)
    requires Some(u) !in w.inputs && Some(u) !in w.outputs
    ensures Candidates(w, input, None) == Candidates(w, input, Some(u))
  {}
}
