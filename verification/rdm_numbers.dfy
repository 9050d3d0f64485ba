/** Transaction numbers: which outstanding requests a response can be told apart by. */
module RdmNumbers {
  import opened Rdm

  /** The requests of one universe's queue carry the numbers they were issued with, oldest first. */
  ghost predicate QueueNumbered(q: seq<Request>, u: nat, issued: map<Pair, nat>) {
    && (forall k :: 0 <= k < |q| ==>
          && (u, q[k].source) in issued
          && q[k].ordinal < issued[(u, q[k].source)]
          && q[k].transaction == q[k].ordinal % 0x100
          && (q[k].command.GetCommand? || q[k].command.SetCommand?))
    && (forall i, j :: 0 <= i < j < |q| && q[i].source == q[j].source ==> q[i].ordinal < q[j].ordinal)
  }

  ghost predicate CountersAgree(s: Controller) {
    && s.numbers.Keys == s.issued.Keys
    && forall key :: key in s.issued ==> s.issued[key] >= 1 && s.numbers[key] == (s.issued[key] - 1) % 0x100
  }

  ghost predicate Numbered(s: Controller) {
    CountersAgree(s) && forall u :: u in s.queues ==> QueueNumbered(s.queues[u], u, s.issued)
  }

  lemma MoreIssued(q: seq<Request>, u: nat, issued: map<Pair, nat>, more: map<Pair, nat>)
    requires QueueNumbered(q, u, issued)
    requires forall key :: key in issued ==> key in more && issued[key] <= more[key]
    ensures QueueNumbered(q, u, more)
  {}

  lemma PrepareNumbered(s: Controller, o: Order)
    requires Numbered(s)
    ensures Numbered(Prepare(s, o))
    ensures
      var key := (o.universe, o.source);
      Prepare(s, o).issued[key] == IssuedFor(s, key) + 1
      && Prepare(s, o).numbers[key] == IssuedFor(s, key) % 0x100
  {
    var t := Prepare(s, o);
    assert CountersAgree(t);
    hide QueueNumbered;
    forall u | u in t.queues ensures QueueNumbered(t.queues[u], u, t.issued) {
      if u in s.queues {
        MoreIssued(s.queues[u], u, s.issued, t.issued);
      } else {
        EmptyNumbered(u, t.issued);
      }
    }
  }

  lemma EmptyNumbered(u: nat, issued: map<Pair, nat>)
    ensures QueueNumbered([], u, issued)
  {}

  lemma PushNumbered(s: Controller, o: Order)
    requires Numbered(s)
    ensures Numbered(Push(Prepare(s, o), o.universe, NewRequest(s, o)))
  {
    var t, r, key := Prepare(s, o), NewRequest(s, o), (o.universe, o.source);
    PrepareNumbered(s, o);
    var q := QueueOf(s, o.universe);
    assert o.universe in s.queues ==> QueueNumbered(q, o.universe, s.issued);
    assert forall k :: 0 <= k < |q| && q[k].source == o.source ==> q[k].ordinal < r.ordinal;
    assert QueueNumbered(t.queues[o.universe], o.universe, t.issued);
    assert QueueNumbered(q + [r], o.universe, t.issued);
  }

  lemma WithoutNumbered(q: seq<Request>, i: nat, u: nat, issued: map<Pair, nat>)
    requires QueueNumbered(q, u, issued) && i < |q|
    ensures QueueNumbered(Without(q, i), u, issued)
  {}

  lemma RespondNumbered(s: Controller, u: nat, r: Response)
    requires Numbered(s)
    ensures Numbered(Respond(s, u, r))
  {
    var q := QueueOf(s, u);
    var i := Position(q, r);
    if i < |q| {
      WithoutNumbered(q, i, u, s.issued);
    }
  }

  lemma {:induction false} RespondAllNumbered(s: Controller, u: nat, rs: seq<Response>)
    requires Numbered(s)
    ensures Numbered(RespondAll(s, u, rs))
    decreases |rs|
  {
    hide Numbered, Respond;
    if rs != [] {
      RespondNumbered(s, u, rs[0]);
      RespondAllNumbered(Respond(s, u, rs[0]), u, rs[1..]);
    }
  }

  lemma PopNumbered(s: Controller, u: nat)
    requires Numbered(s)
    ensures Numbered(Pop(s, u))
  {
    assert u in s.queues ==> QueueNumbered(s.queues[u], u, s.issued);
  }

  lemma BookkeepingNumbered(s: Controller, t: Controller)
    requires Numbered(s) && t.queues == s.queues && t.numbers == s.numbers && t.issued == s.issued
    ensures Numbered(t)
  {}

  lemma SendNumbered(s: Controller, o: Order, patchOk: bool, outcome: Outcome)
    requires Numbered(s)
    ensures Numbered(Send(s, o, patchOk, outcome).0)
  {
    hide Numbered, Prepare, NewRequest, Push, Pop, RespondAll;
    if CanPatch(s, o.universe, patchOk) {
      PrepareNumbered(s, o);
      PushNumbered(s, o);
      var t := Prepare(s, o);
      var pushed := if o.destination.IsBroadcast() then t else Push(t, o.universe, NewRequest(s, o));
      match outcome
      case Taken(immediate) =>
        RespondAllNumbered(pushed, o.universe, immediate);
        BookkeepingNumbered(RespondAll(pushed, o.universe, immediate), Send(s, o, patchOk, outcome).0);
      case Refused => PopNumbered(pushed, o.universe);
    }
  }

  lemma LiveNumbered(q: seq<Request>, now: int, u: nat, issued: map<Pair, nat>)
    requires QueueNumbered(q, u, issued)
    ensures QueueNumbered(Live(q, now), u, issued)
  {
    SweepKeepsExactly(q, now);
  }

  lemma SweepNumbered(s: Controller, now: int)
    requires Numbered(s)
    ensures Numbered(Sweep(s, now))
  {
    hide QueueNumbered, Live, InOrder;
    var t := Sweep(s, now);
    forall u | u in t.queues ensures QueueNumbered(t.queues[u], u, t.issued) {
      LiveNumbered(s.queues[u], now, u, s.issued);
    }
  }

  lemma StepNumbered(s: Controller, e: Event)
    requires Numbered(s)
    ensures Numbered(Step(s, e))
  {
    hide Send, Sweep, Respond, QueueNumbered, InOrder;
    match e
    case Issue(order, patchOk, known, answers) =>
      SendNumbered(s, order, patchOk, Handed(CanPatch(s, order.universe, patchOk), order, known, answers));
    case Reply(u, r) => RespondNumbered(s, u, r);
    case Check(now) => SweepNumbered(s, now);
    case Destroy =>
  }

  lemma {:induction false} RunNumbered(es: seq<Event>)
    ensures Numbered(After(es))
    decreases |es|
  {
    if es != [] {
      hide Step, Numbered;
      RunNumbered(es[..|es| - 1]);
      StepNumbered(After(es[..|es| - 1]), es[|es| - 1]);
      assert Numbered(After(es));
    }
  }

  /**
   * Two outstanding requests of a universe can be answered by the same response if and only if
   * they agree in source, sub-device and command, and were issued a multiple of 256 apart.
   */
  lemma ConfusedIff(es: seq<Event>, u: nat, i: nat, j: nat)
    requires u in After(es).queues && i < j < |After(es).queues[u]|
    ensures
      var a, b := After(es).queues[u][i], After(es).queues[u][j];
      (exists r: Response :: a.Matches(r) && b.Matches(r))
      <==> a.source == b.source && a.subDevice == b.subDevice && a.command == b.command
           && (b.ordinal - a.ordinal) % 0x100 == 0
  {
    RunNumbered(es);
    hide After;
    var s := After(es);
    assert QueueNumbered(s.queues[u], u, s.issued);
    var a, b := s.queues[u][i], s.queues[u][j];
    SameResidue(a.ordinal, b.ordinal);
    if a.source == b.source && a.subDevice == b.subDevice && a.command == b.command && a.transaction == b.transaction {
      var r := Response(a.source, a.subDevice, a.transaction,
                        if a.command.GetCommand? then GetCommandResponse else SetCommandResponse);
      assert a.Matches(r) && b.Matches(r);
    }
  }

  lemma SameResidue(a: nat, b: nat)
    ensures a % 0x100 == b % 0x100 <==> (b - a) % 0x100 == 0
  {}

  ghost predicate Recent(s: Controller, u: nat, a: Request) {
    a.ordinal + 0x100 >= IssuedFor(s, (u, a.source))
  }

  lemma RecentNotConfused(es: seq<Event>, u: nat, r: Response, i: nat, j: nat)
    requires u in After(es).queues && i < j < |After(es).queues[u]|
    requires
      var a, b := After(es).queues[u][i], After(es).queues[u][j];
      a.source == r.destination ==> Recent(After(es), u, a)
    ensures !(After(es).queues[u][i].Matches(r) && After(es).queues[u][j].Matches(r))
  {
    var s := After(es);
    var a, b := s.queues[u][i], s.queues[u][j];
    RunNumbered(es);
    ConfusedIff(es, u, i, j);
    hide After;
    assert QueueNumbered(s.queues[u], u, s.issued);
    if a.source == b.source == r.destination {
      assert 0 < b.ordinal - a.ordinal < 0x100;
    }
  }

  /**
   * While no outstanding request of a universe and source is older than the last 256 issued for
   * them, a response addressed to that source matches at most one of them.
   */
  lemma ResponseIsUnambiguous(es: seq<Event>, u: nat, r: Response)
    requires u in After(es).queues
    requires forall k :: 0 <= k < |After(es).queues[u]| && After(es).queues[u][k].source == r.destination ==>
               Recent(After(es), u, After(es).queues[u][k])
    ensures
      var q := After(es).queues[u];
      forall i, j :: 0 <= i < j < |q| ==> !(q[i].Matches(r) && q[j].Matches(r))
  {
    var q := After(es).queues[u];
    forall i, j | 0 <= i < j < |q| ensures !(q[i].Matches(r) && q[j].Matches(r)) {
      RecentNotConfused(es, u, r, i, j);
    }
  }

  /** The k-th request issued for a universe and a source gets transaction number k mod 256. */
  lemma NumbersCount(es: seq<Event>, o: Order)
    ensures
      var s := After(es);
      NewRequest(s, o).transaction == IssuedFor(s, (o.universe, o.source)) % 0x100
      && NewRequest(s, o).ordinal == IssuedFor(s, (o.universe, o.source))
  {
    RunNumbered(es);
    PrepareNumbered(After(es), o);
  }
}
