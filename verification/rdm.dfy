/**
 * The requests the internal RDM controller has outstanding, as a state machine on values. Each
 * accepted request is named by a number; running its callback appends that name to a log.
 */
module Rdm {
  import opened Base

  const EXPIRY_TIMEOUT_S := 3
  const ALL_DEVICES := 0xffff_ffff

  datatype Uid = Uid(esta: nat, device: nat)
  {
    predicate IsBroadcast() { device == ALL_DEVICES }
  }

  datatype CommandClass =
    | GetCommand | SetCommand | GetCommandResponse | SetCommandResponse | OtherCommand

  /**
   * OutstandingRDMRequest. `id` names its callback and `ordinal` counts the requests issued
   * before it for its universe and source; both are the model's bookkeeping.
   */
  datatype Request = Request(id: nat, ordinal: nat, source: Uid, subDevice: Byte, transaction: Byte,
                             command: CommandClass, expires: int)
  {
    predicate Matches(r: Response) {
      && r.destination == source && r.transaction == transaction && r.subDevice == subDevice
      && ((r.command.GetCommandResponse? && command.GetCommand?)
          || (r.command.SetCommandResponse? && command.SetCommand?))
    }

    predicate HasExpired(now: int) { now > expires }
  }

  datatype Response = Response(destination: Uid, subDevice: Byte, transaction: Byte, command: CommandClass)

  datatype Status = Answered(response: Response) | WasBroadcast | TimedOut

  datatype Completion = Completion(id: nat, status: Status)

  type Pair = (nat, Uid)   // a universe and a source UID

  /** `broken` records that an operation has been run whose effect C++ leaves undefined. */
  datatype Controller = Controller(ports: set<nat>, numbers: map<Pair, Byte>, queues: map<nat, seq<Request>>,
                                   log: seq<Completion>, accepted: nat, issued: map<Pair, nat>,
                                   broken: bool)

  /** What an input port makes of a request: it may answer before the call returns. */
  datatype Outcome = Refused | Taken(immediate: seq<Response>)

  datatype Order = Order(universe: nat, destination: Uid, subDevice: Byte, isSet: bool, source: Uid, now: int)

  function Start(): Controller { Controller({}, map[], map[], [], 0, map[], false) }

  function QueueOf(s: Controller, u: nat): seq<Request> {
    if u in s.queues then s.queues[u] else []
  }

  function IssuedFor(s: Controller, key: Pair): nat {
    if key in s.issued then s.issued[key] else 0
  }

  // ----- Operations

  function Position(q: seq<Request>, r: Response): (i: nat)
    ensures i <= |q| && (i < |q| ==> q[i].Matches(r))
    ensures forall j :: 0 <= j < i ==> !q[j].Matches(r)
  {
    if q == [] || q[0].Matches(r) then 0 else 1 + Position(q[1..], r)
  }

  function Without(q: seq<Request>, i: nat): seq<Request>
    requires i < |q|
  {
    q[..i] + q[i + 1..]
  }

  /** HandleRDMResponse */
  function Respond(s: Controller, u: nat, r: Response): Controller {
    var q := QueueOf(s, u);
    var i := Position(q, r);
    if i < |q| then
      s.(queues := s.queues[u := Without(q, i)], log := s.log + [Completion(q[i].id, Answered(r))])
    else s
  }

  function RespondAll(s: Controller, u: nat, rs: seq<Response>): Controller
    decreases |rs|
  {
    if rs == [] then s else RespondAll(Respond(s, u, rs[0]), u, rs[1..])
  }

  /** The bookkeeping before a request is handed over: port, transaction number, queue. */
  function Prepare(s: Controller, o: Order): Controller {
    var key := (o.universe, o.source);
    s.(ports := s.ports + {o.universe},
       numbers := s.numbers[key := if key in s.numbers then (s.numbers[key] as int + 1) % 0x100 else 0],
       issued := s.issued[key := IssuedFor(s, key) + 1],
       queues := s.queues[o.universe := QueueOf(s, o.universe)])
  }

  function NewRequest(s: Controller, o: Order): Request {
    var key := (o.universe, o.source);
    Request(s.accepted, IssuedFor(s, key), o.source, o.subDevice, Prepare(s, o).numbers[key],
            if o.isSet then SetCommand else GetCommand, o.now + EXPIRY_TIMEOUT_S)
  }

  function Push(s: Controller, u: nat, r: Request): Controller {
    s.(queues := s.queues[u := QueueOf(s, u) + [r]])
  }

  /** pop_back, which is undefined on an empty queue */
  function Pop(s: Controller, u: nat): Controller {
    var q := QueueOf(s, u);
    if q == [] then s.(broken := true) else s.(queues := s.queues[u := q[..|q| - 1]])
  }

  predicate CanPatch(s: Controller, u: nat, patchOk: bool) { u in s.ports || patchOk }

  /** SendRDMRequest */
  function Send(s: Controller, o: Order, patchOk: bool, outcome: Outcome): (Controller, bool) {
    if !CanPatch(s, o.universe, patchOk) then (s, false)
    else
      var t := Prepare(s, o);
      var broadcast := o.destination.IsBroadcast();
      var pushed := if broadcast then t else Push(t, o.universe, NewRequest(s, o));
      match outcome
      case Taken(immediate) =>
        var done := RespondAll(pushed, o.universe, immediate);
        if broadcast then
          (done.(accepted := s.accepted + 1, log := done.log + [Completion(s.accepted, WasBroadcast)]), true)
        else (done.(accepted := s.accepted + 1), true)
      case Refused => (Pop(pushed, o.universe), false)
  }

  function Live(q: seq<Request>, now: int): seq<Request> {
    if q == [] then []
    else (if q[0].HasExpired(now) then [] else [q[0]]) + Live(q[1..], now)
  }

  function Expired(q: seq<Request>, now: int): seq<Request> {
    if q == [] then []
    else (if q[0].HasExpired(now) then [q[0]] else []) + Expired(q[1..], now)
  }

  /** The callbacks of some requests, run in order because they timed out. */
  function TimeOut(q: seq<Request>): (log: seq<Completion>)
    ensures |log| == |q|
  {
    seq(|q|, i requires 0 <= i < |q| => Completion(q[i].id, TimedOut))
  }

  ghost predicate IsLeast(u: nat, us: set<nat>) { u in us && forall v :: v in us ==> u <= v }

  lemma {:induction false} HasLeast(us: set<nat>)
    requires us != {}
    ensures exists u :: IsLeast(u, us)
    decreases |us|
  {
    var v :| v in us;
    if us - {v} != {} {
      HasLeast(us - {v});
      var u :| IsLeast(u, us - {v});
      var w := if u < v then u else v;
      forall x | x in us ensures w <= x { assert x == v || x in us - {v}; }
      assert IsLeast(w, us);
    } else {
      assert us == {v};
      assert IsLeast(v, us);
    }
  }

  ghost function Least(us: set<nat>): (u: nat)
    requires us != {}
    ensures IsLeast(u, us)
  {
    HasLeast(us);
    var u :| IsLeast(u, us);
    u
  }

  /** The queues of some universes one after the other, universes in ascending order. */
  ghost function InOrder(queues: map<nat, seq<Request>>, us: set<nat>): seq<Request>
    requires us <= queues.Keys
  {
    if us == {} then [] else queues[Least(us)] + InOrder(queues, us - {Least(us)})
  }

  function LiveQueues(queues: map<nat, seq<Request>>, now: int): map<nat, seq<Request>> {
    map u | u in queues :: Live(queues[u], now)
  }

  function ExpiredQueues(queues: map<nat, seq<Request>>, now: int): map<nat, seq<Request>> {
    map u | u in queues :: Expired(queues[u], now)
  }

  /** CheckTimeouts: the requests are taken off the queues first, then their callbacks run. */
  ghost function Sweep(s: Controller, now: int): Controller {
    s.(queues := LiveQueues(s.queues, now),
       log := s.log + TimeOut(InOrder(ExpiredQueues(s.queues, now), s.queues.Keys)))
  }

  /** The destructor */
  ghost function Teardown(s: Controller): Controller {
    Controller({}, map[], map[], s.log + TimeOut(InOrder(s.queues, s.queues.Keys)), s.accepted, map[],
               s.broken)
  }

  // ----- Runs

  /**
   * The internal port and its universe: a port without a universe refuses, a universe takes
   * every broadcast, and any other request exactly when it knows the port of its destination.
   * A refused request has reached no output port, so there are no answers to it.
   */
  function Handed(bound: bool, o: Order, known: set<Uid>, answers: seq<Response>): Outcome {
    if bound && (o.destination.IsBroadcast() || o.destination in known) then Taken(answers) else Refused
  }

  /** An internal port is patched before it is used, and only the destructor unpatches it. */
  datatype Event =
    | Issue(order: Order, patchOk: bool, known: set<Uid>, answers: seq<Response>)
    | Reply(universe: nat, response: Response)
    | Check(now: int)
    | Destroy

  ghost function Step(s: Controller, e: Event): Controller {
    match e
    case Issue(order, patchOk, known, answers) =>
      Send(s, order, patchOk, Handed(CanPatch(s, order.universe, patchOk), order, known, answers)).0
    case Reply(u, r) => Respond(s, u, r)
    case Check(now) => Sweep(s, now)
    case Destroy => Teardown(s)
  }

  /** The controller after a run of events, the newest last. */
  ghost function After(es: seq<Event>): Controller
    decreases |es|
  {
    if es == [] then Start() else Step(After(es[..|es| - 1]), es[|es| - 1])
  }

  /** A broadcast that is refused once there is a port for it. */
  predicate RefusedBroadcast(s: Controller, o: Order, patchOk: bool, outcome: Outcome) {
    outcome.Refused? && o.destination.IsBroadcast() && CanPatch(s, o.universe, patchOk)
  }

  // ----- Conservation

  function Ids(q: seq<Request>): multiset<nat> {
    multiset(seq(|q|, i requires 0 <= i < |q| => q[i].id))
  }

  function Ran(log: seq<Completion>): multiset<nat> {
    multiset(seq(|log|, i requires 0 <= i < |log| => log[i].id))
  }

  ghost function Pending(queues: map<nat, seq<Request>>, us: set<nat>): multiset<nat>
    requires us <= queues.Keys
  {
    if us == {} then multiset{}
    else var u :| u in us; Ids(queues[u]) + Pending(queues, us - {u})
  }

  function Upto(n: nat): multiset<nat> {
    if n == 0 then multiset{} else Upto(n - 1) + multiset{n - 1}
  }

  /**
   * Nothing undefined has happened, and every accepted request is in one queue or has had its
   * callback run, once in all.
   */
  ghost predicate Conserved(s: Controller) {
    !s.broken && Pending(s.queues, s.queues.Keys) + Ran(s.log) == Upto(s.accepted)
  }

  lemma IdsAppend(p: seq<Request>, q: seq<Request>)
    ensures Ids(p + q) == Ids(p) + Ids(q)
  {
    var a := seq(|p|, i requires 0 <= i < |p| => p[i].id);
    var b := seq(|q|, i requires 0 <= i < |q| => q[i].id);
    assert seq(|p + q|, i requires 0 <= i < |p + q| => (p + q)[i].id) == a + b;
  }

  lemma IdsOne(r: Request)
    ensures Ids([r]) == multiset{r.id} && Ids([]) == multiset{}
  {
    assert seq(|[r]|, i requires 0 <= i < |[r]| => [r][i].id) == [r.id];
  }

  lemma RanAppend(p: seq<Completion>, q: seq<Completion>)
    ensures Ran(p + q) == Ran(p) + Ran(q)
  {
    var a := seq(|p|, i requires 0 <= i < |p| => p[i].id);
    var b := seq(|q|, i requires 0 <= i < |q| => q[i].id);
    assert seq(|p + q|, i requires 0 <= i < |p + q| => (p + q)[i].id) == a + b;
  }

  lemma RanOne(c: Completion)
    ensures Ran([c]) == multiset{c.id}
  {
    assert seq(|[c]|, i requires 0 <= i < |[c]| => [c][i].id) == [c.id];
  }

  lemma RanTimeOut(q: seq<Request>)
    ensures Ran(TimeOut(q)) == Ids(q)
  {
    var log := TimeOut(q);
    assert seq(|log|, i requires 0 <= i < |log| => log[i].id)
        == seq(|q|, i requires 0 <= i < |q| => q[i].id);
  }

  /** The sum over the queues does not depend on the order in which they are visited. */
  lemma {:induction false} PendingSplit(queues: map<nat, seq<Request>>, us: set<nat>, u: nat)
    requires us <= queues.Keys && u in us
    ensures Pending(queues, us) == Ids(queues[u]) + Pending(queues, us - {u})
    decreases |us|
  {
    hide Ids;
    var v :| v in us && Pending(queues, us) == Ids(queues[v]) + Pending(queues, us - {v});
    if u != v {
      PendingSplit(queues, us - {v}, u);
      PendingSplit(queues, us - {u}, v);
      assert us - {v} - {u} == us - {u} - {v};
    }
  }

  lemma {:induction false} PendingFrame(a: map<nat, seq<Request>>, b: map<nat, seq<Request>>, us: set<nat>)
    requires us <= a.Keys && us <= b.Keys && forall u :: u in us ==> a[u] == b[u]
    ensures Pending(a, us) == Pending(b, us)
    decreases |us|
  {
    hide Ids;
    if us != {} {
      var u :| u in us && Pending(a, us) == Ids(a[u]) + Pending(a, us - {u});
      PendingSplit(b, us, u);
      PendingFrame(a, b, us - {u});
    }
  }

  ghost function Total(s: Controller): multiset<nat> { Pending(s.queues, s.queues.Keys) }

  /** Changing one queue changes the sum by just that queue. */
  lemma TotalUpdate(s: Controller, t: Controller, u: nat, q: seq<Request>)
    requires t.queues == s.queues[u := q]
    ensures Total(t) + Ids(QueueOf(s, u)) == Total(s) + Ids(q)
  {
    var rest := s.queues.Keys - {u};
    assert t.queues.Keys - {u} == rest;
    PendingSplit(t.queues, t.queues.Keys, u);
    PendingFrame(s.queues, t.queues, rest);
    if u in s.queues {
      PendingSplit(s.queues, s.queues.Keys, u);
    } else {
      assert rest == s.queues.Keys;
    }
  }

  lemma Cancel(a: multiset<nat>, b: multiset<nat>, c: multiset<nat>)
    requires a + c == b + c
    ensures a == b
  {
    forall x ensures a[x] == b[x] { assert (a + c)[x] == (b + c)[x]; }
  }

  lemma PositionKeeps(q: seq<Request>, i: nat)
    requires i < |q|
    ensures Ids(q) == Ids(Without(q, i)) + multiset{q[i].id}
  {
    assert q == q[..i] + ([q[i]] + q[i + 1..]);
    IdsAppend(q[..i], [q[i]] + q[i + 1..]);
    IdsAppend([q[i]], q[i + 1..]);
    IdsAppend(q[..i], q[i + 1..]);
    IdsOne(q[i]);
  }

  /** A response moves at most one request from its queue to the log. */
  lemma RespondConserves(s: Controller, u: nat, r: Response)
    ensures
      var t := Respond(s, u, r);
      Total(t) + Ran(t.log) == Total(s) + Ran(s.log) && t.accepted == s.accepted && t.broken == s.broken
  {
    hide Ids, Ran, Pending;
    var q, t := QueueOf(s, u), Respond(s, u, r);
    var i := Position(q, r);
    if i < |q| {
      PositionKeeps(q, i);
      TotalUpdate(s, t, u, Without(q, i));
      var c := Completion(q[i].id, Answered(r));
      RanAppend(s.log, [c]);
      RanOne(c);
      Cancel(Total(t) + multiset{q[i].id}, Total(s), Ids(Without(q, i)));
    }
  }

  lemma {:induction false} RespondAllConserves(s: Controller, u: nat, rs: seq<Response>)
    ensures
      var t := RespondAll(s, u, rs);
      Total(t) + Ran(t.log) == Total(s) + Ran(s.log) && t.accepted == s.accepted && t.broken == s.broken
    decreases |rs|
  {
    hide Ran, Total, Respond;
    if rs != [] {
      RespondConserves(s, u, rs[0]);
      RespondAllConserves(Respond(s, u, rs[0]), u, rs[1..]);
    }
  }

  lemma PrepareConserves(s: Controller, o: Order)
    ensures Total(Prepare(s, o)) == Total(s) && Prepare(s, o).log == s.log && Prepare(s, o).accepted == s.accepted
    ensures Prepare(s, o).broken == s.broken
    ensures QueueOf(Prepare(s, o), o.universe) == QueueOf(s, o.universe)
  {
    hide Ids, Pending;
    TotalUpdate(s, Prepare(s, o), o.universe, QueueOf(s, o.universe));
    Cancel(Total(Prepare(s, o)), Total(s), Ids(QueueOf(s, o.universe)));
  }

  lemma PushAdds(s: Controller, u: nat, r: Request)
    ensures Total(Push(s, u, r)) == Total(s) + multiset{r.id}
  {
    hide Ids, Pending;
    TotalUpdate(s, Push(s, u, r), u, QueueOf(s, u) + [r]);
    IdsAppend(QueueOf(s, u), [r]);
    IdsOne(r);
    Cancel(Total(Push(s, u, r)), Total(s) + multiset{r.id}, Ids(QueueOf(s, u)));
  }

  lemma PopRemoves(s: Controller, u: nat)
    requires QueueOf(s, u) != []
    ensures Total(s) == Total(Pop(s, u)) + multiset{QueueOf(s, u)[|QueueOf(s, u)| - 1].id}
  {
    hide Ids, Pending;
    var q := QueueOf(s, u);
    TotalUpdate(s, Pop(s, u), u, q[..|q| - 1]);
    assert q == q[..|q| - 1] + [q[|q| - 1]];
    IdsAppend(q[..|q| - 1], [q[|q| - 1]]);
    IdsOne(q[|q| - 1]);
    Cancel(Total(Pop(s, u)) + multiset{q[|q| - 1].id}, Total(s), Ids(q[..|q| - 1]));
  }

  /** A refused unicast request leaves every queue as it was. */
  lemma RefusedUnicastRestores(s: Controller, o: Order, patchOk: bool, v: nat)
    requires !o.destination.IsBroadcast()
    ensures QueueOf(Send(s, o, patchOk, Refused).0, v) == QueueOf(s, v)
    ensures Send(s, o, patchOk, Refused).0.log == s.log
    ensures !Send(s, o, patchOk, Refused).1
  {
    var q := QueueOf(s, o.universe);
    assert (q + [NewRequest(s, o)])[..|q|] == q;
  }

  lemma PushPop(s: Controller, u: nat, r: Request)
    ensures Total(Pop(Push(s, u, r), u)) == Total(s)
  {
    hide Ids, Pending;
    PushAdds(s, u, r);
    PopRemoves(Push(s, u, r), u);
    Cancel(Total(Pop(Push(s, u, r), u)), Total(s), multiset{r.id});
  }

  lemma TakenConserves(s: Controller, o: Order, patchOk: bool, immediate: seq<Response>)
    requires Conserved(s) && CanPatch(s, o.universe, patchOk)
    ensures Conserved(Send(s, o, patchOk, Taken(immediate)).0)
  {
    hide Pending, Ran, Prepare, RespondAll;
    var t, u, r := Prepare(s, o), o.universe, NewRequest(s, o);
    PrepareConserves(s, o);
    PushAdds(t, u, r);
    var pushed := if o.destination.IsBroadcast() then t else Push(t, u, r);
    var done := RespondAll(pushed, u, immediate);
    RespondAllConserves(pushed, u, immediate);
    var c := Completion(s.accepted, WasBroadcast);
    RanAppend(done.log, [c]);
    RanOne(c);
    assert Upto(s.accepted + 1) == Upto(s.accepted) + multiset{s.accepted};
  }

  lemma RefusedConservesIff(s: Controller, o: Order, patchOk: bool)
    requires Conserved(s) && CanPatch(s, o.universe, patchOk)
    ensures Conserved(Send(s, o, patchOk, Refused).0)
            <==> !o.destination.IsBroadcast()
  {
    hide Pending, Ran, Prepare, NewRequest;
    var t, u, r := Prepare(s, o), o.universe, NewRequest(s, o);
    PrepareConserves(s, o);
    if !o.destination.IsBroadcast() {
      PushPop(t, u, r);
    } else if QueueOf(t, u) != [] {
      PopRemoves(t, u);
      LosesOne(Total(t), Ran(t.log), Total(Pop(t, u)), QueueOf(t, u)[|QueueOf(t, u)| - 1].id);
    }
  }

  /**
   * Sending keeps the account if and only if it is not a broadcast that is refused: its failure
   * path pops the newest request of somebody else or, from an empty queue, nothing defined.
   */
  lemma SendConservesIff(s: Controller, o: Order, patchOk: bool, outcome: Outcome)
    requires Conserved(s)
    ensures Conserved(Send(s, o, patchOk, outcome).0)
            <==> !RefusedBroadcast(s, o, patchOk, outcome)
  {
    hide Conserved;
    if CanPatch(s, o.universe, patchOk) {
      match outcome
      case Taken(immediate) => TakenConserves(s, o, patchOk, immediate);
      case Refused => RefusedConservesIff(s, o, patchOk);
    }
  }

  lemma LosesOne(total: multiset<nat>, ran: multiset<nat>, less: multiset<nat>, id: nat)
    requires total == less + multiset{id}
    ensures less + ran != total + ran
  {
    assert (total + ran)[id] == (less + ran)[id] + 1;
  }

  lemma {:induction false} LiveOrExpired(q: seq<Request>, now: int)
    ensures Ids(Live(q, now)) + Ids(Expired(q, now)) == Ids(q)
    decreases |q|
  {
    if q != [] {
      hide Ids;
      LiveOrExpired(q[1..], now);
      assert q == [q[0]] + q[1..];
      IdsAppend([q[0]], q[1..]);
      IdsAppend([q[0]], Live(q[1..], now));
      IdsAppend([q[0]], Expired(q[1..], now));
      IdsAppend([], Live(q[1..], now));
      IdsAppend([], Expired(q[1..], now));
      IdsOne(q[0]);
    }
  }

  lemma {:induction false} SweptPending(queues: map<nat, seq<Request>>, now: int, us: set<nat>)
    requires us <= queues.Keys
    ensures Pending(LiveQueues(queues, now), us) + Pending(ExpiredQueues(queues, now), us) == Pending(queues, us)
    decreases |us|
  {
    if us != {} {
      hide Ids, Live, Expired;
      var u :| u in us;
      LiveOrExpired(queues[u], now);
      PendingSplit(queues, us, u);
      PendingSplit(LiveQueues(queues, now), us, u);
      PendingSplit(ExpiredQueues(queues, now), us, u);
      SweptPending(queues, now, us - {u});
    }
  }

  lemma {:induction false} InOrderIds(queues: map<nat, seq<Request>>, us: set<nat>)
    requires us <= queues.Keys
    ensures Ids(InOrder(queues, us)) == Pending(queues, us)
    decreases |us|
  {
    if us != {} {
      hide Ids;
      var u := Least(us);
      IdsAppend(queues[u], InOrder(queues, us - {u}));
      InOrderIds(queues, us - {u});
      PendingSplit(queues, us, u);
    }
  }

  lemma SweepConserves(s: Controller, now: int)
    requires Conserved(s)
    ensures Conserved(Sweep(s, now))
  {
    hide Ids, Ran, Pending, InOrder, LiveQueues, ExpiredQueues;
    var keys := s.queues.Keys;
    SweptKeys(s.queues, now);
    var late := InOrder(ExpiredQueues(s.queues, now), keys);
    RanAppend(s.log, TimeOut(late));
    RanTimeOut(late);
    InOrderIds(ExpiredQueues(s.queues, now), keys);
    SweptPending(s.queues, now, keys);
  }

  lemma SweptKeys(queues: map<nat, seq<Request>>, now: int)
    ensures LiveQueues(queues, now).Keys == queues.Keys == ExpiredQueues(queues, now).Keys
  {}

  lemma TeardownConserves(s: Controller)
    requires Conserved(s)
    ensures Conserved(Teardown(s))
  {
    hide Ids, Ran, InOrder;
    var all := InOrder(s.queues, s.queues.Keys);
    RanAppend(s.log, TimeOut(all));
    RanTimeOut(all);
    InOrderIds(s.queues, s.queues.Keys);
    assert Teardown(s).queues.Keys == {};
  }

  /** A request is refused exactly when it is for one device and nobody knows that device. */
  lemma RefusedIff(s: Controller, o: Order, patchOk: bool, known: set<Uid>, answers: seq<Response>)
    requires CanPatch(s, o.universe, patchOk)
    ensures
      var outcome := Handed(true, o, known, answers);
      && (outcome.Refused? <==> !o.destination.IsBroadcast() && o.destination !in known)
      && !RefusedBroadcast(s, o, patchOk, outcome)
  {}

  /** Every event keeps the account: the failure path of a broadcast is never taken. */
  lemma StepConserves(s: Controller, e: Event)
    requires Conserved(s)
    ensures Conserved(Step(s, e))
  {
    hide Conserved, Send, Sweep, Teardown;
    match e
    case Issue(order, patchOk, known, answers) =>
      SendConservesIff(s, order, patchOk, Handed(CanPatch(s, order.universe, patchOk), order, known, answers));
    case Reply(u, r) =>
      RespondConserves(s, u, r);
      ConservedBy(s, Respond(s, u, r));
    case Check(now) => SweepConserves(s, now);
    case Destroy => TeardownConserves(s);
  }

  lemma ConservedBy(s: Controller, t: Controller)
    requires Conserved(s) && t.accepted == s.accepted && t.broken == s.broken && Total(t) + Ran(t.log) == Total(s) + Ran(s.log)
    ensures Conserved(t)
  {}

  lemma {:induction false} RunConserves(es: seq<Event>)
    ensures Conserved(After(es))
    decreases |es|
  {
    if es == [] {
      assert Ran([]) == multiset{};
    } else {
      hide Conserved, Step;
      RunConserves(es[..|es| - 1]);
      StepConserves(After(es[..|es| - 1]), es[|es| - 1]);
      assert Conserved(After(es));
    }
  }

  // ----- What conservation means for one request

  predicate QueuedAt(s: Controller, id: nat, u: nat, k: nat) {
    u in s.queues && k < |s.queues[u]| && s.queues[u][k].id == id
  }

  predicate RanAt(s: Controller, id: nat, k: nat) {
    k < |s.log| && s.log[k].id == id
  }

  lemma {:induction false} UptoCount(n: nat, id: nat)
    ensures Upto(n)[id] == if id < n then 1 else 0
    decreases n
  {
    if n > 0 { UptoCount(n - 1, id); }
  }

  lemma Twice(s: seq<nat>, k: nat, l: nat)
    requires k < l < |s| && s[k] == s[l]
    ensures multiset(s)[s[k]] >= 2
  {
    assert s == s[..l] + s[l..];
    assert s[..l][k] == s[k] && s[l..][0] == s[k];
    assert s[k] in multiset(s[..l]) && s[k] in multiset(s[l..]);
  }

  lemma IdsCount(q: seq<Request>, id: nat, k: nat)
    requires k < |q| && q[k].id == id
    ensures Ids(q)[id] >= 1
    ensures forall l :: 0 <= l < |q| && l != k && q[l].id == id ==> Ids(q)[id] >= 2
  {
    var ids := seq(|q|, i requires 0 <= i < |q| => q[i].id);
    assert ids[k] == id && id in multiset(ids);
    forall l | 0 <= l < |q| && l != k && q[l].id == id ensures Ids(q)[id] >= 2 {
      Twice(ids, if k < l then k else l, if k < l then l else k);
    }
  }

  lemma RanCount(log: seq<Completion>, id: nat, k: nat)
    requires k < |log| && log[k].id == id
    ensures Ran(log)[id] >= 1
    ensures forall l :: 0 <= l < |log| && l != k && log[l].id == id ==> Ran(log)[id] >= 2
  {
    var ids := seq(|log|, i requires 0 <= i < |log| => log[i].id);
    assert ids[k] == id && id in multiset(ids);
    forall l | 0 <= l < |log| && l != k && log[l].id == id ensures Ran(log)[id] >= 2 {
      Twice(ids, if k < l then k else l, if k < l then l else k);
    }
  }

  lemma {:induction false} PendingWitness(queues: map<nat, seq<Request>>, us: set<nat>, id: nat)
    returns (u: nat, k: nat)
    requires us <= queues.Keys && Pending(queues, us)[id] > 0
    ensures u in us && k < |queues[u]| && queues[u][k].id == id
    decreases |us|
  {
    var v :| v in us && Pending(queues, us) == Ids(queues[v]) + Pending(queues, us - {v});
    if Ids(queues[v])[id] > 0 {
      var ids := seq(|queues[v]|, i requires 0 <= i < |queues[v]| => queues[v][i].id);
      assert id in multiset(ids) && id in ids;
      k :| 0 <= k < |ids| && ids[k] == id;
      u := v;
    } else {
      u, k := PendingWitness(queues, us - {v}, id);
    }
  }

  lemma PendingCount(s: Controller, id: nat, u: nat, k: nat)
    requires QueuedAt(s, id, u, k)
    ensures Total(s)[id] >= 1
    ensures forall v, l :: QueuedAt(s, id, v, l) && (v != u || l != k) ==> Total(s)[id] >= 2
  {
    hide Ids, Pending;
    PendingSplit(s.queues, s.queues.Keys, u);
    IdsCount(s.queues[u], id, k);
    forall v, l | QueuedAt(s, id, v, l) && (v != u || l != k) ensures Total(s)[id] >= 2 {
      if v != u {
        PendingSplit(s.queues, s.queues.Keys - {u}, v);
        IdsCount(s.queues[v], id, l);
      }
    }
  }

  /**
   * After any run every accepted request either stands at exactly one place of exactly one
   * queue, or has had its callback run exactly once, and never both.
   */
  lemma ExactlyOnce(es: seq<Event>, id: nat)
    requires id < After(es).accepted
    ensures
      var s := After(es);
      && ((exists u, k :: QueuedAt(s, id, u, k)) <==> !(exists k :: RanAt(s, id, k)))
      && (forall u, k, v, l :: QueuedAt(s, id, u, k) && QueuedAt(s, id, v, l) ==> u == v && k == l)
      && (forall k, l :: RanAt(s, id, k) && RanAt(s, id, l) ==> k == l)
  {
    var s := After(es);
    RunConserves(es);
    UptoCount(s.accepted, id);
    hide After, Upto, Pending, Ran;
    assert Total(s)[id] + Ran(s.log)[id] == 1 by {
      assert (Total(s) + Ran(s.log))[id] == Upto(s.accepted)[id];
    }
    forall u, k | QueuedAt(s, id, u, k)
      ensures Total(s)[id] >= 1
      ensures forall v, l :: QueuedAt(s, id, v, l) ==> v == u && l == k
    {
      PendingCount(s, id, u, k);
    }
    forall k | RanAt(s, id, k)
      ensures Ran(s.log)[id] >= 1
      ensures forall l :: RanAt(s, id, l) ==> l == k
    {
      RanCount(s.log, id, k);
    }
    if Total(s)[id] > 0 {
      var u, k := PendingWitness(s.queues, s.queues.Keys, id);
      assert QueuedAt(s, id, u, k);
    } else {
      var k := RanWitness(s.log, id);
      assert RanAt(s, id, k);
    }
  }

  lemma RanWitness(log: seq<Completion>, id: nat) returns (k: nat)
    requires Ran(log)[id] > 0
    ensures k < |log| && log[k].id == id
  {
    var ids := seq(|log|, i requires 0 <= i < |log| => log[i].id);
    assert id in multiset(ids) && id in ids;
    k :| 0 <= k < |ids| && ids[k] == id;
  }

  // ----- What a sweep removes

  /** Where the requests of q that stay end up: their old positions, in order. */
  function LivePositions(q: seq<Request>, now: int): (ks: seq<nat>)
    ensures forall i :: 0 <= i < |ks| ==> ks[i] < |q|
    decreases |q|
  {
    if q == [] then []
    else
      var front := LivePositions(q[..|q| - 1], now);
      if q[|q| - 1].HasExpired(now) then front else front + [|q| - 1]
  }

  lemma {:induction false} LiveSnoc(p: seq<Request>, r: Request, now: int)
    ensures Live(p + [r], now) == Live(p, now) + if r.HasExpired(now) then [] else [r]
    ensures Expired(p + [r], now) == Expired(p, now) + if r.HasExpired(now) then [r] else []
    decreases |p|
  {
    if p == [] {
      assert p + [r] == [r];
    } else {
      LiveSnoc(p[1..], r, now);
      var whole := p + [r];
      assert whole[1..] == p[1..] + [r] && whole[0] == p[0];
      assert Live(whole, now) == (if p[0].HasExpired(now) then [] else [p[0]]) + Live(p[1..] + [r], now);
      assert Expired(whole, now) == (if p[0].HasExpired(now) then [p[0]] else []) + Expired(p[1..] + [r], now);
    }
  }

  /**
   * A sweep keeps exactly the requests that have not expired, in their order: queue u afterwards
   * lists the requests at ascending positions of the old one, and those positions are all the
   * positions of requests that have not expired.
   */
  lemma {:induction false} SweepKeepsExactly(q: seq<Request>, now: int)
    ensures
      var ks := LivePositions(q, now);
      && Live(q, now) == seq(|ks|, i requires 0 <= i < |ks| => q[ks[i]])
      && (forall i, j :: 0 <= i < j < |ks| ==> ks[i] < ks[j])
      && (forall k :: 0 <= k < |q| ==> (k in ks <==> !q[k].HasExpired(now)))
    decreases |q|
  {
    if q != [] {
      SweepKeepsExactly(q[..|q| - 1], now);
      LiveSnoc(q[..|q| - 1], q[|q| - 1], now);
      assert q == q[..|q| - 1] + [q[|q| - 1]];
    }
  }
}
