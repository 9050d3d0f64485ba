/** What the callback of a request is run with: which answers are matched to it, and when it times out. */
module RdmOutcomes {
  import opened Rdm
  import opened RdmNumbers

  /** An order that has been accepted, and how many were issued before it for its universe and source. */
  datatype Sent = Sent(order: Order, ordinal: nat)

  /** The port has been patched, and the universe takes broadcasts and requests for devices it knows. */
  predicate Takes(s: Controller, o: Order, patchOk: bool, known: set<Uid>) {
    (o.universe in s.ports || patchOk) && (o.destination.device == ALL_DEVICES || o.destination in known)
  }

  /** How many requests a run has issued for a universe and source since the controller was made. */
  ghost function IssuedIn(es: seq<Event>, u: nat, source: Uid): nat
    decreases |es|
  {
    if es == [] then 0
    else
      var e, before := es[|es| - 1], es[..|es| - 1];
      match e
      case Issue(o, patchOk, _, _) =>
        IssuedIn(before, u, source)
        + if o.universe == u && o.source == source && (u in After(before).ports || patchOk) then 1 else 0
      case Reply(_, _) => IssuedIn(before, u, source)
      case Check(_) => IssuedIn(before, u, source)
      case Destroy => 0
  }

  /** The accepted orders of a run; the place of an order is the name of its callback. */
  ghost function Orders(es: seq<Event>): seq<Sent>
    decreases |es|
  {
    if es == [] then []
    else
      var e, before := es[|es| - 1], es[..|es| - 1];
      if e.Issue? && Takes(After(before), e.order, e.patchOk, e.known) then
        Orders(before) + [Sent(e.order, IssuedIn(before, e.order.universe, e.order.source))]
      else Orders(before)
  }

  /** A response answers an order. */
  predicate Fits(x: Sent, r: Response) {
    && r.destination == x.order.source
    && r.subDevice == x.order.subDevice
    && r.transaction == x.ordinal % 256
    && (if x.order.isSet then r.command == SetCommandResponse else r.command == GetCommandResponse)
  }

  predicate Unicast(x: Sent) { x.order.destination.device != ALL_DEVICES }

  // ----- Queued requests stand for their orders

  ghost predicate StandsFor(a: Request, x: Sent, u: nat) {
    && x.order.universe == u && Unicast(x)
    && (forall r :: a.Matches(r) <==> Fits(x, r))
    && (forall now :: a.HasExpired(now) <==> now > x.order.now + 3)
  }

  ghost predicate QueueStands(q: seq<Request>, u: nat, xs: seq<Sent>) {
    forall k :: 0 <= k < |q| ==> q[k].id < |xs| && StandsFor(q[k], xs[q[k].id], u)
  }

  ghost predicate Stand(s: Controller, xs: seq<Sent>) {
    forall u :: u in s.queues ==> QueueStands(s.queues[u], u, xs)
  }

  /** A callback has been run with an answer that fits, as a broadcast only if it was one, else as timed out. */
  ghost predicate Truthful(c: Completion, xs: seq<Sent>) {
    && c.id < |xs|
    && match c.status
       case Answered(r) => Unicast(xs[c.id]) && Fits(xs[c.id], r)
       case WasBroadcast => !Unicast(xs[c.id])
       case TimedOut => Unicast(xs[c.id])
  }

  ghost predicate AllTruthful(log: seq<Completion>, xs: seq<Sent>) {
    forall k :: 0 <= k < |log| ==> Truthful(log[k], xs)
  }

  ghost predicate Faithful(s: Controller, xs: seq<Sent>) { Stand(s, xs) && AllTruthful(s.log, xs) }

  lemma NewStands(s: Controller, o: Order)
    requires o.destination.device != ALL_DEVICES && CountersAgree(s)
    ensures NewRequest(s, o).id == s.accepted
    ensures StandsFor(NewRequest(s, o), Sent(o, IssuedFor(s, (o.universe, o.source))), o.universe)
  {
    var key := (o.universe, o.source);
    assert NewRequest(s, o).transaction == IssuedFor(s, key) % 256;
  }

  lemma MoreOrders(s: Controller, xs: seq<Sent>, x: Sent)
    requires Faithful(s, xs)
    ensures Faithful(s, xs + [x])
  {
    hide StandsFor, Fits, Unicast;
    forall u | u in s.queues ensures QueueStands(s.queues[u], u, xs + [x]) {
      assert QueueStands(s.queues[u], u, xs);
    }
    forall k | 0 <= k < |s.log| ensures Truthful(s.log[k], xs + [x]) {
      assert Truthful(s.log[k], xs);
    }
  }

  /** Changing one queue to another that stands keeps the rest. */
  lemma OneQueue(s: Controller, t: Controller, u: nat, q: seq<Request>, xs: seq<Sent>)
    requires Stand(s, xs) && QueueStands(q, u, xs) && t.queues == s.queues[u := q]
    ensures Stand(t, xs)
  {
    hide QueueStands;
  }

  lemma QueueOfStands(s: Controller, u: nat, xs: seq<Sent>)
    requires Stand(s, xs)
    ensures QueueStands(QueueOf(s, u), u, xs)
  {}

  lemma PreparedFaithful(s: Controller, o: Order, xs: seq<Sent>)
    requires Faithful(s, xs)
    ensures Faithful(Prepare(s, o), xs)
  {
    QueueOfStands(s, o.universe, xs);
    hide QueueStands;
    OneQueue(s, Prepare(s, o), o.universe, QueueOf(s, o.universe), xs);
  }

  lemma PushedFaithful(s: Controller, u: nat, a: Request, xs: seq<Sent>)
    requires Faithful(s, xs) && a.id < |xs| && StandsFor(a, xs[a.id], u)
    ensures Faithful(Push(s, u, a), xs)
  {
    hide StandsFor;
    QueueOfStands(s, u, xs);
    OneQueue(s, Push(s, u, a), u, QueueOf(s, u) + [a], xs);
  }

  lemma PoppedFaithful(s: Controller, u: nat, xs: seq<Sent>)
    requires Faithful(s, xs)
    ensures Faithful(Pop(s, u), xs)
  {
    hide StandsFor;
    QueueOfStands(s, u, xs);
    var q := QueueOf(s, u);
    if q != [] {
      OneQueue(s, Pop(s, u), u, q[..|q| - 1], xs);
    }
  }

  lemma RespondFaithful(s: Controller, u: nat, r: Response, xs: seq<Sent>)
    requires Faithful(s, xs)
    ensures Faithful(Respond(s, u, r), xs)
  {
    var q := QueueOf(s, u);
    var i := Position(q, r);
    QueueOfStands(s, u, xs);
    if i < |q| {
      assert StandsFor(q[i], xs[q[i].id], u) && q[i].Matches(r);
      assert Truthful(Completion(q[i].id, Answered(r)), xs);
      hide StandsFor, Truthful;
      OneQueue(s, Respond(s, u, r), u, Without(q, i), xs);
    }
  }

  lemma {:induction false} RespondAllFaithful(s: Controller, u: nat, rs: seq<Response>, xs: seq<Sent>)
    requires Faithful(s, xs)
    ensures Faithful(RespondAll(s, u, rs), xs)
    decreases |rs|
  {
    hide Faithful, Respond;
    if rs != [] {
      RespondFaithful(s, u, rs[0], xs);
      RespondAllFaithful(Respond(s, u, rs[0]), u, rs[1..], xs);
    }
  }

  lemma SameFaithful(s: Controller, t: Controller, xs: seq<Sent>)
    requires Faithful(s, xs) && t.queues == s.queues && t.log == s.log
    ensures Faithful(t, xs)
  {}

  lemma LoggedFaithful(s: Controller, t: Controller, c: Completion, xs: seq<Sent>)
    requires Faithful(s, xs) && Truthful(c, xs) && t.queues == s.queues && t.log == s.log + [c]
    ensures Faithful(t, xs)
  {
    hide Truthful;
  }

  lemma TakenFaithful(s: Controller, o: Order, patchOk: bool, answers: seq<Response>, xs: seq<Sent>)
    requires Faithful(s, xs) && CountersAgree(s) && s.accepted == |xs| && CanPatch(s, o.universe, patchOk)
    ensures Faithful(Send(s, o, patchOk, Taken(answers)).0, xs + [Sent(o, IssuedFor(s, (o.universe, o.source)))])
  {
    var x := Sent(o, IssuedFor(s, (o.universe, o.source)));
    var ys := xs + [x];
    var t := Prepare(s, o);
    MoreOrders(s, xs, x);
    PreparedFaithful(s, o, ys);
    var broadcast := o.destination.IsBroadcast();
    var pushed := if broadcast then t else Push(t, o.universe, NewRequest(s, o));
    if !broadcast {
      NewStands(s, o);
      PushedFaithful(t, o.universe, NewRequest(s, o), ys);
    }
    var done := RespondAll(pushed, o.universe, answers);
    RespondAllFaithful(pushed, o.universe, answers, ys);
    assert broadcast ==> Truthful(Completion(s.accepted, WasBroadcast), ys);
    hide Faithful, Truthful, Prepare, NewRequest, RespondAll, Push;
    var r := Send(s, o, patchOk, Taken(answers)).0;
    if broadcast {
      LoggedFaithful(done, r, Completion(s.accepted, WasBroadcast), ys);
    } else {
      SameFaithful(done, r, ys);
    }
  }

  lemma RefusedFaithful(s: Controller, o: Order, patchOk: bool, xs: seq<Sent>)
    requires Faithful(s, xs) && CountersAgree(s) && s.accepted == |xs| && CanPatch(s, o.universe, patchOk)
    requires !o.destination.IsBroadcast()
    ensures Faithful(Send(s, o, patchOk, Refused).0, xs)
  {
    RefusedUnicastRestores(s, o, patchOk, o.universe);
    var q, t := QueueOf(s, o.universe), Send(s, o, patchOk, Refused).0;
    QueueOfStands(s, o.universe, xs);
    assert (q + [NewRequest(s, o)])[..|q|] == q;
    assert t.queues == s.queues[o.universe := q];
    hide QueueStands;
    OneQueue(s, t, o.universe, q, xs);
  }

  lemma LiveStands(q: seq<Request>, u: nat, xs: seq<Sent>, now: int)
    requires QueueStands(q, u, xs)
    ensures QueueStands(Live(q, now), u, xs) && QueueStands(Expired(q, now), u, xs)
  {
    hide StandsFor, Live, Expired;
    forall k | 0 <= k < |Live(q, now)| ensures Live(q, now)[k] in q {
      LiveMembers(q, now, Live(q, now)[k]);
    }
    forall k | 0 <= k < |Expired(q, now)| ensures Expired(q, now)[k] in q {
      LiveMembers(q, now, Expired(q, now)[k]);
    }
  }

  lemma {:induction false} InOrderTimesOut(queues: map<nat, seq<Request>>, us: set<nat>, xs: seq<Sent>)
    requires us <= queues.Keys && forall u :: u in us ==> QueueStands(queues[u], u, xs)
    ensures AllTruthful(TimeOut(InOrder(queues, us)), xs)
    decreases |us|
  {
    if us != {} {
      var u := Least(us);
      InOrderTimesOut(queues, us - {u}, xs);
      assert QueueStands(queues[u], u, xs);
      var rest := InOrder(queues, us - {u});
      assert forall k :: 0 <= k < |queues[u] + rest| ==>
               TimeOut(queues[u] + rest)[k] == if k < |queues[u]| then Completion(queues[u][k].id, TimedOut)
                                               else TimeOut(rest)[k - |queues[u]|];
    }
  }

  lemma AppendTruthful(log: seq<Completion>, more: seq<Completion>, xs: seq<Sent>)
    requires AllTruthful(log, xs) && AllTruthful(more, xs)
    ensures AllTruthful(log + more, xs)
  {
    hide Truthful;
  }

  lemma SweptFaithful(s: Controller, now: int, xs: seq<Sent>)
    requires Faithful(s, xs)
    ensures Faithful(Sweep(s, now), xs)
  {
    var late := ExpiredQueues(s.queues, now);
    SweptKeys(s.queues, now);
    forall u | u in s.queues ensures QueueStands(late[u], u, xs) && QueueStands(Sweep(s, now).queues[u], u, xs) {
      LiveStands(s.queues[u], u, xs, now);
    }
    InOrderTimesOut(late, s.queues.Keys, xs);
    hide QueueStands, Truthful, InOrder, Live, Expired;
    AppendTruthful(s.log, TimeOut(InOrder(late, s.queues.Keys)), xs);
  }

  lemma TornDownFaithful(s: Controller, xs: seq<Sent>)
    requires Faithful(s, xs)
    ensures Faithful(Teardown(s), xs)
  {
    InOrderTimesOut(s.queues, s.queues.Keys, xs);
    hide QueueStands, Truthful, InOrder;
    AppendTruthful(s.log, TimeOut(InOrder(s.queues, s.queues.Keys)), xs);
  }

  // ----- Over any run

  /** A send is accepted exactly when there is a port and the port takes it; the port is kept for the next one. */
  lemma SendAccepts(s: Controller, o: Order, patchOk: bool, outcome: Outcome)
    ensures
      var (t, ok) := Send(s, o, patchOk, outcome);
      && ok == (CanPatch(s, o.universe, patchOk) && outcome.Taken?)
      && t.accepted == s.accepted + (if ok then 1 else 0)
      && (!CanPatch(s, o.universe, patchOk) ==> t == s)
      && (CanPatch(s, o.universe, patchOk) ==>
            && t.issued == s.issued[(o.universe, o.source) := IssuedFor(s, (o.universe, o.source)) + 1]
            && t.ports == s.ports + {o.universe})
  {
    if CanPatch(s, o.universe, patchOk) && outcome.Taken? {
      var pushed := if o.destination.IsBroadcast() then Prepare(s, o) else Push(Prepare(s, o), o.universe, NewRequest(s, o));
      RespondAllCounts(pushed, o.universe, outcome.immediate);
    }
  }

  lemma {:induction false} RespondAllCounts(s: Controller, u: nat, rs: seq<Response>)
    ensures RespondAll(s, u, rs).accepted == s.accepted && RespondAll(s, u, rs).issued == s.issued
    ensures RespondAll(s, u, rs).ports == s.ports
    decreases |rs|
  {
    if rs != [] {
      RespondAllCounts(Respond(s, u, rs[0]), u, rs[1..]);
    }
  }

  /** The counters of a run: what has been issued for each pair, and what has been accepted. */
  lemma {:induction false} CountsAre(es: seq<Event>)
    ensures |Orders(es)| == After(es).accepted
    ensures forall u, source :: IssuedFor(After(es), (u, source)) == IssuedIn(es, u, source)
    decreases |es|
  {
    if es != [] {
      hide Send, Respond, Sweep, Teardown;
      var e, before := es[|es| - 1], es[..|es| - 1];
      CountsAre(before);
      StepCounts(After(before), e);
    }
  }

  lemma StepCounts(s: Controller, e: Event)
    ensures
      var t := Step(s, e);
      match e
      case Issue(o, patchOk, known, _) =>
        && t.accepted == s.accepted + (if Takes(s, o, patchOk, known) then 1 else 0)
        && forall u, source ::
             IssuedFor(t, (u, source))
             == IssuedFor(s, (u, source))
                + if o.universe == u && o.source == source && (u in s.ports || patchOk) then 1 else 0
      case Reply(_, _) => t.accepted == s.accepted && t.issued == s.issued
      case Check(_) => t.accepted == s.accepted && t.issued == s.issued
      case Destroy => t.accepted == s.accepted && t.issued == map[]
  {
    match e
    case Issue(o, patchOk, known, answers) =>
      SendAccepts(s, o, patchOk, Handed(CanPatch(s, o.universe, patchOk), o, known, answers));
      hide Send;
    case _ =>
  }

  lemma StepFaithful(s: Controller, e: Event, xs: seq<Sent>)
    requires Faithful(s, xs) && CountersAgree(s) && s.accepted == |xs|
    ensures
      var x := if e.Issue? then [Sent(e.order, IssuedFor(s, (e.order.universe, e.order.source)))] else [];
      Faithful(Step(s, e), xs + if e.Issue? && Takes(s, e.order, e.patchOk, e.known) then x else [])
  {
    hide Faithful, CountersAgree, Sweep, Teardown, Respond;
    assert xs + [] == xs;
    match e
    case Issue(o, patchOk, known, answers) =>
      if Takes(s, o, patchOk, known) {
        TakenFaithful(s, o, patchOk, answers, xs);
      } else if CanPatch(s, o.universe, patchOk) {
        RefusedFaithful(s, o, patchOk, xs);
      }
      hide Send;
    case Reply(u, r) => RespondFaithful(s, u, r, xs);
    case Check(now) => SweptFaithful(s, now, xs);
    case Destroy => TornDownFaithful(s, xs);
  }

  lemma {:induction false} RunFaithful(es: seq<Event>)
    ensures Faithful(After(es), Orders(es))
    decreases |es|
  {
    if es != [] {
      var e, before := es[|es| - 1], es[..|es| - 1];
      RunFaithful(before);
      RunNumbered(before);
      CountsAre(before);
      hide Faithful, Step, CountersAgree, QueueNumbered;
      StepFaithful(After(before), e, Orders(before));
      assert Orders(before) + [] == Orders(before);
    }
  }

  /**
   * In every reachable state a queued request is matched by exactly the responses that answer
   * its order, and has expired exactly when more than three seconds have passed since.
   */
  lemma QueuedRequestIs(es: seq<Event>, u: nat, k: nat)
    requires u in After(es).queues && k < |After(es).queues[u]|
    ensures
      var a, xs := After(es).queues[u][k], Orders(es);
      && a.id < |xs| && xs[a.id].order.universe == u && Unicast(xs[a.id])
      && (forall r :: a.Matches(r) <==> Fits(xs[a.id], r))
      && (forall now :: a.HasExpired(now) <==> now > xs[a.id].order.now + 3)
  {
    RunFaithful(es);
    assert QueueStands(After(es).queues[u], u, Orders(es));
    hide After, Orders;
  }

  /** After any run every callback has been told the truth. */
  lemma CallbacksAreTruthful(es: seq<Event>, k: nat)
    requires k < |After(es).log|
    ensures
      var c, xs := After(es).log[k], Orders(es);
      && c.id < |xs|
      && (c.status.WasBroadcast? <==> !Unicast(xs[c.id]))
      && (c.status.Answered? ==> Fits(xs[c.id], c.status.response))
  {
    RunFaithful(es);
    assert Truthful(After(es).log[k], Orders(es));
    hide After, Orders;
  }

  // ----- What the next event does

  /** A unicast order that is taken stands last in its universe's queue under its own name. */
  lemma OrderIsQueued(es: seq<Event>, o: Order, patchOk: bool, known: set<Uid>)
    requires Takes(After(es), o, patchOk, known) && o.destination.device != ALL_DEVICES
    ensures
      var s, more := After(es), es + [Issue(o, patchOk, known, [])];
      var t := After(more);
      && o.universe in t.queues && |t.queues[o.universe]| == |QueueOf(s, o.universe)| + 1
      && t.queues[o.universe][..|QueueOf(s, o.universe)|] == QueueOf(s, o.universe)
      && t.queues[o.universe][|QueueOf(s, o.universe)|].id == |Orders(es)|
      && Orders(more) == Orders(es) + [Sent(o, IssuedIn(es, o.universe, o.source))]
      && t.log == s.log
  {
    var e := Issue(o, patchOk, known, []);
    assert (es + [e])[..|es + [e]| - 1] == es;
    CountsAre(es);
    hide IssuedIn;
    NewRequestId(After(es), o);
    assert After(es + [e]) == Step(After(es), e);
    hide After, NewRequest;
  }

  lemma NewRequestId(s: Controller, o: Order)
    ensures NewRequest(s, o).id == s.accepted
  {}

  /**
   * A response runs the callback of the first order waiting in its universe that it answers, and
   * takes only that one out of the queue; if it answers none, nothing changes.
   */
  lemma ResponseAnswersFirst(es: seq<Event>, u: nat, r: Response)
    ensures
      var s, t, xs := After(es), After(es + [Reply(u, r)]), Orders(es);
      var q := QueueOf(s, u);
      && (forall k :: 0 <= k < |q| ==> q[k].id < |xs|)
      && ((forall k :: 0 <= k < |q| ==> !Fits(xs[q[k].id], r)) ==> t == s)
      && (forall k :: 0 <= k < |q| && Fits(xs[q[k].id], r) && (forall j :: 0 <= j < k ==> !Fits(xs[q[j].id], r)) ==>
            && t.log == s.log + [Completion(q[k].id, Answered(r))]
            && t.queues == s.queues[u := q[..k] + q[k + 1..]])
  {
    var s, xs := After(es), Orders(es);
    var q := QueueOf(s, u);
    assert (es + [Reply(u, r)])[..|es + [Reply(u, r)]| - 1] == es;
    assert After(es + [Reply(u, r)]) == Respond(s, u, r);
    forall k | 0 <= k < |q| ensures q[k].id < |xs| && (q[k].Matches(r) <==> Fits(xs[q[k].id], r)) {
      QueuedRequestIs(es, u, k);
    }
    RespondCases(s, u, r);
    hide After, Orders, Fits, Respond, QueueOf, Request.Matches;
  }

  lemma RespondCases(s: Controller, u: nat, r: Response)
    ensures
      var q, t := QueueOf(s, u), Respond(s, u, r);
      && ((forall k :: 0 <= k < |q| ==> !q[k].Matches(r)) ==> t == s)
      && (forall k :: 0 <= k < |q| && q[k].Matches(r) && (forall j :: 0 <= j < k ==> !q[j].Matches(r)) ==>
            && t.log == s.log + [Completion(q[k].id, Answered(r))]
            && t.queues == s.queues[u := q[..k] + q[k + 1..]])
  {
    hide Request.Matches;
    var q := QueueOf(s, u);
    var i := Position(q, r);
    forall k | 0 <= k < |q| && q[k].Matches(r) && (forall j :: 0 <= j < k ==> !q[j].Matches(r)) ensures k == i {}
  }

  /** Answers that come while a request is being handed over act as answers that come right after it. */
  lemma AnswersAreReplies(s: Controller, o: Order, patchOk: bool, answers: seq<Response>)
    requires CanPatch(s, o.universe, patchOk) && !o.destination.IsBroadcast()
    ensures Send(s, o, patchOk, Taken(answers)).0
            == RespondAll(Send(s, o, patchOk, Taken([])).0, o.universe, answers)
  {
    hide Prepare, NewRequest, Push;
    var pushed := Push(Prepare(s, o), o.universe, NewRequest(s, o));
    RespondAllThenAccept(pushed, o.universe, answers, s.accepted + 1);
  }

  lemma {:induction false} RespondAllThenAccept(s: Controller, u: nat, rs: seq<Response>, n: nat)
    ensures RespondAll(s.(accepted := n), u, rs) == RespondAll(s, u, rs).(accepted := n)
    decreases |rs|
  {
    if rs != [] {
      RespondAllThenAccept(Respond(s, u, rs[0]), u, rs[1..], n);
    }
  }

  /** A sweep times out exactly the requests sent more than three seconds ago. */
  lemma SweepTimesOutIff(es: seq<Event>, now: int, u: nat, k: nat)
    requires u in After(es).queues && k < |After(es).queues[u]|
    ensures
      var s, t, xs := After(es), After(es + [Check(now)]), Orders(es);
      var a := s.queues[u][k];
      && a.id < |xs| && u in t.queues
      && (if now > xs[a.id].order.now + 3
          then a !in t.queues[u] && Completion(a.id, TimedOut) in t.log[|s.log|..]
          else a in t.queues[u])
      && s.log <= t.log && forall c :: c in t.log[|s.log|..] ==> c.status.TimedOut?
  {
    var s := After(es);
    var a := s.queues[u][k];
    assert (es + [Check(now)])[..|es + [Check(now)]| - 1] == es;
    assert After(es + [Check(now)]) == Sweep(s, now);
    QueuedRequestIs(es, u, k);
    hide After, Orders;
    SweptKeys(s.queues, now);
    LiveMembers(s.queues[u], now, a);
    var late := ExpiredQueues(s.queues, now);
    if a.HasExpired(now) {
      var m := InOrderHas(late, s.queues.Keys, u, a);
      assert TimeOut(InOrder(late, s.queues.Keys))[m] == Completion(a.id, TimedOut);
    }
    hide InOrder;
    var more := TimeOut(InOrder(late, s.queues.Keys));
    assert (s.log + more)[|s.log|..] == more;
  }

  lemma {:induction false} LiveMembers(q: seq<Request>, now: int, a: Request)
    ensures a in Live(q, now) <==> a in q && !a.HasExpired(now)
    ensures a in Expired(q, now) <==> a in q && a.HasExpired(now)
    decreases |q|
  {
    if q != [] {
      LiveMembers(q[1..], now, a);
      assert q == [q[0]] + q[1..];
    }
  }

  lemma InOrderUnfold(queues: map<nat, seq<Request>>, us: set<nat>, first: nat)
    requires us <= queues.Keys && IsLeast(first, us)
    ensures InOrder(queues, us) == queues[first] + InOrder(queues, us - {first})
  {
    assert Least(us) == first;
  }

  function Below(us: set<nat>, v: nat): set<nat> { set u | u in us && u < v }

  function Above(us: set<nat>, v: nat): set<nat> { set u | u in us && u > v }

  lemma SplitLeast(us: set<nat>, first: nat, v: nat)
    requires IsLeast(first, us) && v in us
    ensures first == v ==> Below(us, v) == {} && Above(us, v) == us - {v}
    ensures first != v ==>
              && IsLeast(first, Below(us, v)) && v in us - {first}
              && Below(us - {first}, v) == Below(us, v) - {first} && Above(us - {first}, v) == Above(us, v)
  {}

  /** Callbacks that time out together run universe by universe in ascending order, each queue in its own. */
  lemma {:induction false} InOrderSplit(queues: map<nat, seq<Request>>, us: set<nat>, v: nat)
    requires us <= queues.Keys && v in us
    ensures InOrder(queues, us) == InOrder(queues, Below(us, v)) + queues[v] + InOrder(queues, Above(us, v))
    decreases |us|
  {
    HasLeast(us);
    var first :| IsLeast(first, us);
    InOrderUnfold(queues, us, first);
    SplitLeast(us, first, v);
    if first == v {
      assert InOrder(queues, {}) == [];
    } else {
      InOrderSplit(queues, us - {first}, v);
      InOrderUnfold(queues, Below(us, v), first);
    }
    hide InOrder, IsLeast;
  }

  lemma {:induction false} InOrderHas(queues: map<nat, seq<Request>>, us: set<nat>, u: nat, a: Request) returns (m: nat)
    requires us <= queues.Keys && u in us && a in queues[u]
    ensures m < |InOrder(queues, us)| && InOrder(queues, us)[m] == a
    decreases |us|
  {
    var first := Least(us);
    if u == first {
      m :| m < |queues[u]| && queues[u][m] == a;
    } else {
      m := InOrderHas(queues, us - {first}, u, a);
      m := m + |queues[first]|;
    }
  }
}
