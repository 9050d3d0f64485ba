/** InternalRDMController as it updates its maps and queues, in place. */
module RdmControllers {
  import opened Base
  import opened Rdm

  class RdmController {
    var inputPorts: set<nat>
    var transactionNumbers: map<Pair, Byte>
    var outstanding: map<nat, seq<Request>>
    var log: seq<Completion>      // the callbacks that have run
    var accepted: nat             // bookkeeping: how many requests have been accepted
    var issued: map<Pair, nat>    // bookkeeping: how many were issued for each pair
    var broken: bool              // bookkeeping: something undefined has been done

    ghost function Value(): Controller
      reads this
    {
      Controller(inputPorts, transactionNumbers, outstanding, log, accepted, issued, broken)
    }

    constructor ()
      ensures Value() == Start()
    {
      inputPorts, transactionNumbers, outstanding, log, accepted, issued := {}, map[], map[], [], 0, map[];
      broken := false;
    }

    method RunCallback(id: nat, status: Status)
      modifies this`log
      ensures log == old(log) + [Completion(id, status)]
    {
      log := log + [Completion(id, status)];
    }

    /**
     * SendRDMRequest. patchOk says whether a new internal port can be patched to the universe,
     * outcome what the port makes of the request.
     */
    method SendRDMRequest(o: Order, patchOk: bool, outcome: Outcome) returns (ok: bool)
      modifies this
      ensures (Value(), ok) == Send(old(Value()), o, patchOk, outcome)
    {
      if o.universe !in inputPorts && !patchOk {
        return false;
      }
      var request := PrepareRequest(o);
      hide Prepare, NewRequest, RespondAll, Pop;
      ghost var prepared := Value();
      if !o.destination.IsBroadcast() {
        outstanding := outstanding[o.universe := outstanding[o.universe] + [request]];
      }
      assert Value() == if o.destination.IsBroadcast() then prepared else Push(prepared, o.universe, request);
      hide Push, QueueOf, Uid.IsBroadcast;
      match outcome {
        case Taken(immediate) =>
          HandleAll(o.universe, immediate);
          if o.destination.IsBroadcast() {
            RunCallback(request.id, WasBroadcast);
          }
          accepted := request.id + 1;
          return true;
        case Refused =>
          PopBack(o.universe);
          return false;
      }
    }

    /** pop_back of one queue */
    method PopBack(universe: nat)
      requires universe in outstanding
      modifies this`outstanding, this`broken
      ensures Value() == Pop(old(Value()), universe)
    {
      var queue := outstanding[universe];
      if queue == [] {
        broken := true;
      } else {
        outstanding := outstanding[universe := queue[..|queue| - 1]];
      }
    }

    /** Everything SendRDMRequest sets up before it knows whether the universe takes the request. */
    method PrepareRequest(o: Order) returns (request: Request)
      modifies this
      ensures Value() == Prepare(old(Value()), o)
      ensures request == NewRequest(old(Value()), o)
      ensures request.id == old(accepted)
      ensures accepted == old(accepted) && o.universe in outstanding
      ensures outstanding[o.universe] == old(QueueOf(Value(), o.universe))
    {
      inputPorts := inputPorts + {o.universe};
      var key := (o.universe, o.source);
      var transactionNumber: Byte := 0;
      if key !in transactionNumbers {
        transactionNumbers := transactionNumbers[key := 0];
      } else {
        transactionNumber := (transactionNumbers[key] as int + 1) % 0x100;
        transactionNumbers := transactionNumbers[key := transactionNumber];
      }
      var ordinal := if key in issued then issued[key] else 0;
      issued := issued[key := ordinal + 1];
      request := Request(accepted, ordinal, o.source, o.subDevice, transactionNumber,
                         if o.isSet then SetCommand else GetCommand, o.now + EXPIRY_TIMEOUT_S);
      if o.universe !in outstanding {
        outstanding := outstanding[o.universe := []];
      }
    }

    /** The answers that arrive while the request is being handed over. */
    method HandleAll(universe: nat, rs: seq<Response>)
      modifies this
      ensures Value() == RespondAll(old(Value()), universe, rs)
    {
      for i := 0 to |rs|
        invariant RespondAll(old(Value()), universe, rs) == RespondAll(Value(), universe, rs[i..])
      {
        assert rs[i..][0] == rs[i] && rs[i..][1..] == rs[i + 1..];
        var _ := HandleRDMResponse(universe, rs[i]);
      }
    }

    /** HandleRDMResponse */
    method HandleRDMResponse(universe: nat, response: Response) returns (ok: bool)
      modifies this
      ensures Value() == Respond(old(Value()), universe, response)
      ensures ok <==> Position(QueueOf(old(Value()), universe), response) < |QueueOf(old(Value()), universe)|
    {
      if universe !in outstanding {
        return false;
      }
      var queue := outstanding[universe];
      var i := 0;
      while i < |queue| && !queue[i].Matches(response)
        invariant 0 <= i <= |queue|
        invariant forall j :: 0 <= j < i ==> !queue[j].Matches(response)
      {
        i := i + 1;
      }
      assert i == Position(queue, response);
      if i == |queue| {
        return false;
      }
      outstanding := outstanding[universe := queue[..i] + queue[i + 1..]];
      RunCallback(queue[i].id, Answered(response));
      return true;
    }

    static lemma InOrderStep(queues: map<nat, seq<Request>>, us: set<nat>)
      requires us <= queues.Keys
      ensures us == {} ==> InOrder(queues, us) == []
      ensures us != {} ==> InOrder(queues, us) == queues[Least(us)] + InOrder(queues, us - {Least(us)})
    {}

    static method FindLeast(us: set<nat>) returns (u: nat)
      requires us != {}
      ensures u == Least(us) && u in us
    {
      HasLeast(us);
      u :| u in us && forall v :: v in us ==> u <= v;
    }

    /** Takes the expired requests out of one queue, walking it from the front. */
    static method RemoveExpired(queue: seq<Request>, now: int) returns (kept: seq<Request>, expired: seq<Request>)
      ensures kept == Live(queue, now) && expired == Expired(queue, now)
    {
      kept, expired := queue, [];
      var k := 0;
      while k < |kept|
        invariant 0 <= k <= |kept|
        invariant kept[..k] + Live(kept[k..], now) == Live(queue, now)
        invariant expired + Expired(kept[k..], now) == Expired(queue, now)
        decreases |kept| - k
      {
        RemoveStep(kept, k, expired, now);
        hide Live, Expired, Request.HasExpired;
        if kept[k].HasExpired(now) {
          expired := expired + [kept[k]];
          kept := kept[..k] + kept[k + 1..];
        } else {
          k := k + 1;
        }
      }
    }

    static lemma RemoveStep(kept: seq<Request>, k: nat, expired: seq<Request>, now: int)
      requires k < |kept|
      ensures !kept[k].HasExpired(now) ==>
                && kept[..k + 1] + Live(kept[k + 1..], now) == kept[..k] + Live(kept[k..], now)
                && expired + Expired(kept[k + 1..], now) == expired + Expired(kept[k..], now)
      ensures kept[k].HasExpired(now) ==>
                var rest := kept[..k] + kept[k + 1..];
                && rest[..k] + Live(rest[k..], now) == kept[..k] + Live(kept[k..], now)
                && expired + [kept[k]] + Expired(rest[k..], now) == expired + Expired(kept[k..], now)
    {
      assert kept[k..][0] == kept[k] && kept[k..][1..] == kept[k + 1..];
      var rest := kept[..k] + kept[k + 1..];
      assert rest[..k] == kept[..k] && rest[k..] == kept[k + 1..];
    }

    /** CheckTimeouts */
    method CheckTimeouts(now: int)
      modifies this
      ensures Value() == Sweep(old(Value()), now)
    {
      SweptKeys(outstanding, now);
      var expired := TakeExpired(now);
      hide InOrder;
      RunTimedOut(expired);
    }

    /** The loop that takes the expired requests off the queues. */
    method TakeExpired(now: int) returns (expired: seq<Request>)
      modifies this`outstanding
      ensures outstanding == LiveQueues(old(outstanding), now)
      ensures ExpiredQueues(old(outstanding), now).Keys == old(outstanding).Keys
      ensures expired == InOrder(ExpiredQueues(old(outstanding), now), old(outstanding).Keys)
    {
      expired := [];
      var todo := outstanding.Keys;
      ghost var before := outstanding;
      SweptKeys(outstanding, now);
      hide Live, Expired, InOrder, ExpiredQueues, Least, IsLeast, LiveQueues, Swept;
      SweptStarts(before, now);
      while todo != {}
        invariant todo <= before.Keys && Swept(before, now, todo, outstanding, expired)
        decreases todo
      {
        var u := FindLeast(todo);
        SweptStep(before, now, todo, outstanding, expired, u);
        var gone := SweepOne(u, now);
        expired := expired + gone;
        todo := todo - {u};
      }
      SweptDone(before, now, outstanding, expired);
    }

    /** The queues of the universes in todo have yet to be swept. */
    static ghost predicate Swept(before: map<nat, seq<Request>>, now: int, todo: set<nat>,
                                 queues: map<nat, seq<Request>>, expired: seq<Request>)
      requires todo <= before.Keys
    {
      var late := ExpiredQueues(before, now);
      && queues.Keys == before.Keys == late.Keys
      && (forall u :: u in before ==> queues[u] == if u in todo then before[u] else Live(before[u], now))
      && expired + InOrder(late, todo) == InOrder(late, before.Keys)
    }

    static lemma SweptStep(before: map<nat, seq<Request>>, now: int, todo: set<nat>,
                           queues: map<nat, seq<Request>>, expired: seq<Request>, u: nat)
      requires todo <= before.Keys && Swept(before, now, todo, queues, expired) && todo != {} && u == Least(todo)
      ensures u in queues && u in before
      ensures Swept(before, now, todo - {u}, queues[u := Live(queues[u], now)], expired + Expired(queues[u], now))
    {
      var late := ExpiredQueues(before, now);
      assert late[u] == Expired(before[u], now);
      hide Live, Expired, InOrder, Least, IsLeast, ExpiredQueues;
      InOrderStep(late, todo);
      Reassociate(expired, late[u], InOrder(late, todo - {u}));
    }

    static lemma SweptStarts(before: map<nat, seq<Request>>, now: int)
      ensures Swept(before, now, before.Keys, before, [])
    {
      SweptKeys(before, now);
    }

    static lemma SweptDone(before: map<nat, seq<Request>>, now: int, queues: map<nat, seq<Request>>, expired: seq<Request>)
      requires Swept(before, now, {}, queues, expired)
      ensures queues == LiveQueues(before, now)
      ensures ExpiredQueues(before, now).Keys == before.Keys
      ensures expired == InOrder(ExpiredQueues(before, now), before.Keys)
    {
      InOrderStep(ExpiredQueues(before, now), {});
    }

    method SweepOne(u: nat, now: int) returns (gone: seq<Request>)
      requires u in outstanding
      modifies this`outstanding
      ensures outstanding == old(outstanding)[u := Live(old(outstanding)[u], now)]
      ensures gone == Expired(old(outstanding)[u], now)
    {
      var kept;
      kept, gone := RemoveExpired(outstanding[u], now);
      outstanding := outstanding[u := kept];
    }

    static lemma TimeOutJoins(p: seq<Request>, q: seq<Request>)
      ensures TimeOut(p + q) == TimeOut(p) + TimeOut(q) && TimeOut([]) == []
    {}

    static lemma Reassociate<T>(a: seq<T>, b: seq<T>, c: seq<T>)
      ensures a + (b + c) == (a + b) + c
    {}

    method RunTimedOut(requests: seq<Request>)
      modifies this`log
      ensures log == old(log) + TimeOut(requests)
    {
      for i := 0 to |requests|
        invariant log == old(log) + TimeOut(requests[..i])
      {
        RunCallback(requests[i].id, TimedOut);
        assert TimeOut(requests[..i + 1]) == TimeOut(requests[..i]) + [Completion(requests[i].id, TimedOut)];
      }
      assert requests[..|requests|] == requests;
    }

    /** The destructor */
    method TearDown()
      modifies this
      ensures Value() == Teardown(old(Value()))
    {
      inputPorts := {};
      var todo := outstanding.Keys;
      ghost var all := InOrder(outstanding, todo);
      ghost var done: seq<Request> := [];
      hide InOrder, Least, IsLeast, TimeOut;
      InOrderStep(outstanding, {});
      TimeOutJoins([], []);
      while todo != {}
        invariant todo <= outstanding.Keys && outstanding == old(outstanding)
        invariant done + InOrder(outstanding, todo) == all
        invariant log == old(log) + TimeOut(done)
        invariant inputPorts == {} && accepted == old(accepted) && broken == old(broken)
        decreases todo
      {
        InOrderStep(outstanding, todo);
        var u := FindLeast(todo);
        RunTimedOut(outstanding[u]);
        Reassociate(done, outstanding[u], InOrder(outstanding, todo - {u}));
        TimeOutJoins(done, outstanding[u]);
        done := done + outstanding[u];
        todo := todo - {u};
      }
      outstanding, transactionNumbers, issued := map[], map[], map[];
    }

    method HandleEvent(e: Event)
      modifies this
      ensures Value() == Step(old(Value()), e)
    {
      hide Send, Respond, Sweep, Teardown, Handed;
      match e {
        case Issue(o, patchOk, known, answers) =>
          var _ := SendRDMRequest(o, patchOk, Handed(o.universe in inputPorts || patchOk, o, known, answers));
        case Reply(universe, response) =>
          var _ := HandleRDMResponse(universe, response);
        case Check(now) => CheckTimeouts(now);
        case Destroy => TearDown();
      }
    }

    /** Whatever happens to a new controller, nothing undefined does, and the account is kept. */
    method HandleEvents(es: seq<Event>)
      requires Value() == Start()
      modifies this
      ensures Value() == After(es) && Conserved(Value())
    {
      hide Step, Conserved, Start;
      assert es[..0] == [];
      for i := 0 to |es|
        invariant Value() == After(es[..i])
      {
        assert es[..i + 1][..i] == es[..i];
        HandleEvent(es[i]);
      }
      assert es[..|es|] == es;
      RunConserves(es);
    }
  }
}
