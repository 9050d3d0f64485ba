/** The device manager's two maps, and the aliases it hands out, as a value. */
module DeviceRegistry {
  import opened Base

  const MISSING_DEVICE_ALIAS := 0
  const FIRST_DEVICE_ALIAS := 1
  const ALIASES := 0x1_0000_0000   // an alias is an unsigned int

  /** No device stands for the null pointer of a device that has been unregistered. */
  datatype Entry<D> = Entry(alias: nat, device: Option<D>)

  datatype Registry<D> = Registry(devices: map<string, Entry<D>>, aliases: map<nat, D>, next: nat)

  function Fresh<D>(): Registry<D> { Registry(map[], map[], FIRST_DEVICE_ALIAS) }

  predicate CanRegister<D>(r: Registry<D>, id: string) {
    id != "" && (id in r.devices ==> r.devices[id].device.None?)
  }

  function Wrapped(alias: nat): (r: nat)
    ensures alias < ALIASES ==> r == alias
  {
    alias % ALIASES
  }

  function Registered<D>(r: Registry<D>, id: string, d: D): Registry<D> {
    if !CanRegister(r, id) then r
    else if id in r.devices then
      var alias := r.devices[id].alias;
      r.(devices := r.devices[id := Entry(alias, Some(d))], aliases := r.aliases[alias := d])
    else
      Registry(r.devices[id := Entry(r.next, Some(d))], r.aliases[r.next := d], Wrapped(r.next + 1))
  }

  predicate CanUnregister<D>(r: Registry<D>, id: string) {
    id in r.devices && r.devices[id].device.Some?
  }

  function Unregistered<D>(r: Registry<D>, id: string): Registry<D> {
    if !CanUnregister(r, id) then r
    else
      var alias := r.devices[id].alias;
      r.(devices := r.devices[id := Entry(alias, None)], aliases := r.aliases - {alias})
  }

  function Emptied<D>(r: Registry<D>): Registry<D> {
    r.(devices := map id | id in r.devices :: Entry(r.devices[id].alias, None), aliases := map[])
  }

  /** GetDevice by alias */
  function ByAlias<D>(r: Registry<D>, alias: nat): Option<D> {
    if alias in r.aliases then Some(r.aliases[alias]) else None
  }

  /** GetDevice by id */
  function ById<D>(r: Registry<D>, id: string): Entry<D> {
    if CanUnregister(r, id) then r.devices[id] else Entry(MISSING_DEVICE_ALIAS, None)
  }

  // ----- The order of ids in the device map

  /** Strings as std::string compares them. */
  predicate Before(a: string, b: string)
    decreases |a|
  {
    b != "" && (a == "" || a[0] < b[0] || (a[0] == b[0] && Before(a[1..], b[1..])))
  }

  lemma {:induction false} BeforeIsTotal(a: string, b: string)
    ensures Before(a, b) || Before(b, a) || a == b
    ensures !(Before(a, b) && Before(b, a)) && !Before(a, a)
    decreases |a|
  {
    if a != "" && b != "" {
      BeforeIsTotal(a[1..], b[1..]);
      BeforeIsTotal(a[1..], a[1..]);
      assert a == [a[0]] + a[1..] && b == [b[0]] + b[1..];
    } else if a != "" {
      BeforeIsTotal(a[1..], a[1..]);
    }
  }

  lemma {:induction false} BeforeIsTransitive(a: string, b: string, c: string)
    requires Before(a, b) && Before(b, c)
    ensures Before(a, c)
    decreases |a|
  {
    if a != "" && a[0] == b[0] && b[0] == c[0] {
      BeforeIsTransitive(a[1..], b[1..], c[1..]);
    }
  }

  ghost predicate First(id: string, ids: set<string>) {
    id in ids && forall other :: other in ids && other != id ==> Before(id, other)
  }

  lemma {:induction false} SomeIdIsFirst(ids: set<string>)
    requires ids != {}
    ensures exists id :: First(id, ids)
    decreases |ids|
  {
    var id :| id in ids;
    var rest := ids - {id};
    if rest == {} {
      assert ids == {id};
      assert First(id, ids);
    } else {
      SomeIdIsFirst(rest);
      var first :| First(first, rest);
      BeforeIsTotal(id, first);
      var least := if Before(id, first) then id else first;
      forall other | other in ids && other != least ensures Before(least, other) {
        if least == id && other != first { BeforeIsTransitive(id, first, other); }
      }
      assert First(least, ids);
    }
  }

  datatype Event<D> = Register(id: string, device: D) | Unregister(id: string) | UnregisterAll

  function Step<D>(r: Registry<D>, e: Event<D>): Registry<D> {
    match e
    case Register(id, d) => Registered(r, id, d)
    case Unregister(id) => Unregistered(r, id)
    case UnregisterAll => Emptied(r)
  }

  function Run<D>(r: Registry<D>, es: seq<Event<D>>): Registry<D>
    decreases |es|
  {
    if es == [] then r else Run(Step(r, es[0]), es[1..])
  }

  /** The ids that a run may register. */
  function Ids<D>(es: seq<Event<D>>): set<string> {
    set i | 0 <= i < |es| && es[i].Register? :: es[i].id
  }

  /** Aliases count up from 1, one for each id. */
  ghost predicate Numbered<D>(r: Registry<D>) {
    && |r.devices| < ALIASES && r.next == Wrapped(|r.devices| + 1)
    && (forall id :: id in r.devices ==> id != "" && 1 <= r.devices[id].alias <= |r.devices|)
    && (forall a, b :: a in r.devices && b in r.devices && a != b ==> r.devices[a].alias != r.devices[b].alias)
  }

  /** The alias map is the device map seen from the other side. */
  ghost predicate InStep<D>(r: Registry<D>) {
    && (forall alias :: alias in r.aliases ==> Held(r, alias))
    && (forall id :: id in r.devices && r.devices[id].device.Some? ==>
          r.devices[id].alias in r.aliases && r.aliases[r.devices[id].alias] == r.devices[id].device.value)
  }

  ghost predicate Held<D>(r: Registry<D>, alias: nat)
    requires alias in r.aliases
  {
    exists id :: id in r.devices && r.devices[id] == Entry(alias, Some(r.aliases[alias]))
  }

  ghost predicate Consistent<D>(r: Registry<D>) {
    Numbered(r) && InStep(r)
  }

  lemma SameSize<D>(a: map<string, Entry<D>>, b: map<string, Entry<D>>)
    requires a.Keys == b.Keys
    ensures |a| == |b|
  {
    assert |a| == |a.Keys| && |b| == |b.Keys|;
  }

  lemma SameNumbers<D>(r: Registry<D>, s: Registry<D>)
    requires Numbered(r) && s.next == r.next && s.devices.Keys == r.devices.Keys
    requires forall id :: id in r.devices ==> s.devices[id].alias == r.devices[id].alias
    ensures Numbered(s)
  {
    SameSize(r.devices, s.devices);
  }

  /** One id is written with an alias that no other id has, and the alias map with it. */
  lemma WrittenInStep<D>(r: Registry<D>, id: string, alias: nat, d: D, next: nat)
    requires InStep(r) && forall other :: other in r.devices && other != id ==> r.devices[other].alias != alias
    requires id in r.devices ==> r.devices[id].device.None?
    ensures InStep(Registry(r.devices[id := Entry(alias, Some(d))], r.aliases[alias := d], next))
  {
    var s := Registry(r.devices[id := Entry(alias, Some(d))], r.aliases[alias := d], next);
    assert s.devices[id] == Entry(alias, Some(s.aliases[alias]));
    forall a | a in s.aliases && a != alias ensures Held(s, a) {
      var other :| other in r.devices && r.devices[other] == Entry(a, Some(r.aliases[a]));
      assert s.devices[other] == r.devices[other];
    }
  }

  lemma NewNumbered<D>(r: Registry<D>, id: string, d: D)
    requires Numbered(r) && id != "" && id !in r.devices && |r.devices| + 1 < ALIASES
    ensures r.next == |r.devices| + 1 && Numbered(Registered(r, id, d))
  {
    hide Wrapped;
    OneMoreDevice(r.devices, id, Entry(r.next, Some(d)));
    assert r.next == |r.devices| + 1;
  }

  lemma OneMoreDevice<D>(devices: map<string, Entry<D>>, id: string, e: Entry<D>)
    requires id !in devices
    ensures |devices[id := e]| == |devices| + 1
  {
    assert devices[id := e].Keys == devices.Keys + {id};
    OneMore(devices.Keys, id);
  }

  lemma AgainNumbered<D>(r: Registry<D>, id: string, d: D)
    requires Numbered(r) && CanRegister(r, id) && id in r.devices
    ensures Numbered(Registered(r, id, d))
  {
    hide Numbered;
    SameNumbers(r, Registered(r, id, d));
  }

  lemma OneMore(keys: set<string>, id: string)
    ensures |keys + {id}| == |keys| + if id in keys then 0 else 1
  {
    if id in keys { assert keys + {id} == keys; }
  }

  lemma NewInStep<D>(r: Registry<D>, id: string, d: D)
    requires Consistent(r) && id != "" && id !in r.devices && |r.devices| + 1 < ALIASES
    ensures InStep(Registered(r, id, d))
  {
    WrittenInStep(r, id, r.next, d, Wrapped(r.next + 1));
    hide InStep;
  }

  lemma AgainInStep<D>(r: Registry<D>, id: string, d: D)
    requires Consistent(r) && CanRegister(r, id) && id in r.devices
    ensures InStep(Registered(r, id, d))
  {
    WrittenInStep(r, id, r.devices[id].alias, d, r.next);
    hide InStep;
  }

  lemma RegisteredConsistent<D>(r: Registry<D>, id: string, d: D)
    requires Consistent(r) && |r.devices.Keys + {id}| < ALIASES
    ensures Consistent(Registered(r, id, d))
  {
    if !CanRegister(r, id) {
      assert Registered(r, id, d) == r;
      return;
    }
    hide InStep, Numbered, Registered;
    if id in r.devices {
      AgainNumbered(r, id, d);
      AgainInStep(r, id, d);
    } else {
      OneMore(r.devices.Keys, id);
      assert |r.devices.Keys| == |r.devices|;
      NewNumbered(r, id, d);
      NewInStep(r, id, d);
    }
  }

  lemma UnregisteredInStep<D>(r: Registry<D>, id: string)
    requires Consistent(r) && CanUnregister(r, id)
    ensures InStep(Unregistered(r, id))
  {
    var s := Unregistered(r, id);
    forall alias | alias in s.aliases ensures Held(s, alias) {
      var other :| other in r.devices && r.devices[other] == Entry(alias, Some(r.aliases[alias]));
      assert s.devices[other] == r.devices[other];
    }
    hide Held;
  }

  lemma UnregisteredConsistent<D>(r: Registry<D>, id: string)
    requires Consistent(r)
    ensures Consistent(Unregistered(r, id))
  {
    if CanUnregister(r, id) {
      UnregisteredInStep(r, id);
      hide InStep, Numbered;
      SameNumbers(r, Unregistered(r, id));
    }
  }

  lemma EmptiedConsistent<D>(r: Registry<D>)
    requires Consistent(r)
    ensures Consistent(Emptied(r))
  {
    hide Numbered;
    SameNumbers(r, Emptied(r));
  }

  lemma OneEventsIds<D>(e: Event<D>)
    ensures Ids([e]) == if e.Register? then {e.id} else {}
  {
    assert e.Register? ==> [e][0].id in Ids([e]);
  }

  lemma StepKeys<D>(r: Registry<D>, e: Event<D>)
    ensures Step(r, e).devices.Keys <= r.devices.Keys + Ids([e])
  {
    OneEventsIds(e);
  }

  lemma StepConsistent<D>(r: Registry<D>, e: Event<D>)
    requires Consistent(r) && |r.devices.Keys + Ids([e])| < ALIASES
    ensures Consistent(Step(r, e))
  {
    hide Consistent, Registered, Unregistered, Emptied;
    match e
    case Register(id, d) =>
      OneEventsIds(e);
      RegisteredConsistent(r, id, d);
    case Unregister(id) => UnregisteredConsistent(r, id);
    case UnregisterAll => EmptiedConsistent(r);
  }

  /** The maps stay in step over any run, as long as the ids it registers do not use up the aliases. */
  lemma {:induction false} RunConsistent<D>(r: Registry<D>, es: seq<Event<D>>)
    requires Consistent(r) && |r.devices.Keys + Ids(es)| < ALIASES
    ensures Consistent(Run(r, es))
    decreases |es|
  {
    if es != [] {
      var s := Step(r, es[0]);
      IdsSplit(es);
      SmallerSet(r.devices.Keys + Ids([es[0]]), r.devices.Keys + Ids(es));
      StepConsistent(r, es[0]);
      StepKeys(r, es[0]);
      SmallerSet(s.devices.Keys + Ids(es[1..]), r.devices.Keys + Ids(es));
      hide Consistent, Step, Ids;
      RunConsistent(s, es[1..]);
    }
  }

  lemma IdsSplit<D>(es: seq<Event<D>>)
    requires es != []
    ensures Ids(es) == Ids([es[0]]) + Ids(es[1..])
  {
    forall id | id in Ids(es) ensures id in Ids([es[0]]) + Ids(es[1..]) {
      var i :| 0 <= i < |es| && es[i].Register? && es[i].id == id;
      if i > 0 { assert es[1..][i - 1] == es[i]; } else { assert [es[0]][0] == es[i]; }
    }
    forall id | id in Ids(es[1..]) ensures id in Ids(es) {
      var i :| 0 <= i < |es[1..]| && es[1..][i].Register? && es[1..][i].id == id;
      assert es[i + 1] == es[1..][i];
    }
    forall id | id in Ids([es[0]]) ensures id in Ids(es) {
      assert es[0].Register? && es[0].id == id;
    }
  }

  lemma FreshConsistent<D>()
    ensures Consistent(Fresh<D>())
  {
    assert Fresh<D>().devices.Keys == {};
  }

  /** Every state a device manager can get into, from its construction on, is consistent. */
  lemma ReachableIsConsistent<D>(es: seq<Event<D>>)
    requires |Ids(es)| < ALIASES
    ensures Consistent(Run(Fresh(), es))
  {
    FreshConsistent<D>();
    assert Fresh<D>().devices.Keys + Ids(es) == Ids(es);
    RunConsistent(Fresh(), es);
  }

  /** In step, the two lookups agree: an alias finds a device exactly when some id finds both. */
  lemma LookupsAgree<D>(r: Registry<D>, alias: nat, d: D)
    requires Consistent(r)
    ensures ByAlias(r, alias) == Some(d) <==> exists id :: ById(r, id) == Entry(alias, Some(d))
  {
    if ByAlias(r, alias) == Some(d) {
      var id :| id in r.devices && r.devices[id] == Entry(alias, Some(r.aliases[alias]));
      assert ById(r, id) == Entry(alias, Some(d));
    }
  }

  // ----- What registering and unregistering do to the lookups

  /** A device that is unregistered is gone under both names and can come back; no other is touched. */
  lemma UnregisteredIsGone<D>(r: Registry<D>, id: string)
    requires Consistent(r) && CanUnregister(r, id)
    ensures
      var u, alias := Unregistered(r, id), ById(r, id).alias;
      && ById(u, id) == Entry(0, None) && ByAlias(u, alias) == None
      && CanRegister(u, id) && !CanUnregister(u, id)
      && (forall other :: other != id ==> ById(u, other) == ById(r, other))
      && (forall a :: a != alias ==> ByAlias(u, a) == ByAlias(r, a))
  {}

  /** Nothing is left under either name, and every id can come back. */
  lemma EmptiedIsGone<D>(r: Registry<D>)
    requires forall id :: id in r.devices ==> id != ""
    ensures forall id :: ById(Emptied(r), id) == Entry(0, None) && (CanRegister(Emptied(r), id) <==> id != "")
    ensures forall a :: ByAlias(Emptied(r), a) == None
  {}

  /** A device is registered if its id is not empty and nobody has it; it is then found under both names. */
  lemma RegisteredIsFound<D>(r: Registry<D>, id: string, d: D)
    ensures CanRegister(r, id) <==> id != "" && ById(r, id).device.None?
    ensures
      var u := Registered(r, id, d);
      if CanRegister(r, id) then
        && ById(u, id).device == Some(d) && ByAlias(u, ById(u, id).alias) == Some(d)
        && (forall other :: other != id ==> ById(u, other) == ById(r, other))
        && (forall a :: a != ById(u, id).alias ==> ByAlias(u, a) == ByAlias(r, a))
      else u == r
  {}

  /** The device of the last register of an id that found it free and has not been undone since. */
  ghost function Present<D>(es: seq<Event<D>>, id: string): Option<D>
    decreases |es|
  {
    if es == [] then None
    else
      var e, before := es[|es| - 1], Present(es[..|es| - 1], id);
      match e
      case Register(other, d) => if other == id && id != "" && before.None? then Some(d) else before
      case Unregister(other) => if other == id then None else before
      case UnregisterAll => None
  }

  lemma {:induction false} RunSnoc<D>(r: Registry<D>, es: seq<Event<D>>, e: Event<D>)
    ensures Run(r, es + [e]) == Step(Run(r, es), e)
    decreases |es|
  {
    hide Step;
    if es == [] {
      assert ([] + [e])[1..] == [];
      assert Run(Step(r, e), []) == Step(r, e);
    } else {
      assert (es + [e])[1..] == es[1..] + [e];
      RunSnoc(Step(r, es[0]), es[1..], e);
    }
  }

  lemma StepPresent<D>(r: Registry<D>, e: Event<D>, id: string)
    ensures
      ById(Step(r, e), id).device ==
        match e
        case Register(other, d) =>
          if other == id && id != "" && ById(r, id).device.None? then Some(d) else ById(r, id).device
        case Unregister(other) => if other == id then None else ById(r, id).device
        case UnregisterAll => None
  {}

  /** Over any run, an id finds exactly the device that has been registered last and not undone since. */
  lemma {:induction false} FindsWhatIsPresent<D>(es: seq<Event<D>>, id: string)
    ensures ById(Run(Fresh(), es), id).device == Present(es, id)
    decreases |es|
  {
    if es != [] {
      var n := |es| - 1;
      FindsWhatIsPresent(es[..n], id);
      assert es == es[..n] + [es[n]];
      RunSnoc(Fresh(), es[..n], es[n]);
      hide Step, ById, Run;
      StepPresent(Run(Fresh(), es[..n]), es[n], id);
    } else {
      assert Run(Fresh<D>(), []) == Fresh<D>();
    }
  }

  /** An id has its alias for good. */
  lemma {:induction false} AliasIsForLife<D>(r: Registry<D>, es: seq<Event<D>>, id: string)
    requires id in r.devices
    ensures id in Run(r, es).devices && Run(r, es).devices[id].alias == r.devices[id].alias
    decreases |es|
  {
    if es != [] {
      AliasIsForLife(Step(r, es[0]), es[1..], id);
    }
  }

  /** Registering once more, whatever happened in between, gives back the alias of the first time. */
  lemma SameAliasAgain<D>(r: Registry<D>, id: string, d: D, es: seq<Event<D>>, again: D)
    requires CanRegister(r, id)
    ensures
      var first := Registered(r, id, d);
      var later := Registered(Run(first, es), id, again);
      ById(later, id).alias == ById(first, id).alias && ById(later, id).device.Some?
  {
    var first := Registered(r, id, d);
    AliasIsForLife(first, es, id);
  }

  /** A new id gets an alias that is its own, and is an alias at all, until they run out. */
  lemma NewAliasIsItsOwnIff<D>(r: Registry<D>, id: string, d: D)
    requires Consistent(r) && id != "" && id !in r.devices
    ensures
      var alias := ById(Registered(r, id, d), id).alias;
      alias != MISSING_DEVICE_ALIAS && (forall other :: other in r.devices ==> r.devices[other].alias != alias)
      <==> |r.devices| + 1 < ALIASES
  {
    if |r.devices| + 1 == ALIASES {
      assert r.next == 0;
    }
  }
}
