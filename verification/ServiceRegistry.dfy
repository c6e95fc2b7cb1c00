/** core/service.c: the registry of services, a list searched on every dispatch, proved to be the map
    from service id to handlers that ApduSpec dispatches through. */
module ServiceRegistry {
  import opened Words
  import opened SessionSpec
  import opened Pdus
  import opened ApduSpec
  import opened IntrusiveList

  /** What struct service_type holds besides its list node; handlers is None without a request handler. */
  datatype ServiceInfo = ServiceInfo(id: int, handlers: Option<Service>)

  /** A struct service_type, found from its embedded list node. */
  type ServiceType = ListHead<ServiceInfo>

  ghost predicate Registrable(types: seq<ServiceType>) {
    && (forall i | 0 <= i < |types| :: types[i].owner.handlers.Some?)
    && (forall i, j | 0 <= i < j < |types| :: types[i].owner.id != types[j].owner.id)
  }

  /** The map a list of registered services stands for. */
  ghost function ServicesOf(types: seq<ServiceType>): (m: Services)
    requires Registrable(types)
  {
    if types == [] then map[]
    else ServicesOf(types[1..])[types[0].owner.id := types[0].owner.handlers.value]
  }

  /** Membership in the map is membership in the list. */
  lemma {:induction false} ServicesOfFinds(types: seq<ServiceType>, id: int)
    requires Registrable(types)
    ensures id in ServicesOf(types) <==> exists i :: 0 <= i < |types| && types[i].owner.id == id
    ensures forall i | 0 <= i < |types| && types[i].owner.id == id ::
      id in ServicesOf(types) && ServicesOf(types)[id] == types[i].owner.handlers.value
  {
    if types != [] {
      var rest := types[1..];
      ServicesOfFinds(rest, id);
      if id in ServicesOf(types) && types[0].owner.id != id {
        var j :| 0 <= j < |rest| && rest[j].owner.id == id;
        assert types[j + 1].owner.id == id;
      }
      forall i | 0 <= i < |types| && types[i].owner.id == id
        ensures id in ServicesOf(types) && ServicesOf(types)[id] == types[i].owner.handlers.value
      {
        assert i > 0 ==> rest[i - 1] == types[i];
      }
    }
  }

  /** Two orders of registration give the same map: lookup does not depend on insertion order. */
  lemma OrderIrrelevant(a: seq<ServiceType>, b: seq<ServiceType>)
    requires Registrable(a) && Registrable(b)
    requires forall t :: t in a <==> t in b
    ensures ServicesOf(a) == ServicesOf(b)
  {
    forall id: int
      ensures id in ServicesOf(a) <==> id in ServicesOf(b)
      ensures id in ServicesOf(a) && id in ServicesOf(b) ==> ServicesOf(a)[id] == ServicesOf(b)[id]
    {
      ServicesOfFinds(a, id);
      ServicesOfFinds(b, id);
      if id in ServicesOf(a) {
        var i :| 0 <= i < |a| && a[i].owner.id == id;
        assert a[i] in b;
      }
      if id in ServicesOf(b) {
        var j :| 0 <= j < |b| && b[j].owner.id == id;
        assert b[j] in a;
      }
    }
  }

  lemma RemovedRegistrable(types: seq<ServiceType>, k: nat)
    requires Registrable(types) && k < |types|
    ensures Registrable(Removed(types, k))
    ensures k > 0 ==> Removed(types, k) == [types[0]] + Removed(types[1..], k - 1)
    ensures k == 0 ==> Removed(types, k) == types[1..]
  {
    var r := Removed(types, k);
    assert forall i | 0 <= i < |r| :: r[i] == if i < k then types[i] else types[i + 1];
  }

  lemma {:induction false} RemovedServices(types: seq<ServiceType>, k: nat)
    requires Registrable(types) && k < |types|
    ensures Registrable(Removed(types, k))
    ensures ServicesOf(Removed(types, k)) == ServicesOf(types) - {types[k].owner.id}
  {
    var rest := types[1..];
    RemovedRegistrable(types, k);
    if k == 0 {
      ServicesOfFinds(rest, types[0].owner.id);
    } else {
      RemovedServices(rest, k - 1);
      var r := Removed(types, k);
      assert r[0] == types[0] && r[1..] == Removed(rest, k - 1) && rest[k - 1] == types[k];
    }
  }

  // ----- scripts of registrations

  datatype Op = Registers(t: ListHead?<ServiceInfo>) | Unregisters(t: ListHead?<ServiceInfo>)

  /** service_type_register's result on a map. */
  function RegisterResult(services: Services, t: ListHead?<ServiceInfo>): int {
    if t == null || t.owner.handlers.None? then -EINVAL
    else if t.owner.id in services then -EEXIST
    else 0
  }

  function MapAfter(services: Services, op: Op): Services {
    match op
    case Registers(t) =>
      if RegisterResult(services, t) == 0 then services[t.owner.id := t.owner.handlers.value] else services
    case Unregisters(t) => if t == null then services else services - {t.owner.id}
  }

  /** The replies of a script: 0 for an unregistration, which returns nothing. */
  function MapRun(services: Services, ops: seq<Op>): (Services, seq<int>)
    decreases |ops|
  {
    if ops == [] then (services, [])
    else
      var (final, results) := MapRun(MapAfter(services, ops[0]), ops[1..]);
      (final, [if ops[0].Registers? then RegisterResult(services, ops[0].t) else 0] + results)
  }

  ghost predicate HasHandler(t: ListHead?<ServiceInfo>) {
    t != null && t.owner.handlers.Some?
  }

  /** Call by call: a registration succeeds exactly when it has a request handler and its id is not bound by
      then, which binds it; an unregistration unbinds; and nothing else changes. */
  lemma {:induction false} MapRunAt(services: Services, ops: seq<Op>, i: nat)
    requires i < |ops|
    ensures |MapRun(services, ops).1| == |ops|
    ensures var before, after, ret := MapRun(services, ops[..i]).0, MapRun(services, ops[..i + 1]).0,
                                      MapRun(services, ops).1[i];
      match ops[i]
      case Registers(t) =>
        && (ret == -EINVAL <==> !HasHandler(t))
        && (ret == -EEXIST <==> HasHandler(t) && t.owner.id in before)
        && (ret == 0 <==> HasHandler(t) && t.owner.id !in before)
        && after == if ret == 0 then before[t.owner.id := t.owner.handlers.value] else before
      case Unregisters(t) => ret == 0 && after == if t == null then before else before - {t.owner.id}
    decreases i
  {
    var next := MapAfter(services, ops[0]);
    MapRunLength(next, ops[1..]);
    if i == 0 {
      assert ops[..0] == [] && ops[..1] == [ops[0]] && ops[..1][1..] == [];
    } else {
      assert ops[..i][1..] == ops[1..][..i - 1] && ops[..i + 1][1..] == ops[1..][..i];
      MapRunAt(next, ops[1..], i - 1);
    }
  }

  lemma {:induction false} MapRunLength(services: Services, ops: seq<Op>)
    ensures |MapRun(services, ops).1| == |ops|
    decreases |ops|
  {
    if ops != [] {
      MapRunLength(MapAfter(services, ops[0]), ops[1..]);
    }
  }

  ghost function TypesAfter(types: seq<ServiceType>, op: Op): (types': seq<ServiceType>)
    requires Registrable(types)
    requires op.Unregisters? && op.t != null ==> op.t in types
    ensures Registrable(types') && ServicesOf(types') == MapAfter(ServicesOf(types), op)
  {
    match op
    case Registers(t) =>
      if RegisterResult(ServicesOf(types), t) == 0 then
        ServicesOfFinds(types, t.owner.id);
        assert ([t] + types)[1..] == types;
        [t] + types
      else types
    case Unregisters(t) =>
      if t == null then types
      else
        RemovedServices(types, IntrusiveList.IndexOf(types, t));
        Removed(types, IntrusiveList.IndexOf(types, t))
  }

  /** Only registered services are unregistered, and the list's own head is never registered. */
  ghost predicate AllRegistered(head: ServiceType, types: seq<ServiceType>, ops: seq<Op>)
    requires Registrable(types)
    decreases |ops|
  {
    ops == []
    || (&& ops[0].t != head
        && (ops[0].Unregisters? && ops[0].t != null ==> ops[0].t in types)
        && AllRegistered(head, TypesAfter(types, ops[0]), ops[1..]))
  }

  class Registry {
    const head: ServiceType
    ghost var types: seq<ServiceType>

    ghost predicate Valid()
      reads this, head, types
    {
      List(head, types) && Registrable(types)
    }

    /** The registered services by id. */
    ghost function Services(): Services
      requires Valid()
      reads this, head, types
    {
      ServicesOf(types)
    }

    constructor ()
      ensures Valid() && Services() == map[]
    {
      var h := new ListHead(ServiceInfo(0, None));
      Init(h);
      head := h;
      types := [];
    }

    /** service_type_get */
    method Get(id: int) returns (t: ListHead?<ServiceInfo>)
      requires Valid()
      ensures t == null <==> id !in Services()
      ensures t != null ==> t in types && t.owner.id == id && t.owner.handlers == Some(Services()[id])
    {
      ServicesOfFinds(types, id);
      ghost var i := 0;
      CursorAdvances(head, types, 0);
      var pos := head.next;
      while pos != head
        invariant i <= |types| && pos == CursorAt(head, types, i)
        invariant forall j | 0 <= j < i :: types[j].owner.id != id
        decreases |types| - i
      {
        CursorAdvances(head, types, i);
        if pos.owner.id == id {
          return pos;
        }
        pos := pos.next;
        i := i + 1;
      }
      CursorAdvances(head, types, i);
      t := null;
    }

    /** service_type_register */
    method Register(t: ListHead?<ServiceInfo>) returns (ret: int)
      requires Valid() && t != head
      modifies this, head, types, if t == null then {} else {t}
      ensures Valid() && ret == RegisterResult(old(Services()), t)
      ensures types == TypesAfter(old(types), Registers(t))
      ensures ret == -EEXIST <==> t != null && t.owner.handlers.Some? && t.owner.id in old(Services())
      ensures ret == 0 <==> t != null && t.owner.handlers.Some? && t.owner.id !in old(Services())
      ensures ret == -EINVAL <==> t == null || t.owner.handlers.None?
      ensures ret == 0 ==>
        types == [t] + old(types) && Services() == old(Services())[t.owner.id := t.owner.handlers.value]
      ensures ret != 0 ==> types == old(types)
    {
      if t == null || t.owner.handlers.None? {
        return -EINVAL;
      }
      var tmp := Get(t.owner.id);
      if tmp != null {
        return -EEXIST;
      }
      ServicesOfFinds(types, t.owner.id);
      IntrusiveList.Add(t, head, types);
      types := [t] + types;
      ret := 0;
    }

    /** service_type_unregister */
    method Unregister(t: ListHead?<ServiceInfo>)
      requires Valid() && (t == null || t in types)
      modifies this, head, types
      ensures Valid() && types == TypesAfter(old(types), Unregisters(t))
      ensures t == null ==> types == old(types)
      ensures t != null ==> t !in types && Services() == old(Services()) - {t.owner.id}
    {
      if t != null {
        ghost var k := IntrusiveList.IndexOf(types, t);
        RemovedServices(types, k);
        Del(t, head, types, k);
        types := Removed(types, k);
      }
    }

    /** Any script of registrations and unregistrations does what it would do to a map from ids to
        handlers: the same results, call by call, and the same services in the end. */
    method Run(ops: seq<Op>) returns (results: seq<int>)
      requires Valid() && AllRegistered(head, types, ops)
      modifies this, head, types, set op | op in ops && op.t != null :: op.t
      ensures Valid() && (Services(), results) == MapRun(old(Services()), ops)
      decreases |ops|
    {
      if ops == [] {
        return [];
      }
      var op, ret := ops[0], 0;
      assert op in ops;
      match op {
        case Registers(t) => ret := Register(t);
        case Unregisters(t) => Unregister(t);
      }
      var rest := Run(ops[1..]);
      results := [ret] + rest;
    }

    /** service_handler */
    method HandleRequest(src: Addr, id: byte, data: seq<byte>) returns (answer: Answer)
      requires Valid()
      ensures answer == Serve(Services(), src, id, data)
      ensures data == [] ==> answer == Answer(-EINVAL, [])
      ensures data != [] && id !in Services() ==> answer == Answer(-ENOENT, [])
      ensures data != [] && id in Services() ==> answer == Services()[id].request(src, data)
    {
      if |data| == 0 {
        return Answer(-EINVAL, []);
      }
      var t := Get(id);
      if t == null {
        return Answer(-ENOENT, []);
      }
      answer := t.owner.handlers.value.request(src, data);
    }

    /** service_rsp_handler: the calls it makes. */
    method HandleResponse(src: Addr, slots: Table, p: Pdu) returns (calls: seq<Callback>)
      requires Valid()
      ensures calls == ResponseCalls(Services(), slots, src, p)
      ensures calls == [] <==> p.payload == [] || p.service !in Services() || !Services()[p.service].onResponse
      ensures calls != [] ==> calls == [OnResponse(src, p.service, Lookup(slots, p.session), p.payload)]
    {
      calls := [];
      if p.payload != [] {
        var t := Get(p.service);
        if t != null && t.owner.handlers.value.onResponse {
          calls := [OnResponse(src, p.service, Lookup(slots, p.session), p.payload)];
        }
      }
    }

    /** service_error_handler */
    method HandleError(src: Addr, slots: Table, p: Pdu) returns (calls: seq<Callback>)
      requires Valid() && p.payload != []
      ensures calls == ErrorCalls(Services(), slots, src, p)
      ensures calls == [] <==> p.service !in Services() || !Services()[p.service].onError
      ensures calls != [] ==> calls == [OnError(src, p.service, p.payload[0], Lookup(slots, p.session))]
    {
      calls := [];
      var t := Get(p.service);
      if t != null && t.owner.handlers.value.onError {
        calls := [OnError(src, p.service, p.payload[0], Lookup(slots, p.session))];
      }
    }

    /** service_timeout_handler, called for an expired session. */
    method HandleTimeout(e: Event) returns (calls: seq<Callback>)
      requires Valid() && (e.Expired? && e.notify ==> |e.pdu| >= 4)
      ensures calls == TimeoutCalls(Services(), e)
      ensures calls == [] <==>
        !e.Expired? || !e.notify || e.pdu[2] !in Services() || !Services()[e.pdu[2]].onTimeout
      ensures calls != [] ==> calls == [OnTimeout(e.dest, e.pdu[2], e.pdu[4..])]
    {
      calls := [];
      if e.Expired? && e.notify {
        var t := Get(e.pdu[2]);
        if t != null && t.owner.handlers.value.onTimeout {
          calls := [OnTimeout(e.dest, e.pdu[2], e.pdu[4..])];
        }
      }
    }
  }
}
