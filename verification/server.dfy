/** The server-side registry (`easygrpc/server.py`): the add-functions
    found in a generated module, the user service classes, the routes that
    pair them, and the registration of every route on the transport
    server. The transport server and the service instances are opaque
    values; only which add-function is called with an instance of which
    service class is modelled. */
module Server {
  import opened Wrappers
  import opened Strings
  import opened Dicts
  import opened Registry

  /** `HANDLER_SEARCH_PATTERN` is `add_(?P<name>.*)Servicer_to_server`. */
  const HandlerPrefix: string := "add_"
  const HandlerSuffix: string := "Servicer_to_server"

  /** A Python object the server handles: its identity, whether
      `inspect.isfunction` holds of it, and its `__name__` if it has one. */
  datatype Obj = Obj(id: nat, isFunction: bool, name: Option<string>)

  /** The transport server: made once, listening on one address. */
  datatype Transport = Transport(id: nat, address: string, maxWorkers: int)

  /** `Namespace(service=..., add_function=...)`. */
  datatype Route = Route(service: Obj, addFunction: Obj)

  /** A `GRPCServer`: `_route`, `_services`, `_functions` and `_server`. */
  datatype ServerState = ServerState(
    route: Dict<string, Route>,
    services: Dict<string, Obj>,
    functions: Dict<string, Obj>,
    server: Option<Transport>)

  /** A name given by the caller passes the name filter: every name passes
      when none are given. */
  predicate Selected(names: seq<string>, n: string) {
    names == [] || n in names
  }

  // ---------------------------------------------------------------------
  // Add-functions of a generated module.

  /** The service name a module member stands for as an add-function: a
      function whose name matches the pattern with a non-empty capture. */
  function HandlerName(member: (string, Obj)): (r: Option<string>)
    ensures r.Some? ==> member.1.isFunction && StartsWith(member.0, HandlerPrefix) && r.value != []
    ensures r.Some? ==> OccursAt(member.0, HandlerSuffix, |HandlerPrefix| + |r.value|)
  {
    if member.1.isFunction then CaptureBefore(member.0, HandlerPrefix, HandlerSuffix) else None
  }

  /** The function generated for service `s`, `add_<s>Servicer_to_server`,
      stands for `s`. */
  lemma HandlerNameOfGenerated(s: string, f: Obj)
    requires s != [] && f.isFunction
    ensures HandlerName((HandlerPrefix + s + HandlerSuffix, f)) == Some(s)
  {
    var n := HandlerPrefix + s + HandlerSuffix;
    var p := |HandlerPrefix| + |s|;
    assert n[..|HandlerPrefix|] == HandlerPrefix;
    assert OccursAt(n, HandlerSuffix, p) by { assert n[p..p + |HandlerSuffix|] == HandlerSuffix; }
    var r := CaptureBefore(n, HandlerPrefix, HandlerSuffix);
    assert r.Some?;
    assert |HandlerPrefix| + |r.value| == p;
    assert n[|HandlerPrefix|..p] == s;
  }

  /** `parse_proto_file(module, pattern, *service_names)`: the add-functions
      of the module, under their service names, in member order. */
  function ParseProtoFile(members: seq<(string, Obj)>, names: seq<string>): (r: seq<(string, Obj)>)
    ensures |r| <= |members|
    ensures forall n, o :: (n, o) in r <==> exists i :: (0 <= i < |members| && members[i].1 == o
      && HandlerName(members[i]) == Some(n) && Selected(names, n))
  {
    if members == [] then []
    else
      var rest := ParseProtoFile(members[1..], names);
      assert forall i :: 1 <= i < |members| ==> members[i] == members[1..][i - 1];
      var h := HandlerName(members[0]);
      if h.Some? && Selected(names, h.value) then [(h.value, members[0].1)] + rest else rest
  }

  /** `_parse_proto_module(module, *service_names)`: every add-function
      found is entered into `_functions`; a name already there raises, with
      the earlier names of the pass left in. */
  function ParseProtoModule(st: ServerState, members: seq<(string, Obj)>, names: seq<string>): (r: Outcome<ServerState>)
    ensures r.state.route == st.route && r.state.services == st.services && r.state.server == st.server
    ensures !r.Raised() ==> r.state.functions.keys == st.functions.keys + Names(ParseProtoFile(members, names))
    ensures r.Raised() ==> r.error.value.DuplicateName?
  {
    var o := RegisterAll(st.functions, ParseProtoFile(members, names));
    Outcome(st.(functions := o.state), o.error)
  }

  /** The empty server. */
  const Empty: ServerState := ServerState(Dicts.Empty(), Dicts.Empty(), Dicts.Empty(), None)

  /** `GRPCServer(proto_py_module, ..., service_names)`: the module's
      add-functions, if a module is given. */
  function NewServer(protoModule: Option<seq<(string, Obj)>>, names: seq<string>): (r: Outcome<ServerState>)
    ensures r.state.route.keys == [] && r.state.services.keys == [] && r.state.server.None?
    ensures protoModule.None? ==> r == Outcome(Empty, None)
  {
    if protoModule.Some? then ParseProtoModule(Empty, protoModule.value, names) else Outcome(Empty, None)
  }

  /** A module whose add-functions carry distinct names registers every one
      of them, each under its own service name. */
  lemma ParseProtoModuleEnters(st: ServerState, members: seq<(string, Obj)>, names: seq<string>, i: nat)
    requires Fresh(st.functions, ParseProtoFile(members, names))
    requires i < |ParseProtoFile(members, names)|
    ensures !ParseProtoModule(st, members, names).Raised()
    ensures ParseProtoFile(members, names)[i].0 in ParseProtoModule(st, members, names).state.functions.items
    ensures ParseProtoModule(st, members, names).state.functions.items[ParseProtoFile(members, names)[i].0]
      == ParseProtoFile(members, names)[i].1
  {
    RegisterAllSucceeds(st.functions, ParseProtoFile(members, names));
    RegisterAllEnters(st.functions, ParseProtoFile(members, names), i);
  }

  // ---------------------------------------------------------------------
  // Routes.

  /** `proto_name or service.__name__`, with the two ways it can fail:
      neither name given, or an empty proto name for a nameless service. */
  function ServiceKey(service: Obj, protoName: Option<string>): (r: Result<string>)
    ensures protoName.None? && service.name.None? ==> r == Err(NoName)
    ensures protoName.Some? && protoName.value != [] ==> r == Ok(protoName.value)
    ensures r.Ok? ==> (protoName.Some? && protoName.value != [] && r.value == protoName.value) || service.name == Some(r.value)
    ensures r.Err? <==> service.name.None? && (protoName.None? || protoName.value == [])
  {
    if protoName.None? && service.name.None? then Err(NoName)
    else if protoName.Some? && protoName.value != [] then Ok(protoName.value)
    else if service.name.Some? then Ok(service.name.value)
    else Err(MissingAttribute("__name__"))
  }

  /** `add_service(service, proto_name, need_check)`. Every failure is
      raised before `_route` changes; on success only `_route[key]` is set,
      to the service and the key's add-function. */
  function AddService(st: ServerState, service: Obj, protoName: Option<string>, needCheck: bool): (r: Result<ServerState>)
    ensures ServiceKey(service, protoName).Err? ==> r == Err(ServiceKey(service, protoName).error)
    ensures ServiceKey(service, protoName).Ok? ==> var key := ServiceKey(service, protoName).value;
      && (needCheck && key in st.services.items ==> r == Err(DuplicateName(key)))
      && (r.Ok? <==> (!(needCheck && key in st.services.items) && key in st.functions.items))
      && (r.Ok? ==> r.value == st.(route := Put(st.route, key, Route(service, st.functions.items[key]))))
      && (r.Err? && !(needCheck && key in st.services.items) ==> r.error == NoAddFunction(key))
  {
    var key :- ServiceKey(service, protoName);
    if needCheck && key in st.services.items then Err(DuplicateName(key))
    else if key !in st.functions.items then Err(NoAddFunction(key))
    else Ok(st.(route := Put(st.route, key, Route(service, st.functions.items[key]))))
  }

  /** `add_service` never enters anything into `_services`, so the
      duplicate check never fires for names it added itself: adding the same
      service twice, checked, succeeds twice and leaves one route. */
  lemma AddServiceTwice(st: ServerState, service: Obj, protoName: Option<string>)
    requires AddService(st, service, protoName, true).Ok?
    ensures AddService(AddService(st, service, protoName, true).value, service, protoName, true)
      == AddService(st, service, protoName, true)
  {
    var key := ServiceKey(service, protoName).value;
    var st1 := AddService(st, service, protoName, true).value;
    var v := Route(service, st.functions.items[key]);
    assert st1.route.items == st.route.items[key := v];
    assert Put(st1.route, key, v) == st1.route;
  }

  /** The positional loop of `add_services`: each service under its own name, checked. */
  function AddPositional(st: ServerState, services: seq<Obj>): (r: Outcome<ServerState>)
    ensures r.state.services == st.services && r.state.functions == st.functions && r.state.server == st.server
    ensures !r.Raised() <==> forall i :: 0 <= i < |services| ==> AddService(st, services[i], None, true).Ok?
    ensures forall k :: k in st.route.items ==> k in r.state.route.items
    decreases |services|
  {
    if services == [] then Outcome(st, None)
    else
      match AddService(st, services[0], None, true)
      case Err(e) => Outcome(st, Some(e))
      case Ok(st1) =>
        assert forall i :: 1 <= i < |services| ==> services[1..][i - 1] == services[i];
        AddPositional(st1, services[1..])
  }

  /** The keyword loop of `add_services`: each service under its keyword, checked. */
  function AddNamed(st: ServerState, keys: seq<string>, params: map<string, Obj>): (r: Outcome<ServerState>)
    requires forall i :: 0 <= i < |keys| ==> keys[i] in params
    ensures r.state.services == st.services && r.state.functions == st.functions && r.state.server == st.server
    ensures !r.Raised() <==> NamedAddsOk(st, keys, params)
    ensures forall k :: k in st.route.items ==> k in r.state.route.items
    decreases |keys|
  {
    if keys == [] then Outcome(st, None)
    else
      match AddService(st, params[keys[0]], Some(keys[0]), true)
      case Err(e) => Outcome(st, Some(e))
      case Ok(st1) =>
        NamedTailFrom(st, st1, keys, params);
        AddNamed(st1, keys[1..], params)
  }

  /** Every keyword's checked add would succeed from `st`. */
  predicate NamedAddsOk(st: ServerState, keys: seq<string>, params: map<string, Obj>)
    requires forall i :: 0 <= i < |keys| ==> keys[i] in params
  {
    forall i :: 0 <= i < |keys| ==> AddService(st, params[keys[i]], Some(keys[i]), true).Ok?
  }

  /** A checked add reads only `_services` and `_functions`, so whether it
      succeeds is the same from any state that agrees on both. */
  lemma CheckedAddSameFrom(st: ServerState, st1: ServerState, service: Obj, name: Option<string>)
    requires st1.services == st.services && st1.functions == st.functions
    ensures AddService(st1, service, name, true).Ok? == AddService(st, service, name, true).Ok?
  {
  }

  /** Once the first keyword is added, the rest succeed from the new state
      exactly when all of them succeed from the start state. */
  lemma NamedTailFrom(st: ServerState, st1: ServerState, keys: seq<string>, params: map<string, Obj>)
    requires keys != [] && forall i :: 0 <= i < |keys| ==> keys[i] in params
    requires AddService(st, params[keys[0]], Some(keys[0]), true) == Ok(st1)
    ensures NamedAddsOk(st1, keys[1..], params) <==> NamedAddsOk(st, keys, params)
  {
    forall i | 1 <= i < |keys|
      ensures AddService(st1, params[keys[1..][i - 1]], Some(keys[1..][i - 1]), true).Ok?
        == AddService(st, params[keys[i]], Some(keys[i]), true).Ok?
    {
      assert keys[1..][i - 1] == keys[i];
      CheckedAddSameFrom(st, st1, params[keys[i]], Some(keys[i]));
    }
    if NamedAddsOk(st, keys, params) {
      forall j | 0 <= j < |keys[1..]|
        ensures AddService(st1, params[keys[1..][j]], Some(keys[1..][j]), true).Ok?
      {
        assert AddService(st, params[keys[j + 1]], Some(keys[j + 1]), true).Ok?;
      }
    }
  }

  /** `add_services(*services, **services_param)`: positional services
      first, then keyword ones; a failure stops the loop with the routes
      added so far left in place. */
  function AddServices(st: ServerState, services: seq<Obj>, params: Dict<string, Obj>): (r: Outcome<ServerState>)
    ensures r.state.services == st.services && r.state.functions == st.functions && r.state.server == st.server
  {
    var o := AddPositional(st, services);
    if o.Raised() then o else AddNamed(o.state, params.keys, params.items)
  }

  /** A successful keyword loop leaves each keyword routed to its own
      service: the keywords are distinct, so no later one overwrites it. */
  lemma {:induction false} AddNamedRoutes(st: ServerState, keys: seq<string>, params: map<string, Obj>, k: string)
    requires forall i :: 0 <= i < |keys| ==> keys[i] in params
    requires forall i, j :: 0 <= i < j < |keys| ==> keys[i] != keys[j]
    requires forall i :: 0 <= i < |keys| ==> keys[i] != []
    requires !AddNamed(st, keys, params).Raised() && k in keys
    ensures k in AddNamed(st, keys, params).state.route.items && k in st.functions.items
    ensures AddNamed(st, keys, params).state.route.items[k] == Route(params[k], st.functions.items[k])
    decreases |keys|
  {
    var st1 := AddService(st, params[keys[0]], Some(keys[0]), true);
    assert st1.Ok? && AddNamed(st, keys, params) == AddNamed(st1.value, keys[1..], params);
    var tail := keys[1..];
    assert forall i :: 0 <= i < |tail| ==> tail[i] == keys[i + 1];
    if keys[0] == k {
      assert k !in tail;
      AddNamedKeeps(st1.value, tail, params, k);
    } else {
      assert k in tail;
      AddNamedRoutes(st1.value, tail, params, k);
    }
  }

  /** The keyword loop never touches a route whose key is not among its keywords. */
  lemma {:induction false} AddNamedKeeps(st: ServerState, keys: seq<string>, params: map<string, Obj>, k: string)
    requires forall i :: 0 <= i < |keys| ==> keys[i] in params
    requires forall i :: 0 <= i < |keys| ==> keys[i] != []
    requires k !in keys && k in st.route.items
    ensures k in AddNamed(st, keys, params).state.route.items
    ensures AddNamed(st, keys, params).state.route.items[k] == st.route.items[k]
    decreases |keys|
  {
    if keys != [] {
      var st1 := AddService(st, params[keys[0]], Some(keys[0]), true);
      if st1.Ok? {
        assert keys[0] != k;
        assert forall i :: 0 <= i < |keys[1..]| ==> keys[1..][i] == keys[i + 1];
        AddNamedKeeps(st1.value, keys[1..], params, k);
      }
    }
  }

  /** After a successful `add_services`, every keyword service is routed
      under its keyword. */
  lemma AddServicesRoutesKeywords(st: ServerState, services: seq<Obj>, params: Dict<string, Obj>, k: string)
    requires !AddServices(st, services, params).Raised() && k in params.items
    requires [] !in params.items
    ensures k in AddServices(st, services, params).state.route.items && k in st.functions.items
    ensures AddServices(st, services, params).state.route.items[k] == Route(params.items[k], st.functions.items[k])
  {
    var o := AddPositional(st, services);
    AddNamedRoutes(o.state, params.keys, params.items, k);
  }

  // ---------------------------------------------------------------------
  // User service modules.

  /** `parser_service_file(module, functions, *service_names)`: the module's
      entries whose names have an add-function, in the module's order. */
  function ParserServiceFile(module_: Dict<string, Obj>, functions: Dict<string, Obj>, names: seq<string>): (r: seq<(string, Obj)>)
    ensures forall n, o :: (n, o) in r <==> (n in module_.items && module_.items[n] == o
      && n in functions.items && Selected(names, n))
    ensures InKeyOrder(r, module_.keys)
  {
    Entries(module_.keys, module_.items, functions, names)
  }

  function Entries(keys: seq<string>, items: map<string, Obj>, functions: Dict<string, Obj>, names: seq<string>): (r: seq<(string, Obj)>)
    requires forall i :: 0 <= i < |keys| ==> keys[i] in items
    ensures forall n, o :: (n, o) in r <==> n in keys && items[n] == o && n in functions.items && Selected(names, n)
    ensures InKeyOrder(r, keys)
  {
    if keys == [] then []
    else
      var rest := Entries(keys[1..], items, functions, names);
      assert forall n :: n in keys <==> n == keys[0] || n in keys[1..];
      if keys[0] in functions.items && Selected(names, keys[0]) then
        var r := [(keys[0], items[keys[0]])] + rest;
        assert r[1..] == rest;
        r
      else rest
  }

  /** The names of `entries` occur in `keys`, in the same order. */
  predicate InKeyOrder(entries: seq<(string, Obj)>, keys: seq<string>)
    decreases |keys|
  {
    if entries == [] then true
    else if keys == [] then false
    else (entries[0].0 == keys[0] && InKeyOrder(entries[1..], keys[1..])) || InKeyOrder(entries, keys[1..])
  }

  /** The loop of `_parse_service_module`: each entry goes into `_services`,
      then is routed unchecked under its own `__name__`; a failure leaves the
      entry recorded in `_services` without a route. */
  function RegisterServices(st: ServerState, entries: seq<(string, Obj)>): (r: Outcome<ServerState>)
    ensures r.state.functions == st.functions && r.state.server == st.server
    ensures forall k :: k in st.services.items ==> k in r.state.services.items
    ensures !r.Raised() ==> forall i :: 0 <= i < |entries| ==> entries[i].0 in r.state.services.items
    ensures entries != [] ==> entries[0].0 in r.state.services.items
    decreases |entries|
  {
    if entries == [] then Outcome(st, None)
    else
      var st1 := st.(services := Put(st.services, entries[0].0, entries[0].1));
      match AddService(st1, entries[0].1, None, false)
      case Err(e) => Outcome(st1, Some(e))
      case Ok(st2) =>
        assert forall i :: 1 <= i < |entries| ==> entries[1..][i - 1] == entries[i];
        RegisterServices(st2, entries[1..])
  }

  /** `_parse_service_module(module, *service_names)`. */
  function ParseServiceModule(st: ServerState, module_: Dict<string, Obj>, names: seq<string>): (r: Outcome<ServerState>)
    ensures r.state.functions == st.functions && r.state.server == st.server
  {
    RegisterServices(st, ParserServiceFile(module_, st.functions, names))
  }

  /** When every entry is named after itself (a class defined at module
      level under its own name), registration succeeds and routes each
      entry to its add-function. */
  lemma {:induction false} RegisterServicesRoutes(st: ServerState, entries: seq<(string, Obj)>, k: nat)
    requires forall i :: 0 <= i < |entries| ==> entries[i].1.name == Some(entries[i].0) && entries[i].0 in st.functions.items
    requires forall i, j :: 0 <= i < j < |entries| ==> entries[i].0 != entries[j].0
    requires k < |entries|
    ensures !RegisterServices(st, entries).Raised()
    ensures entries[k].0 in RegisterServices(st, entries).state.route.items
    ensures RegisterServices(st, entries).state.route.items[entries[k].0] == Route(entries[k].1, st.functions.items[entries[k].0])
    ensures entries[k].0 in RegisterServices(st, entries).state.services.items
    decreases |entries|
  {
    var st1 := st.(services := Put(st.services, entries[0].0, entries[0].1));
    var st2 := AddService(st1, entries[0].1, None, false).value;
    var rest := entries[1..];
    assert forall i :: 0 <= i < |rest| ==> rest[i] == entries[i + 1];
    if k == 0 {
      if rest != [] { RegisterServicesRoutes(st2, rest, 0); }
      RegisterServicesKeeps(st2, rest, entries[0].0);
    } else {
      RegisterServicesRoutes(st2, rest, k - 1);
    }
  }

  /** Registering other entries keeps a route and a recorded service. */
  lemma {:induction false} RegisterServicesKeeps(st: ServerState, entries: seq<(string, Obj)>, n: string)
    requires forall i :: 0 <= i < |entries| ==> entries[i].1.name == Some(entries[i].0) && entries[i].0 != n
    requires n in st.route.items && n in st.services.items
    ensures n in RegisterServices(st, entries).state.route.items
    ensures RegisterServices(st, entries).state.route.items[n] == st.route.items[n]
    ensures n in RegisterServices(st, entries).state.services.items
    decreases |entries|
  {
    if entries != [] {
      var st1 := st.(services := Put(st.services, entries[0].0, entries[0].1));
      var a := AddService(st1, entries[0].1, None, false);
      if a.Ok? {
        assert forall i :: 0 <= i < |entries[1..]| ==> entries[1..][i] == entries[i + 1];
        RegisterServicesKeeps(a.value, entries[1..], n);
      }
    }
  }

  /** `filter(...)`: always raises, changing nothing. */
  function Filter(st: ServerState, names: seq<string>, includeNames: bool): (r: Result<ServerState>)
    ensures r == Err(FilterUnavailable)
  {
    Err(FilterUnavailable)
  }

  // ---------------------------------------------------------------------
  // Route registration on the transport server.

  /** One call `route.add_function(route.service(), self._server)`: the
      add-function receives a new instance of the routed service class. */
  datatype AddCall = AddCall(addFunction: Obj, instanceOf: Obj, server: Transport)

  /** What `create_server` leaves: the server object, the add-function calls
      made, and what it raised. */
  datatype Created = Created(state: ServerState, calls: seq<AddCall>, error: Option<Error>)

  /** The calls made for the routes `keys`, in order. */
  function RouteCalls(keys: seq<string>, route: map<string, Route>, server: Transport): (r: seq<AddCall>)
    requires forall i :: 0 <= i < |keys| ==> keys[i] in route
    ensures |r| == |keys|
    ensures forall i :: 0 <= i < |keys| ==>
      r[i] == AddCall(route[keys[i]].addFunction, route[keys[i]].service, server)
  {
    seq(|keys|, i requires 0 <= i < |keys| => AddCall(route[keys[i]].addFunction, route[keys[i]].service, server))
  }

  /** The position of the first route whose service class raises when
      called (`failing` holds the identities of those classes, such as the
      abstract ones `GRPCEnvironment` builds), or `|keys|` when none does. */
  function FirstFailing(keys: seq<string>, route: map<string, Route>, failing: set<nat>): (n: nat)
    requires forall i :: 0 <= i < |keys| ==> keys[i] in route
    ensures n <= |keys|
    ensures forall i :: 0 <= i < n ==> route[keys[i]].service.id !in failing
    ensures n < |keys| ==> route[keys[n]].service.id in failing
    decreases |keys|
  {
    if keys == [] then 0
    else if route[keys[0]].service.id in failing then 0
    else 1 + FirstFailing(keys[1..], route, failing)
  }

  /** `create_server(address, max_workers)`: the transport server is made
      only when there is none (`newId` stands for the new one's identity),
      and making it raises `ValueError` when `max_workers` is not positive,
      before anything is set or called. Then, in route order, each route's
      service class is instantiated and its add-function called with the
      new instance. The first class that cannot be instantiated raises,
      after the earlier calls were made and with the transport server kept. */
  function CreateServer(st: ServerState, address: string, maxWorkers: int, newId: nat, failing: set<nat>): (r: Created)
    ensures st.server.None? && maxWorkers <= 0 ==> r == Created(st, [], Some(NoWorkers))
    ensures st.server.Some? ==> r.state == st
    ensures st.server.None? && maxWorkers > 0 ==> r.state == st.(server := Some(Transport(newId, address, maxWorkers)))
    ensures r.state.server.Some? <==> st.server.Some? || maxWorkers > 0
    ensures r.state.server.Some? ==>
      (r.error.None? <==> forall i :: 0 <= i < |st.route.keys| ==> st.route.items[st.route.keys[i]].service.id !in failing)
    ensures r.error.None? ==> |r.calls| == |st.route.keys|
    ensures r.error.Some? && r.state.server.Some? ==> (|r.calls| < |st.route.keys|
      && st.route.items[st.route.keys[|r.calls|]].service.id in failing
      && r.error == Some(NotInstantiable(st.route.items[st.route.keys[|r.calls|]].service.id)))
    ensures r.state.server.None? ==> r.calls == []
    ensures forall i :: 0 <= i < |r.calls| ==> (r.calls[i].server == r.state.server.value
      && r.calls[i].addFunction == st.route.items[st.route.keys[i]].addFunction
      && r.calls[i].instanceOf == st.route.items[st.route.keys[i]].service
      && r.calls[i].instanceOf.id !in failing)
  {
    if st.server.None? && maxWorkers <= 0 then Created(st, [], Some(NoWorkers))
    else
      var server := if st.server.Some? then st.server.value else Transport(newId, address, maxWorkers);
      var st1 := st.(server := Some(server));
      var keys := st.route.keys;
      var n := FirstFailing(keys, st.route.items, failing);
      var calls := RouteCalls(keys[..n], st.route.items, server);
      if n < |keys| then Created(st1, calls, Some(NotInstantiable(st.route.items[keys[n]].service.id)))
      else
        assert keys[..n] == keys;
        Created(st1, calls, None)
  }

  /** A second `create_server` keeps the first transport server, whatever
      address and worker count it is given, and makes the same calls again;
      a first call refused for its worker count changed nothing, so the
      next call starts afresh. */
  lemma CreateServerAgain(st: ServerState, a1: string, w1: int, f1: nat, a2: string, w2: int, f2: nat, failing: set<nat>)
    ensures var once := CreateServer(st, a1, w1, f1, failing).state;
      once.server.None? ==> once == st && CreateServer(st, a1, w1, f1, failing).error == Some(NoWorkers)
    ensures var once := CreateServer(st, a1, w1, f1, failing).state;
      once.server.Some? ==>
      && CreateServer(once, a2, w2, f2, failing) == CreateServer(once, a1, w1, f1, failing)
      && CreateServer(once, a2, w2, f2, failing).calls == CreateServer(st, a1, w1, f1, failing).calls
      && CreateServer(once, a2, w2, f2, failing).error == CreateServer(st, a1, w1, f1, failing).error
  {
  }
}
