/** `GRPCEnvironment`: builds, once per environment object, a namespace of
    service classes (or stub classes) from a generated module. Each class
    subclasses the generated one and carries the module's parsed messages;
    service classes may also declare each parsed method abstract. */
module Environment {
  import opened Wrappers
  import opened Dicts
  import Parser

  /** `type(name, (base,), {"messages": ..., <method>: abstractmethod ...})`,
      made with `ABCMeta` when `usesAbc` holds. */
  datatype ServiceClass = ServiceClass(name: string, base: Parser.ClassDef, messages: map<string, Parser.ClassDef>,
                                       abstractMethods: set<string>, usesAbc: bool)

  /** `type(name, (base,), {"message": ...})`: note the singular attribute name. */
  datatype StubClass = StubClass(name: string, base: Parser.ClassDef, message: map<string, Parser.ClassDef>)

  /** An environment object: the module, the requested names, the
      `add_abstract` flag and the two namespaces, once built. */
  datatype Env = Env(proto: Parser.Module, names: seq<string>, addAbstract: bool,
                     services: Option<Dict<string, ServiceClass>>, stubs: Option<Dict<string, StubClass>>)

  /** A property read: the environment afterwards and the value or the error. */
  datatype Access<T> = Access(env: Env, result: Result<T>)

  /** `GRPCEnvironment(proto_py_module, *names)`. */
  function NewEnv(m: Parser.Module, names: seq<string>, addAbstract: bool): (e: Env)
    ensures e.services.None? && e.stubs.None?
    ensures e.proto == m && e.names == names && e.addAbstract == addAbstract
  {
    Env(m, names, addAbstract, None, None)
  }

  /** The parsed names the environment builds classes for, in parse order:
      those requested, or all of them when none are. */
  function Selected(keys: seq<string>, names: seq<string>): (r: seq<string>)
    ensures forall k :: k in r <==> k in keys && (names == [] || k in names)
    ensures Distinct(keys) ==> Distinct(r)
    decreases |keys|
  {
    if keys == [] then []
    else
      var t := Selected(keys[1..], names);
      DistinctTail(keys);
      if names == [] || keys[0] in names then [keys[0]] + t else t
  }

  /** The namespace holding one class per selected name, in order. */
  function Namespace<C>(sel: seq<string>, make: map<string, C>): (r: Dict<string, C>)
    requires Distinct(sel)
    requires forall k :: k in sel ==> k in make
    ensures r.keys == sel
    ensures forall k :: k in r.items ==> r.items[k] == make[k]
  {
    RawDict(sel, map k | k in sel :: make[k])
  }

  /** The service class built for the parsed service `name`. */
  function ServiceOf(name: string, d: Parser.Descriptor, addAbstract: bool): (c: ServiceClass)
    ensures c.name == name && c.base == d.cls && c.messages == d.messages
    ensures c.usesAbc == addAbstract
    ensures c.abstractMethods == if addAbstract then d.methods else {}
  {
    ServiceClass(name, d.cls, d.messages, if addAbstract then d.methods else {}, addAbstract)
  }

  /** The stub class built for the parsed stub `name`. */
  function StubOf(name: string, d: Parser.Descriptor): (c: StubClass)
    ensures c.name == name && c.base == d.cls && c.message == d.messages
  {
    StubClass(name, d.cls, d.messages)
  }

  /** The `services` property. The empty namespace is stored before the
      module is parsed, and an empty namespace is truthy, so once a read has
      started no later read parses again, even after a failed parse. */
  function Services(e: Env): (r: Access<Dict<string, ServiceClass>>)
    ensures e.services.Some? ==> r == Access(e, Ok(e.services.value))
    ensures e.services.None? ==> var p := Parser.Parse(Parser.Service, e.proto);
      && r.env.proto == p.after && r.env.stubs == e.stubs && r.env.names == e.names && r.env.addAbstract == e.addAbstract
      && r.env.services.Some?
      && (p.result.Err? ==> r.result == Err(p.result.error) && r.env.services.value.keys == [])
      && (p.result.Ok? ==> r.result == Ok(r.env.services.value))
  {
    if e.services.Some? then Access(e, Ok(e.services.value))
    else
      var p := Parser.Parse(Parser.Service, e.proto);
      var e1 := e.(proto := p.after, services := Some(Empty()));
      if p.result.Err? then Access(e1, Err(p.result.error))
      else
        var descs := p.result.value;
        var sel := Selected(descs.keys, e.names);
        var ns := Namespace(sel, map k | k in descs.items :: ServiceOf(k, descs.items[k], e.addAbstract));
        Access(e1.(services := Some(ns)), Ok(ns))
  }

  /** A first read that parses: the namespace holds exactly the selected
      services in parse order, each named after its service, subclassing
      the parsed class, carrying exactly its parsed messages and, with
      `add_abstract`, one abstract method per parsed method. */
  lemma ServicesContents(e: Env)
    requires e.services.None? && Parser.Parse(Parser.Service, e.proto).result.Ok?
    ensures var descs := Parser.Parse(Parser.Service, e.proto).result.value;
      var r := Services(e);
      && r.result.Ok?
      && r.result.value.keys == Selected(descs.keys, e.names)
      && forall k :: k in r.result.value.items ==>
           k in descs.items && r.result.value.items[k] == ServiceOf(k, descs.items[k], e.addAbstract)
  {
  }

  /** Requested names the module does not define are skipped without error. */
  lemma ServicesSkipUnknown(e: Env, n: string)
    requires e.services.None? && Parser.Parse(Parser.Service, e.proto).result.Ok?
    requires n !in Parser.Parse(Parser.Service, e.proto).result.value.items
    ensures Services(e).result.Ok? && n !in Services(e).result.value.items
  {
  }

  /** The namespace is built once: a second read returns it unchanged
      without parsing the module again. */
  lemma ServicesCached(e: Env)
    ensures Services(Services(e).env).env == Services(e).env
    ensures Services(e).result.Ok? ==> Services(Services(e).env).result == Services(e).result
  {
  }

  /** After a failed parse every later read returns the empty namespace. */
  lemma ServicesAfterFailure(e: Env)
    requires e.services.None? && Parser.Parse(Parser.Service, e.proto).result.Err?
    ensures Services(Services(e).env).result.Ok?
    ensures Services(Services(e).env).result.value.keys == []
  {
  }

  /** The `stubs` property: the same selection and caching, with stub classes. */
  function Stubs(e: Env): (r: Access<Dict<string, StubClass>>)
    ensures e.stubs.Some? ==> r == Access(e, Ok(e.stubs.value))
    ensures e.stubs.None? ==> var p := Parser.Parse(Parser.Stub, e.proto);
      && r.env.proto == p.after && r.env.services == e.services && r.env.names == e.names && r.env.addAbstract == e.addAbstract
      && r.env.stubs.Some?
      && (p.result.Err? ==> r.result == Err(p.result.error) && r.env.stubs.value.keys == [])
      && (p.result.Ok? ==> r.result == Ok(r.env.stubs.value))
  {
    if e.stubs.Some? then Access(e, Ok(e.stubs.value))
    else
      var p := Parser.Parse(Parser.Stub, e.proto);
      var e1 := e.(proto := p.after, stubs := Some(Empty()));
      if p.result.Err? then Access(e1, Err(p.result.error))
      else
        var descs := p.result.value;
        var sel := Selected(descs.keys, e.names);
        var ns := Namespace(sel, map k | k in descs.items :: StubOf(k, descs.items[k]));
        Access(e1.(stubs := Some(ns)), Ok(ns))
  }

  /** A first read that parses: exactly the selected stubs, in parse order,
      each carrying its parsed messages under `message`. */
  lemma StubsContents(e: Env)
    requires e.stubs.None? && Parser.Parse(Parser.Stub, e.proto).result.Ok?
    ensures var descs := Parser.Parse(Parser.Stub, e.proto).result.value;
      var r := Stubs(e);
      && r.result.Ok?
      && r.result.value.keys == Selected(descs.keys, e.names)
      && forall k :: k in r.result.value.items ==>
           k in descs.items && r.result.value.items[k] == StubOf(k, descs.items[k])
  {
  }

  /** The stubs namespace is built once as well. */
  lemma StubsCached(e: Env)
    ensures Stubs(Stubs(e).env).env == Stubs(e).env
    ensures Stubs(e).result.Ok? ==> Stubs(Stubs(e).env).result == Stubs(e).result
  {
  }

  /** `create_services(module, *names)`: the namespace of a new environment. */
  function CreateServices(m: Parser.Module, names: seq<string>, addAbstract: bool): (r: Result<Dict<string, ServiceClass>>)
    ensures r.Ok? ==> forall k :: k in r.value.items ==> names == [] || k in names
  {
    var r := Services(NewEnv(m, names, addAbstract)).result;
    assert r.Ok? ==> ServicesPicked(NewEnv(m, names, addAbstract), r.value) by {
      if r.Ok? { ServicesContents(NewEnv(m, names, addAbstract)); }
    }
    r
  }

  /** Every entry of `ns` was selected by `e`'s names. */
  predicate ServicesPicked(e: Env, ns: Dict<string, ServiceClass>) {
    forall k :: k in ns.items ==> e.names == [] || k in e.names
  }

  /** `create_service(module, name)` is `create_services(module, name)`: a
      namespace holding at most the one class, not the class itself. */
  function CreateService(m: Parser.Module, name: string, addAbstract: bool): (r: Result<Dict<string, ServiceClass>>)
    ensures r.Ok? ==> forall k :: k in r.value.items ==> k == name
    ensures r.Ok? ==> |r.value.keys| <= 1
  {
    var r := CreateServices(m, [name], addAbstract);
    assert r.Ok? ==> |r.value.keys| <= 1 by {
      var e := NewEnv(m, [name], addAbstract);
      if r.Ok? {
        ServicesContents(e);
        SelectedOne(Parser.Parse(Parser.Service, m).result.value.keys, name);
      }
    }
    r
  }

  /** `create_stubs(module, *names)`. */
  function CreateStubs(m: Parser.Module, names: seq<string>): (r: Result<Dict<string, StubClass>>)
    ensures r.Ok? ==> forall k :: k in r.value.items ==> names == [] || k in names
  {
    var r := Stubs(NewEnv(m, names, true)).result;
    assert r.Ok? ==> forall k :: k in r.value.items ==> names == [] || k in names by {
      if r.Ok? { StubsContents(NewEnv(m, names, true)); }
    }
    r
  }

  /** `create_stub(module, name)` is `create_stubs(module, name)`. */
  function CreateStub(m: Parser.Module, name: string): (r: Result<Dict<string, StubClass>>)
    ensures r.Ok? ==> forall k :: k in r.value.items ==> k == name
    ensures r.Ok? ==> |r.value.keys| <= 1
  {
    var r := CreateStubs(m, [name]);
    assert r.Ok? ==> |r.value.keys| <= 1 by {
      if r.Ok? {
        StubsContents(NewEnv(m, [name], true));
        SelectedOne(Parser.Parse(Parser.Stub, m).result.value.keys, name);
      }
    }
    r
  }

  /** Selecting one name from distinct keys gives that name once, or nothing. */
  lemma {:induction false} SelectedOne(keys: seq<string>, name: string)
    requires Distinct(keys)
    ensures Selected(keys, [name]) == (if name in keys then [name] else [])
    decreases |keys|
  {
    if keys != [] {
      DistinctTail(keys);
      SelectedOne(keys[1..], name);
    }
  }
}
