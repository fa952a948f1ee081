/** The stub clients: `GRPCClient` of `easygrpc/client.py`, which binds each
    stub inside a `StubWrapper` so that its unary calls go through a request
    hook, and the older copy in `environment/client.py`, which binds the
    stub class directly. The two classes share their module parsing and
    their `add_stub` key rules; they differ in what `add_stub` binds and in
    `filter`. A `ClientState` records which of the two it is. */
module Client {
  import opened Wrappers
  import opened Strings
  import opened Dicts
  import opened Registry
  import Parser

  const DefaultAddress: string := "[::]:50051"

  /** The suffix of `HANDLER_SEARCH_PATTERN` and of `__name__.replace`. */
  const StubSuffix: string := "Stub"

  /** `easygrpc/client.py` (hooked) or `environment/client.py` (direct). */
  datatype Flavour = Hooked | Direct

  /** A request hook function, by identity. */
  datatype Hook = Hook(id: nat)

  /** `grpc.insecure_channel(target)`: an opaque channel to an address. */
  datatype Channel = Channel(target: string)

  /** What `setattr(self, key, ...)` binds for a stub: a `StubWrapper`
      around the stub class holding the hook current at bind time, called
      with the channel; or the stub class called with the channel. */
  datatype BoundStub =
    | Wrapped(stub: Parser.ClassDef, hook: Option<Hook>, channel: Channel)
    | Plain(stub: Parser.ClassDef, channel: Channel)

  /** A client object: its `stubs` dictionary, the `messages` namespace set
      on each stub class, the stub attributes bound on it, its configured
      request hook and its channel. */
  datatype ClientState = ClientState(
    flavour: Flavour,
    stubs: Dict<string, Parser.ClassDef>,
    messages: map<string, map<string, Parser.ClassDef>>,
    bound: map<string, BoundStub>,
    hook: Option<Hook>,
    channel: Channel)

  /** The client together with the generated module as a parse leaves it. */
  datatype Loaded = Loaded(client: ClientState, proto: Parser.Module)

  // ---------------------------------------------------------------------
  // Finding the stub classes of a module.

  /** The name `parse_proto_file` files a member under: for a class, the
      non-empty text before the last "Stub" in its member name, unless that
      text starts with "Beta". */
  function StubName(name: string, v: Parser.Value): (r: Option<string>)
    ensures r.Some? ==> v.ClassValue? && r.value != [] && !StartsWith(r.value, "Beta")
    ensures r.Some? ==> OccursAt(name, StubSuffix, |r.value|) && name[..|r.value|] == r.value
    ensures r.Some? ==> forall j: nat :: |r.value| < j ==> !OccursAt(name, StubSuffix, j)
    ensures v.ClassValue? && (exists j: nat :: 0 < j && OccursAt(name, StubSuffix, j)) && !StartsWith(name, "Beta")
      ==> r.Some?
  {
    if !v.ClassValue? then None
    else
      var c := CaptureBefore(name, "", StubSuffix);
      if c.Some? && !StartsWith(c.value, "Beta") then Some(c.value)
      else
        assert c.Some? ==> StartsWith(name, "Beta") by {
          if c.Some? && |c.value| >= 4 {
            assert name[..4] == c.value[..4];
          }
        }
        None
  }

  /** A stub class `<base>Stub` whose base holds no earlier "Stub" is found
      under `<base>`, the key the parser files its descriptor under. */
  lemma StubNameOfGenerated(base: string, attrs: map<string, Parser.Attr>)
    requires base != [] && !StartsWith(base + StubSuffix, "Beta")
    requires forall i: nat :: i < |base| ==> !OccursAt(base + StubSuffix, StubSuffix, i)
    ensures var n := base + StubSuffix; var v := Parser.ClassValue(Parser.ClassDef(n, attrs));
      && StubName(n, v) == Some(base)
      && Parser.Classify(Parser.Stub, n, v) == Parser.Definition(base)
  {
    var n := base + StubSuffix;
    var v := Parser.ClassValue(Parser.ClassDef(n, attrs));
    assert OccursAt(n, StubSuffix, |base|);
    var r := StubName(n, v);
    assert r.Some?;
    assert !(|r.value| < |base|);
    assert !(|r.value| > |base|);
    assert n[..|base|] == base;
    Parser.DefinitionKey(Parser.Stub, base, attrs);
  }

  /** `parse_proto_file(module, pattern, *names)`: the stub classes of the
      member snapshot, each with its name, in member order; a non-empty
      `names` keeps only the names it lists. */
  function Found(items: seq<(string, Parser.Value)>, names: seq<string>): (r: seq<(string, Parser.ClassDef)>)
    ensures forall p :: p in r <==> exists i :: 0 <= i < |items| && Picks(items[i], names, p)
    ensures PicksInOrder(r, items, names)
    decreases |items|
  {
    if items == [] then []
    else
      var rest := Found(items[1..], names);
      var s := StubName(items[0].0, items[0].1);
      FoundCons(items, names, rest);
      if s.Some? && (names == [] || s.value in names) then
        var r := [(s.value, items[0].1.cls)] + rest;
        assert r[1..] == rest;
        r
      else rest
  }

  /** Each pair of `found` is picked from a member of `items`, the members
      in their order. */
  predicate PicksInOrder(found: seq<(string, Parser.ClassDef)>, items: seq<(string, Parser.Value)>, names: seq<string>)
    decreases |items|
  {
    if found == [] then true
    else if items == [] then false
    else (Picks(items[0], names, found[0]) && PicksInOrder(found[1..], items[1..], names)) || PicksInOrder(found, items[1..], names)
  }

  /** The member `item` yields the pair `p`. */
  predicate Picks(item: (string, Parser.Value), names: seq<string>, p: (string, Parser.ClassDef)) {
    StubName(item.0, item.1) == Some(p.0) && item.1 == Parser.ClassValue(p.1) && (names == [] || p.0 in names)
  }

  lemma FoundCons(items: seq<(string, Parser.Value)>, names: seq<string>, rest: seq<(string, Parser.ClassDef)>)
    requires |items| > 0
    requires forall p :: p in rest <==> exists i :: 0 <= i < |items[1..]| && Picks(items[1..][i], names, p)
    ensures forall p :: ((exists i :: 0 <= i < |items| && Picks(items[i], names, p))
      <==> Picks(items[0], names, p) || p in rest)
  {
    forall p ensures (exists i :: 0 <= i < |items| && Picks(items[i], names, p))
      <==> Picks(items[0], names, p) || p in rest
    {
      if p in rest {
        var i :| 0 <= i < |items[1..]| && Picks(items[1..][i], names, p);
        assert Picks(items[i + 1], names, p);
      }
      if exists i :: 0 <= i < |items| && Picks(items[i], names, p) {
        var i :| 0 <= i < |items| && Picks(items[i], names, p);
        if i > 0 {
          assert items[1..][i - 1] == items[i];
        }
      }
    }
  }

  // ---------------------------------------------------------------------
  // `_parse_module`.

  /** The key every descriptor holds its message classes under. */
  const MessagesKey: string := "messages"

  /** The loop that sets `messages` on every stub class the client holds.
      The parse result is a `defaultdict(dict)`: a name it did not describe
      reads as an empty dict, whose `["messages"]` raises
      `KeyError('messages')`. */
  function SetMessages(keys: seq<string>, descs: map<string, Parser.Descriptor>,
                       msgs: map<string, map<string, Parser.ClassDef>>): (r: Outcome<map<string, map<string, Parser.ClassDef>>>)
    ensures !r.Raised() <==> forall k :: k in keys ==> k in descs
    ensures !r.Raised() ==> r.state.Keys == msgs.Keys + (set k | k in keys)
    ensures !r.Raised() ==> forall k :: k in keys ==> r.state[k] == descs[k].messages
    ensures r.Raised() ==> r.error == Some(MissingKey(MessagesKey))
    ensures forall k :: k in msgs && k !in keys ==> k in r.state && r.state[k] == msgs[k]
    decreases |keys|
  {
    if keys == [] then Outcome(msgs, None)
    else if keys[0] !in descs then Outcome(msgs, Some(MissingKey(MessagesKey)))
    else
      assert forall k :: k in keys <==> k == keys[0] || k in keys[1..];
      SetMessages(keys[1..], descs, msgs[keys[0] := descs[keys[0]].messages])
  }

  /** `_parse_module(module, *names)` as written: register the stub classes
      found (raising on a name already held, keeping those entered before
      it), parse the module for the stub role, then set `messages` on EVERY
      stub class the client holds, from whatever module it came. */
  function ParseModule(st: ClientState, m: Parser.Module, names: seq<string>): (r: Outcome<Loaded>)
    ensures var reg := RegisterAll(st.stubs, Found(Parser.Snapshot(m.members), names));
      && r.state.client == st.(stubs := reg.state, messages := r.state.client.messages)
      && (reg.Raised() ==> r == Outcome(Loaded(r.state.client, m), reg.error) && r.state.client.messages == st.messages)
      && (!reg.Raised() ==> r.state.proto == Parser.Parse(Parser.Stub, m).after)
      && (!reg.Raised() && Parser.Parse(Parser.Stub, m).result.Err? ==>
            r.error == Some(Parser.Parse(Parser.Stub, m).result.error) && r.state.client.messages == st.messages)
  {
    var reg := RegisterAll(st.stubs, Found(Parser.Snapshot(m.members), names));
    var st1 := st.(stubs := reg.state);
    if reg.Raised() then Outcome(Loaded(st1, m), reg.error)
    else
      var p := Parser.Parse(Parser.Stub, m);
      if p.result.Err? then Outcome(Loaded(st1, p.after), Some(p.result.error))
      else
        var s := SetMessages(st1.stubs.keys, p.result.value.items, st1.messages);
        Outcome(Loaded(st1.(messages := s.state), p.after), s.error)
  }

  /** After a registration and a parse that succeed, `_parse_module`
      succeeds exactly when the parse described every stub class the client
      now holds, and then each one's `messages` are its parsed messages. */
  lemma ParseModuleMessages(st: ClientState, m: Parser.Module, names: seq<string>)
    requires !RegisterAll(st.stubs, Found(Parser.Snapshot(m.members), names)).Raised()
    requires Parser.Parse(Parser.Stub, m).result.Ok?
    ensures var held := RegisterAll(st.stubs, Found(Parser.Snapshot(m.members), names)).state.items;
      var descs := Parser.Parse(Parser.Stub, m).result.value.items;
      var r := ParseModule(st, m, names);
      && (!r.Raised() <==> forall k :: k in held ==> k in descs)
      && (!r.Raised() ==> forall k :: k in held ==>
            k in descs && k in r.state.client.messages && r.state.client.messages[k] == descs[k].messages)
      && (r.Raised() ==> (exists k :: k in held && k !in descs) && r.error == Some(MissingKey(MessagesKey)))
  {
  }

  /** The entries registered before the failing or succeeding call keep
      their places and values: a raise part-way leaves them all. */
  lemma ParseModuleKeeps(st: ClientState, m: Parser.Module, names: seq<string>, k: string)
    requires k in st.stubs.items
    ensures st.stubs.keys <= ParseModule(st, m, names).state.client.stubs.keys
    ensures ParseModule(st, m, names).state.client.stubs.items[k] == st.stubs.items[k]
  {
    RegisterAllKeeps(st.stubs, Found(Parser.Snapshot(m.members), names), k);
  }

  /** A stub held from an earlier module whose name this module's parse
      does not return makes `_parse_module` raise `KeyError('messages')`,
      even though every stub of this module was registered and described. */
  lemma ParseModuleStaleStub(st: ClientState, m: Parser.Module, names: seq<string>, stale: string)
    requires !RegisterAll(st.stubs, Found(Parser.Snapshot(m.members), names)).Raised()
    requires Parser.Parse(Parser.Stub, m).result.Ok?
    requires stale in st.stubs.items && stale !in Parser.Parse(Parser.Stub, m).result.value.items
    ensures ParseModule(st, m, names).Raised()
    ensures ParseModule(st, m, names).error == Some(MissingKey(MessagesKey))
  {
    var reg := RegisterAll(st.stubs, Found(Parser.Snapshot(m.members), names));
    var descs := Parser.Parse(Parser.Stub, m).result.value.items;
    RegisterAllKeeps(st.stubs, Found(Parser.Snapshot(m.members), names), stale);
    assert stale in reg.state.keys && stale !in descs;
    var s := SetMessages(reg.state.keys, descs, st.messages);
    assert s.Raised();
    assert ParseModule(st, m, names).error == s.error;
  }

  /** `_parse_module` as evidently intended: set `messages` only on the stub
      classes this call registered. */
  function ParseModuleIntended(st: ClientState, m: Parser.Module, names: seq<string>): (r: Outcome<Loaded>)
    ensures var found := Found(Parser.Snapshot(m.members), names);
      forall k :: k in st.messages && k !in Names(found) ==> k in r.state.client.messages && r.state.client.messages[k] == st.messages[k]
  {
    var found := Found(Parser.Snapshot(m.members), names);
    var reg := RegisterAll(st.stubs, found);
    var st1 := st.(stubs := reg.state);
    if reg.Raised() then Outcome(Loaded(st1, m), reg.error)
    else
      var p := Parser.Parse(Parser.Stub, m);
      if p.result.Err? then Outcome(Loaded(st1, p.after), Some(p.result.error))
      else
        var s := SetMessages(Names(found), p.result.value.items, st1.messages);
        Outcome(Loaded(st1.(messages := s.state), p.after), s.error)
  }

  /** When the names found are new to the client and the parse succeeds,
      the intended loop succeeds exactly when the parse described every one
      of them, and then sets each one's parsed messages; it fails only at
      one of them, with `KeyError('messages')`. */
  lemma ParseModuleIntendedMessages(st: ClientState, m: Parser.Module, names: seq<string>)
    requires Fresh(st.stubs, Found(Parser.Snapshot(m.members), names))
    requires Parser.Parse(Parser.Stub, m).result.Ok?
    ensures var found := Found(Parser.Snapshot(m.members), names);
      var descs := Parser.Parse(Parser.Stub, m).result.value.items;
      var r := ParseModuleIntended(st, m, names);
      && (!r.Raised() <==> forall k :: k in Names(found) ==> k in descs)
      && (!r.Raised() ==> forall k :: k in Names(found) ==>
            k in descs && k in r.state.client.messages && r.state.client.messages[k] == descs[k].messages)
      && (r.Raised() ==> (exists k :: k in Names(found) && k !in descs) && r.error == Some(MissingKey(MessagesKey)))
  {
    var found := Found(Parser.Snapshot(m.members), names);
    RegisterAllSucceeds(st.stubs, found);
    var reg := RegisterAll(st.stubs, found);
    var p := Parser.Parse(Parser.Stub, m);
    var sm := SetMessages(Names(found), p.result.value.items, st.messages);
    assert ParseModuleIntended(st, m, names) == Outcome(Loaded(st.(stubs := reg.state, messages := sm.state), p.after), sm.error);
  }

  /** On a client holding no stubs yet (the constructor's case) the two
      versions agree. */
  lemma ParseModuleFirstLoad(st: ClientState, m: Parser.Module, names: seq<string>)
    requires st.stubs.keys == []
    ensures ParseModule(st, m, names) == ParseModuleIntended(st, m, names)
  {
    var found := Found(Parser.Snapshot(m.members), names);
    var reg := RegisterAll(st.stubs, found);
    if !reg.Raised() {
      assert reg.state.keys == Names(found);
    }
  }

  // ---------------------------------------------------------------------
  // `add_stub`, `add_stubs`, `add_request_hook`.

  /** `stub.__name__`, if it has one. */
  function NameOf(stub: Parser.Value): (r: Option<string>)
    ensures stub.OtherValue? <==> r.None?
  {
    match stub
    case ClassValue(c) => Some(c.className)
    case FunctionValue(f) => Some(f.funcName)
    case OtherValue => None
  }

  /** `proto_name or stub.__name__.replace("Stub", "")`, with the two ways
      it fails: no name at all, or an empty proto name for a nameless stub. */
  function StubKey(stub: Parser.Value, protoName: Option<string>): (r: Result<string>)
    ensures protoName.None? && NameOf(stub).None? ==> r == Err(NoName)
    ensures r.Err? <==> NameOf(stub).None? && (protoName.None? || protoName.value == [])
    ensures protoName.Some? && protoName.value != [] ==> r == Ok(protoName.value)
    ensures (protoName.None? || protoName.value == []) && NameOf(stub).Some? ==>
      r == Ok(ReplaceAll(NameOf(stub).value, StubSuffix, ""))
  {
    if protoName.None? && NameOf(stub).None? then Err(NoName)
    else if protoName.Some? && protoName.value != [] then Ok(protoName.value)
    else if NameOf(stub).Some? then Ok(ReplaceAll(NameOf(stub).value, StubSuffix, ""))
    else Err(MissingAttribute("__name__"))
  }

  /** A generated stub class `<base>Stub` is keyed by `<base>`. */
  lemma StubKeyOfGenerated(base: string, attrs: map<string, Parser.Attr>)
    requires forall i: nat :: i < |base| ==> !OccursAt(base + StubSuffix, StubSuffix, i)
    ensures StubKey(Parser.ClassValue(Parser.ClassDef(base + StubSuffix, attrs)), None) == Ok(base)
  {
    ReplaceAllStripsSuffix(base, StubSuffix);
  }

  /** What the client binds for the stub class `c`. */
  function Bind(st: ClientState, c: Parser.ClassDef): (b: BoundStub)
    ensures b.stub == c && b.channel == st.channel
    ensures b.Wrapped? <==> st.flavour == Hooked
    ensures b.Wrapped? ==> b.hook == st.hook
  {
    if st.flavour == Hooked then Wrapped(c, st.hook, st.channel) else Plain(c, st.channel)
  }

  /** `add_stub(stub, proto_name, need_check)` as written: the stub bound is
      `stubs[key]`, never the argument, so a key the client does not hold
      raises `KeyError`; with `need_check` a key it does hold raises the
      duplicate error. A checked call therefore never succeeds. */
  function AddStub(st: ClientState, stub: Parser.Value, protoName: Option<string>, needCheck: bool): (r: Result<ClientState>)
    ensures StubKey(stub, protoName).Err? ==> r == Err(StubKey(stub, protoName).error)
    ensures StubKey(stub, protoName).Ok? ==> var key := StubKey(stub, protoName).value;
      && (r.Ok? <==> !needCheck && key in st.stubs.items)
      && (needCheck && key in st.stubs.items ==> r == Err(DuplicateName(key)))
      && (key !in st.stubs.items ==> r == Err(MissingKey(key)))
      && (r.Ok? ==> r.value == st.(bound := st.bound[key := Bind(st, st.stubs.items[key])]))
    ensures needCheck ==> r.Err?
  {
    var key :- StubKey(stub, protoName);
    if needCheck && key in st.stubs.items then Err(DuplicateName(key))
    else if key !in st.stubs.items then Err(MissingKey(key))
    else Ok(st.(bound := st.bound[key := Bind(st, st.stubs.items[key])]))
  }

  /** `add_stub` as evidently intended: a new stub class is entered into
      `stubs` under its key and the argument itself is bound. */
  function AddStubIntended(st: ClientState, stub: Parser.ClassDef, protoName: Option<string>, needCheck: bool): (r: Result<ClientState>)
    ensures var key := StubKey(Parser.ClassValue(stub), protoName).value;
      && (r.Ok? <==> !(needCheck && key in st.stubs.items))
      && (r.Err? ==> r.error == DuplicateName(key))
      && (r.Ok? ==> r.value.stubs.items == st.stubs.items[key := stub] && r.value.bound == st.bound[key := Bind(st, stub)])
      && (r.Ok? ==> r.value.messages == st.messages && r.value.hook == st.hook && r.value.channel == st.channel)
  {
    var key := StubKey(Parser.ClassValue(stub), protoName).value;
    if needCheck && key in st.stubs.items then Err(DuplicateName(key))
    else Ok(st.(stubs := Put(st.stubs, key, stub), bound := st.bound[key := Bind(st, stub)]))
  }

  /** Where `from_module` calls `add_stub` (unchecked, with the class the
      client holds under the key) the intended version does the same. */
  lemma AddStubIntendedAgrees(st: ClientState, key: string)
    requires key in st.stubs.items
    requires StubKey(Parser.ClassValue(st.stubs.items[key]), None) == Ok(key)
    ensures AddStubIntended(st, st.stubs.items[key], None, false) == AddStub(st, Parser.ClassValue(st.stubs.items[key]), None, false)
  {
    var c := st.stubs.items[key];
    assert Put(st.stubs, key, c) == st.stubs;
  }

  /** `add_stubs(*stubs, **stubs_param)`: each positional stub under its own
      name, then each keyword under its keyword, all checked; the first
      failure raises with the earlier ones still bound. */
  function AddStubs(st: ClientState, stubs: seq<Parser.Value>, named: seq<(string, Parser.Value)>): (r: Outcome<ClientState>)
    ensures stubs != [] || named != [] ==> r.Raised() && r.state == st
    ensures stubs != [] ==> AddStub(st, stubs[0], None, true).Err? && r.error == Some(AddStub(st, stubs[0], None, true).error)
    ensures stubs == [] && named != [] ==>
      AddStub(st, named[0].1, Some(named[0].0), true).Err? && r.error == Some(AddStub(st, named[0].1, Some(named[0].0), true).error)
    ensures stubs == [] && named == [] ==> r == Outcome(st, None)
  {
    if stubs != [] then
      match AddStub(st, stubs[0], None, true)
      case Err(e) => Outcome(st, Some(e))
      case Ok(st1) => assert false; Outcome(st1, None)
    else if named != [] then
      match AddStub(st, named[0].1, Some(named[0].0), true)
      case Err(e) => Outcome(st, Some(e))
      case Ok(st1) => assert false; Outcome(st1, None)
    else Outcome(st, None)
  }

  /** With the intended `add_stub`, a checked add of a name the client does
      not hold succeeds, and a second add of the same name is refused. */
  lemma AddStubIntendedOnce(st: ClientState, stub: Parser.ClassDef, protoName: Option<string>)
    requires StubKey(Parser.ClassValue(stub), protoName).value !in st.stubs.items
    ensures AddStubIntended(st, stub, protoName, true).Ok?
    ensures AddStubIntended(AddStubIntended(st, stub, protoName, true).value, stub, protoName, true)
      == Err(DuplicateName(StubKey(Parser.ClassValue(stub), protoName).value))
  {
  }

  /** `add_request_hook(hook)`: the hooked client stores whatever it is
      given, `None` included, and touches nothing else; the direct client
      has no such method, so the attribute lookup raises `AttributeError`. */
  function AddRequestHook(st: ClientState, h: Option<Hook>): (r: Result<ClientState>)
    ensures r.Ok? <==> st.flavour == Hooked
    ensures r.Err? ==> r.error == MissingAttribute("add_request_hook")
    ensures r.Ok? ==> r.value.hook == h
    ensures r.Ok? ==> r.value.bound == st.bound && r.value.stubs == st.stubs && r.value.messages == st.messages
    ensures r.Ok? ==> r.value.channel == st.channel && r.value.flavour == st.flavour
  {
    if st.flavour == Hooked then Ok(st.(hook := h)) else Err(MissingAttribute("add_request_hook"))
  }

  /** A wrapper takes the hook configured when it is made: a stub bound
      after `add_request_hook` carries the new hook, and the call itself
      rebinds nothing. (Each binding re-patches its stub CLASS, so a later
      binding of the same class redirects earlier ones; that sharing is not
      modelled.) */
  lemma HookReadAtBindTime(st: ClientState, h: Option<Hook>, key: string)
    requires st.flavour == Hooked && key in st.stubs.items && key != []
    ensures AddStub(AddRequestHook(st, h).value, Parser.ClassValue(st.stubs.items[key]), Some(key), false).value.bound[key].hook == h
    ensures forall k :: k in st.bound ==> AddRequestHook(st, h).value.bound[k] == st.bound[k]
  {
  }

  // ---------------------------------------------------------------------
  // `from_module` and the constructor.

  /** The names of `keys` that `prior` did not hold, in order: `set(self.stubs) - old_names`. */
  function Added(keys: seq<string>, prior: map<string, Parser.ClassDef>): (r: seq<string>)
    ensures forall k :: k in r <==> k in keys && k !in prior
    ensures |r| <= |keys|
  {
    if keys == [] then []
    else if keys[0] in prior then Added(keys[1..], prior)
    else [keys[0]] + Added(keys[1..], prior)
  }

  lemma AddedHeld(d: Dict<string, Parser.ClassDef>, added: seq<string>, prior: map<string, Parser.ClassDef>)
    requires added == Added(d.keys, prior)
    ensures forall i :: 0 <= i < |added| ==> added[i] in d.items
  {
    forall i | 0 <= i < |added| ensures added[i] in d.items {
      assert added[i] in added;
    }
  }

  /** The binding loop of `from_module`: `add_stub(stubs[k], need_check=False)`
      for each added name, stopping at the first failure. */
  function BindAll(st: ClientState, keys: seq<string>): (r: Outcome<ClientState>)
    requires forall i :: 0 <= i < |keys| ==> keys[i] in st.stubs.items
    ensures r.state == st.(bound := r.state.bound)
    decreases |keys|
  {
    if keys == [] then Outcome(st, None)
    else
      match AddStub(st, Parser.ClassValue(st.stubs.items[keys[0]]), None, false)
      case Err(e) => Outcome(st, Some(e))
      case Ok(st1) => BindAll(st1, keys[1..])
  }

  /** The class held under `k` has the generated name `<k>Stub`. */
  predicate KeyedByName(st: ClientState, k: string) {
    k in st.stubs.items && StubKey(Parser.ClassValue(st.stubs.items[k]), None) == Ok(k)
  }

  /** When every name's class carries that name, the loop binds exactly
      those names, each to its own class, and nothing else. */
  lemma {:induction false} BindAllBindsKeys(st: ClientState, keys: seq<string>)
    requires forall i :: 0 <= i < |keys| ==> keys[i] in st.stubs.items
    requires forall i :: 0 <= i < |keys| ==> KeyedByName(st, keys[i])
    ensures !BindAll(st, keys).Raised()
    ensures forall k :: k in BindAll(st, keys).state.bound <==> k in st.bound || k in keys
    ensures forall k :: k in keys ==> BindAll(st, keys).state.bound[k] == Bind(st, st.stubs.items[k])
    ensures forall k :: k in st.bound && k !in keys ==> BindAll(st, keys).state.bound[k] == st.bound[k]
    decreases |keys|
  {
    if keys != [] {
      var st1 := AddStub(st, Parser.ClassValue(st.stubs.items[keys[0]]), None, false).value;
      assert forall i :: 0 <= i < |keys[1..]| ==> keys[1..][i] == keys[i + 1];
      assert forall i :: 0 <= i < |keys[1..]| ==> KeyedByName(st1, keys[1..][i]);
      BindAllBindsKeys(st1, keys[1..]);
      assert forall k :: k in keys <==> k == keys[0] || k in keys[1..];
    }
  }

  /** `from_module(module, *names)`: parse, then bind only the names that
      were not in `stubs` before the call. */
  function FromModule(st: ClientState, m: Parser.Module, names: seq<string>): (r: Outcome<Loaded>)
    ensures var p := ParseModule(st, m, names);
      && (p.Raised() ==> r == p)
      && r.state.proto == p.state.proto
      && r.state.client == p.state.client.(bound := r.state.client.bound)
  {
    var p := ParseModule(st, m, names);
    if p.Raised() then p
    else
      var held := p.state.client;
      var added := Added(held.stubs.keys, st.stubs.items);
      AddedHeld(held.stubs, added, st.stubs.items);
      var b := BindAll(held, added);
      Outcome(Loaded(b.state, p.state.proto), b.error)
  }

  /** When the module loads and every stub class it brings carries its
      generated name, `from_module` binds exactly the stubs that were new
      to the client, and leaves every earlier binding as it was. */
  lemma FromModuleBindsAdded(st: ClientState, m: Parser.Module, names: seq<string>)
    requires !ParseModule(st, m, names).Raised()
    requires forall k :: k in ParseModule(st, m, names).state.client.stubs.items && k !in st.stubs.items ==>
      KeyedByName(ParseModule(st, m, names).state.client, k)
    ensures !FromModule(st, m, names).Raised()
    ensures forall k :: k in FromModule(st, m, names).state.client.bound <==>
      k in st.bound || (k in ParseModule(st, m, names).state.client.stubs.items && k !in st.stubs.items)
    ensures forall k :: k in st.bound && k in st.stubs.items ==> FromModule(st, m, names).state.client.bound[k] == st.bound[k]
  {
    var p := ParseModule(st, m, names);
    var held := p.state.client;
    var added := Added(held.stubs.keys, st.stubs.items);
    AddedHeld(held.stubs, added, st.stubs.items);
    assert forall i :: 0 <= i < |added| ==> KeyedByName(held, added[i]) by {
      forall i | 0 <= i < |added| ensures KeyedByName(held, added[i]) {
        assert added[i] in added;
      }
    }
    BindAllBindsKeys(held, added);
    var b := BindAll(held, added);
    assert FromModule(st, m, names) == Outcome(Loaded(b.state, p.state.proto), b.error);
  }

  /** `GRPCClient(proto_py_module, address, stub_names)`. */
  function NewClient(flavour: Flavour, proto: Option<Parser.Module>, address: Option<string>, names: seq<string>): (r: Outcome<ClientState>)
    ensures r.state.channel == Channel(if address.Some? && address.value != [] then address.value else DefaultAddress)
    ensures r.state.flavour == flavour && r.state.hook == None
    ensures proto.None? ==> r.state.stubs.keys == [] && r.state.bound == map[]
    ensures proto.None? ==> (r.Raised() <==> names != []) && (r.Raised() ==> r.error == Some(NamesWithoutModule))
    ensures proto.Some? ==> r.error == FromModule(Fresh0(flavour, r.state.channel), proto.value, names).error
  {
    var channel := Channel(if address.Some? && address.value != [] then address.value else DefaultAddress);
    var st := Fresh0(flavour, channel);
    if proto.Some? then
      var f := FromModule(st, proto.value, names);
      Outcome(f.state.client, f.error)
    else if names != [] then Outcome(st, Some(NamesWithoutModule))
    else Outcome(st, None)
  }

  /** A client with nothing registered. */
  function Fresh0(flavour: Flavour, channel: Channel): (st: ClientState)
    ensures st.stubs.keys == [] && st.bound == map[] && st.messages == map[] && st.hook == None
  {
    ClientState(flavour, Empty(), map[], map[], None, channel)
  }

  // ---------------------------------------------------------------------
  // `filter`.

  /** The stubs `filter(*names, include)` deletes, as documented: with
      `include` those NOT named, without it those named. */
  function Documented(keys: seq<string>, names: seq<string>, keep: bool): (r: seq<string>)
    ensures forall k :: k in r <==> k in keys && (k in names <==> !keep)
    ensures Distinct(keys) ==> Distinct(r)
    decreases |keys|
  {
    if keys == [] then []
    else
      var t := Documented(keys[1..], names, keep);
      DistinctTail(keys);
      if (keys[0] in names) == !keep then [keys[0]] + t else t
  }

  /** The stubs `filter` deletes as written: the hooked client follows the
      documentation; the direct client computes `stubs - names` in both
      branches. */
  function Doomed(flavour: Flavour, keys: seq<string>, names: seq<string>, keep: bool): (r: seq<string>)
    ensures flavour == Hooked ==> r == Documented(keys, names, keep)
    ensures flavour == Direct ==> r == Documented(keys, names, true)
  {
    if flavour == Hooked then Documented(keys, names, keep) else Documented(keys, names, true)
  }

  /** The direct client ignores `include`: excluding the named stubs deletes
      the others instead, exactly as including them would. */
  lemma DirectFilterIgnoresInclude(keys: seq<string>, names: seq<string>)
    ensures Doomed(Direct, keys, names, false) == Doomed(Direct, keys, names, true)
    ensures forall k :: k in keys && k in names ==> k !in Doomed(Direct, keys, names, false) && k in Documented(keys, names, false)
  {
  }

  /** A concrete case: one stub, excluded by name, survives the direct
      client's filter and is deleted by the documented one. */
  lemma DirectFilterCounterexample()
    ensures Doomed(Direct, ["Greeter"], ["Greeter"], false) == []
    ensures Documented(["Greeter"], ["Greeter"], false) == ["Greeter"]
  {
  }

  /** `delattr(self, k)` for each doomed name, in order: a name not bound
      raises `AttributeError`, after the earlier deletions. The names are
      those of a set, so none repeats. */
  function DeleteAll(bound: map<string, BoundStub>, keys: seq<string>): (r: Outcome<map<string, BoundStub>>)
    requires Distinct(keys)
    ensures !r.Raised() <==> forall k :: k in keys ==> k in bound
    ensures !r.Raised() ==> r.state == bound - (set k | k in keys)
    ensures r.Raised() ==> exists k :: k in keys && k !in bound && r.error == Some(MissingAttribute(k))
    ensures forall k :: k in r.state ==> k in bound && r.state[k] == bound[k]
    decreases |keys|
  {
    if keys == [] then Outcome(bound, None)
    else if keys[0] !in bound then Outcome(bound, Some(MissingAttribute(keys[0])))
    else
      DistinctTail(keys);
      assert forall k :: k in keys <==> k == keys[0] || k in keys[1..];
      DeleteAll(bound - {keys[0]}, keys[1..])
  }

  /** `filter(*names, include)`: only bound attributes change; `stubs` is
      untouched. */
  function Filter(st: ClientState, names: seq<string>, keep: bool): (r: Outcome<ClientState>)
    ensures r.state == st.(bound := r.state.bound)
    ensures var doomed := Doomed(st.flavour, st.stubs.keys, names, keep);
      && (!r.Raised() <==> forall k :: k in doomed ==> k in st.bound)
      && (!r.Raised() ==> forall k :: k in r.state.bound <==> k in st.bound && k !in doomed)
      && (r.Raised() ==> exists k :: k in doomed && k !in st.bound && r.error == Some(MissingAttribute(k)))
    ensures forall k :: k in r.state.bound ==> k in st.bound && r.state.bound[k] == st.bound[k]
  {
    var doomed := Doomed(st.flavour, st.stubs.keys, names, keep);
    assert Distinct(st.stubs.keys);
    var d := DeleteAll(st.bound, doomed);
    Outcome(st.(bound := d.state), d.error)
  }

  /** The hooked client's filter, on a client whose every stub is bound,
      keeps exactly the documented stubs bound. */
  lemma FilterAsDocumented(st: ClientState, names: seq<string>, keep: bool)
    requires st.flavour == Hooked
    requires forall k :: k in st.stubs.items ==> k in st.bound
    ensures !Filter(st, names, keep).Raised()
    ensures forall k :: k in st.stubs.items ==>
      (k in Filter(st, names, keep).state.bound <==> (k in names <==> keep))
  {
  }

  // ---------------------------------------------------------------------
  // `StubWrapper.use_request_hook` and `wrapper_hook`.

  /** A per-call keyword value, as far as its truth matters. */
  datatype KwValue = Falsy | Truthy(id: nat)

  /** An attribute of a stub instance: a unary-unary multi-callable, or anything else. */
  datatype Attribute = UnaryUnary(callable: nat) | OtherAttribute(id: nat)

  /** What attribute access on a wrapped stub returns: the hook wrapper
      around a unary callable, or the attribute itself. */
  datatype Looked = HookWrapper(original: nat, client: nat, hook: Option<Hook>) | AsIs(attr: Attribute)

  /** What one call through the wrapper does: calls the hook with the
      client, the original callable and the arguments, or calls the
      original directly. */
  datatype Call =
    | HookCall(hook: Hook, client: nat, original: nat, args: seq<nat>, kwargs: Dict<string, KwValue>)
    | DirectCall(original: nat, args: seq<nat>, kwargs: Dict<string, KwValue>)

  const HookKeyword: string := "request_hook"

  /** `use_request_hook(self, item, client, request_hook)`. */
  function UseRequestHook(attr: Attribute, client: nat, hook: Option<Hook>): (r: Looked)
    ensures r.AsIs? <==> !attr.UnaryUnary?
    ensures r.AsIs? ==> r.attr == attr
    ensures r.HookWrapper? ==> r.original == attr.callable && r.client == client && r.hook == hook
  {
    if attr.UnaryUnary? then HookWrapper(attr.callable, client, hook) else AsIs(attr)
  }

  /** `wrapper_hook(*args, **kwargs)`: a truthy `request_hook` keyword is
      popped and used; otherwise the configured hook, with the keywords
      passed on as given; with neither, the original is called. */
  function CallWrapper(w: Looked, args: seq<nat>, kwargs: Dict<string, KwValue>): (r: Call)
    requires w.HookWrapper?
    ensures r.original == w.original && r.args == args
    ensures HookKeyword in kwargs.items && kwargs.items[HookKeyword].Truthy? ==>
      r == HookCall(Hook(kwargs.items[HookKeyword].id), w.client, w.original, args, Remove(kwargs, HookKeyword))
    ensures !(HookKeyword in kwargs.items && kwargs.items[HookKeyword].Truthy?) ==>
      r.kwargs == kwargs && (r.HookCall? <==> w.hook.Some?) && (r.HookCall? ==> r.hook == w.hook.value && r.client == w.client)
  {
    if HookKeyword in kwargs.items && kwargs.items[HookKeyword].Truthy? then
      HookCall(Hook(kwargs.items[HookKeyword].id), w.client, w.original, args, Remove(kwargs, HookKeyword))
    else if w.hook.Some? then HookCall(w.hook.value, w.client, w.original, args, kwargs)
    else DirectCall(w.original, args, kwargs)
  }

  /** Whatever is called receives every keyword but a truthy
      `request_hook`, in the caller's order. */
  lemma CallWrapperPassesKeywords(w: Looked, args: seq<nat>, kwargs: Dict<string, KwValue>)
    requires w.HookWrapper?
    ensures var c := CallWrapper(w, args, kwargs);
      && (forall k :: k in kwargs.items && k != HookKeyword ==> k in c.kwargs.items && c.kwargs.items[k] == kwargs.items[k])
      && (HookKeyword in c.kwargs.items ==> c.kwargs.items[HookKeyword] == Falsy)
      && (c.kwargs.keys == kwargs.keys || c.kwargs.keys == Without(kwargs.keys, HookKeyword))
  {
  }

  /** `add_request_hook(None)` switches the hook off again: a unary call
      through a stub bound afterwards, with no truthy `request_hook`
      keyword, goes straight to the original callable. */
  lemma HookResetCallsDirect(st: ClientState, key: string, attr: Attribute, client: nat, args: seq<nat>, kwargs: Dict<string, KwValue>)
    requires st.flavour == Hooked && key in st.stubs.items && key != []
    requires attr.UnaryUnary?
    requires !(HookKeyword in kwargs.items && kwargs.items[HookKeyword].Truthy?)
    ensures var b := AddStub(AddRequestHook(st, None).value, Parser.ClassValue(st.stubs.items[key]), Some(key), false).value.bound[key];
      b.Wrapped? && CallWrapper(UseRequestHook(attr, client, b.hook), args, kwargs) == DirectCall(attr.callable, args, kwargs)
  {
    HookReadAtBindTime(st, None, key);
  }
}
