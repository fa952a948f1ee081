/** `GRPCParser.parse_module` (`easygrpc/parser.py`): reads a grpc-generated
    `_pb2` module and reports, per service, its definition class, the
    message classes it uses and its method names.

    Python reflection is replaced by plain values: a module is its members
    in `inspect.getmembers` order plus the three module attributes the parser
    touches; a class is its name and attribute table; a `beta_create_*`
    function is the keyword arguments it passes to the beta options call. */
module Parser {
  import opened Wrappers
  import opened Strings
  import opened Dicts

  /** `type_instance`: `"service"` or `"stub"`. */
  datatype Role = Service | Stub

  /** `type_instance == "service" and "Servicer" or "Stub"`. */
  function DefinitionSuffix(role: Role): string {
    if role == Service then "Servicer" else "Stub"
  }

  /** `{"service": "server", "stub": "stub"}[type_instance]`. */
  function CreatorPostfix(role: Role): string {
    if role == Service then "server" else "stub"
  }

  /** The keyword arguments the recorder reads, response side first. */
  function ResponseOption(role: Role): string {
    if role == Service then "response_serializers" else "response_deserializers"
  }

  function RequestOption(role: Role): string {
    if role == Service then "request_deserializers" else "request_serializers"
  }

  /** The options call a creator of the role makes on `beta_implementations`. */
  function OptionsCall(role: Role): string {
    if role == Service then "server_options" else "stub_options"
  }

  /** A class attribute: one of the class's own callables, or the parser's
      stand-in that returns a message name whatever it is given. */
  datatype Attr = Original(tag: nat) | ReturnsName(name: string)

  /** A class: its `__name__` and its attribute table. */
  datatype ClassDef = ClassDef(className: string, attrs: map<string, Attr>)

  /** One entry of a (de)serializer dict in a generated creator body,
      `('pkg.Service', 'Method'): Message.FromString`: the callable is read
      from the module member `member` when the creator runs. A class imported
      from another module is not a member. */
  datatype Entry = Entry(service: string, rpc: string, member: string, attr: string)

  /** A function: its `__name__` and, for a `beta_create_*` creator, the
      keyword arguments of its `*_options` call. */
  datatype FunctionDef = FunctionDef(funcName: string, options: map<string, seq<Entry>>)

  datatype Value = ClassValue(cls: ClassDef) | FunctionValue(fn: FunctionDef) | OtherValue

  /** `beta_implementations`: grpc's own beta surface, or the parser's
      recording stand-in for one role. */
  datatype Beta = RealBeta | StandIn(role: Role)

  /** A generated module: its members by name in `getmembers` order, and the
      attributes `beta_implementations`, `patched` (present or not) and
      `real_beta_implementations`. */
  datatype Module = Module(members: Dict<string, Value>, beta: Option<Beta>, patched: bool, realBeta: Option<Beta>)

  // ---------------------------------------------------------------------
  // `_patch_proto_py_module`: the save/restore toggle.

  /** Without `patched`: save `beta_implementations`, install the stand-in
      and set `patched` and `real_beta_implementations`. With `patched`:
      delete it, put the saved object back and delete the saved copy. Reads
      that fail raise `AttributeError`; `patched` is already gone by then. */
  function Toggle(role: Role, m: Module): (r: Outcome<Module>)
    ensures r.state.members == m.members
    ensures !m.patched && m.beta.None? ==> r == Outcome(m, Some(MissingAttribute("beta_implementations")))
    ensures r.Raised() ==> r.state.beta == m.beta
    ensures !r.Raised() ==> r.state.patched == !m.patched
  {
    if !m.patched then
      if m.beta.None? then Outcome(m, Some(MissingAttribute("beta_implementations")))
      else Outcome(m.(beta := Some(StandIn(role)), patched := true, realBeta := m.beta), None)
    else
      var m1 := m.(patched := false);
      if m.realBeta.None? then Outcome(m1, Some(MissingAttribute("real_beta_implementations")))
      else Outcome(m1.(beta := m.realBeta, realBeta := None), None)
  }

  /** Toggling an unpatched module twice gives it back unchanged exactly
      when it has `beta_implementations` and no `real_beta_implementations`
      of its own (the first toggle would overwrite that one and the second
      delete it). */
  lemma ToggleTwice(role: Role, m: Module)
    requires !m.patched
    ensures (Toggle(role, m).error.None? && Toggle(role, Toggle(role, m).state) == Outcome(m, None))
      <==> m.beta.Some? && m.realBeta.None?
  {
  }

  /** Toggling a module the parser left patched, then toggling it again,
      reinstalls a stand-in for the same role. The source builds a new
      `MockChannel` type each time, and the model does not tell two stand-ins
      for one role apart. */
  lemma ToggleTwicePatched(role: Role, m: Module)
    requires m.patched && m.realBeta.Some? && m.beta == Some(StandIn(role))
    ensures Toggle(role, Toggle(role, m).state) == Outcome(m, None)
  {
  }

  // ---------------------------------------------------------------------
  // Classification of members: `_check_service`, `_check_message`,
  // `_check_creator`, tried in that order.

  /** `_check_service`: a class whose `__name__` does not start with `Beta`
      and ends with the role's suffix. */
  predicate IsDefinitionClass(role: Role, v: Value) {
    v.ClassValue? && !StartsWith(v.cls.className, "Beta") && EndsWith(v.cls.className, DefinitionSuffix(role))
  }

  /** `_check_message`: a class having `IsInitialized` and `SerializeToString`. */
  predicate IsMessageClass(v: Value) {
    v.ClassValue? && "IsInitialized" in v.cls.attrs && "SerializeToString" in v.cls.attrs
  }

  /** `_check_creator`: a function whose `__name__` starts with `beta_create_`. */
  predicate IsCreatorFunction(v: Value) {
    v.FunctionValue? && StartsWith(v.fn.funcName, "beta_create_")
  }

  datatype Kind = Definition(key: string) | Message | Creator(key: string) | Ignored

  /** What the scan loop does with the member `name`. */
  function Classify(role: Role, name: string, v: Value): (k: Kind)
    ensures k.Definition? <==> IsDefinitionClass(role, v)
    ensures k.Message? <==> !IsDefinitionClass(role, v) && IsMessageClass(v)
    ensures k.Creator? <==> (!IsDefinitionClass(role, v) && !IsMessageClass(v) && IsCreatorFunction(v)
      && EndsWith(name, CreatorPostfix(role)))
    ensures k.Definition? ==> k.key == ReplaceAll(name, DefinitionSuffix(role), "")
    ensures k.Creator? ==> k.key == ReplaceAll(ReplaceAll(name, "beta_create_", ""), "_" + CreatorPostfix(role), "")
  {
    if IsDefinitionClass(role, v) then Definition(ReplaceAll(name, DefinitionSuffix(role), ""))
    else if IsMessageClass(v) then Message
    else if IsCreatorFunction(v) && EndsWith(name, CreatorPostfix(role)) then
      Creator(ReplaceAll(ReplaceAll(name, "beta_create_", ""), "_" + CreatorPostfix(role), ""))
    else Ignored
  }

  // ---------------------------------------------------------------------
  // Message patching.

  /** Save `FromString` and `SerializeToString` under a trailing `_` and
      replace both by callables that return the member name. */
  function PatchMessage(c: ClassDef, name: string): (r: ClassDef)
    requires "FromString" in c.attrs && "SerializeToString" in c.attrs
    ensures r.className == c.className
    ensures r.attrs.Keys == c.attrs.Keys + {"FromString_", "SerializeToString_"}
  {
    c.(attrs := c.attrs["FromString_" := c.attrs["FromString"]]
                       ["SerializeToString_" := c.attrs["SerializeToString"]]
                       ["FromString" := ReturnsName(name)]
                       ["SerializeToString" := ReturnsName(name)])
  }

  /** Put the saved callables back and delete the saved copies. */
  function RestoreMessage(c: ClassDef): (r: ClassDef)
    requires "FromString_" in c.attrs && "SerializeToString_" in c.attrs
    ensures r.className == c.className
    ensures "FromString_" !in r.attrs && "SerializeToString_" !in r.attrs
  {
    c.(attrs := (c.attrs["FromString" := c.attrs["FromString_"]]
                        ["SerializeToString" := c.attrs["SerializeToString_"]])
                - {"FromString_", "SerializeToString_"})
  }

  /** A message class that has no attributes of the saved-copy names comes
      back from a patch and a restore with each attribute holding the callable
      it held before; one that has them loses them. */
  lemma RestorePatch(c: ClassDef, name: string)
    requires "FromString" in c.attrs && "SerializeToString" in c.attrs
    ensures RestoreMessage(PatchMessage(c, name)) == c <==> "FromString_" !in c.attrs && "SerializeToString_" !in c.attrs
  {
    var r := RestoreMessage(PatchMessage(c, name));
    if "FromString_" !in c.attrs && "SerializeToString_" !in c.attrs {
      assert r.attrs == c.attrs;
    }
  }

  // ---------------------------------------------------------------------
  // The scan loop.

  /** What the loop has built: the module members (messages patched), the
      definition classes by key, the message classes by member name and the
      creators by key, each in insertion order. */
  datatype ScanState = ScanState(
    members: map<string, Value>,
    services: Dict<string, ClassDef>,
    messages: Dict<string, ClassDef>,
    creators: Dict<string, FunctionDef>)

  /** The loop body for one member. A message without `FromString` raises
      `AttributeError` before it is changed. */
  function ScanOne(role: Role, name: string, v: Value, st: ScanState): (r: Outcome<ScanState>)
    requires name in st.members
    ensures r.state.members.Keys == st.members.Keys
    ensures r.Raised() <==> Classify(role, name, v).Message? && "FromString" !in v.cls.attrs
    ensures r.Raised() ==> r.state == st && r.error == Some(MissingAttribute("FromString"))
    ensures !Classify(role, name, v).Message? ==> r.state.members == st.members && r.state.messages == st.messages
  {
    match Classify(role, name, v)
    case Definition(key) => Outcome(st.(services := Put(st.services, key, v.cls)), None)
    case Message =>
      if "FromString" !in v.cls.attrs then Outcome(st, Some(MissingAttribute("FromString")))
      else
        Outcome(st.(members := st.members[name := ClassValue(PatchMessage(v.cls, name))],
                    messages := Put(st.messages, name, v.cls)), None)
    case Creator(key) => Outcome(st.(creators := Put(st.creators, key, v.fn)), None)
    case Ignored => Outcome(st, None)
  }

  /** `for name, service_class in getmembers(proto_py_module)`, over the
      snapshot `items` taken before the loop. */
  function Scan(role: Role, items: seq<(string, Value)>, st: ScanState): (r: Outcome<ScanState>)
    requires forall i :: 0 <= i < |items| ==> items[i].0 in st.members
    ensures r.state.members.Keys == st.members.Keys
    ensures r.Raised() ==> r.error == Some(MissingAttribute("FromString"))
    decreases |items|
  {
    if items == [] then Outcome(st, None)
    else
      var o := ScanOne(role, items[0].0, items[0].1, st);
      if o.Raised() then o else Scan(role, items[1..], o.state)
  }

  /** The snapshot `getmembers` returns. */
  function Snapshot(d: Dict<string, Value>): (items: seq<(string, Value)>)
    ensures |items| == |d.keys|
    ensures forall i :: 0 <= i < |items| ==> items[i] == (d.keys[i], d.items[d.keys[i]])
  {
    seq(|d.keys|, i requires 0 <= i < |d.keys| => (d.keys[i], d.items[d.keys[i]]))
  }

  // ---------------------------------------------------------------------
  // Running the creators against the recording stand-in.

  /** What the recorder has collected: per service, the method names and
      the message names (in first-recorded order, standing for the set's
      iteration order). */
  datatype Recording = Recording(methods: map<string, set<string>>, messages: map<string, seq<string>>)

  function Record(rec: Recording, service: string, rpc: string, message: string): (r: Recording)
    ensures r.methods.Keys == rec.methods.Keys + {service}
    ensures service in r.messages && rpc in r.methods[service]
    ensures message in r.messages[service]
    ensures r.methods[service] == RecordedMethods(rec, service) + {rpc}
    ensures forall s :: s in rec.methods && s != service ==> s in r.methods && r.methods[s] == rec.methods[s]
    ensures forall s :: s in rec.messages && s != service ==> s in r.messages && r.messages[s] == rec.messages[s]
  {
    var ms := if service in rec.methods then rec.methods[service] else {};
    var ns := if service in rec.messages then rec.messages[service] else [];
    Recording(rec.methods[service := ms + {rpc}],
              rec.messages[service := if message in ns then ns else ns + [message]])
  }

  /** `mapper_methods.get(name_service, set())`. */
  function RecordedMethods(rec: Recording, service: string): set<string> {
    if service in rec.methods then rec.methods[service] else {}
  }

  /** `mapper_messages.get(name_service, set())`. */
  function RecordedNames(rec: Recording, service: string): seq<string> {
    if service in rec.messages then rec.messages[service] else []
  }

  /** Calling `serializer()` with no argument: the stand-in returns its
      message name; a class's own callable needs an argument and raises
      `TypeError`, as does one of a class from another module. */
  function CallSerializer(members: map<string, Value>, e: Entry): (r: Result<string>)
    ensures r.Ok? <==> (e.member in members && members[e.member].ClassValue?
      && e.attr in members[e.member].cls.attrs && members[e.member].cls.attrs[e.attr].ReturnsName?)
  {
    if e.member !in members || !members[e.member].ClassValue? then Err(CallFailed)
    else if e.attr !in members[e.member].cls.attrs then Err(MissingAttribute(e.attr))
    else match members[e.member].cls.attrs[e.attr]
      case ReturnsName(n) => Ok(n)
      case Original(_) => Err(CallFailed)
  }

  /** `check_use_messages`: every `((service, method), serializer)` entry
      adds the method and `serializer()` under the last dotted segment of
      the service name. */
  function RecordEntries(members: map<string, Value>, entries: seq<Entry>, rec: Recording): (r: Result<Recording>)
    decreases |entries|
  {
    if entries == [] then Ok(rec)
    else
      var e := entries[0];
      var message :- CallSerializer(members, e);
      RecordEntries(members, entries[1..], Record(rec, LastSegment(e.service, '.'), e.rpc, message))
  }

  /** `kwargs.get(key, {})`. */
  function OptionEntries(options: map<string, seq<Entry>>, key: string): seq<Entry> {
    if key in options then options[key] else []
  }

  /** The entries the recorder walks for one creator: response side, then request side. */
  function RoleEntries(role: Role, f: FunctionDef): seq<Entry> {
    OptionEntries(f.options, ResponseOption(role)) + OptionEntries(f.options, RequestOption(role))
  }

  /** `creator_obj(service_mock, pool=type_instance)`. With grpc's own beta
      surface the creator records nothing; with the stand-in of the other
      role its options call does not exist. */
  function RunCreator(role: Role, m: Module, members: map<string, Value>, f: FunctionDef, rec: Recording): (r: Result<Recording>)
  {
    match m.beta
    case None => Err(MissingAttribute("beta_implementations"))
    case Some(RealBeta) => Ok(rec)
    case Some(StandIn(r)) =>
      if r != role then Err(MissingAttribute(OptionsCall(role)))
      else RecordEntries(members, RoleEntries(role, f), rec)
  }

  /** The creators, in the order they were kept. */
  function RunCreators(role: Role, m: Module, members: map<string, Value>, creators: seq<FunctionDef>, rec: Recording): (r: Result<Recording>)
    ensures creators == [] ==> r == Ok(rec)
    ensures m.beta == Some(RealBeta) ==> r == Ok(rec)
    ensures m.beta.None? && creators != [] ==> r == Err(MissingAttribute("beta_implementations"))
    ensures m.beta.Some? && m.beta.value.StandIn? && m.beta.value.role != role && creators != [] ==>
      r == Err(MissingAttribute(OptionsCall(role)))
    decreases |creators|
  {
    if creators == [] then Ok(rec)
    else
      var rec1 :- RunCreator(role, m, members, creators[0], rec);
      RunCreators(role, m, members, creators[1..], rec1)
  }

  /** The values of a dict, in key order. */
  function Values<V>(d: Dict<string, V>): (vs: seq<V>)
    ensures |vs| == |d.keys|
    ensures forall i :: 0 <= i < |vs| ==> vs[i] == d.items[d.keys[i]]
  {
    seq(|d.keys|, i requires 0 <= i < |d.keys| => d.items[d.keys[i]])
  }

  // ---------------------------------------------------------------------
  // The result.

  /** `{"<role>_class": ..., "messages": ..., "methods": ...}` for one service. */
  datatype Descriptor = Descriptor(cls: ClassDef, messages: map<string, ClassDef>, methods: set<string>)

  /** `{name: messages[name] for name in mapper_messages.get(name_service, set())}`:
      a recorded name that is not a message of this module raises `KeyError`. */
  function MessagesOf(names: seq<string>, messages: Dict<string, ClassDef>): (r: Result<map<string, ClassDef>>)
    ensures r.Ok? <==> forall i :: 0 <= i < |names| ==> names[i] in messages.items
    ensures r.Ok? ==> r.value.Keys == set n | n in names
    ensures r.Ok? ==> forall n :: n in r.value ==> r.value[n] == messages.items[n]
  {
    if exists i :: 0 <= i < |names| && names[i] !in messages.items then
      Err(MissingKey(FirstAbsent(names, messages.items.Keys)))
    else Ok(map n | n in names :: messages.items[n])
  }

  /** The first of `names` outside `keys`. */
  function FirstAbsent(names: seq<string>, keys: set<string>): (n: string)
    requires exists i :: 0 <= i < |names| && names[i] !in keys
    ensures n in names && n !in keys
  {
    if names[0] !in keys then names[0] else FirstAbsent(names[1..], keys)
  }

  /** The final mapper, one entry per definition key, in key order. */
  function Describe(keys: seq<string>, services: map<string, ClassDef>, messages: Dict<string, ClassDef>, rec: Recording, acc: Dict<string, Descriptor>): (r: Result<Dict<string, Descriptor>>)
    requires forall i :: 0 <= i < |keys| ==> keys[i] in services
    ensures r.Ok? ==> r.value.items.Keys == acc.items.Keys + set k | k in keys
    ensures r.Ok? ==> forall k :: k in acc.items && k !in keys ==> r.value.items[k] == acc.items[k]
    decreases |keys|
  {
    if keys == [] then Ok(acc)
    else
      var k := keys[0];
      var msgs :- MessagesOf(RecordedNames(rec, k), messages);
      var r := Describe(keys[1..], services, messages, rec, Put(acc, k, Descriptor(services[k], msgs, RecordedMethods(rec, k))));
      ElementsCons(keys);
      r
  }

  lemma ElementsCons(keys: seq<string>)
    requires |keys| > 0
    ensures (set k | k in keys) == {keys[0]} + set k | k in keys[1..]
  {
    assert forall k :: k in keys <==> k == keys[0] || k in keys[1..] by {
      assert keys == [keys[0]] + keys[1..];
    }
  }

  /** Put every message's saved callables back, in message order. */
  function RestoreAll(members: map<string, Value>, names: seq<string>): (r: map<string, Value>)
    requires forall i :: 0 <= i < |names| ==> Restorable(members, names[i])
    requires forall i, j :: 0 <= i < j < |names| ==> names[i] != names[j]
    ensures r.Keys == members.Keys
    ensures forall k :: k in members && k !in names ==> r[k] == members[k]
    decreases |names|
  {
    if names == [] then members
    else
      var n := names[0];
      assert Restorable(members, n);
      var members1 := members[n := ClassValue(RestoreMessage(members[n].cls))];
      assert forall i :: 1 <= i < |names| ==> Restorable(members1, names[i]) by {
        forall i | 1 <= i < |names| ensures Restorable(members1, names[i]) {
          assert names[i] != n && Restorable(members, names[i]);
        }
      }
      RestoreAll(members1, names[1..])
  }

  /** The member `n` is a class carrying both saved copies. */
  predicate Restorable(members: map<string, Value>, n: string) {
    n in members && members[n].ClassValue? && "FromString_" in members[n].cls.attrs && "SerializeToString_" in members[n].cls.attrs
  }

  /** What `parse_module` leaves behind: the module as it is afterwards and
      what the call returned or raised. */
  datatype ParseOutcome = ParseOutcome(after: Module, result: Result<Dict<string, Descriptor>>)

  function EmptyScan(m: Module): ScanState {
    ScanState(m.members.items, Empty(), Empty(), Empty())
  }

  function EmptyRecording(): Recording {
    Recording(map[], map[])
  }

  /** The module with its members replaced by `items` (same names). */
  function WithMembers(m: Module, items: map<string, Value>): (r: Module)
    requires items.Keys == m.members.items.Keys
    ensures r.members.keys == m.members.keys && r.members.items == items
  {
    m.(members := RawDict(m.members.keys, items))
  }

  /** `GRPCParser.parse_module(type_instance, proto_py_module)`. Nothing is
      undone when a step raises. */
  function Parse(role: Role, m: Module): (r: ParseOutcome)
    ensures r.after.members.keys == m.members.keys
    ensures r.result.Ok? ==> r.after.patched == m.patched
    ensures !m.patched && m.beta.None? ==> r == ParseOutcome(m, Err(MissingAttribute("beta_implementations")))
  {
    var t1 := Toggle(role, m);
    if t1.Raised() then ParseOutcome(t1.state, Err(t1.error.value))
    else
      var sc := Scan(role, Snapshot(m.members), EmptyScan(m));
      var scanned := WithMembers(t1.state, sc.state.members);
      if sc.Raised() then ParseOutcome(scanned, Err(sc.error.value))
      else
        ScanRestorable(role, Snapshot(m.members), EmptyScan(m));
        Finish(role, scanned, sc.state)
  }

  /** The steps after the scan: run the creators, build the mapper, restore
      the messages and toggle the module back. */
  function Finish(role: Role, scanned: Module, st: ScanState): (r: ParseOutcome)
    requires scanned.members.items == st.members
    requires forall k :: k in st.messages.items ==> Restorable(st.members, k)
    ensures r.after.members.keys == scanned.members.keys
    ensures r.result.Ok? ==> r.after.patched == !scanned.patched
  {
    match RunCreators(role, scanned, st.members, Values(st.creators), EmptyRecording())
    case Err(e) => ParseOutcome(scanned, Err(e))
    case Ok(rec) =>
      assert st.services.Valid();
      match Describe(st.services.keys, st.services.items, st.messages, rec, Empty())
      case Err(e) => ParseOutcome(scanned, Err(e))
      case Ok(ds) =>
        assert st.messages.Valid();
        var restored := WithMembers(scanned, RestoreAll(st.members, st.messages.keys));
        var t2 := Toggle(role, restored);
        if t2.Raised() then ParseOutcome(t2.state, Err(t2.error.value))
        else ParseOutcome(t2.state, Ok(ds))
  }

  // ---------------------------------------------------------------------
  // Facts about the scan that `Parse` needs to be well defined.

  /** One step keeps every collected message patched and adds at most the
      member it looked at. */
  lemma ScanOneRestorable(role: Role, name: string, v: Value, st: ScanState)
    requires name in st.members && name !in st.messages.items
    requires forall k :: k in st.messages.items ==> Restorable(st.members, k)
    ensures var r := ScanOne(role, name, v, st).state;
      (forall k :: k in r.messages.items ==> Restorable(r.members, k))
      && forall k :: k in r.messages.items ==> k == name || k in st.messages.items
  {
    var r := ScanOne(role, name, v, st).state;
    forall k | k in r.messages.items ensures Restorable(r.members, k) {
      if k != name {
        assert k in st.messages.items;
        assert r.members[k] == st.members[k];
      }
    }
  }

  /** Every collected message is patched in the scanned members. */
  lemma {:induction false} ScanRestorable(role: Role, items: seq<(string, Value)>, st: ScanState)
    requires forall i :: 0 <= i < |items| ==> items[i].0 in st.members
    requires forall k :: k in st.messages.items ==> Restorable(st.members, k)
    requires forall i :: 0 <= i < |items| ==> items[i].0 !in st.messages.items
    requires forall i, j :: 0 <= i < j < |items| ==> items[i].0 != items[j].0
    ensures forall k :: k in Scan(role, items, st).state.messages.items ==> Restorable(Scan(role, items, st).state.members, k)
    decreases |items|
  {
    if items != [] {
      var o := ScanOne(role, items[0].0, items[0].1, st);
      ScanOneRestorable(role, items[0].0, items[0].1, st);
      if !o.Raised() {
        var st1 := o.state;
        assert forall i :: 0 <= i < |items[1..]| ==> items[1..][i].0 !in st1.messages.items by {
          forall i | 0 <= i < |items[1..]| ensures items[1..][i].0 !in st1.messages.items {
            assert items[1..][i] == items[i + 1];
          }
        }
        ScanRestorable(role, items[1..], st1);
      }
    }
  }

  // ---------------------------------------------------------------------
  // What the scan collects, member by member.

  /** The first snapshot entry named `k`. */
  function Find(items: seq<(string, Value)>, k: string): (r: Option<Value>)
    ensures r.None? <==> forall i :: 0 <= i < |items| ==> items[i].0 != k
    ensures r.Some? ==> exists i :: 0 <= i < |items| && items[i] == (k, r.value)
  {
    if items == [] then None
    else if items[0].0 == k then
      assert items[0] == (k, items[0].1);
      Some(items[0].1)
    else
      var r := Find(items[1..], k);
      assert forall i :: 1 <= i < |items| ==> items[i] == items[1..][i - 1];
      r
  }

  /** `getmembers` lists every member once, with its value. */
  lemma {:induction false} FindSnapshot(d: Dict<string, Value>, k: string)
    requires k in d.items
    ensures Find(Snapshot(d), k) == Some(d.items[k])
  {
    var items := Snapshot(d);
    var r := Find(items, k);
    assert k in d.keys;
    var j :| 0 <= j < |d.keys| && d.keys[j] == k;
    assert items[j].0 == k;
    var i :| 0 <= i < |items| && items[i] == (k, r.value);
    assert d.keys[i] == k;
  }

  /** Only members are found in the snapshot. */
  lemma FindSnapshotSome(d: Dict<string, Value>, k: string)
    requires Find(Snapshot(d), k).Some?
    ensures k in d.items
  {
    var items := Snapshot(d);
    var i :| 0 <= i < |items| && items[i] == (k, Find(items, k).value);
    assert d.keys[i] == k;
  }

  /** The scan treats the snapshot entry named `k` as a message. */
  predicate IsMessageAt(role: Role, items: seq<(string, Value)>, k: string) {
    Find(items, k).Some? && Classify(role, k, Find(items, k).value).Message?
  }

  /** `v` is the message class `orig` after patching under the name `k`. */
  predicate PatchedFrom(v: Value, orig: Value, k: string) {
    orig.ClassValue? && "FromString" in orig.cls.attrs && "SerializeToString" in orig.cls.attrs
      && v == ClassValue(PatchMessage(orig.cls, k))
  }

  /** Snapshot names are distinct, present among the members and not yet collected. */
  predicate ScanReady(items: seq<(string, Value)>, st: ScanState) {
    (forall i :: 0 <= i < |items| ==> items[i].0 in st.members && items[i].0 !in st.messages.items)
    && forall i, j :: 0 <= i < j < |items| ==> items[i].0 != items[j].0
  }

  /** One scan step on the member `n`: it collects and patches `n` when it
      is a message and touches nothing else. */
  lemma ScanOneMessages(role: Role, n: string, v: Value, st: ScanState)
    requires n in st.members && n !in st.messages.items
    requires !ScanOne(role, n, v, st).Raised()
    ensures var r := ScanOne(role, n, v, st).state;
      forall k :: k in r.messages.items <==> k in st.messages.items || (k == n && Classify(role, n, v).Message?)
    ensures var r := ScanOne(role, n, v, st).state;
      Classify(role, n, v).Message? ==> r.messages.items[n] == v.cls && PatchedFrom(r.members[n], v, n)
    ensures var r := ScanOne(role, n, v, st).state;
      forall k :: k in st.messages.items ==> r.messages.items[k] == st.messages.items[k]
    ensures var r := ScanOne(role, n, v, st).state;
      forall k :: k in st.members && (k != n || !Classify(role, n, v).Message?) ==> r.members[k] == st.members[k]
  {
  }

  /** A completed scan has collected exactly the message members. */
  lemma {:induction false} ScanCollects(role: Role, items: seq<(string, Value)>, st: ScanState)
    requires ScanReady(items, st)
    requires !Scan(role, items, st).Raised()
    ensures forall k :: k in Scan(role, items, st).state.messages.items <==> k in st.messages.items || IsMessageAt(role, items, k)
    decreases |items|
  {
    if items != [] {
      var n, v := items[0].0, items[0].1;
      ScanOneMessages(role, n, v, st);
      ScanRestShift(role, items);
      ScanStepReady(role, items, st);
      ScanCollects(role, items[1..], ScanOne(role, n, v, st).state);
    }
  }

  /** A completed scan holds each message under its own name with its
      original class, and has patched it in the members. */
  lemma {:induction false} ScanPatches(role: Role, items: seq<(string, Value)>, st: ScanState)
    requires ScanReady(items, st)
    requires !Scan(role, items, st).Raised()
    ensures var r := Scan(role, items, st).state;
      forall k :: IsMessageAt(role, items, k) ==>
        k in r.messages.items && r.messages.items[k] == Find(items, k).value.cls && PatchedFrom(r.members[k], Find(items, k).value, k)
    decreases |items|
  {
    ScanCollects(role, items, st);
    if items != [] {
      var n, v := items[0].0, items[0].1;
      var st1 := ScanOne(role, n, v, st).state;
      ScanOneMessages(role, n, v, st);
      ScanRestShift(role, items);
      ScanStepReady(role, items, st);
      ScanPatches(role, items[1..], st1);
      if Classify(role, n, v).Message? {
        ScanKeepsOthers(role, items[1..], st1);
        ScanKeepsCollected(role, items[1..], st1);
      }
    }
  }

  /** A completed scan leaves every member that is not a message alone. */
  lemma {:induction false} ScanKeepsOthers(role: Role, items: seq<(string, Value)>, st: ScanState)
    requires ScanReady(items, st)
    requires !Scan(role, items, st).Raised()
    ensures forall k :: k in st.members && !IsMessageAt(role, items, k) ==> Scan(role, items, st).state.members[k] == st.members[k]
    decreases |items|
  {
    if items != [] {
      var n, v := items[0].0, items[0].1;
      ScanOneMessages(role, n, v, st);
      ScanRestShift(role, items);
      ScanStepReady(role, items, st);
      ScanKeepsOthers(role, items[1..], ScanOne(role, n, v, st).state);
    }
  }

  /** A completed scan keeps what was collected before it. */
  lemma {:induction false} ScanKeepsCollected(role: Role, items: seq<(string, Value)>, st: ScanState)
    requires ScanReady(items, st)
    requires !Scan(role, items, st).Raised()
    ensures forall k :: k in st.messages.items ==> (k in Scan(role, items, st).state.messages.items
      && Scan(role, items, st).state.messages.items[k] == st.messages.items[k])
    decreases |items|
  {
    if items != [] {
      var n, v := items[0].0, items[0].1;
      ScanOneMessages(role, n, v, st);
      ScanStepReady(role, items, st);
      ScanKeepsCollected(role, items[1..], ScanOne(role, n, v, st).state);
    }
  }

  /** The rest of the snapshot is ready for the state after one step. */
  lemma ScanStepReady(role: Role, items: seq<(string, Value)>, st: ScanState)
    requires |items| > 0 && ScanReady(items, st)
    requires !ScanOne(role, items[0].0, items[0].1, st).Raised()
    ensures ScanReady(items[1..], ScanOne(role, items[0].0, items[0].1, st).state)
  {
    ScanOneMessages(role, items[0].0, items[0].1, st);
    assert forall i :: 0 <= i < |items[1..]| ==> items[1..][i] == items[i + 1];
  }

  /** Past the first entry, the snapshot looks the same to every other name. */
  lemma ScanRestShift(role: Role, items: seq<(string, Value)>)
    requires |items| > 0
    requires forall i, j :: 0 <= i < j < |items| ==> items[i].0 != items[j].0
    ensures Find(items[1..], items[0].0).None?
    ensures Find(items, items[0].0) == Some(items[0].1)
    ensures forall k :: k != items[0].0 ==> Find(items, k) == Find(items[1..], k)
    ensures forall k :: k != items[0].0 ==> (IsMessageAt(role, items, k) <==> IsMessageAt(role, items[1..], k))
  {
    assert forall i :: 0 <= i < |items[1..]| ==> items[1..][i] == items[i + 1];
  }

  // ---------------------------------------------------------------------
  // The parse puts the module back.

  /** `RestoreAll` restores exactly the named members. */
  lemma {:induction false} RestoreAllAt(members: map<string, Value>, names: seq<string>, k: string)
    requires forall i :: 0 <= i < |names| ==> Restorable(members, names[i])
    requires forall i, j :: 0 <= i < j < |names| ==> names[i] != names[j]
    requires k in members
    ensures k in names ==> Restorable(members, k) && RestoreAll(members, names)[k] == ClassValue(RestoreMessage(members[k].cls))
    ensures k !in names ==> RestoreAll(members, names)[k] == members[k]
    decreases |names|
  {
    if names != [] {
      var n := names[0];
      assert Restorable(members, n);
      var members1 := members[n := ClassValue(RestoreMessage(members[n].cls))];
      assert forall i :: 1 <= i < |names| ==> names[i] != n && Restorable(members, names[i]);
      RestoreAllAt(members1, names[1..], k);
      if k in names[1..] {
        assert k != n;
      } else if k == n {
        assert RestoreMessage(members[n].cls).attrs.Keys !! {"FromString_", "SerializeToString_"};
      }
    }
  }

  /** No class of the module carries attributes named like the parser's
      saved copies, and none holds one of its stand-ins: the state of a
      freshly imported generated module. */
  predicate Clean(m: Module) {
    forall k :: k in m.members.items && m.members.items[k].ClassValue? ==>
      ("FromString_" !in m.members.items[k].cls.attrs && "SerializeToString_" !in m.members.items[k].cls.attrs)
  }

  /** A module the parser has not touched: no `patched`, no saved beta. */
  predicate Untouched(m: Module) {
    !m.patched && m.realBeta.None?
  }

  /** The scan of `m`'s own snapshot meets `ScanReady`. */
  lemma SnapshotReady(m: Module)
    ensures ScanReady(Snapshot(m.members), EmptyScan(m))
  {
    var items := Snapshot(m.members);
    assert forall i :: 0 <= i < |items| ==> items[i].0 == m.members.keys[i];
  }

  /** After a completed scan of `m`, the member `k` is patched and collected
      with its original class when it is a message, and untouched otherwise. */
  lemma ScanFactsAt(role: Role, m: Module, k: string)
    requires !Scan(role, Snapshot(m.members), EmptyScan(m)).Raised()
    requires k in m.members.items
    ensures var st := Scan(role, Snapshot(m.members), EmptyScan(m)).state;
      if Classify(role, k, m.members.items[k]).Message? then
        k in st.messages.items && PatchedFrom(st.members[k], m.members.items[k], k)
        && st.messages.items[k] == m.members.items[k].cls
      else k !in st.messages.items && st.members[k] == m.members.items[k]
  {
    var items, st0 := Snapshot(m.members), EmptyScan(m);
    SnapshotReady(m);
    FindSnapshot(m.members, k);
    ScanCollects(role, items, st0);
    if IsMessageAt(role, items, k) {
      ScanPatches(role, items, st0);
    } else {
      ScanKeepsOthers(role, items, st0);
    }
  }

  /** Restoring the collected messages of a clean module after a completed
      scan gives back its members exactly. */
  lemma RestoredMembers(role: Role, m: Module)
    requires Clean(m)
    requires !Scan(role, Snapshot(m.members), EmptyScan(m)).Raised()
    ensures var st := Scan(role, Snapshot(m.members), EmptyScan(m)).state;
      st.messages.Valid() && (forall k :: k in st.messages.items ==> Restorable(st.members, k))
      && RestoreAll(st.members, st.messages.keys) == m.members.items
  {
    var st := Scan(role, Snapshot(m.members), EmptyScan(m)).state;
    ScanRestorable(role, Snapshot(m.members), EmptyScan(m));
    assert st.messages.Valid();
    forall k | k in m.members.items ensures PatchedOnlyAt(m.members.items, st.members, st.messages.keys, k) {
      ScanFactsAt(role, m, k);
    }
    RestoreAllInverts(m.members.items, st.members, st.messages.keys);
  }

  /** At `k`, `members` is `orig` with the message `k` patched when it is
      among `names`, and the same as `orig` otherwise. */
  ghost predicate PatchedOnlyAt(orig: map<string, Value>, members: map<string, Value>, names: seq<string>, k: string)
    requires k in orig && k in members
  {
    if k in names then
      PatchedFrom(members[k], orig[k], k)
      && "FromString_" !in orig[k].cls.attrs && "SerializeToString_" !in orig[k].cls.attrs
    else members[k] == orig[k]
  }

  /** Restoring the patched messages gives each attribute back the callable
      it held before the patch. */
  lemma RestoreAllInverts(orig: map<string, Value>, members: map<string, Value>, names: seq<string>)
    requires members.Keys == orig.Keys
    requires forall i :: 0 <= i < |names| ==> Restorable(members, names[i])
    requires forall i, j :: 0 <= i < j < |names| ==> names[i] != names[j]
    requires forall k :: k in orig ==> PatchedOnlyAt(orig, members, names, k)
    ensures RestoreAll(members, names) == orig
  {
    forall k | k in orig ensures RestoreAll(members, names)[k] == orig[k] {
      RestoreAllAt(members, names, k);
      if k in names {
        RestorePatch(orig[k].cls, k);
      }
    }
  }

  /** On success, the module after `parse_module` is the module before it:
      every message has its own callables back, the saved copies are gone,
      `beta_implementations` is the original and both helper attributes are
      deleted. */
  lemma ParseRestores(role: Role, m: Module)
    requires Untouched(m) && Clean(m)
    requires Parse(role, m).result.Ok?
    ensures Parse(role, m).after == m
  {
    var t1 := Toggle(role, m);
    var st := Scan(role, Snapshot(m.members), EmptyScan(m)).state;
    RestoredMembers(role, m);
    FinishOk(role, WithMembers(t1.state, st.members), st);
  }

  /** When the steps after the scan succeed, the module ends as the second
      toggle leaves the restored module. */
  lemma FinishOk(role: Role, scanned: Module, st: ScanState)
    requires scanned.members.items == st.members
    requires forall k :: k in st.messages.items ==> Restorable(st.members, k)
    requires Finish(role, scanned, st).result.Ok?
    ensures st.messages.Valid()
    ensures Finish(role, scanned, st).after == Toggle(role, WithMembers(scanned, RestoreAll(st.members, st.messages.keys))).state
  {
  }

  /** A failure after the first toggle leaves the module patched: the
      stand-in stays installed, grpc's beta surface stays saved, and when the
      scan itself completed every message keeps its name-returning
      callables. Nothing in `parse_module` undoes these on the way out. */
  lemma ParseFailureLeavesPatched(role: Role, m: Module)
    requires !m.patched && m.beta.Some?
    requires Parse(role, m).result.Err?
    ensures var a := Parse(role, m).after;
      a.patched && a.beta == Some(StandIn(role)) && a.realBeta == m.beta
    ensures !Scan(role, Snapshot(m.members), EmptyScan(m)).Raised() ==>
      forall k :: k in m.members.items && Classify(role, k, m.members.items[k]).Message? ==>
        PatchedFrom(Parse(role, m).after.members.items[k], m.members.items[k], k)
  {
    var sc := Scan(role, Snapshot(m.members), EmptyScan(m));
    var t1 := Toggle(role, m);
    ParseErrAfter(role, m);
    assert Parse(role, m).after.members.items == sc.state.members;
    if !sc.Raised() {
      forall k | k in m.members.items && Classify(role, k, m.members.items[k]).Message?
        ensures PatchedFrom(sc.state.members[k], m.members.items[k], k)
      {
        ScanFactsAt(role, m, k);
      }
    }
  }

  /** With `beta_implementations` in place the second toggle cannot fail,
      so a failing parse leaves the module as the scan left it, toggled once. */
  lemma ParseErrAfter(role: Role, m: Module)
    requires !m.patched && m.beta.Some?
    requires Parse(role, m).result.Err?
    ensures var sc := Scan(role, Snapshot(m.members), EmptyScan(m));
      Parse(role, m).after == WithMembers(Toggle(role, m).state, sc.state.members)
  {
  }

  // ---------------------------------------------------------------------
  // The mapper: one entry per definition class.

  /** A completed scan holds a definition key exactly when some entry of
      the snapshot is a definition class with that key. */
  lemma {:induction false} ScanServiceKeys(role: Role, items: seq<(string, Value)>, st: ScanState)
    requires forall i :: 0 <= i < |items| ==> items[i].0 in st.members
    requires !Scan(role, items, st).Raised()
    ensures forall key :: key in Scan(role, items, st).state.services.items <==>
      (key in st.services.items || DefinedIn(role, items, key))
    decreases |items|
  {
    if items != [] {
      var st1 := ScanOne(role, items[0].0, items[0].1, st).state;
      assert forall i :: 0 <= i < |items[1..]| ==> items[1..][i] == items[i + 1];
      ScanServiceKeys(role, items[1..], st1);
      forall key ensures DefinedIn(role, items, key) <==>
        (Classify(role, items[0].0, items[0].1) == Definition(key) || DefinedIn(role, items[1..], key))
      {
        DefinedInCons(role, items, key);
      }
    }
  }

  /** How the scan classifies each snapshot entry. */
  function Kinds(role: Role, items: seq<(string, Value)>): (r: seq<Kind>)
    ensures |r| == |items|
    ensures forall i :: 0 <= i < |items| ==> r[i] == Classify(role, items[i].0, items[i].1)
  {
    seq(|items|, i requires 0 <= i < |items| => Classify(role, items[i].0, items[i].1))
  }

  /** Some snapshot entry is a definition class with key `key`. */
  predicate DefinedIn(role: Role, items: seq<(string, Value)>, key: string) {
    Definition(key) in Kinds(role, items)
  }

  lemma DefinedInCons(role: Role, items: seq<(string, Value)>, key: string)
    requires |items| > 0
    ensures DefinedIn(role, items, key) <==>
      (Classify(role, items[0].0, items[0].1) == Definition(key) || DefinedIn(role, items[1..], key))
  {
    assert Kinds(role, items) == [Classify(role, items[0].0, items[0].1)] + Kinds(role, items[1..]);
  }

  /** The steps after the scan, when they succeed, return one entry per
      collected definition key. */
  lemma FinishKeys(role: Role, scanned: Module, st: ScanState)
    requires scanned.members.items == st.members
    requires forall k :: k in st.messages.items ==> Restorable(st.members, k)
    requires Finish(role, scanned, st).result.Ok?
    ensures Finish(role, scanned, st).result.value.items.Keys == st.services.items.Keys
  {
    assert st.services.Valid();
  }

  /** A successful parse returns exactly one entry per definition class of
      the module, under the class's member name with the role's suffix
      removed. */
  lemma ParseKeys(role: Role, m: Module)
    requires Parse(role, m).result.Ok?
    ensures forall key :: key in Parse(role, m).result.value.items <==>
      exists k :: k in m.members.items && Classify(role, k, m.members.items[k]) == Definition(key)
  {
    var st := ParseIsFinish(role, m);
    FinishKeys(role, WithMembers(Toggle(role, m).state, st.members), st);
    ScanServiceKeys(role, Snapshot(m.members), EmptyScan(m));
    forall key {
      SnapshotDefinition(role, m, key);
    }
  }

  /** A parse that got past the scan is the steps after it, on the scan's state. */
  lemma ParseIsFinish(role: Role, m: Module) returns (st: ScanState)
    requires Parse(role, m).result.Ok? || (!Toggle(role, m).Raised() && !Scan(role, Snapshot(m.members), EmptyScan(m)).Raised())
    ensures !Toggle(role, m).Raised() && !Scan(role, Snapshot(m.members), EmptyScan(m)).Raised()
    ensures st == Scan(role, Snapshot(m.members), EmptyScan(m)).state
    ensures forall k :: k in st.messages.items ==> Restorable(st.members, k)
    ensures Parse(role, m) == Finish(role, WithMembers(Toggle(role, m).state, st.members), st)
  {
    st := Scan(role, Snapshot(m.members), EmptyScan(m)).state;
    ScanRestorable(role, Snapshot(m.members), EmptyScan(m));
  }

  /** A definition key occurs in the snapshot exactly when some member has it. */
  lemma SnapshotDefinition(role: Role, m: Module, key: string)
    ensures DefinedIn(role, Snapshot(m.members), key) <==>
      exists k :: k in m.members.items && Classify(role, k, m.members.items[k]) == Definition(key)
  {
    var items := Snapshot(m.members);
    var kinds := Kinds(role, items);
    if DefinedIn(role, items, key) {
      var i :| 0 <= i < |kinds| && kinds[i] == Definition(key);
      var k := m.members.keys[i];
      assert k in m.members.items && Classify(role, k, m.members.items[k]) == Definition(key) by {
        assert items[i] == (k, m.members.items[k]);
      }
    } else {
      forall k | k in m.members.items
        ensures Classify(role, k, m.members.items[k]) != Definition(key)
      {
        var i :| 0 <= i < |m.members.keys| && m.members.keys[i] == k;
        assert items[i] == (k, m.members.items[k]);
        assert kinds[i] != Definition(key);
      }
    }
  }


  /** The mapper entry of each definition key joins its class, the message
      classes recorded under the key and the methods recorded under it. */
  lemma {:induction false} DescribeAt(keys: seq<string>, services: map<string, ClassDef>, messages: Dict<string, ClassDef>, rec: Recording, acc: Dict<string, Descriptor>, k: string)
    requires forall i :: 0 <= i < |keys| ==> keys[i] in services
    requires Describe(keys, services, messages, rec, acc).Ok?
    requires k in keys
    ensures MessagesOf(RecordedNames(rec, k), messages).Ok?
    ensures Describe(keys, services, messages, rec, acc).value.items[k]
      == Descriptor(services[k], MessagesOf(RecordedNames(rec, k), messages).value, RecordedMethods(rec, k))
    decreases |keys|
  {
    var k0 := keys[0];
    var msgs := MessagesOf(RecordedNames(rec, k0), messages);
    assert msgs.Ok?;
    var acc1 := Put(acc, k0, Descriptor(services[k0], msgs.value, RecordedMethods(rec, k0)));
    assert Describe(keys, services, messages, rec, acc) == Describe(keys[1..], services, messages, rec, acc1);
    if k in keys[1..] {
      DescribeAt(keys[1..], services, messages, rec, acc1, k);
    }
  }

  // ---------------------------------------------------------------------
  // What the recorder captures.

  /** The methods of the entries that belong to the service `k`. */
  ghost function ServedMethods(entries: seq<Entry>, k: string): set<string> {
    set e | e in entries && LastSegment(e.service, '.') == k :: e.rpc
  }

  /** What calling the serializers of the entries that belong to `k` returns. */
  ghost function ServedMessages(members: map<string, Value>, entries: seq<Entry>, k: string): set<string> {
    set e | e in entries && LastSegment(e.service, '.') == k && CallSerializer(members, e).Ok? :: CallSerializer(members, e).value
  }

  /** One recorded triple adds its method and message under its service only. */
  lemma RecordAt(rec: Recording, service: string, rpc: string, message: string, k: string)
    ensures RecordedMethods(Record(rec, service, rpc, message), k)
      == RecordedMethods(rec, k) + (if service == k then {rpc} else {})
    ensures (set n | n in RecordedNames(Record(rec, service, rpc, message), k))
      == (set n | n in RecordedNames(rec, k)) + (if service == k then {message} else {})
  {
  }

  /** The served sets of a non-empty entry list, split at its head. */
  lemma ServedSplit(members: map<string, Value>, entries: seq<Entry>, k: string)
    requires |entries| > 0 && CallSerializer(members, entries[0]).Ok?
    ensures var e := entries[0];
      ServedMethods(entries, k) == (if LastSegment(e.service, '.') == k then {e.rpc} else {}) + ServedMethods(entries[1..], k)
    ensures var e := entries[0];
      ServedMessages(members, entries, k)
        == (if LastSegment(e.service, '.') == k then {CallSerializer(members, e).value} else {}) + ServedMessages(members, entries[1..], k)
  {
    assert entries == [entries[0]] + entries[1..];
    assert forall e :: e in entries <==> e == entries[0] || e in entries[1..];
  }

  /** `check_use_messages` records, under each service, exactly the methods
      of the entries naming it and the names their serializers return. */
  lemma {:induction false} RecordEntriesSpec(members: map<string, Value>, entries: seq<Entry>, rec: Recording, k: string)
    requires RecordEntries(members, entries, rec).Ok?
    ensures RecordedMethods(RecordEntries(members, entries, rec).value, k) == RecordedMethods(rec, k) + ServedMethods(entries, k)
    ensures (set n | n in RecordedNames(RecordEntries(members, entries, rec).value, k))
      == (set n | n in RecordedNames(rec, k)) + ServedMessages(members, entries, k)
    decreases |entries|
  {
    if entries != [] {
      var e := entries[0];
      var message := CallSerializer(members, e).value;
      var rec1 := Record(rec, LastSegment(e.service, '.'), e.rpc, message);
      assert RecordEntries(members, entries, rec) == RecordEntries(members, entries[1..], rec1);
      RecordAt(rec, LastSegment(e.service, '.'), e.rpc, message, k);
      ServedSplit(members, entries, k);
      RecordEntriesSpec(members, entries[1..], rec1, k);
      SetAssoc(RecordedMethods(rec, k), if LastSegment(e.service, '.') == k then {e.rpc} else {}, ServedMethods(entries[1..], k));
      SetAssoc(set n | n in RecordedNames(rec, k), if LastSegment(e.service, '.') == k then {message} else {},
        ServedMessages(members, entries[1..], k));
    }
  }

  lemma SetAssoc(a: set<string>, b: set<string>, c: set<string>)
    ensures a + b + c == a + (b + c)
  {
  }

  /** The (de)serializer entries of the kept creators, in the order they run. */
  function Flatten(role: Role, creators: seq<FunctionDef>): seq<Entry> {
    if creators == [] then [] else RoleEntries(role, creators[0]) + Flatten(role, creators[1..])
  }

  /** Recording two entry lists one after the other is recording their concatenation. */
  lemma {:induction false} RecordEntriesAppend(members: map<string, Value>, a: seq<Entry>, b: seq<Entry>, rec: Recording)
    ensures RecordEntries(members, a + b, rec)
      == (match RecordEntries(members, a, rec) case Ok(r1) => RecordEntries(members, b, r1) case Err(e) => Err(e))
    decreases |a|
  {
    if a == [] {
      assert a + b == b;
    } else {
      assert (a + b)[0] == a[0] && (a + b)[1..] == a[1..] + b;
      var message := CallSerializer(members, a[0]);
      if message.Ok? {
        RecordEntriesAppend(members, a[1..], b, Record(rec, LastSegment(a[0].service, '.'), a[0].rpc, message.value));
      }
    }
  }

  /** With the stand-in of the role installed, running the creators records
      their entries in order, response side before request side. */
  lemma {:induction false} RunCreatorsRecords(role: Role, m: Module, members: map<string, Value>, creators: seq<FunctionDef>, rec: Recording)
    requires m.beta == Some(StandIn(role))
    ensures RunCreators(role, m, members, creators, rec) == RecordEntries(members, Flatten(role, creators), rec)
    decreases |creators|
  {
    if creators != [] {
      RecordEntriesAppend(members, RoleEntries(role, creators[0]), Flatten(role, creators[1..]), rec);
      var r1 := RecordEntries(members, RoleEntries(role, creators[0]), rec);
      if r1.Ok? {
        RunCreatorsRecords(role, m, members, creators[1..], r1.value);
      }
    }
  }

  /** A successful recording called every entry's serializer successfully. */
  lemma {:induction false} RecordEntriesCalls(members: map<string, Value>, entries: seq<Entry>, rec: Recording)
    requires RecordEntries(members, entries, rec).Ok?
    ensures forall e :: e in entries ==> CallSerializer(members, e).Ok?
    decreases |entries|
  {
    if entries != [] {
      var e := entries[0];
      RecordEntriesCalls(members, entries[1..], Record(rec, LastSegment(e.service, '.'), e.rpc, CallSerializer(members, e).value));
      assert forall x :: x in entries ==> x == e || x in entries[1..];
    }
  }

  /** Every class collected under a definition key is one that a snapshot
      entry defines with that key, unless it was there before the scan. */
  lemma {:induction false} ScanServiceValues(role: Role, items: seq<(string, Value)>, st: ScanState)
    requires forall i :: 0 <= i < |items| ==> items[i].0 in st.members
    requires !Scan(role, items, st).Raised()
    ensures var r := Scan(role, items, st).state;
      forall key :: key in r.services.items ==>
        (key in st.services.items && r.services.items[key] == st.services.items[key])
        || exists i :: 0 <= i < |items| && Classify(role, items[i].0, items[i].1) == Definition(key)
             && items[i].1 == ClassValue(r.services.items[key])
    decreases |items|
  {
    if items != [] {
      var st1 := ScanOne(role, items[0].0, items[0].1, st).state;
      var rest := items[1..];
      assert forall i :: 0 <= i < |rest| ==> rest[i] == items[i + 1];
      ScanServiceValues(role, rest, st1);
    }
  }

  /** Every creator the scan keeps is the function of a snapshot entry
      classified as a creator with its key, unless it was there before. */
  lemma {:induction false} ScanCreatorValues(role: Role, items: seq<(string, Value)>, st: ScanState)
    requires forall i :: 0 <= i < |items| ==> items[i].0 in st.members
    requires !Scan(role, items, st).Raised()
    ensures var r := Scan(role, items, st).state;
      forall key :: key in r.creators.items ==>
        (key in st.creators.items && r.creators.items[key] == st.creators.items[key])
        || exists i :: 0 <= i < |items| && Classify(role, items[i].0, items[i].1) == Creator(key)
             && items[i].1 == FunctionValue(r.creators.items[key])
    decreases |items|
  {
    if items != [] {
      var st1 := ScanOne(role, items[0].0, items[0].1, st).state;
      var rest := items[1..];
      assert forall i :: 0 <= i < |rest| ==> rest[i] == items[i + 1];
      ScanCreatorValues(role, rest, st1);
    }
  }

  /** The creators a completed scan of `m` keeps, in key order. */
  ghost function KeptCreators(role: Role, m: Module): seq<FunctionDef> {
    var sc := Scan(role, Snapshot(m.members), EmptyScan(m));
    if sc.Raised() then [] else Values(sc.state.creators)
  }

  /** `f` is the function of a member the scan classifies as a creator. */
  ghost predicate CreatorOf(role: Role, m: Module, f: FunctionDef) {
    exists k :: k in m.members.items && Classify(role, k, m.members.items[k]).Creator? && m.members.items[k] == FunctionValue(f)
  }

  /** `c` is the class of a member the scan classifies as a definition with key `key`. */
  ghost predicate DefinitionOf(role: Role, m: Module, key: string, c: ClassDef) {
    exists k :: k in m.members.items && Classify(role, k, m.members.items[k]) == Definition(key) && m.members.items[k] == ClassValue(c)
  }

  /** Each kept creator is a `beta_create_*` function of the module whose
      name ends with the role's postfix. */
  lemma KeptCreatorsAreCreators(role: Role, m: Module)
    requires !Scan(role, Snapshot(m.members), EmptyScan(m)).Raised()
    ensures forall j :: 0 <= j < |KeptCreators(role, m)| ==> CreatorOf(role, m, KeptCreators(role, m)[j])
  {
    forall j | 0 <= j < |KeptCreators(role, m)| ensures CreatorOf(role, m, KeptCreators(role, m)[j]) {
      KeptCreatorAt(role, m, j);
    }
  }

  lemma KeptCreatorAt(role: Role, m: Module, j: int)
    requires !Scan(role, Snapshot(m.members), EmptyScan(m)).Raised()
    requires 0 <= j < |KeptCreators(role, m)|
    ensures CreatorOf(role, m, KeptCreators(role, m)[j])
  {
    var items := Snapshot(m.members);
    var st := Scan(role, items, EmptyScan(m)).state;
    ScanCreatorValues(role, items, EmptyScan(m));
    var key := st.creators.keys[j];
    assert key in st.creators.items;
    var i :| 0 <= i < |items| && Classify(role, items[i].0, items[i].1) == Creator(key)
      && items[i].1 == FunctionValue(st.creators.items[key]);
    assert items[i].0 == m.members.keys[i] && items[i].0 in m.members.items;
  }

  /** No class of the module holds one of the parser's stand-ins. */
  predicate NoStandIns(m: Module) {
    forall k, a :: k in m.members.items && m.members.items[k].ClassValue? && a in m.members.items[k].cls.attrs ==>
      m.members.items[k].cls.attrs[a].Original?
  }

  /** After a completed scan of a module without stand-ins, the only
      serializers that return a name are those of the patched messages, and
      each returns its own member name. */
  lemma ScannedSerializer(role: Role, m: Module, e: Entry)
    requires NoStandIns(m)
    requires !Scan(role, Snapshot(m.members), EmptyScan(m)).Raised()
    requires CallSerializer(Scan(role, Snapshot(m.members), EmptyScan(m)).state.members, e).Ok?
    ensures CallSerializer(Scan(role, Snapshot(m.members), EmptyScan(m)).state.members, e).value == e.member
    ensures e.member in m.members.items && Classify(role, e.member, m.members.items[e.member]).Message?
  {
    var st := Scan(role, Snapshot(m.members), EmptyScan(m)).state;
    var n := e.member;
    assert n in m.members.items;
    var c := m.members.items[n];
    ScanFactsAt(role, m, n);
    if Classify(role, n, c).Message? {
      PatchedStandIns(c.cls, n, e.attr);
    } else {
      assert false;
    }
  }

  /** A patched class whose own attributes are all originals holds a
      stand-in only where the patch put one, returning its own name. */
  lemma PatchedStandIns(c: ClassDef, n: string, a: string)
    requires "FromString" in c.attrs && "SerializeToString" in c.attrs
    requires forall b :: b in c.attrs ==> c.attrs[b].Original?
    requires a in PatchMessage(c, n).attrs && PatchMessage(c, n).attrs[a].ReturnsName?
    ensures PatchMessage(c, n).attrs[a] == ReturnsName(n)
  {
  }

  /** The entries of the kept creators: what the recorder walks. */
  ghost function KeptEntries(role: Role, m: Module): seq<Entry> {
    Flatten(role, KeptCreators(role, m))
  }

  /** The message members the entries of the service `k` name. */
  ghost function ServedMembers(entries: seq<Entry>, k: string): set<string> {
    set e | e in entries && LastSegment(e.service, '.') == k :: e.member
  }

  /** The steps after the scan, when they succeed, recorded `rec` and
      returned the mapper built from it. */
  lemma FinishParts(role: Role, scanned: Module, st: ScanState) returns (rec: Recording)
    requires scanned.members.items == st.members
    requires forall k :: k in st.messages.items ==> Restorable(st.members, k)
    requires Finish(role, scanned, st).result.Ok?
    ensures st.services.Valid()
    ensures RunCreators(role, scanned, st.members, Values(st.creators), EmptyRecording()) == Ok(rec)
    ensures Describe(st.services.keys, st.services.items, st.messages, rec, Empty()) == Finish(role, scanned, st).result
  {
    assert st.services.Valid();
    rec := RunCreators(role, scanned, st.members, Values(st.creators), EmptyRecording()).value;
  }

  /** The scan `parse_module` runs over the module's own members. */
  function ScanOf(role: Role, m: Module): Outcome<ScanState>
  {
    SnapshotReady(m);
    Scan(role, Snapshot(m.members), EmptyScan(m))
  }

  /** For an untouched module, the parse's recording is the recorder run
      over the kept entries against the scanned members. */
  lemma ParseRecording(role: Role, m: Module) returns (st: ScanState, rec: Recording)
    requires Untouched(m) && Parse(role, m).result.Ok?
    ensures !ScanOf(role, m).Raised()
    ensures st == ScanOf(role, m).state && st.services.Valid()
    ensures RecordEntries(st.members, KeptEntries(role, m), EmptyRecording()) == Ok(rec)
    ensures Describe(st.services.keys, st.services.items, st.messages, rec, Empty()) == Parse(role, m).result
  {
    st := ParseIsFinish(role, m);
    var scanned := WithMembers(Toggle(role, m).state, st.members);
    rec := FinishParts(role, scanned, st);
    RunCreatorsRecords(role, scanned, st.members, Values(st.creators), EmptyRecording());
  }

  /** The mapper entry for `key` of a successful parse of an untouched
      module, as the join of the scan's state and the recording. */
  lemma DescriptorParts(role: Role, m: Module, key: string) returns (st: ScanState, rec: Recording)
    requires Untouched(m)
    requires Parse(role, m).result.Ok? && key in Parse(role, m).result.value.items
    ensures !ScanOf(role, m).Raised()
    ensures st == ScanOf(role, m).state
    ensures RecordEntries(st.members, KeptEntries(role, m), EmptyRecording()) == Ok(rec)
    ensures key in st.services.items && MessagesOf(RecordedNames(rec, key), st.messages).Ok?
    ensures Parse(role, m).result.value.items[key]
      == Descriptor(st.services.items[key], MessagesOf(RecordedNames(rec, key), st.messages).value, RecordedMethods(rec, key))
  {
    st, rec := ParseRecording(role, m);
    var keys := st.services.keys;
    DescribeKeys(keys, st.services.items, st.messages, rec, key);
    DescribeAt(keys, st.services.items, st.messages, rec, Empty(), key);
  }

  /** For an untouched module without stand-ins, each mapper entry of a
      successful parse holds the definition class with that key, the methods
      the kept creators' entries for that service name, and, keyed by the
      member names those entries' serializers belong to, the original
      message classes. */
  lemma ParseDescriptor(role: Role, m: Module, key: string)
    requires Untouched(m) && NoStandIns(m)
    requires Parse(role, m).result.Ok? && key in Parse(role, m).result.value.items
    ensures var d := Parse(role, m).result.value.items[key];
      d.methods == ServedMethods(KeptEntries(role, m), key) && d.messages.Keys == ServedMembers(KeptEntries(role, m), key)
    ensures var d := Parse(role, m).result.value.items[key];
      forall n :: n in d.messages ==> (n in m.members.items && Classify(role, n, m.members.items[n]).Message?
        && d.messages[n] == m.members.items[n].cls)
    ensures DefinitionOf(role, m, key, Parse(role, m).result.value.items[key].cls)
  {
    DescriptorRecorded(role, m, key);
    DescriptorMessages(role, m, key);
    DescriptorClass(role, m, key);
  }

  lemma DescriptorRecorded(role: Role, m: Module, key: string)
    requires Untouched(m) && NoStandIns(m)
    requires Parse(role, m).result.Ok? && key in Parse(role, m).result.value.items
    ensures var d := Parse(role, m).result.value.items[key];
      d.methods == ServedMethods(KeptEntries(role, m), key) && d.messages.Keys == ServedMembers(KeptEntries(role, m), key)
  {
    var st, rec := DescriptorParts(role, m, key);
    RecordedServed(role, m, st, rec, key);
  }

  /** What the recorder collects for `key` over the scanned members: the
      methods and the message members of the kept entries naming it. */
  lemma RecordedServed(role: Role, m: Module, st: ScanState, rec: Recording, key: string)
    requires Untouched(m) && NoStandIns(m)
    requires !Scan(role, Snapshot(m.members), EmptyScan(m)).Raised()
    requires st == Scan(role, Snapshot(m.members), EmptyScan(m)).state
    requires RecordEntries(st.members, KeptEntries(role, m), EmptyRecording()) == Ok(rec)
    ensures RecordedMethods(rec, key) == ServedMethods(KeptEntries(role, m), key)
    ensures (set n | n in RecordedNames(rec, key)) == ServedMembers(KeptEntries(role, m), key)
  {
    var entries := KeptEntries(role, m);
    RecordEntriesSpec(st.members, entries, EmptyRecording(), key);
    RecordEntriesCalls(st.members, entries, EmptyRecording());
    forall e | e in entries ensures CallSerializer(st.members, e).value == e.member {
      ScannedSerializer(role, m, e);
    }
    assert ServedMessages(st.members, entries, key) == ServedMembers(entries, key);
  }

  lemma DescriptorMessages(role: Role, m: Module, key: string)
    requires Untouched(m) && NoStandIns(m)
    requires Parse(role, m).result.Ok? && key in Parse(role, m).result.value.items
    ensures var d := Parse(role, m).result.value.items[key];
      forall n :: n in d.messages ==> (n in m.members.items && Classify(role, n, m.members.items[n]).Message?
        && d.messages[n] == m.members.items[n].cls)
  {
    var st, rec := DescriptorParts(role, m, key);
    var d := Parse(role, m).result.value.items[key];
    forall n | n in d.messages
      ensures n in m.members.items && Classify(role, n, m.members.items[n]).Message? && d.messages[n] == m.members.items[n].cls
    {
      assert n in st.messages.items;
      ScannedMessage(role, m, n);
    }
  }

  /** A name the scan of `m` collected is a message member of `m`, collected with its class. */
  lemma ScannedMessage(role: Role, m: Module, n: string)
    requires !Scan(role, Snapshot(m.members), EmptyScan(m)).Raised()
    requires n in Scan(role, Snapshot(m.members), EmptyScan(m)).state.messages.items
    ensures n in m.members.items && Classify(role, n, m.members.items[n]).Message?
    ensures Scan(role, Snapshot(m.members), EmptyScan(m)).state.messages.items[n] == m.members.items[n].cls
  {
    SnapshotReady(m);
    ScanCollects(role, Snapshot(m.members), EmptyScan(m));
    FindSnapshotSome(m.members, n);
    ScanFactsAt(role, m, n);
  }

  lemma DescriptorClass(role: Role, m: Module, key: string)
    requires Untouched(m)
    requires Parse(role, m).result.Ok? && key in Parse(role, m).result.value.items
    ensures DefinitionOf(role, m, key, Parse(role, m).result.value.items[key].cls)
  {
    var st, rec := DescriptorParts(role, m, key);
    ScannedDefinition(role, m, key);
  }

  /** A definition class the scan of `m` collected under `key` is a member
      of `m` classified as that definition. */
  lemma ScannedDefinition(role: Role, m: Module, key: string)
    requires !Scan(role, Snapshot(m.members), EmptyScan(m)).Raised()
    requires key in Scan(role, Snapshot(m.members), EmptyScan(m)).state.services.items
    ensures DefinitionOf(role, m, key, Scan(role, Snapshot(m.members), EmptyScan(m)).state.services.items[key])
  {
    var st := Scan(role, Snapshot(m.members), EmptyScan(m)).state;
    var items := Snapshot(m.members);
    ScanServiceValues(role, items, EmptyScan(m));
    var i :| 0 <= i < |items| && Classify(role, items[i].0, items[i].1) == Definition(key)
      && items[i].1 == ClassValue(st.services.items[key]);
    assert m.members.keys[i] in m.members.items;
  }

  /** A key of a successful mapper built from nothing is one of the keys it was built for. */
  lemma DescribeKeys(keys: seq<string>, services: map<string, ClassDef>, messages: Dict<string, ClassDef>, rec: Recording, key: string)
    requires forall i :: 0 <= i < |keys| ==> keys[i] in services
    requires Describe(keys, services, messages, rec, Empty()).Ok?
    requires key in Describe(keys, services, messages, rec, Empty()).value.items
    ensures key in keys && key in services
  {
  }

  /** A module left patched by a failed parse parses again without error
      only to record nothing: the first toggle reinstalls grpc's own beta
      surface, so every mapper entry has no methods and no messages. */
  lemma ParseAfterFailure(role: Role, m: Module, key: string)
    requires m.patched && m.beta == Some(StandIn(role)) && m.realBeta == Some(RealBeta)
    requires Parse(role, m).result.Ok? && key in Parse(role, m).result.value.items
    ensures Parse(role, m).result.value.items[key].methods == {}
    ensures Parse(role, m).result.value.items[key].messages == map[]
  {
    var st := ParseIsFinish(role, m);
    var scanned := WithMembers(Toggle(role, m).state, st.members);
    assert scanned.beta == Some(RealBeta);
    FinishRecordsNothing(role, scanned, st, key);
  }

  /** With grpc's own beta surface installed, the creators record nothing. */
  lemma FinishRecordsNothing(role: Role, scanned: Module, st: ScanState, key: string)
    requires scanned.members.items == st.members
    requires forall k :: k in st.messages.items ==> Restorable(st.members, k)
    requires scanned.beta == Some(RealBeta)
    requires Finish(role, scanned, st).result.Ok? && key in Finish(role, scanned, st).result.value.items
    ensures Finish(role, scanned, st).result.value.items[key].methods == {}
    ensures Finish(role, scanned, st).result.value.items[key].messages == map[]
  {
    var rec := FinishParts(role, scanned, st);
    assert rec == EmptyRecording();
    DescribeKeys(st.services.keys, st.services.items, st.messages, rec, key);
    DescribeAt(st.services.keys, st.services.items, st.messages, rec, Empty(), key);
  }

  // ---------------------------------------------------------------------
  // Keys of the names grpc generates.

  /** The definition class `<base>Servicer` (or `<base>Stub`) is filed
      under `<base>` when the suffix does not also occur earlier. */
  lemma DefinitionKey(role: Role, base: string, attrs: map<string, Attr>)
    requires !StartsWith(base + DefinitionSuffix(role), "Beta")
    requires forall i: nat :: i < |base| ==> !OccursAt(base + DefinitionSuffix(role), DefinitionSuffix(role), i)
    ensures Classify(role, base + DefinitionSuffix(role), ClassValue(ClassDef(base + DefinitionSuffix(role), attrs))) == Definition(base)
  {
    var sfx := DefinitionSuffix(role);
    assert (base + sfx)[|base + sfx| - |sfx|..] == sfx;
    ReplaceAllStripsSuffix(base, sfx);
  }

  /** The creator `beta_create_<base>_server` (or `_stub`) is filed under
      `<base>` when `<base>` holds no underscore. */
  lemma CreatorKey(role: Role, base: string, options: map<string, seq<Entry>>)
    requires forall i :: 0 <= i < |base| ==> base[i] != '_'
    ensures var name := "beta_create_" + base + "_" + CreatorPostfix(role);
      Classify(role, name, FunctionValue(FunctionDef(name, options))) == Creator(base)
  {
    var pre, pf := "beta_create_", CreatorPostfix(role);
    var name := pre + base + "_" + pf;
    OneUnderscore(base, pf);
    assert pre[4] == '_' && pre[11] == '_';
    StripCreatorName(pre, base, pf, 4, 11);
    assert name[|name| - |pf|..] == pf;
  }

  /** Removing the prefix and then `_<postfix>` from `<pre><base>_<postfix>`
      leaves `<base>`, when the prefix has two underscores and the rest one. */
  lemma StripCreatorName(pre: string, base: string, pf: string, a: nat, b: nat)
    requires a < b < |pre| && pre[a] == '_' && pre[b] == '_'
    requires forall j :: 0 <= j < |base + ("_" + pf)| && (base + ("_" + pf))[j] == '_' ==> j == |base|
    ensures StartsWith(pre + base + "_" + pf, pre)
    ensures ReplaceAll(ReplaceAll(pre + base + "_" + pf, pre, ""), "_" + pf, "") == base
  {
    var rest := base + ("_" + pf);
    assert pre + base + "_" + pf == pre + rest;
    AbsentWithTwoUnderscores(rest, pre, a, b, |base|);
    ReplaceAllAbsent(rest, pre, "");
    StripPrefixOnce(pre, rest);
    forall i: nat | i < |base| ensures !OccursAt(rest, "_" + pf, i) {
      OccursChars(rest, "_" + pf, i, 0, 0);
    }
    ReplaceAllStripsSuffix(base, "_" + pf);
  }

  /** A pattern with two underscores does not occur in a string with one. */
  lemma AbsentWithTwoUnderscores(s: string, p: string, a: nat, b: nat, only: nat)
    requires a < b < |p| && p[a] == '_' && p[b] == '_'
    requires forall j :: 0 <= j < |s| && s[j] == '_' ==> j == only
    ensures forall i: nat :: !OccursAt(s, p, i)
  {
    forall i: nat ensures !OccursAt(s, p, i) {
      OccursChars(s, p, i, a, b);
    }
  }

  /** `(pre + rest).replace(pre, rep)` replaces the leading `pre` first. */
  lemma StripPrefixOnce(pre: string, rest: string)
    requires |pre| > 0
    ensures StartsWith(pre + rest, pre)
    ensures ReplaceAll(pre + rest, pre, "") == ReplaceAll(rest, pre, "")
  {
    assert (pre + rest)[..|pre|] == pre;
    assert (pre + rest)[|pre|..] == rest;
  }

  /** `<base>_<postfix>` has its only underscore after `<base>`. */
  lemma OneUnderscore(base: string, pf: string)
    requires forall i :: 0 <= i < |base| ==> base[i] != '_'
    requires pf == "server" || pf == "stub"
    ensures forall j :: 0 <= j < |base + ("_" + pf)| && (base + ("_" + pf))[j] == '_' ==> j == |base|
  {
    var rest := base + ("_" + pf);
    forall j | 0 <= j < |rest| && j != |base| ensures rest[j] != '_' {
      if j > |base| {
        assert rest[j] == pf[j - |base| - 1];
      }
    }
  }

  /** An occurrence of `p` at `i` puts `p`'s characters at `i + a` and `i + b`. */
  lemma OccursChars(s: string, p: string, i: nat, a: nat, b: nat)
    requires a < |p| && b < |p|
    ensures OccursAt(s, p, i) ==> s[i + a] == p[a] && s[i + b] == p[b]
  {
    if OccursAt(s, p, i) {
      assert s[i..i + |p|][a] == s[i + a];
      assert s[i..i + |p|][b] == s[i + b];
    }
  }
}
