# easygrpc in Dafny

A model of the bookkeeping core of easygrpc, a small Python layer over
grpcio. The code reflects over the Python modules that the protocol compiler
generates and turns what it finds into registries. The model covers these parts:

- **The parser** (`GRPCParser.parse_module`).
  - It classifies module members into three kinds: definition classes
    (`*Servicer` / `*Stub`), message classes, and `beta_create_*` creators.
  - It toggles a `patched` flag that swaps the module's `beta_implementations`
    for a recording stand-in.
  - It patches each message's `FromString` / `SerializeToString` so that they
    return the message's own name.
  - It runs the creators to record `(service, method, message)` triples, and
    joins them into one descriptor per service.
  - It then restores the messages and the module.
- **The server registry** (`GRPCServer`).
  - Add-functions are found by a name pattern and entered into `_functions`,
    rejecting duplicate names.
  - Services are routed by `add_service` / `add_services`, and user modules
    are registered unchecked.
  - `filter` always raises.
  - `create_server` makes the transport server only once. It then registers
    a new instance of each route's service class on it, stopping at the first
    class that cannot be instantiated.
- **The two stub clients.**
  - `GRPCClient` of `easygrpc/client.py` wraps each bound stub so that its
    unary calls go through a request hook.
  - The older copy in `environment/client.py` binds the stub class directly.
  - The model covers stub discovery, `_parse_module`, `from_module`,
    `add_stub(s)`, `filter`, `add_request_hook` and the hook dispatch.
- **The environment** (`GRPCEnvironment`).
  - It selects the parsed services or stubs by name.
  - It states what each synthesized class carries: base, messages and
    abstract methods.
  - Each namespace is built once.
- **The scaffolding** (`grpcadmin`).
  - Selecting which proto files to compile, with include and exclude lists.
  - The compiler argument lists and the default directories.
  - The route-file update loop. Each turn sees the files the earlier turns
    wrote, through Python's import cache.
  - The CamelCase to snake_case conversion.
  - The two generators of route-file text.

Python objects become plain values:

- a module is an ordered dictionary of members;
- a class is a record of its attributes;
- a directory listing is a sequence of entries;
- the grpc channel and server are opaque records.

Two result types model the exceptions:

- `Result<T>` when the code raises before changing anything;
- `Outcome<S>` when it raises with part of its work done and nothing rolled back.

Python dictionaries keep insertion order, and so does `Dicts.Dict`.

Both exclude loops (`compile_services` and `_get_necessary_proto_files`)
print "Service ... can't be excluded" for an exclude that matches nothing
left. Those lines are `ProtoSelection.Reports`, computed from the same
arguments as the selection.

The files:

- `wrappers.dfy`: `Option`, `Error`, `Result`, `Outcome`.
- `strings.dfy`: `str.replace`, regex capture, `split`.
- `dicts.dfy`: ordered dictionaries.
- `registry.dfy`: the shared "enter names, raise on a duplicate" loop.
- `parser.dfy`, `server.dfy`, `client.dfy`, `environment.dfy`.
- `proto_selection.dfy`: the include/exclude rule that both scaffolding
  versions share.
- `service_builder.dfy`, `admin_utils.dfy`, `service_info.dfy`,
  `service_template.dfy`, `legacy_service_template.dfy`.

## Model

| member | source | states |
|---|---|---|
| Strings.CaptureBefore | easygrpc/client.py:151-152 | `re.match(prefix + "(?P<name>.*)" + suffix, s)` with `or None`: the capture is the non-empty text between the prefix and the LAST occurrence of the suffix (the `.*` is greedy), and there is none when no such occurrence exists |
| Strings.LastSegment | easygrpc/parser.py:116 | `s.split(sep)[-1]`: the result is a suffix of `s` containing no separator, and directly preceded by one whenever it is shorter than `s` |
| Strings.ReplaceAllStripsSuffix | easygrpc/parser.py:46 | `(x + pat).replace(pat, "") == x` when the first occurrence of `pat` is the appended one, the case of a generated class name |
| Dicts.Put | easygrpc/client.py:174 | `d[k] = v`: `k` maps to `v`, the other entries are unchanged, and a new key goes to the end of the order |
| Dicts.Remove | easygrpc/client.py:58-60 | `kwargs.pop(k)`, which the call site runs only after a truthy `kwargs.get(k)`, so the key is present: the entry is gone and the other keys keep their order (the no-op on an absent key is never reached there; `dict.pop` would raise `KeyError`) |
| Registry.RegisterAll | easygrpc/server.py:108-111 | the duplicate-checked registration loop: on success the new names follow the old ones in order; a failure names a duplicate from the pairs |
| Registry.RegisterAllSucceeds | easygrpc/client.py:171-174 | the loop succeeds exactly when every name is absent from the dictionary and from the earlier pairs |
| Registry.RegisterAllEnters | easygrpc/client.py:171-174 | on success each pair is entered under its name with its value |
| Registry.RegisterAllKeeps | environment/client.py:78-81 | entries present before the loop keep their order and values, whether or not it raises (no rollback, and nothing earlier is overwritten) |
| Registry.RegisterAllStopsAt | easygrpc/server.py:108-111 | a failure at pair `i` leaves exactly what registering the first `i` pairs leaves: the names before the duplicate stay registered |
| Parser.Classify | easygrpc/parser.py:44-61 | classification is exclusive and ordered (definition class, else message, else creator); a definition's key is the name with every suffix occurrence removed; a creator's key strips `beta_create_` and `_<postfix>` |
| Parser.DefinitionKey | easygrpc/parser.py:45-46 | the generated class `<base>Servicer` (or `<base>Stub`) is a definition filed under `<base>` |
| Parser.CreatorKey | easygrpc/parser.py:57-61 | the generated creator `beta_create_<base>_server` (or `_stub`) is a creator filed under `<base>` |
| Parser.Toggle | easygrpc/parser.py:103-134 | the toggle never touches members; on an unpatched module without `beta_implementations` it raises before writing anything; a raise leaves `beta_implementations` as it was |
| Parser.ToggleTwice | easygrpc/parser.py:103-134 | on an unpatched module, two toggles give the module back exactly, provided it has `beta_implementations` and no stale `real_beta_implementations` |
| Parser.ToggleTwicePatched | easygrpc/parser.py:129-134 | a module left patched by a failed parse, toggled twice, gets a stand-in for the same role back (a new `MockChannel` type in the source, which the model does not tell apart) |
| Parser.ScanOne | easygrpc/parser.py:44-61 | one member: it raises exactly on a message without `FromString`, before changing anything; a member that is not a message leaves the messages and members as they were |
| Parser.Scan | easygrpc/parser.py:42-61 | the loop over the snapshot keeps the member names, and the only thing it raises is `AttributeError` on `FromString` |
| Parser.Record | easygrpc/parser.py:115-118 | one recorder step adds the method to the service's set and the message name to its names, starting both from empty for a new service, and leaves the other services alone |
| Parser.Describe | easygrpc/parser.py:69-74 | the mapper gets one entry per definition key, and entries for other keys stay as they were |
| Parser.RestoreAll | easygrpc/parser.py:77-81 | the restore loop keeps the member names and leaves every member that is not a collected message unchanged |
| Parser.Parse | easygrpc/parser.py:12-86 | the member names never change; on success the module ends with the `patched` state it started with; an unpatched module without `beta_implementations` raises `AttributeError` before anything changes |
| Parser.Finish | easygrpc/parser.py:63-84 | after the scan, the member names stay, and on success the module is toggled back |
| Parser.ParseErrAfter | easygrpc/parser.py:31-84 | a failing parse of an unpatched module with `beta_implementations` leaves the module as the scan left it, toggled once |
| Parser.PatchMessage | easygrpc/parser.py:51-54 | the patch keeps the class name and adds exactly the two saved-copy attributes |
| Parser.RestoreMessage | easygrpc/parser.py:77-81 | the restore keeps the class name and deletes both saved copies |
| Parser.RestorePatch | easygrpc/parser.py:51-54 | patching then restoring a message class gives back which callable each attribute holds, and no other attribute, exactly when it had no attributes of the saved-copy names |
| Parser.PatchedStandIns | easygrpc/parser.py:53-54 | while patched, a message's `FromString` / `SerializeToString` return that message's own name |
| Parser.CallSerializer | easygrpc/parser.py:118 | `serializer()` succeeds only on a patched stand-in, and then returns the message name |
| Parser.MessagesOf | easygrpc/parser.py:72 | the message map is keyed by exactly the recorded names, each bound to the collected message class; an unknown name raises |
| Parser.RecordEntriesSpec | easygrpc/parser.py:115-118 | under each service the recorder collects exactly the methods of the entries naming it (by the last dot-segment) and the names their serializers return |
| Parser.RunCreatorsRecords | easygrpc/parser.py:64-66 | with the stand-in installed, running the kept creators records their entries in creator order, response side before request side |
| Parser.RunCreators | easygrpc/parser.py:64-66 | with no creators, or with grpc's own beta surface in place, nothing is recorded; without `beta_implementations` a creator raises `AttributeError`; the other role's stand-in raises on the missing `<role>_options` |
| Parser.KeptCreatorsAreCreators | easygrpc/parser.py:57-61 | each creator the scan keeps is a `beta_create_*` function member whose name ends with the role's postfix |
| Parser.ScanCollects | easygrpc/parser.py:48-54 | a completed scan has collected exactly the message members |
| Parser.ScanPatches | easygrpc/parser.py:50-54 | a completed scan holds each message under its own name with its original class, and has patched it among the members |
| Parser.ScanKeepsOthers | easygrpc/parser.py:42-61 | the scan leaves every member that is not a message unchanged |
| Parser.ScanServiceKeys | easygrpc/parser.py:45-46 | after the scan, a key is held exactly when some member is a definition class with that key |
| Parser.RestoreAllInverts | easygrpc/parser.py:77-81 | restoring the patched messages gives every member back which callable each attribute holds before the patch |
| Parser.ParseRestores | easygrpc/parser.py:76-84 | on success, an untouched module whose classes have no saved-copy attributes comes out of `parse_module` with the same members, each attribute holding the callable it held before |
| Parser.ParseFailureLeavesPatched | easygrpc/parser.py:31-84 | a failure after the first toggle leaves the module patched with the stand-in (no `try/finally`); a failure after the scan leaves the messages patched as well |
| Parser.ParseAfterFailure | easygrpc/parser.py:103-134 | parsing a module left patched runs the creators against the real surface, so every descriptor comes back with no methods and no messages |
| Parser.ParseKeys | easygrpc/parser.py:69-74 | the result has one entry per definition class of the module, under that class's key |
| Parser.DescriptorClass | easygrpc/parser.py:71 | each entry's `<role>_class` is a definition class of the module with that key |
| Parser.DescriptorRecorded | easygrpc/parser.py:73 | each entry's `methods` are exactly the methods the kept creators' entries name for that service |
| Parser.DescriptorMessages | easygrpc/parser.py:72 | each entry's `messages` map holds exactly the message members that the service's entries name, each bound to its original class |
| Parser.ParseDescriptor | easygrpc/parser.py:69-74 | the three descriptor facts together for one key: class, methods and messages |
| Server.HandlerName | easygrpc/server.py:29 | a member names a service only when it is a function starting with `add_`; the captured name is non-empty and is followed by `Servicer_to_server` |
| Server.HandlerNameOfGenerated | easygrpc/server.py:29 | `add_<s>Servicer_to_server` stands for `<s>` |
| Server.ParseProtoFile | easygrpc/server.py:87-95 | yields exactly the pairs of a handler name and function, restricted to `service_names` when given |
| Server.ParseProtoModule | easygrpc/server.py:108-111 | only `_functions` changes; on success it gains the found names in order; a duplicate raises |
| Server.ParseProtoModuleEnters | easygrpc/server.py:108-111 | with fresh names, every found add-function is entered under its service name |
| Server.NewServer | easygrpc/server.py:32-44 | a new server has no routes, services or transport; without a module, nothing else happens either |
| Server.ServiceKey | easygrpc/server.py:298-301 | the key is `proto_name or service.__name__`; it fails exactly when there is no name and no non-empty `proto_name` |
| Server.AddService | easygrpc/server.py:298-312 | it raises on a missing name, on a checked duplicate in `_services`, or on a missing add-function, changing nothing; otherwise only `_route[key]` is set |
| Server.AddServiceTwice | easygrpc/server.py:304-312 | `_services` is never filled by `add_service`, so adding the same service twice, checked, succeeds both times |
| Server.AddServices | easygrpc/server.py:327-332 | only `_route` changes: positional services go first, then keyword ones; a failure keeps the routes already added |
| Server.AddPositional | easygrpc/server.py:327-328 | the positional loop succeeds exactly when each service, added checked on its own to the starting server, would succeed; no route is lost and `_services`, `_functions` and the transport stay |
| Server.AddNamed | easygrpc/server.py:331-332 | the keyword loop succeeds exactly when each keyword's service, added checked under that keyword to the starting server, would succeed; no route is lost and `_services`, `_functions` and the transport stay |
| Server.AddServicesRoutesKeywords | easygrpc/server.py:331-332 | after a successful call, each keyword is routed to its own service with its own add-function |
| Server.AddNamedKeeps | easygrpc/server.py:331-332 | the keyword loop leaves the routes of other keys alone |
| Server.ParserServiceFile | easygrpc/server.py:159-165 | yields exactly the module entries whose names have an add-function, restricted to `service_names` when given, in the module's member order |
| Server.ParseServiceModule | easygrpc/server.py:177-179 | registering a service module changes only `_services` and `_route` |
| Server.RegisterServices | easygrpc/server.py:177-179 | each entry is written to `_services` before it is routed, so the first entry is recorded even when routing it raises; on success every entry is recorded; nothing leaves `_services` |
| Server.RegisterServicesRoutes | easygrpc/server.py:177-179 | entries named after themselves are each recorded in `_services` and routed to their add-function |
| Server.Filter | easygrpc/server.py:284 | `filter` always raises and changes nothing |
| Server.RouteCalls | easygrpc/server.py:352-353 | one call per route key, in order, with that route's add-function, an instance of its service class, and the server |
| Server.FirstFailing | easygrpc/server.py:352-353 | the position of the first route whose service class cannot be instantiated: no earlier one fails, and it does when it is inside the route list |
| Server.CreateServer | easygrpc/server.py:347-353 | with no server yet, a non-positive `max_workers` raises `ValueError` from the thread pool before any server is made or any route is called; the transport server is made only when there is none; then each route's add-function is called once, in route order, with a new instance of its service class and that server; it succeeds exactly when every service class can be instantiated, and otherwise stops at the first that cannot, after the earlier calls |
| Server.CreateServerAgain | easygrpc/server.py:347-353 | a second call keeps the first server whatever address and worker count it is given, and repeats the same registrations with the same outcome; when the first call was refused for a non-positive worker count, nothing was made and the second call is a fresh first call |
| Client.StubName | easygrpc/client.py:150-153 | a class yields the non-empty text before the last `Stub` of its name unless that text starts with `Beta`; any class whose name contains `Stub` after its first character, and does not start with `Beta`, yields a name |
| Client.StubNameOfGenerated | easygrpc/client.py:111 | `<base>Stub` is found under `<base>`, the same key the parser gives its descriptor |
| Client.Found | environment/client.py:57-65 | exactly the stub classes of the module, restricted to `stub_names` when given, in the module's member order |
| Client.SetMessages | easygrpc/client.py:178-179 | the messages loop succeeds exactly when every held name was parsed; it then sets each name's parsed messages; a name the parse did not return reads `{}` from the `defaultdict`, so the loop raises `KeyError('messages')`; the messages of other names stay |
| Client.ParseModule | easygrpc/client.py:171-179 | registration raises on a held name with nothing rolled back; a parse failure leaves the messages alone; only `stubs` and `messages` change |
| Client.ParseModuleMessages | easygrpc/client.py:177-179 | after a successful parse, `_parse_module` succeeds exactly when every stub the client holds was parsed, and then gives each its parsed messages; otherwise it raises `KeyError('messages')` |
| Client.ParseModuleKeeps | environment/client.py:78-81 | stubs held before the call keep their places and classes |
| Client.ParseModuleStaleStub | easygrpc/client.py:177-179 | a stub held from an earlier module that this module does not define makes `_parse_module` raise `KeyError('messages')` |
| Client.ParseModuleIntended | environment/client.py:84-86 | the corrected loop leaves the messages of stubs from earlier modules as they were |
| Client.ParseModuleIntendedMessages | easygrpc/client.py:177-179 | the corrected loop succeeds exactly when every newly found stub was parsed, and gives each its messages; otherwise it raises `KeyError('messages')` |
| Client.ParseModuleFirstLoad | easygrpc/client.py:116-123 | on a client holding no stubs (the constructor's case) the two versions agree |
| Client.StubKey | easygrpc/client.py:271-274 | the key is `proto_name or __name__.replace("Stub", "")`; it fails exactly when there is no name and no non-empty `proto_name` |
| Client.StubKeyOfGenerated | environment/client.py:185 | `<base>Stub` is keyed by `<base>` |
| Client.Bind | easygrpc/client.py:281-282 | the hooked client binds a wrapper carrying the current hook and the channel; the direct client binds the class with the channel |
| Client.AddStub | easygrpc/client.py:271-282 | it succeeds exactly when unchecked with a held key, binding `stubs[key]`, not the argument; a checked call always raises (a duplicate, or `KeyError`) |
| Client.AddStubIntended | environment/client.py:182-192 | the corrected version enters the argument under its key and binds it; only a checked duplicate raises |
| Client.AddStubIntendedAgrees | easygrpc/client.py:199-200 | the corrected version agrees with the written one on the calls `from_module` makes |
| Client.AddStubIntendedOnce | easygrpc/client.py:276-278 | with the corrected version, a checked add of a new name succeeds and a second one raises the duplicate error |
| Client.AddStubs | easygrpc/client.py:299-304 | as written, any non-empty call raises the checked `add_stub` error of its first stub (positional first, else the first keyword) and leaves the client unchanged |
| Client.AddRequestHook | easygrpc/client.py:128-133 | on the hooked client the configured hook becomes exactly the argument, `None` included, nothing else changes, and the stored bindings are not rebound; the direct client (environment/client.py) has no `add_request_hook`, so the call raises `AttributeError` |
| Client.HookReadAtBindTime | easygrpc/client.py:281 | a stub bound after `add_request_hook(h)` carries `h`, `None` included, and the call itself rebinds nothing (the class-level patch that later bindings make is left out) |
| Client.HookResetCallsDirect | easygrpc/client.py:58-70 | after `add_request_hook(None)`, a unary call through a stub bound afterwards, with no truthy `request_hook` keyword, calls the original callable directly |
| Client.Added | easygrpc/client.py:194-196 | `set(self.stubs) - old_names`: exactly the names that were not held before |
| Client.BindAll | easygrpc/client.py:199-200 | binding the new names, unchecked, changes only the bindings |
| Client.BindAllBindsKeys | environment/client.py:106-107 | binding the new names binds exactly those, each to its own class, and leaves the other bindings alone |
| Client.FromModule | easygrpc/client.py:194-200 | a parse failure is passed on; otherwise only bindings change after the parse |
| Client.FromModuleBindsAdded | easygrpc/client.py:194-200 | after a successful parse, exactly the stubs new to the client are bound, and earlier bindings stay as they were |
| Client.NewClient | easygrpc/client.py:116-126 | the channel goes to `address or "[::]:50051"`; `stub_names` without a module raise; with a module, the constructor fails exactly as `from_module` does |
| Client.Documented | easygrpc/client.py:233 | the documented filter deletes the stubs not named (include) or the stubs named (exclude) |
| Client.Filter | easygrpc/client.py:233-234 | only bindings change: the doomed attributes are deleted, and an unbound one raises `AttributeError` |
| Client.DeleteAll | easygrpc/client.py:233-234 | the `delattr` loop succeeds exactly when every doomed name is bound, and then removes exactly those; otherwise it raises `AttributeError` on an unbound name; it never adds or changes a binding |
| Client.Doomed | environment/client.py:140-143 | the names `filter` deletes: the documented set on the hooked client, and `stubs - names` whatever `include` is on the direct client |
| Client.FilterAsDocumented | easygrpc/client.py:219-234 | on the hooked client with every stub bound, a stub stays bound exactly when it is named (include) or not named (exclude) |
| Client.DirectFilterIgnoresInclude | environment/client.py:140-143 | the direct client deletes the same stubs with or without `include`, so a stub it is told to exclude survives |
| Client.DirectFilterCounterexample | environment/client.py:140-145 | with the stub `Greeter` excluded by name, the direct client deletes nothing, while the documented filter deletes `Greeter` |
| Client.UseRequestHook | easygrpc/client.py:53-74 | only unary-unary callables are wrapped, with the client and configured hook; every other attribute is returned as is |
| Client.CallWrapper | easygrpc/client.py:58-70 | a truthy `request_hook` keyword is popped and takes precedence; otherwise the configured hook gets the keywords unchanged; with no hook the original is called directly |
| Client.CallWrapperPassesKeywords | easygrpc/client.py:60 | the callee receives every other keyword unchanged, in order |
| Environment.NewEnv | easygrpc/environment.py:27-32 | a new environment stores its arguments and has built nothing |
| Environment.Selected | easygrpc/environment.py:146-147 | the selection is the parsed keys that are requested (all of them when none are), in parse order, without repeats |
| Environment.ServiceOf | easygrpc/environment.py:150-158 | a service class is named after its service, subclasses the parsed class and carries its messages; with `add_abstract` it uses ABCMeta and has one abstract method per parsed method, otherwise none |
| Environment.StubOf | easygrpc/environment.py:181 | a stub class subclasses the parsed class and carries the messages under `message` |
| Environment.Services | easygrpc/environment.py:141-163 | a built namespace is returned as is; otherwise the module is parsed and the namespace is stored even when the parse raises |
| Environment.ServicesContents | easygrpc/environment.py:145-161 | a first read holds exactly the selected services, in order, each built from its descriptor |
| Environment.ServicesSkipUnknown | easygrpc/environment.py:146-147 | a requested name the module does not define is skipped without error |
| Environment.ServicesCached | easygrpc/environment.py:141 | a second read returns the first read's namespace, without parsing again |
| Environment.ServicesAfterFailure | easygrpc/environment.py:141-145 | after a failed parse, later reads return the stored empty namespace |
| Environment.Stubs | easygrpc/environment.py:173-184 | the same caching for stubs |
| Environment.StubsContents | easygrpc/environment.py:177-182 | a first read holds exactly the selected stubs, each built from its descriptor |
| Environment.StubsCached | easygrpc/environment.py:173 | the stubs namespace is built once |
| Environment.CreateServices | easygrpc/environment.py:47 | every class returned was requested (or nothing was requested) |
| Environment.CreateService | easygrpc/environment.py:62 | returns a namespace holding at most the one requested service, not a class |
| Environment.CreateStubs | easygrpc/environment.py:99 | every stub class returned was requested (or nothing was requested) |
| Environment.CreateStub | easygrpc/environment.py:114 | returns a namespace holding at most the one requested stub |
| ProtoSelection.SplitExtStem | grpcadmin/utils/service_builder.py:143 | `os.path.splitext(f)[0]`: a prefix of `f` that ends before its last dot, unless only dots precede that dot |
| ProtoSelection.StemOfProtoFile | grpcadmin/utils/service_builder.py:143 | the stem of `<name>.proto` is `<name>` |
| ProtoSelection.ProtoFileNames | grpcadmin/utils/service_builder.py:141-142 | exactly the regular files whose names end with `.proto` |
| ProtoSelection.AllProtoFiles | grpcadmin/utils/service_builder.py:141-146 | the stems of the proto files, non-empty, or `FileNotFoundError` when there are none |
| ProtoSelection.CheckIncludes | grpcadmin/utils/service_builder.py:159-163 | the include list passes unchanged when every name is known; otherwise it fails with the first unknown name |
| ProtoSelection.RemoveFirst | grpcadmin/utils/service_builder.py:167-170 | `list.remove` with `ValueError` swallowed: the first copy is dropped, and a missing name changes nothing |
| ProtoSelection.RemoveFirstCount | grpcadmin/utils/service_builder.py:168 | exactly one copy of the name is removed when present |
| ProtoSelection.ExcludeLoopCounts | grpcadmin/utils/service_builder.py:166-170 | the exclude loop keeps each name as often as it is selected beyond its excludes, and prints "can't be excluded" for each name as often as it is excluded beyond its selected copies |
| ProtoSelection.KeptCount | grpcadmin/utils/service_builder.py:166-168 | the names kept are the selection minus the excludes, as multisets |
| ProtoSelection.ReportedCount | grpcadmin/utils/service_builder.py:169-170 | the names reported are the excludes minus the selection, as multisets |
| ProtoSelection.RemoveEach | grpcadmin/utils/service_builder.py:166-170 | the exclude loop removes one copy per exclude, as a multiset difference |
| ProtoSelection.RemoveEachIgnoresUnknown | grpcadmin/utils.py:92-96 | excludes naming nothing selected change nothing, and each is reported, in order |
| ProtoSelection.ExcludeUnknownHead | grpcadmin/utils.py:95-96 | an exclude naming nothing selected is reported, and the loop goes on with the selection as it was |
| ProtoSelection.Select | grpcadmin/utils.py:84-96 | it succeeds exactly when every include is known; the result is (the includes, or all files when there are none) minus the excludes, as a multiset, and every name is a known file |
| ProtoSelection.Reports | grpcadmin/utils.py:84-96 | the "can't be excluded" lines: none when an include is unknown (the call raises first); otherwise the excludes minus the selection, as multisets, so each one is an exclude |
| ServiceBuilder.Join | grpcadmin/utils/service_builder.py:24-26 | `os.path.join`: an absolute second part wins; otherwise the parts are joined with one separating slash |
| ServiceBuilder.NewBuilder | grpcadmin/utils/service_builder.py:22-26 | directories that are given and non-empty are kept |
| ServiceBuilder.DefaultDirs | grpcadmin/utils/service_builder.py:22-26 | the default directories are `<name>/proto_buf`, `<name>/proto_py` and `<name>/routes` |
| ServiceBuilder.NecessaryProtoFiles | grpcadmin/utils/service_builder.py:158-173 | fails on the first unknown include, or with `NameError` on an empty selection; otherwise the result is a non-empty selection of known files |
| ServiceBuilder.NecessaryWithoutExcludes | grpcadmin/utils/service_builder.py:158-164 | without excludes, known includes are compiled as given, in order with duplicates; no includes means all files |
| ServiceBuilder.ExcludingEverythingFails | grpcadmin/utils/service_builder.py:171-172 | excluding every file raises `NameError` |
| ServiceBuilder.InputNameOfInputFile | grpcadmin/utils/service_builder.py:188 | the input argument `./<dir>/<name>.proto` names its proto unambiguously |
| ServiceBuilder.CompilerArgs | grpcadmin/utils/service_builder.py:183-189 | one compiler call has five arguments: an empty program slot, `-I./<proto dir>`, `--python_out` and `--grpc_python_out` both set to `./<python dir>`, and last the input file, which names the proto |
| ServiceBuilder.RunCodeGenerator | grpcadmin/utils/service_builder.py:182-189 | there is one five-argument compiler call per name, in order, whose input is that name's proto file |
| ServiceBuilder.CompileProtoFiles | grpcadmin/utils/service_builder.py:85-91 | an empty proto directory raises; otherwise the calls exist exactly when the selection succeeds, and they are then the compiler calls for the selected names, one each, in order |
| ServiceBuilder.CompileEverything | grpcadmin/utils/service_builder.py:75-76 | with neither includes nor excludes, every proto file in the directory is compiled, once each, in listing order |
| ServiceBuilder.Pb2Names | grpcadmin/utils/service_builder.py:94-95 | the regular files not ending with `__.py`, each cut at its first `.py` |
| ServiceBuilder.Pb2NameOfModule | grpcadmin/utils/service_builder.py:94 | a module file `<x>.py` with no dot in `x` is read as `x` |
| ServiceBuilder.InitIsSkipped | grpcadmin/utils/service_builder.py:95 | `__init__.py` is never taken for a compiled module |
| ServiceBuilder.PublicCallables | grpcadmin/utils/service_builder.py:199 | exactly the callable attributes not starting with `_` |
| ServiceBuilder.MissingMethods | grpcadmin/utils/service_builder.py:124 | exactly the methods not present, each as often as it occurs |
| ServiceBuilder.MissingMethodsAppend | grpcadmin/utils/service_builder.py:124 | the filter keeps order and works element by element |
| ServiceBuilder.RoutePath | grpcadmin/utils/service_builder.py:109 | the route file ends with `<service_name_lower>.py` |
| ServiceBuilder.PlanFor | grpcadmin/utils/service_builder.py:110-133 | a missing file or a missing class gives the full template; a present class gets the missing methods appended in order; with nothing missing the file is untouched |
| ServiceBuilder.PlanReadsBack | grpcadmin/utils/service_builder.py:116-129 | a rewritten file reads back as the service, and an appended tail reads back as exactly the missing methods |
| ServiceBuilder.AppendCompletes | grpcadmin/utils/service_builder.py:122-129 | after an append, the class holds every method of the service, when the service's class is the last class in the file, as in a file written from the template |
| ServiceBuilder.View | grpcadmin/utils/service_builder.py:111-113 | an existing route file is read through the import cache: the module first imported from that path, whatever was written since |
| ServiceBuilder.GeneratedModule | grpcadmin/utils/service_builder.py:118-119 | a file written from the template defines only the service's class, whose public callables are exactly its methods not starting with `_` |
| ServiceBuilder.WithMethods | grpcadmin/utils/service_builder.py:127-129 | appending method blocks adds them to the class as public callables, and leaves the other classes alone, when that class is the last class in the file |
| ServiceBuilder.Apply | grpcadmin/utils/service_builder.py:110-133 | a write replaces the file with the template's module, an append extends the class with the missing methods (when it ends the file), an untouched file stays; an existing file is imported and cached first; no other file changes |
| ServiceBuilder.Step | grpcadmin/utils/service_builder.py:108-133 | one turn of the loop: the action is chosen on the files as the import cache shows them, it acts on the service's route path, and no other file changes |
| ServiceBuilder.RouteRun | grpcadmin/utils/service_builder.py:108-133 | the loop: one action per service, at that service's route path, each turn seeing what the earlier turns wrote; no file goes away |
| ServiceBuilder.RouteRunKeepsOthers | grpcadmin/utils/service_builder.py:108-133 | a route file that no service maps to is left as it was |
| ServiceBuilder.StepCompletes | grpcadmin/utils/service_builder.py:116-133 | a turn on a route file not imported before leaves the service's class with every public method; for an append, when that class ends the file |
| ServiceBuilder.SharedServiceMerges | grpcadmin/utils/service_builder.py:108-133 | two modules defining the same service, with no route file yet: the first writes the template, the second appends only the methods the first lacked, so the class ends with the public methods of both |
| ServiceBuilder.StaleImportRewrites | grpcadmin/utils/service_builder.py:111-120 | a route file that existed without the class is imported and cached, then rewritten; the second module still sees the cached module and rewrites it again, so the file ends as the second module's template |
| ServiceBuilder.RoutePlan | grpcadmin/utils/service_builder.py:108-133 | the loop from the existing route files with nothing imported: one action per service, at that service's route path, and no file goes away |
| ServiceBuilder.RoutePlanAsWritten | grpcadmin/utils/service_builder.py:109 | as written, any non-empty service list raises `AttributeError` on `sevice_name_lower` before any file is written |
| ServiceBuilder.RoutePlanTypo | grpcadmin/utils/service_builder.py:109 | for one service and no files, the written code raises where the intended plan writes the route file |
| AdminUtils.CheckWhereAmI | grpcadmin/utils.py:54-60 | it passes exactly when all three directories exist; otherwise it raises for the first missing one in the order `proto_buf`, `proto_py`, `services` |
| AdminUtils.RunCodeGenerator | grpcadmin/utils.py:44-51 | one call per name, in order, each the compiler's argument tuple for that name with the fixed directories `proto_buf` and `proto_py`, the same calls the builder makes for those directories |
| AdminUtils.CompileServices | grpcadmin/utils.py:73-99 | the directory check comes first, then the empty-directory error; it succeeds exactly when every include is known; the calls follow the selection: exactly the fixed-directory argument tuples of the selected names, in order |
| AdminUtils.EmptySelectionCompilesNothing | grpcadmin/utils.py:98-99 | excluding everything compiles nothing, where the builder raises `NameError` |
| ServiceInfo.LowerAll | grpcadmin/utils/service_info.py:17 | `.lower()` position by position |
| ServiceInfo.SnakeCase | grpcadmin/utils/service_info.py:16-17 | the result contains no upper-case letter |
| ServiceInfo.SplitWordsInserts | grpcadmin/utils/service_info.py:17 | the first substitution (`SplitWords`) only inserts underscores, at the word starts it matches |
| ServiceInfo.SplitPairsInserts | grpcadmin/utils/service_info.py:16 | the second substitution (`SplitPairs`) only inserts underscores, before each capital that follows a lower-case letter or digit |
| ServiceInfo.SnakeCaseSpec | grpcadmin/utils/service_info.py:16-17 | the result is the lower-cased input with underscores inserted only before capitals that are not first, and always between a lower-case letter or digit and a following capital |
| ServiceInfo.SnakeCaseKeepsLowerNames | grpcadmin/utils/service_info.py:16-17 | an input without capitals comes back unchanged |
| ServiceTemplate.GetHeader | grpcadmin/utils/service_template.py:1-7 | the header is the `HEADER_TEMPLATE` text |
| ServiceTemplate.StartService | grpcadmin/utils/service_template.py:10-13 | the start block imports `proto_py.<pb2_name>` under its own name, with no `_pb2` added, and ends with the `create_services` line |
| ServiceTemplate.ClassBlock | grpcadmin/utils/service_template.py:16-17 | `class <s>(services.<s>):` and a blank line |
| ServiceTemplate.CutMethodBlock | grpcadmin/utils/service_template.py:20-23 | `get_method(m)` for a plain name reads back as `m` followed by whatever comes after the block |
| ServiceTemplate.Generate | grpcadmin/utils/service_template.py:25-33 | the header comes first; with no methods, the output ends with the class block |
| ServiceTemplate.Decode | grpcadmin/utils/service_template.py:25-33 | whatever is decoded regenerates the same text |
| ServiceTemplate.DecodeGenerate | grpcadmin/utils/service_template.py:25-33 | with plain names, a generated file decodes back to its service record: module, service and methods in order |
| ServiceTemplate.ParseMethodBlocks | grpcadmin/utils/service_template.py:20-23 | a run of method blocks reads back as its method names |
| LegacyServiceTemplate.GetHeader | grpcadmin/service_template.py:1-7 | the same header as the newer generator |
| LegacyServiceTemplate.StartService | grpcadmin/service_template.py:10-13 | the newer start block for `<pb2_name>_pb2`, with the suffix on both the variable and the import path |
| LegacyServiceTemplate.ClassBlock | grpcadmin/service_template.py:16-17 | the same class block as the newer generator |
| LegacyServiceTemplate.MethodBlock | grpcadmin/service_template.py:20-23 | the same method block as the newer generator |
| LegacyServiceTemplate.Generate | grpcadmin/service_template.py:26-36 | the header comes first, once; an empty map yields the header only |
| LegacyServiceTemplate.BodyAppend | grpcadmin/service_template.py:30-35 | modules are written one after the other, independently |
| LegacyServiceTemplate.ServicesAppend | grpcadmin/service_template.py:32-35 | services are written one after the other, independently |
| LegacyServiceTemplate.GenerateOneService | grpcadmin/service_template.py:26-36 | for one module with one service, it writes exactly what the newer generator writes for `<name>_pb2` |

## Left out

- The grpc transport. `grpc.insecure_channel` and `grpc.server` are opaque
  records, and the `ThreadPoolExecutor` is reduced to its worker count.
  `start()` and its sleep loop are not modelled (I/O and time).
- Filesystem and import plumbing is not modelled, because it is I/O:
  - `from_self` in the server and both clients;
  - `from_proto_modules`, `from_modules`, and `import_module`;
  - `ServiceBuilder.create_builder` and `create_service`;
  - `create_service` and `add_service_stub` in `grpcadmin/utils.py`;
  - the file writes of the route plan, beyond the classes and public methods
    of each route file and the modules the import cache holds;
  - the imports that gather `ServiceInfo` records in `create_or_update_routes`.
  Directory listings and existing route modules are inputs.
- `from_proto_module`, `from_module` and `from_resources` of the server are
  `Server.ParseProtoModule` and `Server.ParseServiceModule` called in turn.
  They get no members of their own.
- `GRPCEnvironment.create_server` and `create_client` only forward to the
  constructors, which are modelled as `Server.NewServer` and `Client.NewClient`.
- Python reflection is replaced by values:
  - `inspect.getmembers`, `type(...)`, `ABCMeta` and `six.add_metaclass`
    class synthesis;
  - `update_wrapper`;
  - the `__getattribute__` rebinding in `StubWrapper.__call__`.
  Classes are records, and the wrapper is a `BoundStub` value.
- `Client.HookReadAtBindTime`: `StubWrapper` installs its `__getattribute__`
  on the stub class itself (easygrpc/client.py:87-88). A later binding of the
  same stub class, by this client or any other, therefore changes the wrapper
  that instances bound earlier go through. The model keeps one binding per
  client and name, so earlier bindings keep their value.
- `Server.CreateServer`: whether a service class can be instantiated is an
  input, the set of class identities whose constructor raises. What a
  constructor or an add-function does beyond that, including raising, is not
  modelled.
  `max_workers=None`, which lets the thread pool choose its own size, is not
  modelled: the worker count is an integer.
- Set iteration order: the names `from_module` binds, the methods of a
  `ServiceInfo` and the names `filter` deletes are Python sets. The model
  iterates them in dictionary insertion order, because set order is not
  specified.
- `Client.Filter`: when `filter` raises part-way, which attributes were
  already deleted depends on that set order. The model deletes in key order.
- The `stubs_params` attribute that `_parse_module` stores is not modelled.
  Only its use, the `messages` of each stub, is.
- `Client.CallWrapper`: a hook is either `None` or taken to be truthy. A hook
  object whose `__bool__` is false, which `if hook:` would also skip, is not
  modelled.
- `Client.Filter`: `delattr` of a stub name that names another attribute of
  the client (for example `channel`) is not modelled. Only stub bindings are
  attributes here.
- `environment/parser.py` is not part of this model. The older client is
  modelled with the parser of `easygrpc/parser.py`.
- `ServiceInfo.LowerAll` lower-cases ASCII letters only. Python's
  `str.lower` is Unicode-aware.
- `ServiceInfo.SnakeCase`: regex `.` is taken to match any character
  except a line break.
- The self-recursive `route` property (easygrpc/server.py:60) is not
  modelled. It can only raise `RecursionError`.
- The relative import and `print` at the end of easygrpc/server.py
  (lines 373-374) are not modelled. They fail at import time outside a
  package.
- `grpcadmin/scripts.py`, `easygrpc/exc.py` and `setup.py` are not
  modelled. They hold CLI wiring, unused exception classes and packaging.
- The protocol compiler itself is not modelled. Only the argument tuples it
  receives are.
- `Parser.Parse`: the creators are modelled by the option maps they pass
  to `beta_implementations`. A creator that does anything else is not
  modelled.
- `Parser.Parse`: one message class bound under two member names is not
  modelled, because classes here are values without identity. In the source
  the second patch saves the first stand-in as the "original", and the
  restore loop raises `AttributeError` at the second `FromString_` deletion
  (easygrpc/parser.py:77-81), so the module stays patched and line 84 is
  never reached. The model patches and restores each name's own copy.
- `Parser.RestoreAll`: the same aliasing case is not modelled; the model
  never raises in the restore loop.
- `Parser.RestoreAllInverts`: the same aliasing case is not modelled, and
  the restore is compared by which callable each attribute holds (see
  `Parser.RestorePatch`).
- `Parser.ParseRestores`: the same aliasing case is not modelled, and the
  round trip is stated by which callable each attribute holds (see
  `Parser.RestorePatch`).
- `Parser.RestorePatch`: the restore assigns back `FromString` as read
  through the class (easygrpc/parser.py:78-79). A pure-Python
  `staticmethod` therefore comes back as a plain function, and a
  classmethod inherited from a C base class comes back as the class's own
  attribute. The model records only which original callable an attribute
  holds (`Original(tag)`), so it does not tell these forms apart.
- `ServiceBuilder.WithMethods`: the appended `def` blocks join whichever
  top-level class ends the route file, because the file is opened in
  append mode (grpcadmin/utils/service_builder.py:127-129). The model adds
  them to the service's class, which is right when that class ends the
  file, as in every file written from the template. A hand-edited file
  with another class after it would give that class the methods instead.
- `ServiceBuilder.Apply`: an append is modelled under the same assumption,
  that the service's class ends the file.
- `ServiceBuilder.AppendCompletes`: holds under the same assumption, that
  the service's class ends the file.
- `ServiceBuilder.StepCompletes`: for an append, holds under the same
  assumption, that the service's class ends the file.

## Findings

| source | as written | input that shows it | evidently intended | confidence | as-written member | corrected member |
|---|---|---|---|---|---|---|
| grpcadmin/utils/service_builder.py:109 | the route file name reads `service_info.sevice_name_lower`, an attribute `ServiceInfo` does not have | any proto module defining one service | `service_info.service_name_lower`, so the file is `<routes>/<snake_case>.py` | high, not executed | ServiceBuilder.RoutePlanAsWritten (with RoutePlanTypo) | ServiceBuilder.RoutePlan |
| environment/client.py:140-143 | both branches of `filter` compute `set(stubs) - set(names)` | stubs `{"Greeter"}`, `filter("Greeter", include=False)` deletes nothing | without `include`, delete the named stubs, as documented and as `easygrpc/client.py:233` does | high, not executed | Client.Doomed (with DirectFilterIgnoresInclude, DirectFilterCounterexample) | Client.Documented (with FilterAsDocumented) |
| easygrpc/client.py:276-281 | `add_stub` binds `self.stubs[s_name]` but never enters the stub; with `need_check` a held key raises the duplicate error and a new key raises `KeyError` | `add_stubs(GreeterStub)` on a client that does not hold `Greeter` | enter the given stub under its key, then bind it | high, not executed | Client.AddStub (with AddStubs) | Client.AddStubIntended (with AddStubIntendedOnce, AddStubIntendedAgrees) |
| easygrpc/client.py:177-179 | after parsing one module, `messages` is set on every held stub from `stubs_params[s_name]`, including stubs from earlier modules; for a stub the module did not define, the `defaultdict` gives `{}` and the lookup raises `KeyError('messages')` | `from_module(m1)` then `from_module(m2)` where `m2` does not define `m1`'s stub | set the messages of the stubs this module registered | high, not executed | Client.ParseModule (with ParseModuleStaleStub) | Client.ParseModuleIntended (with ParseModuleIntendedMessages, ParseModuleFirstLoad) |

Two members stay as written, because they are what the code does:

- `Client.FromModule` keeps the written `Client.ParseModule`.
  `Client.ParseModuleFirstLoad` shows the corrected version agrees with it on
  the first module a client loads.
- `Client.AddStubs` keeps the written `Client.AddStub`.
  `Client.AddStubIntendedAgrees` shows the two agree on every call
  `from_module` makes.
