/** The newer scaffolding (`grpcadmin/utils/service_builder.py`): the
    directories a builder works on, which proto files it compiles and the
    compiler argument lists it passes, which compiled modules it reads
    back, and what it does to each route file. The file system is a
    listing or a map handed in as a value; writing, importing and
    compiling are left to the caller. */
module ServiceBuilder {
  import opened Wrappers
  import opened Strings
  import opened ServiceInfo
  import opened ProtoSelection
  import ServiceTemplate

  const ProtoBufDir: string := "proto_buf"
  const ProtoPyDir: string := "proto_py"
  const RoutesDir: string := "routes"

  /** `os.path.join(a, b)` on POSIX paths: an absolute `b` replaces `a`;
      otherwise one slash separates them unless `a` is empty or already
      ends with one. */
  function Join(a: string, b: string): (r: string)
    ensures StartsWith(b, "/") ==> r == b
    ensures !StartsWith(b, "/") ==> StartsWith(r, a) && EndsWith(r, b)
    ensures !StartsWith(b, "/") && a != [] ==> |r| > |b| && r[|r| - |b| - 1] == '/'
  {
    if StartsWith(b, "/") then b
    else if a == [] || EndsWith(a, "/") then
      assert (a + b)[..|a|] == a && (a + b)[|a + b| - |b|..] == b;
      assert a != [] ==> a[|a| - 1] == a[|a| - 1..][0] == '/';
      a + b
    else
      var r := a + "/" + b;
      assert r[..|a|] == a && r[|r| - |b|..] == b;
      r
  }

  /** The three directories a builder works on. */
  datatype Builder = Builder(name: string, protoBufDir: string, protoPyDir: string, routesDir: string)

  /** `x or default` for an optional path argument: a missing or empty
      argument falls back to the default. */
  function OrDefault(given: Option<string>, default: string): (r: string)
    ensures given.Some? && given.value != [] ==> r == given.value
    ensures given.None? || given.value == [] ==> r == default
  {
    if given.Some? && given.value != [] then given.value else default
  }

  /** `ServiceBuilder.__init__`: each directory not given is
      `<name>/proto_buf`, `<name>/proto_py` or `<name>/routes`. */
  function NewBuilder(name: string, protoBufDir: Option<string>, protoPyDir: Option<string>,
                      routesDir: Option<string>): (r: Builder)
    ensures r.name == name
    ensures protoBufDir.Some? && protoBufDir.value != [] ==> r.protoBufDir == protoBufDir.value
    ensures protoPyDir.Some? && protoPyDir.value != [] ==> r.protoPyDir == protoPyDir.value
    ensures routesDir.Some? && routesDir.value != [] ==> r.routesDir == routesDir.value
  {
    Builder(name,
      OrDefault(protoBufDir, Join(name, ProtoBufDir)),
      OrDefault(protoPyDir, Join(name, ProtoPyDir)),
      OrDefault(routesDir, Join(name, RoutesDir)))
  }

  /** A builder made from its name alone works inside `<name>/`: each of
      its directories is the name, a slash, and the fixed directory name. */
  lemma DefaultDirs(name: string)
    requires name != [] && !EndsWith(name, "/")
    ensures NewBuilder(name, None, None, None).protoBufDir == name + "/" + ProtoBufDir
    ensures NewBuilder(name, None, None, None).protoPyDir == name + "/" + ProtoPyDir
    ensures NewBuilder(name, None, None, None).routesDir == name + "/" + RoutesDir
  {
    assert !StartsWith(ProtoBufDir, "/") && !StartsWith(ProtoPyDir, "/") && !StartsWith(RoutesDir, "/");
  }

  // ---------------------------------------------------------------------
  // Which proto files are compiled.

  /** `_get_necessary_proto_files`: the shared selection rule, then a
      `NameError` when nothing is left. */
  function NecessaryProtoFiles(includes: seq<string>, excludes: seq<string>, all: seq<string>): (r: Result<seq<string>>)
    ensures r.Ok? ==> |r.value| > 0 && forall x :: x in r.value ==> x in all
    ensures r.Ok? ==> multiset(r.value) == multiset(if includes == [] then all else includes) - multiset(excludes)
    ensures r.Err? && r.error != EmptySelection ==> FirstMissing(includes, all, r.error)
    ensures r.Err? <==> (exists i :: 0 <= i < |includes| && includes[i] !in all) || Select(includes, excludes, all) == Ok([])
  {
    match Select(includes, excludes, all)
    case Err(e) => Err(e)
    case Ok(s) => if s == [] then Err(EmptySelection) else Ok(s)
  }

  /** Without excludes, a valid include list is compiled exactly as given,
      in order and with its duplicates; an empty one compiles every file. */
  lemma NecessaryWithoutExcludes(includes: seq<string>, all: seq<string>)
    requires forall i :: 0 <= i < |includes| ==> includes[i] in all
    requires all != []
    ensures NecessaryProtoFiles(includes, [], all) == Ok(if includes == [] then all else includes)
  {
    assert CheckIncludes(includes, all) == Ok(includes);
  }

  /** Excluding every selected file is an error for the builder. */
  lemma ExcludingEverythingFails(all: seq<string>)
    ensures NecessaryProtoFiles([], all, all) == Err(EmptySelection)
  {
    var r := RemoveEach(all, all);
    assert multiset(r) == multiset{};
    assert r == [];
  }

  /** One compiler call's argument tuple. */
  type Argv = seq<string>

  /** The input file argument of a compiler call: `./<dir>/<name>.proto`. */
  function InputFile(protoBufDir: string, name: string): string
  {
    "./" + protoBufDir + "/" + name + ProtoSuffix
  }

  /** Reads the proto name back out of an input file argument. */
  function InputName(protoBufDir: string, arg: string): (r: Option<string>)
    ensures r.Some? ==> arg == InputFile(protoBufDir, r.value)
  {
    var pre := "./" + protoBufDir + "/";
    if StartsWith(arg, pre) && |pre| + |ProtoSuffix| <= |arg| && EndsWith(arg, ProtoSuffix) then
      var n := arg[|pre|..|arg| - |ProtoSuffix|];
      assert arg == pre + n + ProtoSuffix by {
        assert arg == arg[..|pre|] + arg[|pre|..|arg| - |ProtoSuffix|] + arg[|arg| - |ProtoSuffix|..];
      }
      Some(n)
    else None
  }

  /** The input file argument names its proto unambiguously. */
  lemma InputNameOfInputFile(protoBufDir: string, name: string)
    ensures InputName(protoBufDir, InputFile(protoBufDir, name)) == Some(name)
  {
    var pre := "./" + protoBufDir + "/";
    var arg := InputFile(protoBufDir, name);
    assert arg == pre + name + ProtoSuffix;
    assert arg[..|pre|] == pre;
    assert arg[|arg| - |ProtoSuffix|..] == ProtoSuffix;
    assert arg[|pre|..|arg| - |ProtoSuffix|] == name;
  }

  /** `protoc.main((...))` for one name: the program slot, the include
      path, both output flags, then the input file. */
  function CompilerArgs(protoBufDir: string, protoPyDir: string, name: string): (r: Argv)
    ensures |r| == 5 && r[0] == []
    ensures r[1] == "-I./" + protoBufDir
    ensures r[2] == "--python_out=./" + protoPyDir && r[3] == "--grpc_python_out=./" + protoPyDir
    ensures InputName(protoBufDir, r[4]) == Some(name)
  {
    InputNameOfInputFile(protoBufDir, name);
    ["", "-I./" + protoBufDir, "--python_out=./" + protoPyDir, "--grpc_python_out=./" + protoPyDir,
     InputFile(protoBufDir, name)]
  }

  /** `_run_code_generator(proto_files)`: one compiler call per name, in order. */
  function RunCodeGenerator(b: Builder, names: seq<string>): (r: seq<Argv>)
    ensures |r| == |names|
    ensures forall i :: 0 <= i < |names| ==> |r[i]| == 5 && InputName(b.protoBufDir, r[i][4]) == Some(names[i])
  {
    seq(|names|, i requires 0 <= i < |names| => CompilerArgs(b.protoBufDir, b.protoPyDir, names[i]))
  }

  /** `calls` are the compiler calls for `names`, one each, in order. */
  predicate CompiledAs(b: Builder, calls: seq<Argv>, names: seq<string>) {
    |calls| == |names|
    && forall i :: 0 <= i < |names| ==> calls[i] == CompilerArgs(b.protoBufDir, b.protoPyDir, names[i])
  }

  /** `compile_proto_files(include, exclude)` over a listing of the proto
      directory: the compiler calls it makes, or the error it raises before
      making any. */
  function CompileProtoFiles(b: Builder, listing: seq<DirEntry>, includes: seq<string>, excludes: seq<string>): (r: Result<seq<Argv>>)
    ensures ProtoFileNames(listing) == [] ==> r == Err(FileNotFound(b.protoBufDir))
    ensures r.Ok? ==> |r.value| > 0
    ensures r.Ok? <==> ProtoFileNames(listing) != [] && NecessaryProtoFiles(includes, excludes, Stems(ProtoFileNames(listing))).Ok?
    ensures r.Ok? ==> forall i :: 0 <= i < |r.value| ==>
      |r.value[i]| == 5 && InputAmong(b.protoBufDir, r.value[i][4], Stems(ProtoFileNames(listing)))
    ensures r.Ok? ==> CompiledAs(b, r.value, NecessaryProtoFiles(includes, excludes, Stems(ProtoFileNames(listing))).value)
  {
    var all :- AllProtoFiles(b.protoBufDir, listing);
    var names :- NecessaryProtoFiles(includes, excludes, all);
    var calls := RunCodeGenerator(b, names);
    assert CompiledAs(b, calls, names);
    CompiledAmong(b, calls, names, all);
    Ok(calls)
  }

  /** Calls for known names have known inputs. */
  lemma CompiledAmong(b: Builder, calls: seq<Argv>, names: seq<string>, all: seq<string>)
    requires CompiledAs(b, calls, names)
    requires forall x :: x in names ==> x in all
    ensures forall i :: 0 <= i < |calls| ==> |calls[i]| == 5 && InputAmong(b.protoBufDir, calls[i][4], all)
  {
    forall i | 0 <= i < |calls|
      ensures |calls[i]| == 5 && InputAmong(b.protoBufDir, calls[i][4], all)
    {
      assert names[i] in all;
    }
  }

  /** With neither includes nor excludes, every proto file of the
      directory is compiled, once each, in listing order. */
  lemma CompileEverything(b: Builder, listing: seq<DirEntry>)
    requires ProtoFileNames(listing) != []
    ensures var all := Stems(ProtoFileNames(listing));
      var r := CompileProtoFiles(b, listing, [], []);
      && r.Ok? && |r.value| == |all|
      && forall i :: 0 <= i < |all| ==> InputName(b.protoBufDir, r.value[i][4]) == Some(all[i])
  {
    var all := Stems(ProtoFileNames(listing));
    assert all != [] by {
      assert AllProtoFiles(b.protoBufDir, listing).Ok?;
    }
    NecessaryWithoutExcludes([], all);
  }

  /** `arg` is the input file argument for one of the names `all`. */
  predicate InputAmong(protoBufDir: string, arg: string, all: seq<string>) {
    InputName(protoBufDir, arg).Some? && InputName(protoBufDir, arg).value in all
  }

  // ---------------------------------------------------------------------
  // Which compiled modules are read back.

  /** A directory entry `create_or_update_routes` treats as a compiled
      module: a regular file whose name does not end with `__.py`. */
  predicate IsModuleFile(e: DirEntry) {
    e.isFile && !EndsWith(e.name, "__.py")
  }

  /** `[f.split('.py')[0] for f in os.listdir(proto_py_dir) if ...]`. */
  function Pb2Names(listing: seq<DirEntry>): (r: seq<string>)
    ensures |r| <= |listing|
    ensures forall n :: n in r <==> exists e :: e in listing && IsModuleFile(e) && FirstField(e.name, ".py") == n
  {
    if listing == [] then []
    else
      assert listing == [listing[0]] + listing[1..];
      var rest := Pb2Names(listing[1..]);
      if IsModuleFile(listing[0]) then [FirstField(listing[0].name, ".py")] + rest else rest
  }

  /** A compiled module file `<x>.py` with no dot in `x` is read back as `x`. */
  lemma Pb2NameOfModule(x: string)
    requires '.' !in x
    ensures FirstField(x + ".py", ".py") == x
  {
    var f := x + ".py";
    var r := FirstField(f, ".py");
    assert OccursAt(f, ".py", |x|) by { assert f[|x|..|x| + 3] == ".py"; }
    assert forall j: nat :: j < |x| ==> !OccursAt(f, ".py", j) by {
      forall j: nat | j < |x| ensures !OccursAt(f, ".py", j) {
        assert x[j] in x;
        assert f[j] == x[j] != '.' == ".py"[0];
        assert j + 3 <= |f| ==> f[j..j + 3][0] == f[j];
      }
    }
    assert |r| == |x|;
    assert r == f[..|r|];
    assert x == f[..|x|];
  }

  /** The package marker is never taken for a compiled module. */
  lemma InitIsSkipped()
    ensures Pb2Names([DirEntry("__init__.py", true)]) == []
  {
    assert EndsWith("__init__.py", "__.py");
  }

  // ---------------------------------------------------------------------
  // The route-file plan.

  /** A class found in an existing route module: its attributes, each
      marked callable or not. */
  datatype ClassBody = ClassBody(attrs: map<string, bool>)

  /** An existing route module: its top-level classes by name. */
  type RouteModule = map<string, ClassBody>

  /** What happens to one route file. */
  datatype Action =
    | Write(path: string, text: string)     // created or overwritten with the full template
    | Append(path: string, text: string)    // method blocks added at the end
    | Untouched(path: string)               // nothing to add

  /** `_get_methods_by_class`: the attribute names that are callable and do
      not start with `_`. */
  function PublicCallables(c: ClassBody): (r: set<string>)
    ensures forall a :: a in r <==> a in c.attrs && c.attrs[a] && !StartsWith(a, "_")
  {
    set a | a in c.attrs && c.attrs[a] && !StartsWith(a, "_")
  }

  /** `[m for m in methods if m not in present]`. */
  function MissingMethods(methods: seq<string>, present: set<string>): (r: seq<string>)
    ensures |r| <= |methods|
    ensures forall m :: m in r <==> m in methods && m !in present
    ensures forall m :: m !in present ==> multiset(r)[m] == multiset(methods)[m]
  {
    if methods == [] then []
    else
      assert methods == [methods[0]] + methods[1..];
      var rest := MissingMethods(methods[1..], present);
      if methods[0] in present then rest else [methods[0]] + rest
  }

  /** The filter works element by element and keeps order: filtering two
      runs of names one after the other is filtering their concatenation. */
  lemma {:induction false} MissingMethodsAppend(a: seq<string>, b: seq<string>, present: set<string>)
    ensures MissingMethods(a + b, present) == MissingMethods(a, present) + MissingMethods(b, present)
    decreases |a|
  {
    if a != [] {
      assert (a + b)[0] == a[0];
      assert (a + b)[1..] == a[1..] + b;
      MissingMethodsAppend(a[1..], b, present);
    } else {
      assert a + b == b;
    }
  }

  /** The route file of a service: `<routes_dir>/<service_name_lower>.py`. */
  function RoutePath(routesDir: string, serviceName: string): (r: string)
    ensures EndsWith(r, SnakeCase(serviceName) + ".py")
  {
    Join(routesDir, SnakeCase(serviceName) + ".py")
  }

  /** The body of the loop of `create_or_update_routes` for one service,
      given the route modules that exist, keyed by path. */
  function PlanFor(routesDir: string, files: map<string, RouteModule>, info: Info): (r: Action)
    ensures r.path == RoutePath(routesDir, info.serviceName)
    ensures r.Write? <==> r.path !in files || info.serviceName !in files[r.path]
    ensures r.Write? ==> r.text == ServiceTemplate.Generate(info)
    ensures r.Untouched? <==> (r.path in files && info.serviceName in files[r.path]
      && forall m :: m in info.methods ==> m in PublicCallables(files[r.path][info.serviceName]))
    ensures r.Append? ==> r.text == ServiceTemplate.MethodBlocks(
      MissingMethods(info.methods, PublicCallables(files[r.path][info.serviceName])))
    ensures r.Append? ==> r.path in files && info.serviceName in files[r.path]
  {
    var path := RoutePath(routesDir, info.serviceName);
    if path !in files || info.serviceName !in files[path] then Write(path, ServiceTemplate.Generate(info))
    else
      var missing := MissingMethods(info.methods, PublicCallables(files[path][info.serviceName]));
      if missing == [] then Untouched(path)
      else
        assert exists m :: m in info.methods && m !in PublicCallables(files[path][info.serviceName]) by {
          assert missing[0] in missing;
        }
        Append(path, ServiceTemplate.MethodBlocks(missing))
  }

  /** The route files as the loop sees them: `disk` is what each existing
      file defines, `loaded` the modules already imported. Python caches an
      imported module, so importing a path again yields the module as first
      loaded, whatever was written to the file since. */
  datatype RouteState = RouteState(disk: map<string, RouteModule>, loaded: map<string, RouteModule>)

  /** `importlib.import_module` of an existing route file. */
  function Imported(st: RouteState, path: string): (m: RouteModule)
    requires path in st.disk
  {
    if path in st.loaded then st.loaded[path] else st.disk[path]
  }

  /** Each existing route file as an import of it yields it. */
  function View(st: RouteState): (v: map<string, RouteModule>)
    ensures v.Keys == st.disk.Keys
    ensures forall p :: p in st.disk ==> v[p] == Imported(st, p)
  {
    map p | p in st.disk :: Imported(st, p)
  }

  /** What a file written with the template defines: the service's class,
      with every method as a callable of its own. */
  function GeneratedModule(info: Info): (m: RouteModule)
    ensures m.Keys == {info.serviceName}
    ensures forall x :: x in PublicCallables(m[info.serviceName]) <==> x in info.methods && !StartsWith(x, "_")
  {
    map[info.serviceName := ClassBody(map x | x in info.methods :: true)]
  }

  /** A route module after method blocks for `added` are appended to its
      file: the blocks extend the service's class. */
  function WithMethods(m: RouteModule, name: string, added: seq<string>): (r: RouteModule)
    ensures r.Keys == m.Keys
    ensures name in m ==> forall x :: x in PublicCallables(r[name]) <==>
      x in PublicCallables(m[name]) || (x in added && !StartsWith(x, "_"))
    ensures forall n :: n in m && n != name ==> r[n] == m[n]
  {
    if name in m then m[name := ClassBody(m[name].attrs + map x | x in added :: true)] else m
  }

  /** One turn of the loop: the action chosen and the files afterwards. */
  datatype Turn = Turn(action: Action, after: RouteState)

  /** The files after the action `a` for `info`. An existing file is
      imported (and cached) before its class is looked up. */
  function Apply(st: RouteState, a: Action, info: Info): (r: RouteState)
    requires !a.Write? ==> a.path in st.disk
    requires a.Append? ==> info.serviceName in Imported(st, a.path)
    ensures r.disk.Keys == st.disk.Keys + {a.path}
    ensures forall p :: p in st.disk && p != a.path ==> r.disk[p] == st.disk[p]
    ensures a.Write? ==> r.disk[a.path] == GeneratedModule(info)
    ensures a.Append? ==> r.disk[a.path] == WithMethods(st.disk[a.path], info.serviceName,
      MissingMethods(info.methods, PublicCallables(Imported(st, a.path)[info.serviceName])))
    ensures a.Untouched? ==> r.disk == st.disk
    ensures a.path in st.disk ==> r.loaded == st.loaded[a.path := Imported(st, a.path)]
    ensures a.path !in st.disk ==> r.loaded == st.loaded
  {
    var path := a.path;
    var loaded := if path in st.disk then st.loaded[path := Imported(st, path)] else st.loaded;
    match a
    case Write(_, _) => RouteState(st.disk[path := GeneratedModule(info)], loaded)
    case Append(_, _) =>
      var missing := MissingMethods(info.methods, PublicCallables(Imported(st, path)[info.serviceName]));
      RouteState(st.disk[path := WithMethods(st.disk[path], info.serviceName, missing)], loaded)
    case Untouched(_) => RouteState(st.disk, loaded)
  }

  /** One turn: the action `PlanFor` chooses on the files as imported. */
  function Step(routesDir: string, st: RouteState, info: Info): (r: Turn)
    ensures r.action == PlanFor(routesDir, View(st), info)
    ensures r.action.path == RoutePath(routesDir, info.serviceName)
    ensures r.after.disk.Keys == st.disk.Keys + {r.action.path}
    ensures forall p :: p in st.disk && p != r.action.path ==> r.after.disk[p] == st.disk[p]
  {
    var a := PlanFor(routesDir, View(st), info);
    Turn(a, Apply(st, a, info))
  }

  /** The actions of the whole loop and the route files it leaves. */
  datatype Plan = Plan(actions: seq<Action>, after: RouteState)

  /** The loop over every service, each turn seeing what the earlier turns
      wrote, through the import cache. A file no service maps to is left
      as it was. */
  function RouteRun(routesDir: string, st: RouteState, infos: seq<Info>): (r: Plan)
    ensures |r.actions| == |infos|
    ensures forall i :: 0 <= i < |infos| ==> r.actions[i].path == RoutePath(routesDir, infos[i].serviceName)
    ensures st.disk.Keys <= r.after.disk.Keys
    decreases |infos|
  {
    if infos == [] then Plan([], st)
    else
      var t := Step(routesDir, st, infos[0]);
      var rest := RouteRun(routesDir, t.after, infos[1..]);
      ActionPathsCons(routesDir, t.action, rest.actions, infos);
      Plan([t.action] + rest.actions, rest.after)
  }

  /** Prepending the first service's action keeps actions and services
      aligned by route path. */
  lemma ActionPathsCons(routesDir: string, a: Action, rest: seq<Action>, infos: seq<Info>)
    requires infos != [] && a.path == RoutePath(routesDir, infos[0].serviceName)
    requires |rest| == |infos| - 1
    requires forall i :: 0 <= i < |rest| ==> rest[i].path == RoutePath(routesDir, infos[1..][i].serviceName)
    ensures forall i :: 0 <= i < |infos| ==> ([a] + rest)[i].path == RoutePath(routesDir, infos[i].serviceName)
  {
    forall i | 0 <= i < |infos|
      ensures ([a] + rest)[i].path == RoutePath(routesDir, infos[i].serviceName)
    {
      if i > 0 {
        assert ([a] + rest)[i] == rest[i - 1];
        assert infos[1..][i - 1] == infos[i];
      }
    }
  }

  /** A route file that no service maps to is left as it was. */
  lemma {:induction false} RouteRunKeepsOthers(routesDir: string, st: RouteState, infos: seq<Info>, p: string)
    requires p in st.disk
    requires forall i :: 0 <= i < |infos| ==> p != RoutePath(routesDir, infos[i].serviceName)
    ensures p in RouteRun(routesDir, st, infos).after.disk
    ensures RouteRun(routesDir, st, infos).after.disk[p] == st.disk[p]
    decreases |infos|
  {
    if infos != [] {
      var t := Step(routesDir, st, infos[0]);
      assert p != t.action.path;
      assert forall i :: 0 <= i < |infos[1..]| ==> infos[1..][i] == infos[i + 1];
      RouteRunKeepsOthers(routesDir, t.after, infos[1..], p);
    }
  }

  /** The loop over `[info] + infos` is one turn, then the loop over `infos`. */
  lemma RouteRunCons(routesDir: string, st: RouteState, info: Info, infos: seq<Info>)
    ensures var t := Step(routesDir, st, info);
      var rest := RouteRun(routesDir, t.after, infos);
      RouteRun(routesDir, st, [info] + infos) == Plan([t.action] + rest.actions, rest.after)
  {
    assert ([info] + infos)[0] == info;
    assert ([info] + infos)[1..] == infos;
  }

  /** The loop over one service is one turn. */
  lemma RouteRunOne(routesDir: string, st: RouteState, b: Info)
    ensures var t := Step(routesDir, st, b);
      RouteRun(routesDir, st, [b]) == Plan([t.action], t.after)
  {
    var t := Step(routesDir, st, b);
    assert RouteRun(routesDir, t.after, []) == Plan([], t.after);
    RouteRunCons(routesDir, st, b, []);
    assert [b] + [] == [b];
  }

  /** The loop over two services is two turns. */
  lemma RouteRunTwo(routesDir: string, st: RouteState, a: Info, b: Info)
    ensures var t0 := Step(routesDir, st, a);
      var t1 := Step(routesDir, t0.after, b);
      RouteRun(routesDir, st, [a, b]) == Plan([t0.action, t1.action], t1.after)
  {
    var t0 := Step(routesDir, st, a);
    var one := RouteRun(routesDir, t0.after, [b]);
    assert RouteRun(routesDir, st, [a, b]) == Plan([t0.action] + one.actions, one.after) by {
      RouteRunCons(routesDir, st, a, [b]);
      assert [a] + [b] == [a, b];
    }
    RouteRunOne(routesDir, t0.after, b);
  }

  /** `create_or_update_routes`, after the pb2 modules are read: the loop
      starting from the route files that exist, nothing imported yet. */
  function RoutePlan(routesDir: string, files: map<string, RouteModule>, infos: seq<Info>): (r: Plan)
    ensures |r.actions| == |infos|
    ensures forall i :: 0 <= i < |infos| ==> r.actions[i].path == RoutePath(routesDir, infos[i].serviceName)
    ensures files.Keys <= r.after.disk.Keys
  {
    RouteRun(routesDir, RouteState(files, map[]), infos)
  }

  /** The service's route file defines its class with every public method. */
  predicate Complete(disk: map<string, RouteModule>, routesDir: string, info: Info) {
    var p := RoutePath(routesDir, info.serviceName);
    p in disk && info.serviceName in disk[p]
    && forall m :: m in info.methods && !StartsWith(m, "_") ==> m in PublicCallables(disk[p][info.serviceName])
  }

  /** A turn whose route file was not imported earlier leaves the service
      complete: written whole, completed by an append, or already complete. */
  lemma StepCompletes(routesDir: string, st: RouteState, info: Info)
    requires RoutePath(routesDir, info.serviceName) !in st.loaded
    ensures Complete(Step(routesDir, st, info).after.disk, routesDir, info)
  {
    var p := RoutePath(routesDir, info.serviceName);
    var a := PlanFor(routesDir, View(st), info);
    if a.Append? {
      AppendCompletes(routesDir, View(st), info);
    }
  }

  /** Two compiled modules defining the same service, with no route file
      yet: the first writes the template, the second imports that file,
      finds the class and appends only the methods it lacks, so the class
      ends up with the methods of both. */
  lemma SharedServiceMerges(routesDir: string, files: map<string, RouteModule>, a: Info, b: Info)
    requires a.serviceName == b.serviceName
    requires RoutePath(routesDir, a.serviceName) !in files
    ensures var p := RoutePath(routesDir, a.serviceName);
      var plan := RoutePlan(routesDir, files, [a, b]);
      var missing := MissingMethods(b.methods, PublicCallables(GeneratedModule(a)[a.serviceName]));
      && plan.actions[0] == Write(p, ServiceTemplate.Generate(a))
      && plan.actions[1] == (if missing == [] then Untouched(p) else Append(p, ServiceTemplate.MethodBlocks(missing)))
      && p in plan.after.disk && a.serviceName in plan.after.disk[p]
      && forall m :: m in PublicCallables(plan.after.disk[p][a.serviceName]) <==>
           (m in a.methods || m in b.methods) && !StartsWith(m, "_")
  {
    var p := RoutePath(routesDir, a.serviceName);
    var st0 := RouteState(files, map[]);
    var t0 := Step(routesDir, st0, a);
    var st1 := t0.after;
    assert t0.action == Write(p, ServiceTemplate.Generate(a));
    assert st1.disk[p] == GeneratedModule(a) && p !in st1.loaded;
    var t1 := Step(routesDir, st1, b);
    assert View(st1)[p] == GeneratedModule(a);
    RouteRunTwo(routesDir, st0, a, b);
  }

  /** A route file that existed without the service's class is imported
      (and cached) by the first module's turn, which then overwrites it;
      the second module's turn still sees the cached module without the
      class and overwrites the file again, so the first module's methods
      are lost from it. */
  lemma StaleImportRewrites(routesDir: string, files: map<string, RouteModule>, a: Info, b: Info)
    requires a.serviceName == b.serviceName
    requires RoutePath(routesDir, a.serviceName) in files
    requires a.serviceName !in files[RoutePath(routesDir, a.serviceName)]
    ensures var p := RoutePath(routesDir, a.serviceName);
      var plan := RoutePlan(routesDir, files, [a, b]);
      && plan.actions == [Write(p, ServiceTemplate.Generate(a)), Write(p, ServiceTemplate.Generate(b))]
      && plan.after.disk[p] == GeneratedModule(b)
  {
    var p := RoutePath(routesDir, a.serviceName);
    var st0 := RouteState(files, map[]);
    var t0 := Step(routesDir, st0, a);
    var st1 := t0.after;
    assert st1.loaded[p] == files[p];
    var t1 := Step(routesDir, st1, b);
    assert View(st1)[p] == files[p];
    RouteRunTwo(routesDir, st0, a, b);
  }

  /** Predicate on names that the template can be read back for. */
  predicate PlainNames(names: seq<string>) {
    forall i :: 0 <= i < |names| ==> ServiceTemplate.Plain(names[i])
  }

  /** What the plan writes is exactly what the service needs: a rewritten
      file reads back as the service itself, and an appended tail reads
      back as the missing methods, in service order. */
  lemma PlanReadsBack(routesDir: string, files: map<string, RouteModule>, info: Info)
    requires ServiceTemplate.Plain(info.pb2Name) && ServiceTemplate.Plain(info.serviceName)
    requires PlainNames(info.methods)
    ensures PlanFor(routesDir, files, info).Write? ==>
      ServiceTemplate.Decode(PlanFor(routesDir, files, info).text) == Some(info)
    ensures PlanFor(routesDir, files, info).Append? ==>
      ServiceTemplate.ParseMethods(PlanFor(routesDir, files, info).text)
        == Some(MissingMethods(info.methods, PublicCallables(files[RoutePath(routesDir, info.serviceName)][info.serviceName])))
  {
    var a := PlanFor(routesDir, files, info);
    if a.Write? {
      ServiceTemplate.DecodeGenerate(info);
    } else if a.Append? {
      var missing := MissingMethods(info.methods, PublicCallables(files[a.path][info.serviceName]));
      assert PlainNames(missing) by {
        forall i | 0 <= i < |missing| ensures ServiceTemplate.Plain(missing[i]) {
          assert missing[i] in info.methods;
        }
      }
      ServiceTemplate.ParseMethodBlocks(missing);
    }
  }

  /** After the plan, the service's class in its route file holds every
      method: the ones already public, plus the ones appended. */
  lemma AppendCompletes(routesDir: string, files: map<string, RouteModule>, info: Info)
    requires PlanFor(routesDir, files, info).Append?
    ensures forall m :: m in info.methods ==>
      m in PublicCallables(files[RoutePath(routesDir, info.serviceName)][info.serviceName])
      || m in MissingMethods(info.methods, PublicCallables(files[RoutePath(routesDir, info.serviceName)][info.serviceName]))
  {
  }

  /** The route update as written reads `service_info.sevice_name_lower`,
      an attribute `ServiceInfo` does not have: the first service raises
      before any file is touched. */
  function RoutePlanAsWritten(routesDir: string, files: map<string, RouteModule>, infos: seq<Info>): (r: Result<seq<Action>>)
    ensures infos != [] <==> r.Err?
    ensures r.Err? ==> r.error == MissingAttribute("sevice_name_lower")
    ensures r.Ok? ==> r.value == []
  {
    if infos == [] then Ok([]) else Err(MissingAttribute("sevice_name_lower"))
  }

  /** With a single service, the code as written plans nothing and raises,
      while the intended plan writes its route file. */
  lemma RoutePlanTypo(routesDir: string, info: Info)
    ensures RoutePlanAsWritten(routesDir, map[], [info]).Err?
    ensures RoutePlan(routesDir, map[], [info]).actions[0].Write?
  {
  }
}
