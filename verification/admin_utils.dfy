/** The older scaffolding helpers (`grpcadmin/utils.py`), which work on
    fixed directories relative to the current one: the check that the
    caller stands in a service directory, the selection of the services to
    compile, and the compiler argument lists. Unlike the newer builder,
    an empty selection is not an error: the compiler is then simply not
    called. */
module AdminUtils {
  import opened Wrappers
  import opened ProtoSelection
  import ServiceBuilder

  const ProtoBufDir: string := "proto_buf"
  const ProtoPyDir: string := "proto_py"
  const ServicesDir: string := "services"

  /** The directories `check_where_am_i` looks for, in the order it looks. */
  const Required: seq<string> := [ProtoBufDir, ProtoPyDir, ServicesDir]

  /** `check_where_am_i()`, given the directories that exist: it raises
      `FileNotFoundError` for the first required directory that is missing. */
  function CheckWhereAmI(dirs: set<string>): (r: Result<()>)
    ensures r.Ok? <==> forall i :: 0 <= i < |Required| ==> Required[i] in dirs
    ensures r.Err? ==> exists k :: (0 <= k < |Required| && Required[k] !in dirs
      && r.error == FileNotFound(Required[k]) && forall i :: 0 <= i < k ==> Required[i] in dirs)
  {
    assert Required[0] == ProtoBufDir && Required[1] == ProtoPyDir && Required[2] == ServicesDir;
    if ProtoBufDir !in dirs then Err(FileNotFound(ProtoBufDir))
    else if ProtoPyDir !in dirs then Err(FileNotFound(ProtoPyDir))
    else if ServicesDir !in dirs then Err(FileNotFound(ServicesDir))
    else Ok(())
  }

  /** `run_code_generator(services)`: one compiler call per name, in order,
      with the fixed directories. */
  function RunCodeGenerator(names: seq<string>): (r: seq<ServiceBuilder.Argv>)
    ensures r == ServiceBuilder.RunCodeGenerator(ServiceBuilder.Builder("", ProtoBufDir, ProtoPyDir, ServicesDir), names)
    ensures |r| == |names| && forall i :: 0 <= i < |names| ==> r[i] == FixedArgs(names[i])
  {
    var r := seq(|names|, i requires 0 <= i < |names| => FixedArgs(names[i]));
    forall i | 0 <= i < |names|
      ensures r[i] == ServiceBuilder.CompilerArgs(ProtoBufDir, ProtoPyDir, names[i])
    {
      FixedArgsAgree(names[i]);
    }
    r
  }

  /** The argument tuple of one call, spelled with the fixed directories. */
  function FixedArgs(name: string): ServiceBuilder.Argv
  {
    ["", "-I./proto_buf", "--python_out=./proto_py", "--grpc_python_out=./proto_py",
     "./proto_buf/" + name + ".proto"]
  }

  lemma FixedArgsAgree(name: string)
    ensures FixedArgs(name) == ServiceBuilder.CompilerArgs(ProtoBufDir, ProtoPyDir, name)
  {
    var c := ServiceBuilder.CompilerArgs(ProtoBufDir, ProtoPyDir, name);
    var f := FixedArgs(name);
    assert c[1] == f[1] && c[2] == f[2] && c[3] == f[3];
    assert c[4] == f[4] by {
      assert ServiceBuilder.InputFile(ProtoBufDir, name) == "./" + ProtoBufDir + "/" + name + ".proto";
      assert "./" + ProtoBufDir + "/" == "./proto_buf/";
    }
  }

  /** `calls` are one compiler call per name of `names`, in order, each
      with the fixed directories. */
  predicate CallsFor(calls: seq<ServiceBuilder.Argv>, names: seq<string>) {
    |calls| == |names|
    && forall i :: 0 <= i < |calls| ==>
      calls[i] == FixedArgs(names[i]) && ServiceBuilder.InputName(ProtoBufDir, calls[i][4]) == Some(names[i])
  }

  /** `compile_services(include, exclude)`, given the directories that
      exist and the listing of `proto_buf`: the compiler calls it makes, or
      the error it raises before making any. */
  function CompileServices(dirs: set<string>, listing: seq<DirEntry>, includes: seq<string>, excludes: seq<string>): (r: Result<seq<ServiceBuilder.Argv>>)
    ensures CheckWhereAmI(dirs).Err? ==> r == Err(CheckWhereAmI(dirs).error)
    ensures CheckWhereAmI(dirs).Ok? && ProtoFileNames(listing) == [] ==> r == Err(FileNotFound(ProtoBufDir))
    ensures r.Ok? <==> (CheckWhereAmI(dirs).Ok? && ProtoFileNames(listing) != []
      && forall i :: 0 <= i < |includes| ==> includes[i] in Stems(ProtoFileNames(listing)))
    ensures r.Ok? ==> CallsFor(r.value, Select(includes, excludes, Stems(ProtoFileNames(listing))).value)
  {
    var _ :- CheckWhereAmI(dirs);
    var all :- AllProtoFiles(ProtoBufDir, listing);
    var names :- Select(includes, excludes, all);
    var calls := RunCodeGenerator(names);
    assert CallsFor(calls, names);
    Ok(calls)
  }

  /** Excluding every service is not an error here: nothing is compiled,
      where the newer builder raises `NameError` for the same selection. */
  lemma EmptySelectionCompilesNothing(dirs: set<string>, listing: seq<DirEntry>)
    requires CheckWhereAmI(dirs).Ok? && ProtoFileNames(listing) != []
    ensures CompileServices(dirs, listing, [], Stems(ProtoFileNames(listing))) == Ok([])
    ensures ServiceBuilder.NecessaryProtoFiles([], Stems(ProtoFileNames(listing)), Stems(ProtoFileNames(listing)))
      == Err(EmptySelection)
  {
    var all := Stems(ProtoFileNames(listing));
    ServiceBuilder.ExcludingEverythingFails(all);
    var r := RemoveEach(all, all);
    assert multiset(r) == multiset{};
    assert r == [];
  }
}
