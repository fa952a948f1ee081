/** The older route-file generator (`grpcadmin/service_template.py`). It
    writes one file for a whole nested listing: for every compiled module a
    start block, then for every service of that module its class block and
    method blocks. Its block shapes are the newer generator's, except that
    the start block appends `_pb2` to the module name. */
module LegacyServiceTemplate {
  import opened Strings
  import opened ServiceInfo
  import ServiceTemplate

  /** One service of a module and its method names, in iteration order. */
  type ServiceEntry = (string, seq<string>)
  /** One compiled module: its base name and its services, in iteration order. */
  type ModuleEntry = (string, seq<ServiceEntry>)

  /** `get_header()`: the same header as the newer generator. */
  function GetHeader(): (r: string)
    ensures r == ServiceTemplate.Header
  {
    "import importlib\n\nfrom easygrpc.environment import GRPCEnvironment\n\n\n"
  }

  /** `get_start_service(pb2_name)`: the newer start block for `<pb2_name>_pb2`,
      suffix added to both the variable and the import path. */
  function StartService(pb2Name: string): (r: string)
    ensures r == ServiceTemplate.StartService(pb2Name + "_pb2")
  {
    var r := pb2Name + "_pb2" + " = importlib.import_module(\"proto_py." + pb2Name + "_pb2" + "\")\n"
      + "services = GRPCEnvironment.create_services(" + pb2Name + "_pb2" + ")\n\n\n";
    Regroup(pb2Name, "_pb2", " = importlib.import_module(\"proto_py.", "\")\n", "services = GRPCEnvironment.create_services(", ")\n\n\n");
    r
  }

  lemma Regroup(p: string, sfx: string, a1: string, a2: string, y: string, a3: string)
    ensures p + sfx + a1 + p + sfx + a2 + y + p + sfx + a3 == (p + sfx) + a1 + (p + sfx) + a2 + (y + (p + sfx) + a3)
  {
    var q := p + sfx;
    assert p + sfx + a1 + p + sfx + a2 == q + a1 + q + a2;
    assert p + sfx + a1 + p + sfx + a2 + y + p + sfx + a3 == (q + a1 + q + a2) + (y + q + a3);
  }

  /** `get_class(service_name)`: the newer class block. */
  function ClassBlock(serviceName: string): (r: string)
    ensures r == ServiceTemplate.ClassBlock(serviceName)
  {
    "class " + serviceName + "(services." + serviceName + "):\n\n"
  }

  /** `get_method(method_name)`: the newer method block. */
  function MethodBlock(methodName: string): (r: string)
    ensures r == ServiceTemplate.MethodBlock(methodName)
  {
    "    def " + methodName + "(self, request, context):\n" + "        raise NotImplementedError()\n\n"
  }

  /** The class and method blocks of the services of one module. */
  function Services(services: seq<ServiceEntry>): string
  {
    if services == [] then []
    else ClassBlock(services[0].0) + ServiceTemplate.MethodBlocks(services[0].1) + Services(services[1..])
  }

  /** Everything after the header: per module, its start block then its services. */
  function Body(entries: seq<ModuleEntry>): string
  {
    if entries == [] then []
    else StartService(entries[0].0) + Services(entries[0].1) + Body(entries[1..])
  }

  /** `ServiceTemplate.generate(actual_service_info)`. */
  function Generate(entries: seq<ModuleEntry>): (r: string)
    ensures StartsWith(r, ServiceTemplate.Header)
    ensures entries == [] ==> r == ServiceTemplate.Header
  {
    ServiceTemplate.DropPrefix(GetHeader(), Body(entries));
    GetHeader() + Body(entries)
  }

  /** The output for a listing is the outputs for its parts, one after the
      other: modules are written independently and in order. */
  lemma {:induction false} BodyAppend(a: seq<ModuleEntry>, b: seq<ModuleEntry>)
    ensures Body(a + b) == Body(a) + Body(b)
    decreases |a|
  {
    if a != [] {
      assert (a + b)[0] == a[0];
      assert (a + b)[1..] == a[1..] + b;
      var h := StartService(a[0].0) + Services(a[0].1);
      assert Body(a + b) == h + Body(a[1..] + b);
      assert Body(a) == h + Body(a[1..]);
      BodyAppend(a[1..], b);
      Assoc(StartService(a[0].0) + Services(a[0].1), Body(a[1..]), Body(b));
    } else {
      assert a + b == b;
    }
  }

  /** Services of a module are likewise written independently and in order. */
  lemma {:induction false} ServicesAppend(a: seq<ServiceEntry>, b: seq<ServiceEntry>)
    ensures Services(a + b) == Services(a) + Services(b)
    decreases |a|
  {
    if a != [] {
      assert (a + b)[0] == a[0];
      assert (a + b)[1..] == a[1..] + b;
      var h := ClassBlock(a[0].0) + ServiceTemplate.MethodBlocks(a[0].1);
      assert Services(a + b) == h + Services(a[1..] + b);
      assert Services(a) == h + Services(a[1..]);
      ServicesAppend(a[1..], b);
      Assoc(ClassBlock(a[0].0) + ServiceTemplate.MethodBlocks(a[0].1), Services(a[1..]), Services(b));
    } else {
      assert a + b == b;
    }
  }

  /** For one module with one service, the older generator writes exactly
      the file the newer one writes for `<name>_pb2`. */
  lemma GenerateOneService(p: string, s: string, ms: seq<string>)
    ensures Generate([(p, [(s, ms)])]) == ServiceTemplate.Generate(Info(p + "_pb2", s, ms))
  {
    var start, cls, body := StartService(p), ClassBlock(s), ServiceTemplate.MethodBlocks(ms);
    assert [(s, ms)][1..] == [];
    assert [(p, [(s, ms)])][1..] == [];
    assert Services([(s, ms)]) == cls + body;
    assert Body([(p, [(s, ms)])]) == start + (cls + body);
    Assoc(start, cls, body);
    assert ServiceTemplate.Header + (start + cls + body) == ServiceTemplate.Header + start + cls + body;
  }

  lemma Assoc(x: string, y: string, z: string)
    ensures x + y + z == x + (y + z)
  {
  }
}
