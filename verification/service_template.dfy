/** The text of a generated route file for one service
    (`grpcadmin/utils/service_template.py`): a fixed header, an import of
    the compiled module, a class deriving from the generated service base,
    and one stub method per RPC. The decoder `Decode` reads the file back;
    `DecodeGenerate` shows the text determines the service it was made from. */
module ServiceTemplate {
  import opened Wrappers
  import opened Strings
  import opened ServiceInfo

  /** `HEADER_TEMPLATE`. */
  const Header: string := "import importlib\n\nfrom easygrpc.environment import GRPCEnvironment\n\n\n"

  /** The part of a method block before the method name, and the part after it. */
  const MethodOpen: string := "    def "
  const MethodClose: string := "(self, request, context):\n" + "        raise NotImplementedError()\n\n"

  /** A character Python accepts in an identifier (ASCII only). */
  predicate IsNameChar(c: char) {
    IsUpper(c) || IsLowerOrDigit(c) || c == '_'
  }

  /** A name made of identifier characters only, as the generated module
      and class names are. */
  predicate Plain(s: string) {
    forall i :: 0 <= i < |s| ==> IsNameChar(s[i])
  }

  /** `ServiceTemplate.get_header()`. */
  function GetHeader(): (r: string)
    ensures r == Header
  {
    "import importlib\n\nfrom easygrpc.environment import GRPCEnvironment\n\n\n"
  }

  /** `get_start_service(pb2_name)`: binds the module under its own name and
      imports `proto_py.<pb2_name>` as given, adding no `_pb2`. */
  function StartService(pb2Name: string): (r: string)
    ensures StartsWith(r, pb2Name + " = importlib.import_module(\"proto_py." + pb2Name + "\")\n")
    ensures EndsWith(r, "services = GRPCEnvironment.create_services(" + pb2Name + ")\n\n\n")
  {
    var line1 := pb2Name + " = importlib.import_module(\"proto_py." + pb2Name + "\")\n";
    var line2 := "services = GRPCEnvironment.create_services(" + pb2Name + ")\n\n\n";
    AppendEnds(line1, line2);
    line1 + line2
  }

  /** `get_class(service_name)`. */
  function ClassBlock(serviceName: string): (r: string)
    ensures StartsWith(r, "class " + serviceName + "(")
    ensures EndsWith(r, "):\n\n")
  {
    var r := "class " + serviceName + "(services." + serviceName + "):\n\n";
    assert r == ("class " + serviceName + "(") + ("services." + serviceName + "):\n\n");
    r
  }

  /** `get_method(method_name)`: a method that raises `NotImplementedError`. */
  function MethodBlock(methodName: string): string
  {
    MethodOpen + methodName + MethodClose
  }

  /** The method blocks of `methods`, concatenated in order. */
  function MethodBlocks(methods: seq<string>): (r: string)
    ensures methods == [] <==> r == []
  {
    if methods == [] then [] else MethodBlock(methods[0]) + MethodBlocks(methods[1..])
  }

  /** `ServiceTemplate.generate(service_info)`. */
  function Generate(info: Info): (r: string)
    ensures StartsWith(r, Header)
    ensures info.methods == [] ==> EndsWith(r, ClassBlock(info.serviceName))
  {
    var r := GetHeader() + StartService(info.pb2Name) + ClassBlock(info.serviceName) + MethodBlocks(info.methods);
    FourParts(Header, StartService(info.pb2Name), ClassBlock(info.serviceName), MethodBlocks(info.methods));
    r
  }

  // ---------------------------------------------------------------------
  // Reading a generated file back.

  /** Splits a start block off the front of `t`: the module name, and what follows the block. */
  function CutStart(t: string): (r: Option<(string, string)>)
    ensures r.Some? ==> t == StartService(r.value.0) + r.value.1
  {
    var p := FirstField(t, " ");
    if StartsWith(t, StartService(p)) then
      Recompose(t, StartService(p));
      Some((p, t[|StartService(p)|..]))
    else None
  }

  /** Splits a class block off the front of `t`: the service name, and what follows. */
  function CutClass(t: string): (r: Option<(string, string)>)
    ensures r.Some? ==> t == ClassBlock(r.value.0) + r.value.1
  {
    if !StartsWith(t, "class ") then None
    else
      var s := FirstField(t[6..], "(");
      if StartsWith(t, ClassBlock(s)) then
        Recompose(t, ClassBlock(s));
        Some((s, t[|ClassBlock(s)|..]))
      else None
  }

  /** Splits a method block off the front of `t`: the method name, and what follows. */
  function CutMethod(t: string): (r: Option<(string, string)>)
    ensures r.Some? ==> t == MethodBlock(r.value.0) + r.value.1
  {
    if !StartsWith(t, MethodOpen) then None
    else
      var u := t[|MethodOpen|..];
      var m := FirstField(u, "(");
      if StartsWith(u, m + MethodClose) then
        Recompose(t, MethodOpen);
        Recompose(u, m + MethodClose);
        Glue3(MethodOpen, m, MethodClose, u[|m + MethodClose|..]);
        Some((m, u[|m + MethodClose|..]))
      else None
  }

  /** Reads the method names back out of a run of method blocks. */
  function ParseMethods(t: string): (r: Option<seq<string>>)
    ensures r.Some? ==> t == MethodBlocks(r.value)
    decreases |t|
  {
    if t == [] then Some([])
    else
      match CutMethod(t)
      case None => None
      case Some((m, rest)) =>
        assert |MethodBlock(m)| > 0;
        match ParseMethods(rest)
        case None => None
        case Some(ms) =>
          assert ([m] + ms)[1..] == ms;
          Some([m] + ms)
  }

  /** Reads a generated route file back into the service it describes. */
  function Decode(text: string): (r: Option<Info>)
    ensures r.Some? ==> Generate(r.value) == text
  {
    if !StartsWith(text, Header) then None
    else
      match CutStart(text[|Header|..])
      case None => None
      case Some((p, t2)) =>
        match CutClass(t2)
        case None => None
        case Some((s, t3)) =>
          match ParseMethods(t3)
          case None => None
          case Some(ms) =>
            Recompose(text, Header);
            Glue4(Header, StartService(p), ClassBlock(s), t3, text[|Header|..], t2);
            Some(Info(p, s, ms))
  }

  /** A generated route file names its module, its service and its methods
      unambiguously: decoding it gives back the record it was made from. */
  lemma DecodeGenerate(info: Info)
    requires Plain(info.pb2Name) && Plain(info.serviceName)
    requires forall i :: 0 <= i < |info.methods| ==> Plain(info.methods[i])
    ensures Decode(Generate(info)) == Some(info)
  {
    var p, s, ms := info.pb2Name, info.serviceName, info.methods;
    var start, cls, body := StartService(p), ClassBlock(s), MethodBlocks(ms);
    assert Generate(info) == Header + (start + (cls + body));
    DropPrefix(Header, start + (cls + body));
    CutStartBlock(p, cls + body);
    CutClassBlock(s, body);
    ParseMethodBlocks(ms);
  }

  lemma CutStartBlock(p: string, rest: string)
    requires Plain(p)
    ensures CutStart(StartService(p) + rest) == Some((p, rest))
  {
    var start := StartService(p);
    var tail := " = importlib.import_module(\"proto_py." + p + "\")\n" + ("services = GRPCEnvironment.create_services(" + p + ")\n\n\n");
    assert start == p + tail;
    CutAfterName(p, ' ', tail, rest);
  }

  lemma CutClassBlock(s: string, rest: string)
    requires Plain(s)
    ensures CutClass(ClassBlock(s) + rest) == Some((s, rest))
  {
    var cls := ClassBlock(s);
    var tail := "(services." + s + "):\n\n";
    assert cls == "class " + (s + tail);
    var t := cls + rest;
    assert t[6..] == s + tail + rest;
    CutAfterName(s, '(', tail, rest);
  }

  lemma CutMethodBlock(m: string, rest: string)
    requires Plain(m)
    ensures CutMethod(MethodBlock(m) + rest) == Some((m, rest))
  {
    var t := MethodBlock(m) + rest;
    assert t == MethodOpen + (m + MethodClose + rest);
    DropPrefix(MethodOpen, m + MethodClose + rest);
    CutAfterName(m, '(', MethodClose, rest);
  }

  /** Decoding a run of method blocks gives back the method names. */
  lemma {:induction false} ParseMethodBlocks(ms: seq<string>)
    requires forall i :: 0 <= i < |ms| ==> Plain(ms[i])
    ensures ParseMethods(MethodBlocks(ms)) == Some(ms)
    decreases |ms|
  {
    if ms != [] {
      CutMethodBlock(ms[0], MethodBlocks(ms[1..]));
      ParseMethodBlocks(ms[1..]);
      assert [ms[0]] + ms[1..] == ms;
    }
  }

  // ---------------------------------------------------------------------
  // Small facts about concatenation.

  lemma AppendEnds(a: string, b: string)
    ensures StartsWith(a + b, a) && EndsWith(a + b, b)
  {
    assert (a + b)[..|a|] == a;
    assert (a + b)[|a + b| - |b|..] == b;
  }

  lemma FourParts(h: string, a: string, b: string, c: string)
    ensures StartsWith(h + a + b + c, h)
    ensures c == [] ==> EndsWith(h + a + b + c, b)
  {
    AppendEnds(h, a + b + c);
    assert h + a + b + c == h + (a + b + c);
    if c == [] {
      AppendEnds(h + a, b);
      assert h + a + b + c == (h + a) + b;
    }
  }

  lemma Recompose(t: string, a: string)
    requires StartsWith(t, a)
    ensures t == a + t[|a|..]
  {
  }

  lemma Glue3(a: string, b: string, c: string, d: string)
    ensures a + ((b + c) + d) == (a + b + c) + d
  {
  }

  lemma Glue4(h: string, a: string, b: string, c: string, t1: string, t2: string)
    requires t1 == a + t2 && t2 == b + c
    ensures h + t1 == h + a + b + c
  {
  }

  lemma DropPrefix(a: string, b: string)
    ensures StartsWith(a + b, a) && (a + b)[|a|..] == b
  {
    assert (a + b)[..|a|] == a;
  }

  /** `(name + tail + after).split(c)[0] == name` when `name` holds no `c`
      and `tail` starts with one; the block `name + tail` then comes off
      the front cleanly. */
  lemma CutAfterName(name: string, c: char, tail: string, after: string)
    requires forall i :: 0 <= i < |name| ==> name[i] != c
    requires |tail| > 0 && tail[0] == c
    ensures FirstField(name + tail + after, [c]) == name
    ensures StartsWith(name + tail + after, name + tail)
    ensures (name + tail + after)[|name + tail|..] == after
  {
    var s := name + tail + after;
    var r := FirstField(s, [c]);
    assert OccursAt(s, [c], |name|) by { assert s[|name|..|name| + 1] == [c]; }
    if |r| < |name| {
      assert false;
    }
    assert s[..|r|] == r;
    assert name == s[..|name|];
    DropPrefix(name + tail, after);
  }
}
