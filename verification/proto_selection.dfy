/** Choosing which `.proto` files to compile. The newer scaffolding
    (`grpcadmin/utils/service_builder.py`) and the older helpers
    (`grpcadmin/utils.py`) share the same selection rule: the includes list,
    checked against the directory and kept in order with its duplicates, or
    every proto file when it is empty; then each exclude removes the first
    copy of its name, if any. */
module ProtoSelection {
  import opened Wrappers
  import opened Strings

  /** One entry of a directory listing: its name and whether it is a regular file. */
  datatype DirEntry = DirEntry(name: string, isFile: bool)

  const ProtoSuffix: string := ".proto"

  /** `os.path.splitext(f)[0]` for a bare file name: the text before the
      last dot, unless every character before that dot is a dot too (a
      leading dot starts a hidden name, not an extension). */
  function SplitExtStem(f: string): (r: string)
    ensures StartsWith(f, r)
    ensures |r| < |f| ==> f[|r|] == '.' && (exists i :: 0 <= i < |r| && r[i] != '.')
    ensures |r| < |f| ==> forall j :: |r| < j < |f| ==> f[j] != '.'
  {
    match LastIndexOf(f, ".")
    case None => f
    case Some(d) =>
      if exists i :: 0 <= i < d && f[i] != '.' then
        assert OccursAt(f, ".", d);
        assert f[d..d + 1][0] == f[d];
        assert forall j :: d < j < |f| ==> f[j] != '.' by {
          forall j | d < j < |f| ensures f[j] != '.' {
            assert !OccursAt(f, ".", j);
            assert f[j..j + 1] == [f[j]];
          }
        }
        f[..d]
      else f
  }

  /** `os.path.isfile(...) and f.endswith('.proto')`. */
  predicate IsProtoFile(e: DirEntry) {
    e.isFile && EndsWith(e.name, ProtoSuffix)
  }

  /** The names of the regular files in `listing` that end with `.proto`, in listing order. */
  function ProtoFileNames(listing: seq<DirEntry>): (r: seq<string>)
    ensures forall n :: n in r <==> exists e :: e in listing && IsProtoFile(e) && e.name == n
    ensures |r| <= |listing|
  {
    if listing == [] then []
    else
      assert listing == [listing[0]] + listing[1..];
      if IsProtoFile(listing[0]) then [listing[0].name] + ProtoFileNames(listing[1..])
      else ProtoFileNames(listing[1..])
  }

  /** `[os.path.splitext(f)[0] for f in proto_files]`. */
  function Stems(files: seq<string>): (r: seq<string>)
    ensures |r| == |files|
    ensures forall i :: 0 <= i < |files| ==> r[i] == SplitExtStem(files[i])
  {
    seq(|files|, i requires 0 <= i < |files| => SplitExtStem(files[i]))
  }

  /** `_get_all_proto_files` / the start of `compile_services`: the stems of
      the proto files of the directory `dir`, which must hold at least one. */
  function AllProtoFiles(dir: string, listing: seq<DirEntry>): (r: Result<seq<string>>)
    ensures r.Err? <==> ProtoFileNames(listing) == []
    ensures r.Err? ==> r.error == FileNotFound(dir)
    ensures r.Ok? ==> r.value == Stems(ProtoFileNames(listing)) && |r.value| > 0
  {
    var stems := Stems(ProtoFileNames(listing));
    if stems == [] then Err(FileNotFound(dir)) else Ok(stems)
  }

  /** A stem of a proper `<name>.proto` file is `<name>`. */
  lemma StemOfProtoFile(name: string)
    requires exists i :: 0 <= i < |name| && name[i] != '.'
    ensures SplitExtStem(name + ProtoSuffix) == name
  {
    var f := name + ProtoSuffix;
    var r := SplitExtStem(f);
    assert OccursAt(f, ".", |name|) by { assert f[|name|..|name| + 1] == "."; }
    assert forall j :: |name| < j < |f| ==> f[j] != '.' by {
      forall j | |name| < j < |f| ensures f[j] != '.' {
        assert f[j] == ProtoSuffix[j - |name|];
      }
    }
    var i :| 0 <= i < |name| && name[i] != '.';
    assert f[i] == name[i];
    assert r == f[..|name|];
  }

  // ---------------------------------------------------------------------
  // The selection itself.

  /** The include loop: each name must be among `all`; the first that is not
      raises `FileNotFoundError` naming it. */
  function CheckIncludes(includes: seq<string>, all: seq<string>): (r: Result<seq<string>>)
    ensures r.Ok? <==> forall i :: 0 <= i < |includes| ==> includes[i] in all
    ensures r.Ok? ==> r.value == includes
    ensures r.Err? ==> FirstMissing(includes, all, r.error)
    decreases |includes|, 1
  {
    if includes == [] then Ok([])
    else if includes[0] !in all then Err(FileNotFound(includes[0]))
    else
      match CheckIncludes(includes[1..], all)
      case Err(e) =>
        CheckIncludesShift(includes, all);
        Err(e)
      case Ok(rest) =>
        assert includes == [includes[0]] + rest;
        assert forall i :: 1 <= i < |includes| ==> includes[i] == includes[1..][i - 1];
        Ok(includes)
  }

  /** `e` is the error for the first name of `includes` missing from `all`. */
  ghost predicate FirstMissing(includes: seq<string>, all: seq<string>, e: Error) {
    exists k :: 0 <= k < |includes| && includes[k] !in all && e == FileNotFound(includes[k])
      && forall i :: 0 <= i < k ==> includes[i] in all
  }

  lemma CheckIncludesShift(includes: seq<string>, all: seq<string>)
    requires |includes| > 0 && includes[0] in all && CheckIncludes(includes[1..], all).Err?
    ensures FirstMissing(includes, all, CheckIncludes(includes[1..], all).error)
    decreases |includes|, 0
  {
    var e := CheckIncludes(includes[1..], all).error;
    var k :| 0 <= k < |includes[1..]| && includes[1..][k] !in all && e == FileNotFound(includes[1..][k])
      && forall i :: 0 <= i < k ==> includes[1..][i] in all;
    assert includes[k + 1] == includes[1..][k];
    assert forall i :: 1 <= i < k + 1 ==> includes[i] == includes[1..][i - 1];
  }

  /** `s.index(x)`: the position of the first copy of `x`. */
  function IndexOf(s: seq<string>, x: string): (i: nat)
    requires x in s
    ensures i < |s| && s[i] == x && x !in s[..i]
  {
    if s[0] == x then 0
    else
      assert s == [s[0]] + s[1..];
      var i := IndexOf(s[1..], x);
      assert s[..i + 1] == [s[0]] + s[1..][..i];
      i + 1
  }

  /** `services.remove(x)`, with the `ValueError` for a missing name
      swallowed: the first copy of `x`, if any, is dropped. */
  function RemoveFirst(s: seq<string>, x: string): (r: seq<string>)
    ensures x !in s ==> r == s
    ensures x in s ==> r == s[..IndexOf(s, x)] + s[IndexOf(s, x) + 1..]
  {
    if s == [] then []
    else if s[0] == x then
      s[1..]
    else
      var rest := RemoveFirst(s[1..], x);
      RemoveFirstCons(s, x, rest);
      [s[0]] + rest
  }

  lemma RemoveFirstCons(s: seq<string>, x: string, rest: seq<string>)
    requires |s| > 0 && s[0] != x
    requires x !in s[1..] ==> rest == s[1..]
    requires x in s[1..] ==> rest == s[1..][..IndexOf(s[1..], x)] + s[1..][IndexOf(s[1..], x) + 1..]
    ensures x !in s ==> [s[0]] + rest == s
    ensures x in s ==> [s[0]] + rest == s[..IndexOf(s, x)] + s[IndexOf(s, x) + 1..]
  {
    if x in s[1..] {
      RemoveFirstConsFound(s, x);
    } else {
      assert s == [s[0]] + s[1..];
    }
  }

  lemma RemoveFirstConsFound(s: seq<string>, x: string)
    requires |s| > 0 && s[0] != x && x in s[1..]
    ensures var t, i := s[1..], IndexOf(s[1..], x);
      [s[0]] + (t[..i] + t[i + 1..]) == s[..IndexOf(s, x)] + s[IndexOf(s, x) + 1..]
  {
    var t := s[1..];
    var i := IndexOf(t, x);
    assert IndexOf(s, x) == i + 1;
    assert s[..i + 1] == [s[0]] + t[..i];
    assert s[i + 2..] == t[i + 1..];
  }

  /** `remove` takes away one copy of `x` when there is one, and nothing else. */
  lemma RemoveFirstCount(s: seq<string>, x: string)
    ensures multiset(RemoveFirst(s, x)) == multiset(s) - multiset{x}
  {
    if x in s {
      var i := IndexOf(s, x);
      assert s == s[..i] + [x] + s[i + 1..];
      assert multiset(s) == multiset(s[..i]) + multiset{x} + multiset(s[i + 1..]);
    } else {
      assert multiset(s)[x] == 0;
      assert multiset(s) - multiset{x} == multiset(s);
    }
  }

  /** What the exclude loop leaves: the names kept, and the excludes it
      reported as "can't be excluded", in the order it reported them. */
  datatype Excluded = Excluded(kept: seq<string>, reports: seq<string>)

  /** The exclude loop: `RemoveFirst` once per exclude, in order; an
      exclude with no copy left is reported and otherwise ignored. Each
      name is kept as often as it is selected beyond its excludes, and
      reported as often as it is excluded beyond its selected copies. */
  function ExcludeLoop(s: seq<string>, excludes: seq<string>): Excluded
  {
    if excludes == [] then Excluded(s, [])
    else
      var x := excludes[0];
      var rest := ExcludeLoop(RemoveFirst(s, x), excludes[1..]);
      if x in s then rest else Excluded(rest.kept, [x] + rest.reports)
  }

  /** Each name is kept as often as it is selected beyond its excludes,
      and reported as often as it is excluded beyond its selected copies. */
  lemma ExcludeLoopCounts(s: seq<string>, excludes: seq<string>)
    ensures multiset(ExcludeLoop(s, excludes).kept) == multiset(s) - multiset(excludes)
    ensures multiset(ExcludeLoop(s, excludes).reports) == multiset(excludes) - multiset(s)
  {
    KeptCount(s, excludes);
    ReportedCount(s, excludes);
  }

  lemma {:induction false} KeptCount(s: seq<string>, excludes: seq<string>)
    ensures multiset(ExcludeLoop(s, excludes).kept) == multiset(s) - multiset(excludes)
    decreases |excludes|
  {
    if excludes != [] {
      var x, tail := excludes[0], excludes[1..];
      assert multiset(excludes) == multiset{x} + multiset(tail) by {
        assert excludes == [x] + tail;
      }
      RemoveFirstCount(s, x);
      KeptCount(RemoveFirst(s, x), tail);
      DiffDiff(multiset(s), multiset{x}, multiset(tail));
    }
  }

  lemma {:induction false} ReportedCount(s: seq<string>, excludes: seq<string>)
    ensures multiset(ExcludeLoop(s, excludes).reports) == multiset(excludes) - multiset(s)
    decreases |excludes|
  {
    if excludes != [] {
      var x, tail := excludes[0], excludes[1..];
      assert multiset(excludes) == multiset{x} + multiset(tail) by {
        assert excludes == [x] + tail;
      }
      RemoveFirstCount(s, x);
      ReportedCount(RemoveFirst(s, x), tail);
      ReportCount(multiset(s), multiset(tail), x);
      if x !in s {
        assert multiset(s) - multiset{x} == multiset(s);
      }
    }
  }

  /** How the report counts change with one more exclude `x` in front. */
  lemma ReportCount(a: multiset<string>, e: multiset<string>, x: string)
    ensures x in a ==> e - (a - multiset{x}) == (multiset{x} + e) - a
    ensures x !in a ==> multiset{x} + (e - a) == (multiset{x} + e) - a
  {
    if x in a {
      forall y ensures (e - (a - multiset{x}))[y] == ((multiset{x} + e) - a)[y] {
      }
    } else {
      forall y ensures (multiset{x} + (e - a))[y] == ((multiset{x} + e) - a)[y] {
      }
    }
  }

  /** The names the exclude loop keeps. */
  function RemoveEach(s: seq<string>, excludes: seq<string>): (r: seq<string>)
    ensures multiset(r) == multiset(s) - multiset(excludes)
  {
    ExcludeLoopCounts(s, excludes);
    ExcludeLoop(s, excludes).kept
  }

  lemma DiffDiff(a: multiset<string>, b: multiset<string>, c: multiset<string>)
    ensures a - b - c == a - (b + c)
  {
    forall x ensures (a - b - c)[x] == (a - (b + c))[x] {
    }
  }

  /** The selection before the emptiness test of the newer scaffolding. */
  function Select(includes: seq<string>, excludes: seq<string>, all: seq<string>): (r: Result<seq<string>>)
    ensures r.Ok? <==> forall i :: 0 <= i < |includes| ==> includes[i] in all
    ensures r.Ok? ==> multiset(r.value) == multiset(if includes == [] then all else includes) - multiset(excludes)
    ensures r.Ok? ==> forall x :: x in r.value ==> x in all
  {
    var picked :- CheckIncludes(includes, all);
    var start := if picked == [] then all else picked;
    var r := RemoveEach(start, excludes);
    assert forall x :: x in r ==> x in start by {
      forall x | x in r ensures x in start {
        assert x in multiset(r);
      }
    }
    Ok(r)
  }

  /** The lines "Service {} can't be excluded" the selection prints, by
      name: none when an include is unknown (the loop is never reached),
      otherwise each exclude as often as it exceeds the selected copies. */
  function Reports(includes: seq<string>, excludes: seq<string>, all: seq<string>): (r: seq<string>)
    ensures (exists i :: 0 <= i < |includes| && includes[i] !in all) ==> r == []
    ensures (forall i :: 0 <= i < |includes| ==> includes[i] in all) ==>
      multiset(r) == multiset(excludes) - multiset(if includes == [] then all else includes)
    ensures forall x :: x in r ==> x in excludes
  {
    match CheckIncludes(includes, all)
    case Err(_) => []
    case Ok(picked) =>
      var selected := if picked == [] then all else picked;
      ExcludeLoopCounts(selected, excludes);
      var r := ExcludeLoop(selected, excludes).reports;
      assert forall x :: x in r ==> x in excludes by {
        forall x | x in r ensures x in excludes {
          assert x in multiset(r);
        }
      }
      r
  }

  /** Excludes naming nothing selected change nothing and are all
      reported, in order. */
  lemma {:induction false} RemoveEachIgnoresUnknown(s: seq<string>, excludes: seq<string>)
    requires forall i :: 0 <= i < |excludes| ==> excludes[i] !in s
    ensures ExcludeLoop(s, excludes) == Excluded(s, excludes)
    ensures RemoveEach(s, excludes) == s
    decreases |excludes|
  {
    if excludes != [] {
      var x, tail := excludes[0], excludes[1..];
      var rest := ExcludeLoop(s, tail);
      assert rest == Excluded(s, tail) by {
        assert forall i :: 0 <= i < |tail| ==> tail[i] == excludes[i + 1];
        RemoveEachIgnoresUnknown(s, tail);
      }
      assert ExcludeLoop(s, excludes) == Excluded(rest.kept, [x] + rest.reports) by {
        ExcludeUnknownHead(s, excludes);
      }
      assert [x] + tail == excludes;
    }
  }

  /** An exclude naming nothing selected is reported and then the loop
      goes on with the selection as it was. */
  lemma ExcludeUnknownHead(s: seq<string>, excludes: seq<string>)
    requires excludes != [] && excludes[0] !in s
    ensures var rest := ExcludeLoop(s, excludes[1..]);
      ExcludeLoop(s, excludes) == Excluded(rest.kept, [excludes[0]] + rest.reports)
  {
    assert RemoveFirst(s, excludes[0]) == s;
  }
}
