/** The registration loop the server and both clients share: names found
    in a generated module are entered one by one into a dictionary, and the
    first name already present raises. Nothing is rolled back: the names
    entered before the duplicate stay entered. */
module Registry {
  import opened Wrappers
  import opened Dicts

  /** The names of a run of `(name, value)` pairs, in order. */
  function Names<V>(pairs: seq<(string, V)>): (r: seq<string>)
    ensures |r| == |pairs|
    ensures forall i :: 0 <= i < |pairs| ==> r[i] == pairs[i].0
  {
    seq(|pairs|, i requires 0 <= i < |pairs| => pairs[i].0)
  }

  lemma NamesCons<V>(pairs: seq<(string, V)>)
    requires |pairs| > 0
    ensures forall a: seq<string> :: a + Names(pairs) == (a + [pairs[0].0]) + Names(pairs[1..])
  {
    assert Names(pairs) == [pairs[0].0] + Names(pairs[1..]);
  }

  /** Every pair can be entered: its name is not in `d` and no earlier pair has it. */
  predicate Fresh<V>(d: Dict<string, V>, pairs: seq<(string, V)>) {
    && (forall i :: 0 <= i < |pairs| ==> pairs[i].0 !in d.items)
    && (forall i, j :: 0 <= i < j < |pairs| ==> pairs[i].0 != pairs[j].0)
  }

  /** `for name, value in pairs: if name in d: raise ...; d[name] = value`. */
  function RegisterAll<V>(d: Dict<string, V>, pairs: seq<(string, V)>): (r: Outcome<Dict<string, V>>)
    ensures !r.Raised() ==> r.state.keys == d.keys + Names(pairs)
    ensures r.Raised() ==> r.error.value.DuplicateName? && r.error.value.name in Names(pairs)
    decreases |pairs|
  {
    if pairs == [] then Outcome(d, None)
    else if pairs[0].0 in d.items then Outcome(d, Some(DuplicateName(pairs[0].0)))
    else
      var d1 := Put(d, pairs[0].0, pairs[0].1);
      var r := RegisterAll(d1, pairs[1..]);
      NamesCons(pairs);
      assert d1.keys == d.keys + [pairs[0].0];
      r
  }

  /** Entries present before the loop keep their place and their values,
      whatever happens. */
  lemma {:induction false} RegisterAllKeeps<V>(d: Dict<string, V>, pairs: seq<(string, V)>, k: string)
    requires k in d.items
    ensures d.keys <= RegisterAll(d, pairs).state.keys
    ensures k in RegisterAll(d, pairs).state.items && RegisterAll(d, pairs).state.items[k] == d.items[k]
    decreases |pairs|
  {
    if pairs != [] && pairs[0].0 !in d.items {
      var d1 := Put(d, pairs[0].0, pairs[0].1);
      RegisterAllKeeps(d1, pairs[1..], k);
      PrefixTrans(d.keys, d1.keys, RegisterAll(d, pairs).state.keys);
    }
  }

  lemma PrefixTrans(a: seq<string>, b: seq<string>, c: seq<string>)
    requires a <= b && b <= c
    ensures a <= c
  {
    assert c[..|a|] == b[..|a|];
  }

  /** The loop succeeds exactly when every name is new. */
  lemma {:induction false} RegisterAllSucceeds<V>(d: Dict<string, V>, pairs: seq<(string, V)>)
    ensures !RegisterAll(d, pairs).Raised() <==> Fresh(d, pairs)
    decreases |pairs|
  {
    if pairs != [] && pairs[0].0 !in d.items {
      RegisterAllSucceeds(Put(d, pairs[0].0, pairs[0].1), pairs[1..]);
      FreshCons(d, pairs);
    }
  }

  /** On success every pair is entered under its name with its value. */
  lemma {:induction false} RegisterAllEnters<V>(d: Dict<string, V>, pairs: seq<(string, V)>, i: nat)
    requires Fresh(d, pairs) && i < |pairs|
    ensures pairs[i].0 in RegisterAll(d, pairs).state.items
    ensures RegisterAll(d, pairs).state.items[pairs[i].0] == pairs[i].1
    decreases |pairs|
  {
    var d1 := Put(d, pairs[0].0, pairs[0].1);
    FreshCons(d, pairs);
    if i > 0 {
      assert pairs[1..][i - 1] == pairs[i];
      RegisterAllEnters(d1, pairs[1..], i - 1);
    } else {
      RegisterAllKeeps(d1, pairs[1..], pairs[0].0);
    }
  }

  /** A failure at the pair `i` leaves exactly what the loop had entered
      before it: the first `i` pairs are in, nothing else changed. */
  lemma {:induction false} RegisterAllStopsAt<V>(d: Dict<string, V>, pairs: seq<(string, V)>)
    requires RegisterAll(d, pairs).Raised()
    ensures exists i :: StopsAt(d, pairs, i)
    decreases |pairs|
  {
    if pairs[0].0 in d.items {
      assert pairs[..0] == [];
      assert StopsAt(d, pairs, 0);
    } else {
      var d1 := Put(d, pairs[0].0, pairs[0].1);
      var rest := pairs[1..];
      RegisterAllStopsAt(d1, rest);
      var i :| StopsAt(d1, rest, i);
      StopsAtCons(d, pairs, i);
    }
  }

  /** The loop over `pairs` raises at pair `i`, having entered the pairs before it. */
  ghost predicate StopsAt<V>(d: Dict<string, V>, pairs: seq<(string, V)>, i: nat) {
    i < |pairs| && Fresh(d, pairs[..i]) && !Fresh(d, pairs[..i + 1])
    && RegisterAll(d, pairs) == Outcome(RegisterAll(d, pairs[..i]).state, Some(DuplicateName(pairs[i].0)))
  }

  lemma StopsAtCons<V>(d: Dict<string, V>, pairs: seq<(string, V)>, i: nat)
    requires |pairs| > 0 && pairs[0].0 !in d.items
    requires StopsAt(Put(d, pairs[0].0, pairs[0].1), pairs[1..], i)
    ensures StopsAt(d, pairs, i + 1)
  {
    var d1 := Put(d, pairs[0].0, pairs[0].1);
    var rest := pairs[1..];
    assert pairs[..i + 1][1..] == rest[..i];
    assert pairs[..i + 2][1..] == rest[..i + 1];
    FreshCons(d, pairs[..i + 1]);
    FreshCons(d, pairs[..i + 2]);
    assert pairs[i + 1] == rest[i];
    assert RegisterAll(d, pairs[..i + 1]) == RegisterAll(d1, rest[..i]);
  }

  /** `Fresh` for a run with a new first name is `Fresh` for the rest after entering it. */
  lemma FreshCons<V>(d: Dict<string, V>, pairs: seq<(string, V)>)
    requires |pairs| > 0 && pairs[0].0 !in d.items
    ensures Fresh(d, pairs) <==> Fresh(Put(d, pairs[0].0, pairs[0].1), pairs[1..])
  {
    var d1 := Put(d, pairs[0].0, pairs[0].1);
    var rest := pairs[1..];
    if Fresh(d, pairs) {
      forall k | 0 <= k < |rest| ensures rest[k].0 !in d1.items {
        assert rest[k] == pairs[k + 1];
      }
      forall a, b | 0 <= a < b < |rest| ensures rest[a].0 != rest[b].0 {
        assert rest[a] == pairs[a + 1] && rest[b] == pairs[b + 1];
      }
    }
    if Fresh(d1, rest) {
      forall k | 0 <= k < |pairs| ensures pairs[k].0 !in d.items {
        if k > 0 { assert pairs[k] == rest[k - 1]; }
      }
      forall a, b | 0 <= a < b < |pairs| ensures pairs[a].0 != pairs[b].0 {
        assert pairs[b] == rest[b - 1];
        if a > 0 { assert pairs[a] == rest[a - 1]; }
      }
    }
  }
}
