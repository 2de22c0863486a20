/** `composite_query(field, size, query, term)`: the request body of one page of
    a composite aggregation over the terms of `field`.

    The body is built as a nested mapping and then changed in place: the
    `after` key of the composite aggregation when `term` is truthy, and the
    top-level `query` when `query` is truthy. The text `json.dumps` makes of
    it is not modelled; the method returns the mapping itself.
 */
module Query {
  import opened Dicts
  import opened PyValues

  /** Whether `d[path[0]][path[1]]...` is a mapping, as an assignment into it demands. */
  predicate HasMapAt(d: seq<(string, Value)>, path: seq<string>)
    decreases |path|
  {
    path == [] ||
      var v := Lookup(d, path[0]);
      v.Some? && v.value.Map? && HasMapAt(v.value.entries, path[1..])
  }

  /** `d[path[0]]...[path[|path| - 1]]`, or `None` when the path leaves the mappings. */
  function GetPath(d: seq<(string, Value)>, path: seq<string>): Option<Value>
    requires path != []
    decreases |path|
  {
    match Lookup(d, path[0])
    case None => None
    case Some(v) =>
      if |path| == 1 then Some(v)
      else if v.Map? then GetPath(v.entries, path[1..])
      else None
  }

  /** `d[path[0]]...[path[|path| - 1]][k] = v`, the mappings along the path
      being updated where they stand. */
  function AssignAt(d: seq<(string, Value)>, path: seq<string>, k: string, v: Value): seq<(string, Value)>
    requires HasMapAt(d, path)
    decreases |path|
  {
    if path == [] then Insert(d, k, v)
    else
      var e := Lookup(d, path[0]).value.entries;
      Insert(d, path[0], Map(AssignAt(e, path[1..], k, v)))
  }

  /** The keys of the mapping `d[path[0]]...[path[|path| - 1]]`, in order, or
      `None` when the path leaves the mappings. */
  function KeysAt(d: seq<(string, Value)>, path: seq<string>): Option<seq<string>>
    decreases |path|
  {
    if path == [] then Some(Keys(d))
    else
      var v := Lookup(d, path[0]);
      if v.Some? && v.value.Map? then KeysAt(v.value.entries, path[1..]) else None
  }

  /** The pairs of the mapping at `path`. */
  function EntriesAt(d: seq<(string, Value)>, path: seq<string>): seq<(string, Value)>
    requires HasMapAt(d, path)
    decreases |path|
  {
    if path == [] then d else EntriesAt(Lookup(d, path[0]).value.entries, path[1..])
  }

  /** The mapping at `path` is what `GetPath` and `KeysAt` read below it. */
  lemma {:induction false} EntriesAtReads(d: seq<(string, Value)>, path: seq<string>, k: string)
    requires HasMapAt(d, path)
    ensures KeysAt(d, path) == Some(Keys(EntriesAt(d, path)))
    ensures GetPath(d, path + [k]) == Lookup(EntriesAt(d, path), k)
    decreases |path|
  {
    if path != [] {
      EntriesAtReads(Lookup(d, path[0]).value.entries, path[1..], k);
      assert (path + [k])[1..] == path[1..] + [k];
    }
  }

  /** After the assignment, the mapping at `path` has the keys of `d[k] = v`. */
  lemma {:induction false} AssignAtKeysAt(d: seq<(string, Value)>, path: seq<string>, k: string, v: Value)
    requires HasMapAt(d, path)
    ensures KeysAt(AssignAt(d, path, k, v), path) == Some(Keys(Insert(EntriesAt(d, path), k, v)))
    decreases |path|
  {
    if path != [] {
      var e := Lookup(d, path[0]).value.entries;
      InsertLookup(d, path[0], Map(AssignAt(e, path[1..], k, v)), path[0]);
      AssignAtKeysAt(e, path[1..], k, v);
    }
  }

  /** A nested assignment keeps the keys of every mapping on the way to it. */
  lemma {:induction false} AssignAtAbove(d: seq<(string, Value)>, path: seq<string>, k: string, v: Value, n: nat)
    requires HasMapAt(d, path) && n < |path|
    ensures KeysAt(AssignAt(d, path, k, v), path[..n]) == KeysAt(d, path[..n])
    decreases n
  {
    if n == 0 {
      AssignAtKeys(d, path, k, v);
    } else {
      var e := Lookup(d, path[0]).value.entries;
      InsertLookup(d, path[0], Map(AssignAt(e, path[1..], k, v)), path[0]);
      assert path[..n][0] == path[0] && path[..n][1..] == path[1..][..n - 1];
      AssignAtAbove(e, path[1..], k, v, n - 1);
    }
  }

  /** A nested assignment changes no key beside the path, at any level on the way. */
  lemma {:induction false} AssignAtBeside(d: seq<(string, Value)>, path: seq<string>, k: string, v: Value, n: nat, k': string)
    requires HasMapAt(d, path) && n < |path| && k' != path[n]
    ensures GetPath(AssignAt(d, path, k, v), path[..n] + [k']) == GetPath(d, path[..n] + [k'])
    decreases n
  {
    var e := Lookup(d, path[0]).value.entries;
    InsertLookup(d, path[0], Map(AssignAt(e, path[1..], k, v)), if n == 0 then k' else path[0]);
    if n != 0 {
      assert (path[..n] + [k'])[0] == path[0];
      assert (path[..n] + [k'])[1..] == path[1..][..n - 1] + [k'];
      AssignAtBeside(e, path[1..], k, v, n - 1, k');
    }
  }

  /** After the assignment, the path leads to the new value. */
  lemma {:induction false} AssignAtGet(d: seq<(string, Value)>, path: seq<string>, k: string, v: Value)
    requires HasMapAt(d, path)
    ensures GetPath(AssignAt(d, path, k, v), path + [k]) == Some(v)
    decreases |path|
  {
    var r := AssignAt(d, path, k, v);
    if path == [] {
      InsertLookup(d, k, v, k);
    } else {
      var e := Lookup(d, path[0]).value.entries;
      InsertLookup(d, path[0], Map(AssignAt(e, path[1..], k, v)), path[0]);
      AssignAtGet(e, path[1..], k, v);
      assert (path + [k])[1..] == path[1..] + [k];
    }
  }

  /** Every other key beside the assigned one keeps its value. */
  lemma {:induction false} AssignAtOther(d: seq<(string, Value)>, path: seq<string>, k: string, v: Value, k': string)
    requires HasMapAt(d, path) && k' != k
    ensures GetPath(AssignAt(d, path, k, v), path + [k']) == GetPath(d, path + [k'])
    decreases |path|
  {
    if path == [] {
      InsertLookup(d, k, v, k');
    } else {
      var e := Lookup(d, path[0]).value.entries;
      InsertLookup(d, path[0], Map(AssignAt(e, path[1..], k, v)), path[0]);
      AssignAtOther(e, path[1..], k, v, k');
      assert (path + [k'])[1..] == path[1..] + [k'];
    }
  }

  /** Assigning below a top-level key leaves the top-level keys and their order as they were. */
  lemma AssignAtKeys(d: seq<(string, Value)>, path: seq<string>, k: string, v: Value)
    requires HasMapAt(d, path) && path != []
    ensures Keys(AssignAt(d, path, k, v)) == Keys(d)
  {
    var e := Lookup(d, path[0]).value.entries;
    InsertPresentKeys(d, path[0], Map(AssignAt(e, path[1..], k, v)));
  }

  const CompositePath: seq<string> := ["aggs", "my_buckets", "composite"]

  /** The one terms source: the buckets are keyed and filled by `field`. */
  function TermsSource(field: string): Value {
    Map([(field, Map([("terms", Map([("field", Scalar(Str(field)))]))]))])
  }

  /** The body as first built, before either optional key is added. */
  function InitialBody(field: string, size: Value): seq<(string, Value)> {
    var composite := Map([("size", size), ("sources", List([TermsSource(field)]))]);
    [("size", Scalar(Int(0))), ("aggs", Map([("my_buckets", Map([("composite", composite)]))]))]
  }

  /** Reading the keys at a path starts with its first key. */
  lemma KeysAtHead(d1: seq<(string, Value)>, d2: seq<(string, Value)>, path: seq<string>)
    requires path != [] && Lookup(d1, path[0]) == Lookup(d2, path[0])
    ensures KeysAt(d1, path) == KeysAt(d2, path)
  {
  }

  /** Reading the keys one level down. */
  lemma KeysAtStep(d: seq<(string, Value)>, path: seq<string>, e: seq<(string, Value)>)
    requires path != [] && Lookup(d, path[0]) == Some(Map(e))
    ensures KeysAt(d, path) == KeysAt(e, path[1..])
  {
  }

  /** Reading a path starts with its first key. */
  lemma GetPathHead(d1: seq<(string, Value)>, d2: seq<(string, Value)>, path: seq<string>)
    requires path != [] && Lookup(d1, path[0]) == Lookup(d2, path[0])
    ensures GetPath(d1, path) == GetPath(d2, path)
  {
  }

  /** One level down. */
  lemma GetPathStep(d: seq<(string, Value)>, path: seq<string>, e: seq<(string, Value)>)
    requires |path| > 1 && Lookup(d, path[0]) == Some(Map(e))
    ensures GetPath(d, path) == GetPath(e, path[1..])
  {
  }

  /** Reading four levels down, one mapping at a time. */
  lemma GetPath4(d: seq<(string, Value)>, a: string, b: string, c: string, k: string,
                 e1: seq<(string, Value)>, e2: seq<(string, Value)>, e3: seq<(string, Value)>)
    requires Lookup(d, a) == Some(Map(e1)) && Lookup(e1, b) == Some(Map(e2)) && Lookup(e2, c) == Some(Map(e3))
    ensures HasMapAt(d, [a, b, c])
    ensures GetPath(d, [a, b, c] + [k]) == Lookup(e3, k)
  {
    var p3, p2, p1 := [a, b, c], [b, c], [c];
    assert p3[1..] == p2 && p2[1..] == p1 && p1[1..] == [];
    assert HasMapAt(e2, p1);
    assert HasMapAt(e1, p2);
    var q4, q3, q2, q1 := p3 + [k], [b, c, k], [c, k], [k];
    assert q4[1..] == q3 && q3[1..] == q2 && q2[1..] == q1;
    GetPathStep(d, q4, e1);
    GetPathStep(e1, q3, e2);
    GetPathStep(e2, q2, e3);
  }

  /** Reading the keys one, two and three levels down. */
  lemma KeysAt3(d: seq<(string, Value)>, a: string, b: string, c: string,
                e1: seq<(string, Value)>, e2: seq<(string, Value)>, e3: seq<(string, Value)>)
    requires Lookup(d, a) == Some(Map(e1)) && Lookup(e1, b) == Some(Map(e2)) && Lookup(e2, c) == Some(Map(e3))
    ensures KeysAt(d, [a]) == Some(Keys(e1))
    ensures KeysAt(d, [a, b]) == Some(Keys(e2))
    ensures KeysAt(d, [a, b, c]) == Some(Keys(e3))
  {
    assert [a][1..] == [] && [b][1..] == [] && [c][1..] == [];
    assert [a, b][1..] == [b] && [a, b, c][1..] == [b, c] && [b, c][1..] == [c];
    KeysAtStep(d, [a, b], e1);
    KeysAtStep(e1, [b], e2);
    KeysAtStep(d, [a, b, c], e1);
    KeysAtStep(e1, [b, c], e2);
    KeysAtStep(e2, [c], e3);
  }

  /** What the initial body holds. */
  lemma InitialBodyFacts(field: string, size: Value)
    ensures HasMapAt(InitialBody(field, size), CompositePath)
    ensures BodyFacts(InitialBody(field, size), field, size, None, None)
  {
    var e3 := [("size", size), ("sources", List([TermsSource(field)]))];
    var e2 := [("composite", Map(e3))];
    var e1 := [("my_buckets", Map(e2))];
    var d := InitialBody(field, size);
    assert d == [("size", Scalar(Int(0))), ("aggs", Map(e1))];
    assert d[1..] == [("aggs", Map(e1))] && d[1..][1..] == [];
    assert e3[1..] == [("sources", List([TermsSource(field)]))] && e3[1..][1..] == [];
    assert Lookup(d, "aggs") == Some(Map(e1));
    assert Lookup(e1, "my_buckets") == Some(Map(e2));
    assert Lookup(e2, "composite") == Some(Map(e3));
    assert Lookup(e3, "after") == None;
    GetPath4(d, "aggs", "my_buckets", "composite", "size", e1, e2, e3);
    GetPath4(d, "aggs", "my_buckets", "composite", "sources", e1, e2, e3);
    GetPath4(d, "aggs", "my_buckets", "composite", "after", e1, e2, e3);
    KeysAt3(d, "aggs", "my_buckets", "composite", e1, e2, e3);
    assert Keys(e1) == ["my_buckets"] && Keys(e2) == ["composite"] && Keys(e3) == ["size", "sources"];
    assert ["size", "sources"] + [] == ["size", "sources"];
  }

  /** What a request body built for `field` and `size` holds, with `after` the
      value of the composite aggregation's `after` key and `query` that of the
      top-level `query` key (`None` when the key is absent). */
  ghost predicate BodyFacts(body: seq<(string, Value)>, field: string, size: Value,
                            after: Option<Value>, query: Option<Value>) {
    && Lookup(body, "size") == Some(Scalar(Int(0)))
    && GetPath(body, CompositePath + ["size"]) == Some(size)
    && GetPath(body, CompositePath + ["sources"]) == Some(List([TermsSource(field)]))
    && GetPath(body, CompositePath + ["after"]) == after
    && Lookup(body, "query") == query
    && Keys(body) == ["size", "aggs"] + (if query.Some? then ["query"] else [])
    && NestedKeys(body, after.Some?)
  }

  /** The keys of the nested mappings: `aggs` holds only `my_buckets`, which
      holds only `composite`, which holds `size`, `sources` and, when set, `after`. */
  ghost predicate NestedKeys(body: seq<(string, Value)>, hasAfter: bool) {
    && KeysAt(body, ["aggs"]) == Some(["my_buckets"])
    && KeysAt(body, ["aggs", "my_buckets"]) == Some(["composite"])
    && KeysAt(body, CompositePath) == Some(["size", "sources"] + (if hasAfter then ["after"] else []))
  }

  /** Assigning below a top-level key changes no other top-level key. */
  lemma AssignAtTop(d: seq<(string, Value)>, path: seq<string>, k: string, v: Value, k': string)
    requires HasMapAt(d, path) && path != [] && k' != path[0]
    ensures Lookup(AssignAt(d, path, k, v), k') == Lookup(d, k')
  {
    var e := Lookup(d, path[0]).value.entries;
    InsertLookup(d, path[0], Map(AssignAt(e, path[1..], k, v)), k');
  }

  /** Setting `after` adds it to the keys of the composite aggregation and keeps
      the keys of the mappings above it. */
  lemma AddAfterKeys(body: seq<(string, Value)>, field: string, size: Value, after: Value, query: Option<Value>)
    requires BodyFacts(body, field, size, None, query) && HasMapAt(body, CompositePath)
    ensures NestedKeys(AssignAt(body, CompositePath, "after", after), true)
  {
    var e := EntriesAt(body, CompositePath);
    EntriesAtReads(body, CompositePath, "after");
    assert ["size", "sources"] + [] == ["size", "sources"];
    assert Keys(e) == ["size", "sources"];
    assert Lookup(e, "after") == None;
    InsertAbsent(e, "after", after);
    var ks := Keys(e + [("after", after)]);
    assert |ks| == 3 && ks[0] == "size" && ks[1] == "sources" && ks[2] == "after";
    assert ks == ["size", "sources", "after"];
    AssignAtKeysAt(body, CompositePath, "after", after);
    assert CompositePath[..1] == ["aggs"] && CompositePath[..2] == ["aggs", "my_buckets"];
    AssignAtAbove(body, CompositePath, "after", after, 1);
    AssignAtAbove(body, CompositePath, "after", after, 2);
    assert ["size", "sources"] + ["after"] == ["size", "sources", "after"];
  }

  /** Setting `after` keeps every key beside the path to it: the other keys of
      the composite aggregation, of `my_buckets`, of `aggs` and of the body. */
  lemma AddAfter(body: seq<(string, Value)>, field: string, size: Value, after: Value, query: Option<Value>)
    requires BodyFacts(body, field, size, None, query) && HasMapAt(body, CompositePath)
    ensures BodyFacts(AssignAt(body, CompositePath, "after", after), field, size, Some(after), query)
    ensures forall k' :: k' != "after" ==>
      GetPath(AssignAt(body, CompositePath, "after", after), CompositePath + [k']) == GetPath(body, CompositePath + [k'])
    ensures forall k' :: k' != "composite" ==>
      GetPath(AssignAt(body, CompositePath, "after", after), ["aggs", "my_buckets", k']) == GetPath(body, ["aggs", "my_buckets", k'])
    ensures forall k' :: k' != "my_buckets" ==>
      GetPath(AssignAt(body, CompositePath, "after", after), ["aggs", k']) == GetPath(body, ["aggs", k'])
    ensures forall k' :: k' != "aggs" ==> Lookup(AssignAt(body, CompositePath, "after", after), k') == Lookup(body, k')
  {
    AddAfterFacts(body, field, size, after, query);
    AddAfterBeside(body, after);
  }

  /** Setting `after` keeps the facts of the body, with `after` now set. */
  lemma AddAfterFacts(body: seq<(string, Value)>, field: string, size: Value, after: Value, query: Option<Value>)
    requires BodyFacts(body, field, size, None, query) && HasMapAt(body, CompositePath)
    ensures BodyFacts(AssignAt(body, CompositePath, "after", after), field, size, Some(after), query)
  {
    AssignAtGet(body, CompositePath, "after", after);
    AssignAtOther(body, CompositePath, "after", after, "size");
    AssignAtOther(body, CompositePath, "after", after, "sources");
    AssignAtKeys(body, CompositePath, "after", after);
    AssignAtTop(body, CompositePath, "after", after, "size");
    AssignAtTop(body, CompositePath, "after", after, "query");
    AddAfterKeys(body, field, size, after, query);
  }

  /** The assignment into the composite aggregation changes no key beside its path. */
  lemma AddAfterBeside(body: seq<(string, Value)>, after: Value)
    requires HasMapAt(body, CompositePath)
    ensures forall k' :: k' != "after" ==>
      GetPath(AssignAt(body, CompositePath, "after", after), CompositePath + [k']) == GetPath(body, CompositePath + [k'])
    ensures forall k' :: k' != "composite" ==>
      GetPath(AssignAt(body, CompositePath, "after", after), ["aggs", "my_buckets", k']) == GetPath(body, ["aggs", "my_buckets", k'])
    ensures forall k' :: k' != "my_buckets" ==>
      GetPath(AssignAt(body, CompositePath, "after", after), ["aggs", k']) == GetPath(body, ["aggs", k'])
    ensures forall k' :: k' != "aggs" ==> Lookup(AssignAt(body, CompositePath, "after", after), k') == Lookup(body, k')
  {
    var r := AssignAt(body, CompositePath, "after", after);
    forall k' | k' != "after" ensures GetPath(r, CompositePath + [k']) == GetPath(body, CompositePath + [k']) {
      AssignAtOther(body, CompositePath, "after", after, k');
    }
    assert CompositePath[..1] == ["aggs"] && CompositePath[..2] == ["aggs", "my_buckets"];
    forall k' | k' != "composite" ensures GetPath(r, ["aggs", "my_buckets", k']) == GetPath(body, ["aggs", "my_buckets", k']) {
      AssignAtBeside(body, CompositePath, "after", after, 2, k');
      assert CompositePath[..2] + [k'] == ["aggs", "my_buckets", k'];
    }
    forall k' | k' != "my_buckets" ensures GetPath(r, ["aggs", k']) == GetPath(body, ["aggs", k']) {
      AssignAtBeside(body, CompositePath, "after", after, 1, k');
      assert CompositePath[..1] + [k'] == ["aggs", k'];
    }
    forall k' | k' != "aggs" ensures Lookup(r, k') == Lookup(body, k') {
      AssignAtTop(body, CompositePath, "after", after, k');
    }
  }

  /** Setting `query` appends it to the body and leaves the rest as it was. */
  lemma AddQuery(body: seq<(string, Value)>, field: string, size: Value, after: Option<Value>, query: Value)
    requires BodyFacts(body, field, size, after, None)
    ensures Insert(body, "query", query) == body + [("query", query)]
    ensures BodyFacts(Insert(body, "query", query), field, size, after, Some(query))
  {
    var r := Insert(body, "query", query);
    InsertLookup(body, "query", query, "size");
    InsertLookup(body, "query", query, "query");
    InsertLookup(body, "query", query, "aggs");
    InsertAbsent(body, "query", query);
    assert Keys(r) == Keys(body) + ["query"];
    GetPathHead(r, body, CompositePath + ["size"]);
    GetPathHead(r, body, CompositePath + ["sources"]);
    GetPathHead(r, body, CompositePath + ["after"]);
    KeysAtHead(r, body, ["aggs"]);
    KeysAtHead(r, body, ["aggs", "my_buckets"]);
    KeysAtHead(r, body, CompositePath);
  }

  /** `composite_query(field, size, query, term)`: the top-level `size` is 0; the
      composite aggregation has the requested `size` and one terms source on
      `field`; it has `after = {field: term}` exactly when `term` is truthy; the
      body has `query` exactly when `query` is truthy; the top-level keys come in
      the order `size`, `aggs`, `query`. Callers that leave out the defaults
      pass `query` as `None` and `term` as `""`. */
  method CompositeQuery(field: string, size: Value, query: Value, term: Value) returns (body: seq<(string, Value)>)
    ensures BodyFacts(body, field, size,
                      if Truthy(term) then Some(Map([(field, term)])) else None,
                      if Truthy(query) then Some(query) else None)
  {
    var composite := Map([("size", size), ("sources", List([TermsSource(field)]))]);
    body := [("size", Scalar(Int(0))), ("aggs", Map([("my_buckets", Map([("composite", composite)]))]))];
    assert body == InitialBody(field, size);
    InitialBodyFacts(field, size);
    if Truthy(term) {
      AddAfter(body, field, size, Map([(field, term)]), None);
      body := AssignAt(body, CompositePath, "after", Map([(field, term)]));
    }
    if Truthy(query) {
      AddQuery(body, field, size, if Truthy(term) then Some(Map([(field, term)])) else None, query);
      body := Insert(body, "query", query);
    }
  }
}
