/** `flatten_nest` (anonymize_it/utils.py:22-30): a nested mapping becomes a
    flat mapping from dotted paths to the values that are not mappings.

    The source walks the pairs of `d` in order, computes the key of each as
    `parent_key + sep + k` (or `k` alone when `parent_key` is the empty, falsy
    string), recurses into values that are mappings and appends the other pairs
    to a list `items`, which it finally turns into a dict. Lists and scalars are
    leaves: the recursion never looks inside a list.
 */
module Flattening {
  import opened Dicts
  import opened PyValues

  /** The key a pair `k` gets under `parent`. */
  function NewKey(parent: string, sep: string, k: string): string {
    if parent != "" then parent + sep + k else k
  }

  /** The list `items` the loop builds before `dict(items)`: for each pair in
      order, the flattened nested mapping or the pair itself. */
  function Items(d: seq<(string, Value)>, parent: string, sep: string): seq<(string, Value)>
    decreases EntriesSize(d), 0
  {
    if d == [] then []
    else
      EntriesSizeSnoc(d);
      Items(d[..|d| - 1], parent, sep) + Contribution(d[|d| - 1].0, d[|d| - 1].1, parent, sep)
  }

  /** What one pair `k: v` adds to `items`: the flattened nested mapping
      (`items.extend`) or the pair under its new key (`items.append`). */
  function Contribution(k: string, v: Value, parent: string, sep: string): seq<(string, Value)>
    decreases if v.Map? then EntriesSize(v.entries) else 0, 2
  {
    if v.Map? then Flatten(v.entries, NewKey(parent, sep, k), sep)
    else [(NewKey(parent, sep, k), v)]
  }

  /** What `flatten_nest(d, parent, sep)` returns. */
  function Flatten(d: seq<(string, Value)>, parent: string, sep: string): seq<(string, Value)>
    decreases EntriesSize(d), 1
  {
    DictOf(Items(d, parent, sep))
  }

  /** The source's loop: `items.extend(...)` for a nested mapping, `items.append(...)`
      otherwise, then `dict(items)`. */
  method FlattenNest(d: seq<(string, Value)>, parentKey: string, sep: string)
    returns (r: seq<(string, Value)>)
    ensures r == Flatten(d, parentKey, sep)
    decreases EntriesSize(d)
  {
    var items: seq<(string, Value)> := [];
    for i := 0 to |d|
      invariant items == Items(d[..i], parentKey, sep)
    {
      var k, v := d[i].0, d[i].1;
      var newKey := if parentKey != "" then parentKey + sep + k else k;
      if v.Map? {
        EntrySmaller(d, i);
        var nested := FlattenNest(v.entries, newKey, sep);
        items := items + nested;
      } else {
        items := items + [(newKey, v)];
      }
      assert d[..i + 1][..i] == d[..i];
    }
    assert d[..|d|] == d;
    r := DictOf(items);
  }

  // ---------------------------------------------------------------------------
  // No value of the result is a mapping.

  lemma {:induction false} ItemsHaveNoMappings(d: seq<(string, Value)>, parent: string, sep: string)
    ensures forall e :: e in Items(d, parent, sep) ==> !e.1.Map?
    decreases EntriesSize(d), 0
  {
    if d != [] {
      EntriesSizeSnoc(d);
      var k, v := d[|d| - 1].0, d[|d| - 1].1;
      ItemsHaveNoMappings(d[..|d| - 1], parent, sep);
      if v.Map? {
        FlattenHasNoMappings(v.entries, NewKey(parent, sep, k), sep);
      }
    }
  }

  /** Every value of the flat mapping is a list or a scalar. */
  lemma {:induction false} FlattenHasNoMappings(d: seq<(string, Value)>, parent: string, sep: string)
    ensures forall e :: e in Flatten(d, parent, sep) ==> !e.1.Map?
    decreases EntriesSize(d), 1
  {
    ItemsHaveNoMappings(d, parent, sep);
    DictOfEntries(Items(d, parent, sep));
  }

  // ---------------------------------------------------------------------------
  // Empty mappings contribute nothing.

  /** Each pair contributes on its own: the loop over `a + b` is the loop over
      `a` followed by the loop over `b`. */
  lemma {:induction false} ItemsAppend(a: seq<(string, Value)>, b: seq<(string, Value)>, parent: string, sep: string)
    ensures Items(a + b, parent, sep) == Items(a, parent, sep) + Items(b, parent, sep)
    decreases |b|
  {
    if b == [] {
      assert a + b == a;
    } else {
      var ab := a + b;
      assert ab[..|ab| - 1] == a + b[..|b| - 1];
      assert ab[|ab| - 1] == b[|b| - 1];
      ItemsAppend(a, b[..|b| - 1], parent, sep);
    }
  }

  /** A pair whose value is an empty mapping adds no entry, wherever it stands. */
  lemma EmptyNestedMappingVanishes(a: seq<(string, Value)>, k: string, b: seq<(string, Value)>, parent: string, sep: string)
    ensures Flatten(a + [(k, Map([]))] + b, parent, sep) == Flatten(a + b, parent, sep)
  {
    var e := [(k, Map([]))];
    assert e[..0] == [];
    assert Flatten([], NewKey(parent, sep, k), sep) == [];
    assert Items(e, parent, sep) == [];
    ItemsAppend(a + e, b, parent, sep);
    ItemsAppend(a, e, parent, sep);
    assert Items(a + e + b, parent, sep) == Items(a, parent, sep) + Items(b, parent, sep);
    ItemsAppend(a, b, parent, sep);
  }

  /** An empty mapping flattens to an empty mapping. */
  lemma FlattenEmpty(parent: string, sep: string)
    ensures Flatten([], parent, sep) == []
  {
  }

  // ---------------------------------------------------------------------------
  // Which keys the result has.

  predicate HasKey(s: seq<(string, Value)>, key: string) {
    exists j :: 0 <= j < |s| && s[j].0 == key
  }

  /** The pair `e` of a mapping under `parent` yields the flat key `key`: a
      leaf yields its own new key, a nested mapping the keys of its flattening. */
  predicate Yields(e: (string, Value), parent: string, sep: string, key: string) {
    var nk := NewKey(parent, sep, e.0);
    if e.1.Map? then HasKey(Flatten(e.1.entries, nk, sep), key) else key == nk
  }

  lemma HasKeyAppend(a: seq<(string, Value)>, b: seq<(string, Value)>, key: string)
    ensures HasKey(a + b, key) <==> HasKey(a, key) || HasKey(b, key)
  {
    if HasKey(a + b, key) {
      var j :| 0 <= j < |a + b| && (a + b)[j].0 == key;
      if j >= |a| {
        assert b[j - |a|].0 == key;
      }
    }
    if HasKey(a, key) {
      var j :| 0 <= j < |a| && a[j].0 == key;
      assert (a + b)[j].0 == key;
    }
    if HasKey(b, key) {
      var j :| 0 <= j < |b| && b[j].0 == key;
      assert (a + b)[|a| + j].0 == key;
    }
  }

  lemma {:induction false} LastValueSome<V>(items: seq<(string, V)>, key: string)
    ensures LastValue(items, key).Some? <==> exists j :: 0 <= j < |items| && items[j].0 == key
  {
    if items != [] {
      LastValueSome(items[..|items| - 1], key);
      var n := |items| - 1;
      if exists j :: 0 <= j < |items| && items[j].0 == key {
        var j :| 0 <= j < |items| && items[j].0 == key;
        if j < n {
          assert items[..n][j].0 == key;
        }
      }
      if exists j :: 0 <= j < n && items[..n][j].0 == key {
        var j :| 0 <= j < n && items[..n][j].0 == key;
        assert items[j].0 == key;
      }
    }
  }

  lemma {:induction false} ItemsKeys(d: seq<(string, Value)>, parent: string, sep: string, key: string)
    ensures HasKey(Items(d, parent, sep), key) <==> exists i :: 0 <= i < |d| && Yields(d[i], parent, sep, key)
    decreases |d|
  {
    if d != [] {
      var n := |d| - 1;
      var k, v := d[n].0, d[n].1;
      var prefix := d[..n];
      ItemsKeys(prefix, parent, sep, key);
      var tail := Contribution(k, v, parent, sep);
      assert Items(d, parent, sep) == Items(prefix, parent, sep) + tail;
      HasKeyAppend(Items(prefix, parent, sep), tail, key);
      if !v.Map? {
        assert tail[0].0 == NewKey(parent, sep, k);
      }
      assert HasKey(tail, key) <==> Yields(d[n], parent, sep, key);
      if exists i :: 0 <= i < |d| && Yields(d[i], parent, sep, key) {
        var i :| 0 <= i < |d| && Yields(d[i], parent, sep, key);
        if i < n {
          assert prefix[i] == d[i];
        }
      }
      if exists i :: 0 <= i < n && Yields(prefix[i], parent, sep, key) {
        var i :| 0 <= i < n && Yields(prefix[i], parent, sep, key);
        assert d[i] == prefix[i];
      }
    }
  }

  /** The flat mapping has the key `key` exactly when some pair of `d` yields
      it: a leaf under its new key, a nested mapping through its own flattening. */
  lemma FlattenKeys(d: seq<(string, Value)>, parent: string, sep: string, key: string)
    ensures Lookup(Flatten(d, parent, sep), key).Some?
            <==> exists i :: 0 <= i < |d| && Yields(d[i], parent, sep, key)
  {
    DictOfLookup(Items(d, parent, sep), key);
    LastValueSome(Items(d, parent, sep), key);
    ItemsKeys(d, parent, sep, key);
  }

  /** A top-level leaf keeps its own name as its key. */
  lemma TopLevelKeyKeepsName(d: seq<(string, Value)>, sep: string, i: nat)
    requires i < |d| && !d[i].1.Map?
    ensures Lookup(Flatten(d, "", sep), d[i].0).Some?
  {
    assert Yields(d[i], "", sep, d[i].0);
    FlattenKeys(d, "", sep, d[i].0);
  }

  /** A leaf `k2` nested under the top-level key `k` gets the key `k + sep + k2`
      (when `k` is not the empty string, which is falsy as a parent key). */
  lemma NestedKeyIsJoined(d: seq<(string, Value)>, sep: string, i: nat, j: nat)
    requires i < |d| && d[i].1.Map? && d[i].0 != ""
    requires j < |d[i].1.entries| && !d[i].1.entries[j].1.Map?
    ensures Lookup(Flatten(d, "", sep), d[i].0 + sep + d[i].1.entries[j].0).Some?
  {
    var e := d[i].1.entries;
    var key := d[i].0 + sep + e[j].0;
    assert Yields(e[j], d[i].0, sep, key);
    FlattenKeys(e, d[i].0, sep, key);
    assert Lookup(Flatten(e, d[i].0, sep), key).Some?;
    assert Yields(d[i], "", sep, key);
    FlattenKeys(d, "", sep, key);
  }

  /** A mapping under the empty key is not prefixed: `""` is a falsy parent
      key, so `{"": {k: x}}` flattens to `{k: x}`. */
  lemma EmptyKeyIsNoPrefix(k: string, x: Value, sep: string)
    requires !x.Map?
    ensures Flatten([("", Map([(k, x)]))], "", sep) == [(k, x)]
  {
    var one := [(k, x)];
    assert NewKey("", sep, "") == "" && NewKey("", sep, k) == k;
    FlattenOfOneLeaf(k, x, "", sep);
    ItemsOfOne("", Map(one), "", sep);
    assert Items([("", Map(one))], "", sep) == Flatten(one, "", sep) == one;
    assert one[..0] == [];
    assert DictOf(one) == Insert(DictOf(one[..0]), k, x) == one;
  }

  // ---------------------------------------------------------------------------
  // Collisions: the later entry wins.

  /** The value at a flat key is the one produced last for that key. */
  lemma FlattenLaterWins(d: seq<(string, Value)>, parent: string, sep: string, key: string)
    ensures Lookup(Flatten(d, parent, sep), key) == LastValue(Items(d, parent, sep), key)
  {
    DictOfLookup(Items(d, parent, sep), key);
  }

  /** `items` for a mapping with one pair is that pair's contribution. */
  lemma ItemsOfOne(k: string, v: Value, parent: string, sep: string)
    ensures Items([(k, v)], parent, sep) == Contribution(k, v, parent, sep)
  {
    assert [(k, v)][..0] == [];
  }

  /** A mapping with one leaf flattens to that leaf under its new key. */
  lemma FlattenOfOneLeaf(k: string, x: Value, parent: string, sep: string)
    requires !x.Map?
    ensures Flatten([(k, x)], parent, sep) == [(NewKey(parent, sep, k), x)]
  {
    ItemsOfOne(k, x, parent, sep);
    var one := [(NewKey(parent, sep, k), x)];
    assert Contribution(k, x, parent, sep) == one;
    assert one[..0] == [];
    assert DictOf(one) == Insert(DictOf(one[..0]), one[0].0, one[0].1) == one;
    assert Flatten([(k, x)], parent, sep) == DictOf(Items([(k, x)], parent, sep));
  }

  /** `dict([(p, x), (p, y)])` is `{p: y}`. */
  lemma DictOfRepeatedKey<V>(p: string, x: V, y: V)
    ensures DictOf([(p, x), (p, y)]) == [(p, y)]
  {
    var items := [(p, x), (p, y)];
    var first := items[..1];
    assert first == [(p, x)] && first[..0] == [];
    assert DictOf(first) == Insert(DictOf(first[..0]), p, x) == [(p, x)];
    assert DictOf(items) == Insert(DictOf(first), p, y) == [(p, y)];
  }

  /** Two pairs contribute one after the other. */
  lemma ItemsOfTwo(e1: (string, Value), e2: (string, Value), parent: string, sep: string)
    ensures Items([e1, e2], parent, sep) == Contribution(e1.0, e1.1, parent, sep) + Contribution(e2.0, e2.1, parent, sep)
  {
    ItemsAppend([e1], [e2], parent, sep);
    assert [e1] + [e2] == [e1, e2];
    ItemsOfOne(e1.0, e1.1, parent, sep);
    ItemsOfOne(e2.0, e2.1, parent, sep);
  }

  /** Two nested leaves whose paths coincide leave one entry, with the value
      of the later one. */
  lemma NestedPathCollision(k1: string, k2: string, k1': string, k2': string, sep: string, x: Value, y: Value)
    requires k1 != "" && k1' != "" && !x.Map? && !y.Map?
    requires k1 + sep + k2 == k1' + sep + k2'
    ensures Flatten([(k1, Map([(k2, x)])), (k1', Map([(k2', y)]))], "", sep) == [(k1 + sep + k2, y)]
  {
    var path := k1 + sep + k2;
    assert NewKey("", sep, k1) == k1 && NewKey("", sep, k1') == k1';
    assert NewKey(k1, sep, k2) == path && NewKey(k1', sep, k2') == path;
    FlattenOfOneLeaf(k2, x, k1, sep);
    FlattenOfOneLeaf(k2', y, k1', sep);
    assert Contribution(k1, Map([(k2, x)]), "", sep) == [(path, x)];
    assert Contribution(k1', Map([(k2', y)]), "", sep) == [(path, y)];
    var d := [(k1, Map([(k2, x)])), (k1', Map([(k2', y)]))];
    ItemsOfTwo(d[0], d[1], "", sep);
    assert Items(d, "", sep) == [(path, x), (path, y)];
    DictOfRepeatedKey(path, x, y);
    assert Flatten(d, "", sep) == DictOf(Items(d, "", sep));
  }

  /** With the default separator, a key containing `.` collides with the
      path of a nested leaf; the pair that comes later wins. */
  lemma DottedKeyCollision(a: string, b: string, x: Value, y: Value)
    requires a != "" && !x.Map? && !y.Map?
    ensures Flatten([(a, Map([(b, x)])), (a + "." + b, y)], "", ".") == [(a + "." + b, y)]
  {
    var path := a + "." + b;
    assert NewKey("", ".", a) == a && NewKey(a, ".", b) == path && NewKey("", ".", path) == path;
    FlattenOfOneLeaf(b, x, a, ".");
    assert Contribution(a, Map([(b, x)]), "", ".") == [(path, x)];
    assert Contribution(path, y, "", ".") == [(path, y)];
    var d := [(a, Map([(b, x)])), (path, y)];
    ItemsOfTwo(d[0], d[1], "", ".");
    assert Items(d, "", ".") == [(path, x), (path, y)];
    DictOfRepeatedKey(path, x, y);
    assert Flatten(d, "", ".") == DictOf(Items(d, "", "."));
  }

  /** With a separator of two characters, paths collide although no key
      contains the separator: under `aa`, `b`/`ac` and `ba`/`c` both give
      `baaac`, and the flat mapping keeps only the later leaf. */
  lemma MultiCharSeparatorCollision(x: Value, y: Value)
    requires !x.Map? && !y.Map?
    ensures Flatten([("b", Map([("ac", x)])), ("ba", Map([("c", y)]))], "", "aa") == [("baaac", y)]
    ensures !Contains("b", "aa") && !Contains("ac", "aa") && !Contains("ba", "aa") && !Contains("c", "aa")
  {
    assert "b" + "aa" + "ac" == "baaac" == "ba" + "aa" + "c";
    NestedPathCollision("b", "ac", "ba", "c", "aa", x, y);
    assert !Contains("ba", "aa") by {
      assert "ba"[0..2] == "ba";
    }
    assert !Contains("ac", "aa") by {
      assert "ac"[0..2] == "ac";
    }
  }

  // ---------------------------------------------------------------------------
  // Without collisions, one entry per leaf.

  /** The number of values in `d`, at any depth, that are not mappings. */
  function LeafCount(d: seq<(string, Value)>): nat
    decreases EntriesSize(d)
  {
    if d == [] then 0
    else
      EntriesSizeSnoc(d);
      var v := d[|d| - 1].1;
      LeafCount(d[..|d| - 1]) + (if v.Map? then LeafCount(v.entries) else 1)
  }

  /** Keys are unique at every level (as in any Python dict), none is empty and
      none contains the separator character `c`. */
  predicate CleanValue(v: Value, c: char) {
    v.Map? ==>
      && DistinctKeys(v.entries)
      && forall e :: e in v.entries ==> e.0 != "" && c !in e.0 && CleanValue(e.1, c)
  }

  /** `key` is `NewKey(parent, sep, k)` itself, or that followed by the separator. */
  predicate InFamily(key: string, parent: string, sep: string, k: string) {
    var q := NewKey(parent, sep, k);
    && |sep| == 1
    && |q| <= |key| && key[..|q|] == q
    && (|key| == |q| || key[|q|] == sep[0])
  }

  /** Two different clean keys of one mapping have disjoint families. */
  lemma FamiliesDisjoint(key: string, parent: string, sep: string, k1: string, k2: string)
    requires InFamily(key, parent, sep, k1) && InFamily(key, parent, sep, k2)
    requires sep[0] !in k1 && sep[0] !in k2
    ensures k1 == k2
  {
    var pre := if parent != "" then parent + sep else "";
    var q1, q2 := pre + k1, pre + k2;
    assert NewKey(parent, sep, k1) == q1 && NewKey(parent, sep, k2) == q2;
    if |k1| == |k2| {
      assert k1 == q1[|pre|..] == key[|pre|..|q1|] == q2[|pre|..] == k2;
    }
  }

  /** A member of the family of a nested key is in the family of its parent. */
  lemma FamilyOfNested(key: string, parent: string, sep: string, k: string, k2: string)
    requires k != "" && InFamily(key, NewKey(parent, sep, k), sep, k2)
    ensures InFamily(key, parent, sep, k)
  {
    var q := NewKey(parent, sep, k);
    assert q != "";
    assert key[..|q|] == key[..|q + sep + k2|][..|q|];
  }

  lemma CleanPart(d: seq<(string, Value)>, c: char, n: nat)
    requires CleanValue(Map(d), c) && n <= |d|
    ensures CleanValue(Map(d[..n]), c)
  {
    forall e | e in d[..n] ensures e in d {
    }
  }

  /** The keys of `front + tail` are distinct when those of each part are and
      no key of one reappears in the other. */
  lemma ConcatDistinct(front: seq<(string, Value)>, tail: seq<(string, Value)>)
    requires DistinctKeys(front) && DistinctKeys(tail)
    requires forall a, b :: 0 <= a < |front| && 0 <= b < |tail| ==> front[a].0 != tail[b].0
    ensures DistinctKeys(front + tail)
  {
    var items := front + tail;
    forall a, b | 0 <= a < b < |items| ensures items[a].0 != items[b].0 {
      if b < |front| {
        assert items[a] == front[a] && items[b] == front[b];
      } else if a >= |front| {
        assert items[a] == tail[a - |front|] && items[b] == tail[b - |front|];
      } else {
        assert items[a] == front[a] && items[b] == tail[b - |front|];
      }
    }
  }

  /** `key` lies in the family of one of the keys of `d`. */
  predicate InSomeFamily(key: string, parent: string, sep: string, d: seq<(string, Value)>) {
    exists i :: 0 <= i < |d| && InFamily(key, parent, sep, d[i].0)
  }

  /** A key in the family of one of the first `n` pairs is in the family of a pair of `d`. */
  lemma InSomeFamilyGrow(key: string, parent: string, sep: string, d: seq<(string, Value)>, n: nat)
    requires n <= |d| && InSomeFamily(key, parent, sep, d[..n])
    ensures InSomeFamily(key, parent, sep, d)
  {
    var i :| 0 <= i < n && InFamily(key, parent, sep, d[..n][i].0);
    assert d[..n][i] == d[i];
  }

  /** In a clean mapping, a key in the family of an earlier pair is not in the
      family of the last one. */
  lemma NotInLastFamily(key: string, parent: string, sep: string, d: seq<(string, Value)>)
    requires |sep| == 1 && d != [] && CleanValue(Map(d), sep[0])
    requires InSomeFamily(key, parent, sep, d[..|d| - 1])
    ensures !InFamily(key, parent, sep, d[|d| - 1].0)
  {
    var n := |d| - 1;
    var i :| 0 <= i < n && InFamily(key, parent, sep, d[..n][i].0);
    assert d[..n][i] == d[i];
    assert d[i] in d && d[n] in d;
    if InFamily(key, parent, sep, d[n].0) {
      FamiliesDisjoint(key, parent, sep, d[i].0, d[n].0);
      assert false;
    }
  }

  /** What one clean pair contributes has distinct keys, one per leaf, all in
      the family of the pair's key. */
  lemma {:induction false} ContributionClean(k: string, v: Value, parent: string, sep: string)
    requires |sep| == 1 && k != "" && CleanValue(v, sep[0])
    ensures DistinctKeys(Contribution(k, v, parent, sep))
    ensures v.Map? ==> |Contribution(k, v, parent, sep)| == LeafCount(v.entries)
    ensures !v.Map? ==> |Contribution(k, v, parent, sep)| == 1
    ensures forall j :: 0 <= j < |Contribution(k, v, parent, sep)| ==>
              InFamily(Contribution(k, v, parent, sep)[j].0, parent, sep, k)
    decreases if v.Map? then EntriesSize(v.entries) else 0, 2
  {
    var c := Contribution(k, v, parent, sep);
    var q := NewKey(parent, sep, k);
    if v.Map? {
      assert c == Flatten(v.entries, q, sep);
      assert v == Map(v.entries);
      FlattenClean(v.entries, q, sep);
      forall j | 0 <= j < |c| ensures InFamily(c[j].0, parent, sep, k) {
        var i :| 0 <= i < |v.entries| && InFamily(c[j].0, q, sep, v.entries[i].0);
        FamilyOfNested(c[j].0, parent, sep, k, v.entries[i].0);
      }
    } else {
      assert c == [(q, v)];
    }
  }

  /** For a clean mapping and a one-character separator, `items` already has
      distinct keys, one per leaf, each in the family of the pair it came from. */
  lemma {:induction false} ItemsClean(d: seq<(string, Value)>, parent: string, sep: string)
    requires |sep| == 1 && CleanValue(Map(d), sep[0])
    ensures DistinctKeys(Items(d, parent, sep))
    ensures |Items(d, parent, sep)| == LeafCount(d)
    ensures forall j :: 0 <= j < |Items(d, parent, sep)| ==>
              InSomeFamily(Items(d, parent, sep)[j].0, parent, sep, d)
    decreases EntriesSize(d), 0
  {
    if d != [] {
      EntriesSizeSnoc(d);
      var n := |d| - 1;
      var k, v := d[n].0, d[n].1;
      assert d[n] in d;
      CleanPart(d, sep[0], n);
      ItemsClean(d[..n], parent, sep);
      var front := Items(d[..n], parent, sep);
      var tail := Contribution(k, v, parent, sep);
      ContributionClean(k, v, parent, sep);
      var items := Items(d, parent, sep);
      assert items == front + tail;
      forall a, b | 0 <= a < |front| && 0 <= b < |tail| ensures front[a].0 != tail[b].0 {
        NotInLastFamily(front[a].0, parent, sep, d);
      }
      ConcatDistinct(front, tail);
      forall j | 0 <= j < |items| ensures InSomeFamily(items[j].0, parent, sep, d) {
        if j < |front| {
          assert items[j] == front[j];
          InSomeFamilyGrow(front[j].0, parent, sep, d, n);
        } else {
          assert items[j] == tail[j - |front|];
          assert InFamily(items[j].0, parent, sep, d[n].0);
        }
      }
    }
  }

  /** For a clean mapping and a one-character separator no two paths collide:
      `dict(items)` drops nothing, and there is one entry per leaf. */
  lemma {:induction false} FlattenClean(d: seq<(string, Value)>, parent: string, sep: string)
    requires |sep| == 1 && CleanValue(Map(d), sep[0])
    ensures Flatten(d, parent, sep) == Items(d, parent, sep)
    ensures DistinctKeys(Flatten(d, parent, sep))
    ensures |Flatten(d, parent, sep)| == LeafCount(d)
    ensures forall j :: 0 <= j < |Flatten(d, parent, sep)| ==>
              InSomeFamily(Flatten(d, parent, sep)[j].0, parent, sep, d)
    decreases EntriesSize(d), 1
  {
    ItemsClean(d, parent, sep);
    DictOfIdentity(Items(d, parent, sep));
  }
}
