/** The secret-detection predicates `contains_secret` and `contains_keywords`.

    Both test a field value: a list is tested element by element, any other
    value as a whole. Both stop at the first hit and return `True`; when
    nothing hits they fall off the end and return `None`. The regular
    expression is a parameter `search`, a predicate on strings standing for
    the truthiness of `regex.search(s)`. Handing `regex.search` anything but a
    string, or asking `word in x` of a number, bool or `None`, raises
    Python's `TypeError`; the scan stops there too.
 */
module Detection {
  import opened Dicts
  import opened PyValues

  datatype PyError = TypeError

  const PyTrue: Value := Scalar(Bool(true))
  const PyFalse: Value := Scalar(Bool(false))
  const PyNone: Value := Scalar(Null)

  /** The values a field is tested on: the elements of a list, else the value itself. */
  function Subjects(v: Value): seq<Value> {
    if v.List? then v.items else [v]
  }

  predicate IsStr(v: Value) {
    v.Scalar? && v.atom.Str?
  }

  /** The text of a string value. */
  function Text(v: Value): string {
    if IsStr(v) then v.atom.s else ""
  }

  /** `regex.search(f)`: only strings can be searched. */
  function Search(search: string -> bool, f: Value): Result<bool, PyError> {
    if IsStr(f) then Ok(search(f.atom.s)) else Err(TypeError)
  }

  /** Python `word in x`: a substring of a string, an element of a list, a key
      of a mapping; other values are not containers. */
  function PyIn(word: string, x: Value): Result<bool, PyError> {
    match x
    case Scalar(Str(s)) => Ok(Contains(s, word))
    case List(xs) => Ok(Scalar(Str(word)) in xs)
    case Map(e) => Ok(Lookup(e, word).Some?)
    case Scalar(_) => Err(TypeError)
  }

  // ---------------------------------------------------------------------------
  // contains_secret

  /** No subject before position `i` errs or matches. */
  predicate NoSecretBefore(search: string -> bool, xs: seq<Value>, i: int)
    requires i <= |xs|
  {
    forall j :: 0 <= j < i ==> Search(search, xs[j]) == Ok(false)
  }

  /** What `contains_secret` returns for subjects `xs`: `True` when a subject
      matches before any subject that is not a string, `TypeError` when such a
      subject comes first, and `None` when every subject is a string and none
      matches. */
  ghost predicate SecretOutcome(search: string -> bool, xs: seq<Value>, r: Result<Value, PyError>) {
    && (r == Ok(PyTrue) || r == Ok(PyNone) || r == Err(TypeError))
    && (r == Ok(PyTrue) <==>
          exists i :: 0 <= i < |xs| && Search(search, xs[i]) == Ok(true) && NoSecretBefore(search, xs, i))
    && (r == Err(TypeError) <==>
          exists i :: 0 <= i < |xs| && !IsStr(xs[i]) && NoSecretBefore(search, xs, i))
    && (r == Ok(PyNone) <==> NoSecretBefore(search, xs, |xs|))
  }

  /** The subject at `i` is the one that decides the scan: it errs or matches,
      and every subject before it was searched without a match. */
  predicate DecidesSecret(search: string -> bool, xs: seq<Value>, i: int) {
    0 <= i < |xs| && Search(search, xs[i]) != Ok(false) && NoSecretBefore(search, xs, i)
  }

  /** Only one subject decides, so its outcome is the outcome of the scan. */
  lemma SecretDecidedAt(search: string -> bool, xs: seq<Value>, i: int)
    requires DecidesSecret(search, xs, i)
    ensures SecretOutcome(search, xs, if IsStr(xs[i]) then Ok(PyTrue) else Err(TypeError))
  {
    if IsStr(xs[i]) {
      var found := search(xs[i].atom.s);
      assert Search(search, xs[i]) == Ok(found);
      assert found;
    } else {
      assert Search(search, xs[i]) == Err(TypeError);
      forall j | 0 <= j < i ensures Search(search, xs[j]) != Ok(true) {
        assert Search(search, xs[j]) == Ok(false);
      }
    }
    forall j | i < j <= |xs| ensures !NoSecretBefore(search, xs, j) {
      assert Search(search, xs[i]) != Ok(false);
    }
  }

  /** When no subject decides, the scan finds nothing. */
  lemma SecretUndecided(search: string -> bool, xs: seq<Value>)
    requires NoSecretBefore(search, xs, |xs|)
    ensures SecretOutcome(search, xs, Ok(PyNone))
  {
  }

  /** On strings the outcome is `True` exactly when the expression matches one of
      them, and `None` otherwise. */
  lemma SecretOnStrings(search: string -> bool, xs: seq<Value>, r: Result<Value, PyError>)
    requires SecretOutcome(search, xs, r)
    requires forall i :: 0 <= i < |xs| ==> IsStr(xs[i])
    ensures r == Ok(PyTrue) <==> exists i :: 0 <= i < |xs| && search(Text(xs[i]))
    ensures r == Ok(PyNone) <==> forall i :: 0 <= i < |xs| ==> !search(Text(xs[i]))
  {
    if exists i :: 0 <= i < |xs| && search(Text(xs[i])) {
      var i :| 0 <= i < |xs| && search(Text(xs[i]));
      var k := FirstSecret(search, xs, i);
      assert Search(search, xs[k]) == Ok(true);
    }
  }

  /** Among strings, one that matches is preceded by a first one that matches. */
  lemma {:induction false} FirstSecret(search: string -> bool, xs: seq<Value>, i: int) returns (k: int)
    requires forall j :: 0 <= j < |xs| ==> IsStr(xs[j])
    requires 0 <= i < |xs| && search(Text(xs[i]))
    ensures 0 <= k <= i && search(Text(xs[k])) && NoSecretBefore(search, xs, k)
    decreases i
  {
    if NoSecretBefore(search, xs, i) {
      k := i;
    } else {
      var j :| 0 <= j < i && Search(search, xs[j]) != Ok(false);
      k := FirstSecret(search, xs, j);
    }
  }

  /** `contains_secret(regex, field_value)`. */
  method ContainsSecret(search: string -> bool, v: Value) returns (r: Result<Value, PyError>)
    ensures SecretOutcome(search, Subjects(v), r)
  {
    var xs := Subjects(v);
    if v.List? {
      var i := 0;
      while i < |xs|
        invariant 0 <= i <= |xs|
        invariant NoSecretBefore(search, xs, i)
      {
        var hit := Search(search, xs[i]);
        if hit.Err? {
          SecretDecidedAt(search, xs, i);
          return Err(TypeError);
        }
        if hit.value {
          SecretDecidedAt(search, xs, i);
          return Ok(PyTrue);
        }
        i := i + 1;
      }
    } else {
      var hit := Search(search, v);
      if hit.Err? {
        SecretDecidedAt(search, xs, 0);
        return Err(TypeError);
      }
      if hit.value {
        SecretDecidedAt(search, xs, 0);
        return Ok(PyTrue);
      }
    }
    SecretUndecided(search, xs);
    return Ok(PyNone);
  }

  // ---------------------------------------------------------------------------
  // contains_keywords

  /** Every test `words[w'] in xs[i']` that comes before `words[w] in xs[i]`, in
      the order the scan makes them (keyword by keyword, subject by subject),
      gives `False`. */
  predicate NoKeywordBefore(words: seq<string>, xs: seq<Value>, w: int, i: int)
    requires 0 <= w <= |words| && i <= |xs|
  {
    && (forall w', i' :: 0 <= w' < w && 0 <= i' < |xs| ==> PyIn(words[w'], xs[i']) == Ok(false))
    && (w < |words| ==> forall i' :: 0 <= i' < i ==> PyIn(words[w], xs[i']) == Ok(false))
  }

  /** What `contains_keywords` returns for keywords `words` (at least one) and
      subjects `xs`: the first test `word in subject`, in scan order, that does
      not give `False` decides — `True` for a hit, `TypeError` for a subject that
      is no container — and `None` when every test gives `False`. */
  ghost predicate KeywordsOutcome(words: seq<string>, xs: seq<Value>, r: Result<Value, PyError>) {
    && (r == Ok(PyTrue) || r == Ok(PyNone) || r == Err(TypeError))
    && (r == Ok(PyTrue) <==>
          exists w, i :: 0 <= w < |words| && 0 <= i < |xs| &&
            PyIn(words[w], xs[i]) == Ok(true) && NoKeywordBefore(words, xs, w, i))
    && (r == Err(TypeError) <==>
          exists w, i :: 0 <= w < |words| && 0 <= i < |xs| &&
            PyIn(words[w], xs[i]).Err? && NoKeywordBefore(words, xs, w, i))
    && (r == Ok(PyNone) <==> NoKeywordBefore(words, xs, |words|, 0))
  }

  /** The test `words[w] in xs[i]` decides the scan: it errs or hits, and every
      test before it gave `False`. */
  predicate DecidesKeywords(words: seq<string>, xs: seq<Value>, w: int, i: int) {
    0 <= w < |words| && 0 <= i < |xs| && PyIn(words[w], xs[i]) != Ok(false) && NoKeywordBefore(words, xs, w, i)
  }

  /** Only one test decides, so its outcome is the outcome of the scan. */
  lemma KeywordsDecidedAt(words: seq<string>, xs: seq<Value>, w: int, i: int)
    requires DecidesKeywords(words, xs, w, i)
    ensures KeywordsOutcome(words, xs, if PyIn(words[w], xs[i]).Err? then Err(TypeError) else Ok(PyTrue))
  {
    forall w2, i2 | 0 <= w2 <= |words| && 0 <= i2 <= |xs| && (w2 > w || (w2 == w && i2 > i))
      ensures !NoKeywordBefore(words, xs, w2, i2)
    {
      assert PyIn(words[w], xs[i]) != Ok(false);
    }
  }

  /** When no test decides, the scan finds nothing. */
  lemma KeywordsUndecided(words: seq<string>, xs: seq<Value>)
    requires NoKeywordBefore(words, xs, |words|, 0)
    ensures KeywordsOutcome(words, xs, Ok(PyNone))
  {
  }

  /** On strings the outcome is `True` exactly when some keyword is a substring of
      some subject, and `None` otherwise. */
  lemma KeywordsOnStrings(words: seq<string>, xs: seq<Value>, r: Result<Value, PyError>)
    requires KeywordsOutcome(words, xs, r)
    requires forall i :: 0 <= i < |xs| ==> IsStr(xs[i])
    ensures r == Ok(PyTrue) <==>
              exists w, i :: 0 <= w < |words| && 0 <= i < |xs| && Contains(Text(xs[i]), words[w])
    ensures r == Ok(PyNone) <==>
              forall w, i :: 0 <= w < |words| && 0 <= i < |xs| ==> !Contains(Text(xs[i]), words[w])
  {
    if exists w, i :: 0 <= w < |words| && 0 <= i < |xs| && Contains(Text(xs[i]), words[w]) {
      var w, i :| 0 <= w < |words| && 0 <= i < |xs| && Contains(Text(xs[i]), words[w]);
      var w', i' := FirstKeyword(words, xs, w, i);
      assert PyIn(words[w'], xs[i']) == Ok(true);
    } else {
      forall w, i | 0 <= w < |words| && 0 <= i < |xs| ensures PyIn(words[w], xs[i]) == Ok(false) {
        assert !Contains(Text(xs[i]), words[w]);
      }
    }
  }

  /** Among strings, a hit is preceded, in scan order, by a first hit. */
  lemma {:induction false} FirstKeyword(words: seq<string>, xs: seq<Value>, w: int, i: int) returns (w': int, i': int)
    requires forall j :: 0 <= j < |xs| ==> IsStr(xs[j])
    requires 0 <= w < |words| && 0 <= i < |xs| && Contains(Text(xs[i]), words[w])
    ensures 0 <= w' < |words| && 0 <= i' < |xs| && Contains(Text(xs[i']), words[w'])
    ensures NoKeywordBefore(words, xs, w', i')
    decreases w, i
  {
    if NoKeywordBefore(words, xs, w, i) {
      w', i' := w, i;
    } else if exists w2, i2 :: 0 <= w2 < w && 0 <= i2 < |xs| && PyIn(words[w2], xs[i2]) != Ok(false) {
      var w2, i2 :| 0 <= w2 < w && 0 <= i2 < |xs| && PyIn(words[w2], xs[i2]) != Ok(false);
      w', i' := FirstKeyword(words, xs, w2, i2);
    } else {
      var i2 :| 0 <= i2 < i && PyIn(words[w], xs[i2]) != Ok(false);
      w', i' := FirstKeyword(words, xs, w, i2);
    }
  }

  predicate NoKeywords(keywords: Option<seq<string>>) {
    keywords.None? || keywords.value == []
  }

  /** `contains_keywords(field_value, keywords)`: `False` when there are no
      keywords, otherwise the outcome of the scan. */
  method ContainsKeywords(v: Value, keywords: Option<seq<string>>) returns (r: Result<Value, PyError>)
    ensures NoKeywords(keywords) ==> r == Ok(PyFalse)
    ensures !NoKeywords(keywords) ==> KeywordsOutcome(keywords.value, Subjects(v), r)
  {
    if NoKeywords(keywords) {
      return Ok(PyFalse);
    }
    var words := keywords.value;
    var xs := Subjects(v);
    var w := 0;
    if v.List? {
      while w < |words|
        invariant 0 <= w <= |words|
        invariant NoKeywordBefore(words, xs, w, 0)
      {
        var i := 0;
        while i < |xs|
          invariant 0 <= i <= |xs|
          invariant NoKeywordBefore(words, xs, w, i)
        {
          var hit := PyIn(words[w], xs[i]);
          if hit.Err? {
            KeywordsDecidedAt(words, xs, w, i);
            return Err(TypeError);
          }
          if hit.value {
            KeywordsDecidedAt(words, xs, w, i);
            return Ok(PyTrue);
          }
          i := i + 1;
        }
        w := w + 1;
      }
    } else {
      while w < |words|
        invariant 0 <= w <= |words|
        invariant NoKeywordBefore(words, xs, w, 0)
      {
        var hit := PyIn(words[w], v);
        if hit.Err? {
          KeywordsDecidedAt(words, xs, w, 0);
          return Err(TypeError);
        }
        if hit.value {
          KeywordsDecidedAt(words, xs, w, 0);
          return Ok(PyTrue);
        }
        w := w + 1;
      }
    }
    KeywordsUndecided(words, xs);
    return Ok(PyNone);
  }

  /** Keywords match literally: no case folding. */
  lemma NoCaseFolding()
    ensures !Contains("Password", "password")
    ensures Contains("my password", "password")
  {
    var s, w := "Password", "password";
    assert !OccursAt(s, w, 0) by {
      assert s[0..8][0] != w[0];
    }
    assert OccursAt("my password", w, 3) by {
      assert "my password"[3..11] == w;
    }
  }
}
