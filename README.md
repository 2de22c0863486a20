# anonymize-it utilities in Dafny

A model of the helper functions behind the anonymize-it tool. The tool reads documents from a source cluster, masks or hashes their sensitive fields, and writes them to a destination. The helpers live in `anonymize_it/utils.py`. They do the following:

- flatten a nested document into dotted paths (`flatten_nest`);
- validate the configuration (`parse_config`);
- cut a stream of documents into batches (`batch`);
- decide whether a field value holds a secret or a keyword (`contains_secret`, `contains_keywords`);
- hash a value under the cluster's key (`hash_value`);
- build the request body that pages through a field's terms with a composite aggregation (`composite_query`).

Python values are a tagged variant (`PyValues.Value`: a scalar `str`, `int`, `bool` or `None`, a list, or a mapping). A mapping is an ordered list of key/value pairs. `Dicts.Insert` models `d[k] = v`: it replaces the value in place when the key is present and appends it otherwise. `Dicts.DictOf` models `dict(items)`, where the last pair for a key wins.

Modules:

- `Dicts`: ordered dicts.
- `PyValues`: values, truthiness, `str()` of scalars.
- `Flattening`: `flatten_nest`, as the source's loop (`FlattenNest`) and as the functions it is proved against.
- `ConfigParse`: `parse_config`.
- `Batching`: `batch`, as a `Batcher` object whose cursor is the shared iterator.
- `Detection`: `contains_secret` and `contains_keywords`, as loops with early return.
- `Hashing`: the text `hash_value` digests.
- `Query`: `composite_query`, building the body and then assigning into it.

Collision behaviour of `flatten_nest`:

- When two flat paths coincide, the entry produced later wins.
- With a one-character separator, no path collides as long as no key is empty, no key contains the separator, and each mapping has distinct keys. The flat mapping then has one entry per leaf.
- Paths can also collide when no key contains the separator:
  - With some separators of two or more characters, such as `aa`: under `aa`, `b`/`ac` and `ba`/`c` both give `baaac`. This needs a separator that has a proper prefix that is also its suffix; a separator like `->` cannot collide this way.
  - With an empty key: `""` is a falsy `parent_key`, so the nested keys under it are not prefixed.

External effects are parameters:

- The regular expression of `contains_secret` is a predicate `search` on strings.
- SHA-256 applied to the UTF-8 encoding is a function `sha` from strings to 64-character lowercase hex strings.
- The warning of `parse_config` is a boolean in its result.
- `composite_query` returns the body as a structure rather than as JSON text.

Python's own operations are definitions, used by the members in the table below:

- `Flattening.NewKey` is the new key of anonymize_it/utils.py:25: `parent_key + sep + k` when `parent_key` is truthy, `k` alone when it is the empty string.
- `ConfigParse.Message` gives the texts of the four `ConfigParserError`s raised at anonymize_it/utils.py:46-59, and of the `AttributeError` raised by `.get` on a section that is not a mapping.
- `ConfigParse.CallGet` is the call `section.get('type')` (anonymize_it/utils.py:52-53): the stored value or `None` on a mapping, an `AttributeError` naming the type otherwise.
- `Detection.Subjects` is the `type(field_value) == list` dispatch (anonymize_it/utils.py:130-131 and 141-143): a list is tested element by element, any other value as a whole.
- `Detection.Search` is `regex.search` (anonymize_it/utils.py:132-134): a `TypeError` on anything but a string, the abstract predicate otherwise.
- `Detection.PyIn` is `word in x` (anonymize_it/utils.py:143 and 145): a substring test on strings, membership on lists, key membership on mappings, a `TypeError` on other values.

## Model

| member | source | states |
|---|---|---|
| Dicts.Lookup | anonymize_it/utils.py:37-43 | a dict holds a value for `k` exactly when some pair has key `k`, and the value is that pair's |
| Dicts.DictOfLookup | anonymize_it/utils.py:30 | `dict(items)[k]` is the value of the last pair for `k` in `items` |
| Dicts.DictOfDistinct | anonymize_it/utils.py:30 | `dict(items)` holds every key once |
| Dicts.DictOfIdentity | anonymize_it/utils.py:30 | when no key repeats, `dict(items)` keeps every pair in order |
| Dicts.InsertPresentKeys | anonymize_it/utils.py:166 | assigning to a key already present keeps the keys and their order |
| PyValues.Get | anonymize_it/utils.py:37-43 | `config.get(k)` is `None` for a missing key and the stored value otherwise |
| PyValues.DecimalRoundTrip | anonymize_it/utils.py:149 | reading back the decimal text of a natural number gives the number |
| PyValues.IntToDecimalInjective | anonymize_it/utils.py:149 | distinct integers have distinct `str()` texts |
| Flattening.FlattenNest | anonymize_it/utils.py:22-30 | the loop with `append`/`extend` and the recursive call computes the flat mapping `Flatten` over the list `Items` |
| Flattening.FlattenHasNoMappings | anonymize_it/utils.py:26-29 | no value of the flat mapping is a mapping |
| Flattening.FlattenEmpty | anonymize_it/utils.py:23-30 | an empty mapping flattens to an empty mapping |
| Flattening.EmptyNestedMappingVanishes | anonymize_it/utils.py:26-27 | a pair whose value is an empty mapping contributes no entry, wherever it stands |
| Flattening.ItemsAppend | anonymize_it/utils.py:23-29 | the pairs contribute independently, in order: the items of `a + b` are those of `a` then those of `b` |
| Flattening.FlattenKeys | anonymize_it/utils.py:24-30 | the flat mapping has a key exactly when some pair yields it, a leaf under its new key and a nested mapping through its own flattening |
| Flattening.TopLevelKeyKeepsName | anonymize_it/utils.py:25 | a top-level leaf keeps its own key |
| Flattening.NestedKeyIsJoined | anonymize_it/utils.py:25-27 | a leaf `k2` under a non-empty top-level key `k` has the key `k + sep + k2` |
| Flattening.EmptyKeyIsNoPrefix | anonymize_it/utils.py:25 | under the empty key `""` nested keys are not prefixed |
| Flattening.FlattenLaterWins | anonymize_it/utils.py:27-30 | the value at a flat key is the last one produced for it |
| Flattening.NestedPathCollision | anonymize_it/utils.py:25-30 | two nested leaves with the same path leave one entry, with the later value |
| Flattening.DottedKeyCollision | anonymize_it/utils.py:22-30 | with the default separator, a key containing `.` collides with a nested path and the later pair wins |
| Flattening.MultiCharSeparatorCollision | anonymize_it/utils.py:25-30 | with the separator `aa`, the leaves at `b`/`ac` and `ba`/`c` both get the key `baaac` and only the later one is kept, although no key contains the separator |
| Flattening.FlattenClean | anonymize_it/utils.py:27-30 | for a one-character separator and keys that are non-empty, distinct and free of it, nothing is dropped: distinct keys, one entry per leaf, each key in the family of the pair it came from |
| ConfigParse.ParseConfig | anonymize_it/utils.py:37-63 | on success the seven fields of `Config` are the values of the seven configuration keys, unchanged |
| ConfigParse.AcceptedIff | anonymize_it/utils.py:45-59 | the configuration is accepted exactly when `source` and `dest` are non-empty mappings with truthy `type` |
| ConfigParse.FirstFailure | anonymize_it/utils.py:45-59 | each failure happens exactly when the earlier checks pass and its own check fails, in the order source, dest, types |
| ConfigParse.WarnedIff | anonymize_it/utils.py:45-50 | the warning is issued exactly when `source` and `dest` are truthy and `include` is absent or falsy |
| ConfigParse.WarningNeverFails | anonymize_it/utils.py:45-59 | success and the error depend on `source` and `dest` alone, never on `include` or the warning |
| ConfigParse.MessagesDistinct | anonymize_it/utils.py:46-59 | the four configuration errors have pairwise different messages, and the attribute error names its type |
| Batching.Batcher.constructor | anonymize_it/utils.py:66 | a fresh iterator starts at the first element with no group handed out |
| Batching.Batcher.Next | anonymize_it/utils.py:67-72 | the next group is the next `min(size, remaining)` elements and moves the cursor past them; there is none when `size` is 0 or the input is used up; the groups so far stay the start of a batching |
| Batching.AllBatches | anonymize_it/utils.py:65-72 | consuming every group gives a batching of the input: non-empty groups of at most `size`, all but the last of exactly `size`, concatenating to the input; none for `size == 0` |
| Batching.BatchesIsBatching | anonymize_it/utils.py:65-72 | the reference definition of the groups is a batching |
| Batching.BatchingUnique | anonymize_it/utils.py:65-72 | an input has only one batching for a given `size` |
| Batching.BatchingEmpty | anonymize_it/utils.py:68-72 | with `size >= 1` there are no groups exactly when the input is empty |
| Batching.BatchesCount | anonymize_it/utils.py:65-72 | there are `ceil(len / size)` groups |
| Batching.BatchesExample | anonymize_it/utils.py:65-72 | five elements in twos give groups of 2, 2 and 1 |
| Detection.ContainsSecret | anonymize_it/utils.py:129-135 | the result is `True` when a subject matches before any non-string subject, `TypeError` when a non-string comes first, and `None` when nothing matches |
| Detection.SecretOnStrings | anonymize_it/utils.py:129-135 | on strings the result is `True` exactly when the expression matches some subject, and `None` otherwise |
| Detection.ContainsKeywords | anonymize_it/utils.py:138-146 | `False` without keywords; otherwise the first test `word in subject` that does not give `False`, keyword by keyword and subject by subject, decides between `True` and `TypeError`, and `None` when none does |
| Detection.KeywordsOnStrings | anonymize_it/utils.py:141-146 | on strings the result is `True` exactly when some keyword is a literal substring of some subject, and `None` otherwise |
| Detection.NoCaseFolding | anonymize_it/utils.py:143-145 | keywords match literally: `password` is not in `Password` |
| Hashing.DigestInput | anonymize_it/utils.py:149 | the hashed text is the key's text, a `:`, and the value's text |
| Hashing.HashValue | anonymize_it/utils.py:148-149 | the digest is 64 lowercase hexadecimal characters |
| Hashing.SameTextSameHash | anonymize_it/utils.py:149 | the digest depends on the hashed text alone |
| Hashing.DigestInputInjective | anonymize_it/utils.py:149 | when neither key contains `:`, the hashed text determines the key text and the value text |
| Hashing.ColonInKeyCollides | anonymize_it/utils.py:149 | a key containing `:` lets two different pairs hash alike |
| Hashing.IntAndDecimalCollide | anonymize_it/utils.py:149 | an integer and the string of its digits hash alike |
| Hashing.MissingKeyIsNoneText | anonymize_it/utils.py:149 | a `None` key hashes as the text `None` |
| Hashing.DistinctIntsDistinctTexts | anonymize_it/utils.py:149 | under one key, distinct integers give distinct hashed texts |
| Query.CompositeQuery | anonymize_it/utils.py:151-169 | the top-level `size` is 0; the composite `size` is the argument; there is one terms source keyed by `field`; `after` is `{field: term}` exactly when `term` is truthy; `query` is present exactly when `query` is truthy; the top-level keys are `size`, `aggs` and then `query`; `aggs` holds only `my_buckets`, which holds only `composite`, whose keys are `size`, `sources` and, when set, `after` |
| Query.InitialBodyFacts | anonymize_it/utils.py:152-164 | the body as first built has the composite aggregation at `aggs.my_buckets.composite`, with exactly the keys `size` and `sources`, no `after` and no top-level `query`; `aggs` and `my_buckets` each hold one key |
| Query.AssignAtGet | anonymize_it/utils.py:166 | after a nested assignment, the path leads to the assigned value |
| Query.AssignAtOther | anonymize_it/utils.py:166 | a nested assignment changes no other key of the mapping it assigns into |
| Query.AssignAtKeys | anonymize_it/utils.py:166 | a nested assignment keeps the top-level keys and their order |
| Query.AssignAtTop | anonymize_it/utils.py:166 | a nested assignment changes no other top-level key |
| Query.AssignAtKeysAt | anonymize_it/utils.py:166 | after a nested assignment, the keys of the mapping assigned into are those `d[k] = v` gives |
| Query.AssignAtAbove | anonymize_it/utils.py:166 | a nested assignment keeps the keys, and their order, of every mapping on the way to the one assigned into |
| Query.AssignAtBeside | anonymize_it/utils.py:166 | a nested assignment changes no key beside its path, at any level |
| Query.AddAfter | anonymize_it/utils.py:165-166 | setting `after` keeps every key beside its path: the other keys of the composite aggregation, of `my_buckets`, of `aggs` and of the body; it keeps the body's facts, with `after` now among the composite keys |
| Query.AddQuery | anonymize_it/utils.py:167-168 | setting `query` appends the pair `("query", query)` to the body and changes nothing else in it |

## Left out

- `get_license_info` and `get_hashkey` (anonymize_it/utils.py:96-127) are not modelled: they call the Elasticsearch license API, prompt for a password and make HTTP requests.
- `faker_examples` (anonymize_it/utils.py:74-94) is not modelled: it reflects over a third-party library and prints exceptions.
- `ConfigParserError` (anonymize_it/utils.py:17-18) is an exception class. Here its instances are error variants of a result (`ConfigParse.ConfigError`).
- `CloudAPIError` (anonymize_it/utils.py:19-20) is not modelled: only `get_hashkey`, which is left out, raises it.
- SHA-256 and `.encode()` are not modelled: the digest function is a parameter.
- The regular-expression engine is not modelled: matching is a parameter.
- The JSON text `json.dumps` produces (anonymize_it/utils.py:169) is not modelled: the body is returned as a structure.
- The `warnings.warn` call (anonymize_it/utils.py:50) is not modelled as a side effect: the model returns a boolean flag.
- Hashing.HashValue: states only the shape of the digest (64 lowercase hex characters), because the SHA-256 function is a parameter.
- Batching.Batcher.Next: takes each group in full when it is handed out. The source yields a lazy `chain`, so a consumer that abandons a group part-way would leave the shared iterator in the middle of it. That case is not modelled.
- Batching.AllBatches: works on a finite sequence rather than an arbitrary iterable.
- Batching.Batcher.constructor: `size` is an unbounded natural number. Three cases of `islice(sourceiter, size)` (anonymize_it/utils.py:68) are outside the model: a negative size, and a size above `sys.maxsize`, both of which make `islice` raise `ValueError` on the first group where the model hands out groups; and `size=None`, which `islice` reads as no limit, so the source yields the whole input as one group.
- Scalars are `str`, `int`, `bool` and `None` only. Floats, bytes and tuples are not modelled.
- Hashing.DigestInput: does not model the limit of 4300 decimal digits that CPython (3.11 and later, and the 3.10.7 and 3.9.14 security releases) puts on `str()` of an integer. There the f-string raises `ValueError`; the model formats every integer, and `Hashing.DistinctIntsDistinctTexts` speaks of all of them.
- Hashing.DigestInput: formats scalars only. `str()` of a list or a mapping as a field value is not modelled.
- Mapping keys are strings. Non-string keys are not modelled. At the top level a non-string key is kept as it is, because the empty `parent_key` is falsy. Below a truthy parent key, `parent_key + sep + k` raises `TypeError`.
- ConfigParse.ParseConfig: takes the configuration as a mapping. A configuration that is not a mapping, where `config.get` would raise, is outside the model.
- Detection.Search: a `TypeError` carries no message here.
- The classification of whole records, the masking and reassembly of documents, and un-flattening are not modelled: they have no code in this file.
