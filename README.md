# django-loader core, modelled in Dafny

django-loader builds a Django settings dictionary from three sources:
- keyword defaults;
- a secrets file in TOML, JSON, YAML or BespON;
- environment variables whose names start with a prefix (`DJANGO_ENV_` by default).

It merges them with a fixed precedence. It also writes a configuration back out as `export PREFIX...='value'` lines.

This project models the logic of `loader/loader.py` over insertion-ordered, string-keyed dictionaries:

| module | file | models |
|---|---|---|
| `Config` | `config.dfy` | configuration values and Python dict operations |
| `Sorting` | `sorting.dfy` | `sorted` over integers and over strings |
| `ListRecovery` | `list_recovery.dfy` | `_keys_are_indices`, `_convert_dict_to_list`, `_convert_listdict_to_list` |
| `Environment` | `environment.dfy` | `load_environment` |
| `Merging` | `merging.dfy` | `merge` |
| `Dumping` | `dumping.dfy` | `dump_environment` and the dispatch of `dump_secrets` |
| `Validation` | `validation.dfy` | the three value validators |
| `FileLoading` | `file_loading.dfy` | the trial parse of `load_file` and `validate_file_format` |
| `Loader` | `loader.dfy` | `load_secrets` |

**Values.**
- A value is a `CV`: a string, an integer, a boolean, `None`, a list, or a dict.
- A dict is an association list in insertion order. `UniqueKeys` is its invariant.
- `Updated` is `d[k] = v`: an existing key keeps its place, and a new key goes at the end.
- Every exception the core raises is a constructor of `Error`.
- `Result` carries either the value or the exception.

**Form of the model.**
- The code that updates state in place is imperative Dafny:
  - `Merge` updates a `PyDict` object. It returns that same object, the caller's `defaults`.
  - `LoadEnvironment`, `KeysAreIndices`, `ConvertDictToList`, `ConvertListdictToList` and `DumpEnvironment` are loops.
  - Each loop is proved equal to a specification function.
- The properties are lemmas about those functions:
  - the key restriction and precedence of `merge`;
  - the gapless-index test;
  - the string order of recovered lists;
  - the order-dependent collision check;
  - the breadth-first order of the dump.

## Behaviour of the code worth knowing

- **Collision detection depends on order.** A nested name after a flat one raises, naming the shared segment. A flat name after the nested ones replaces the dict built so far without raising (`Environment.CollisionDependsOnOrder`).
- **Recovered lists are in string-key order.** `_convert_dict_to_list` sorts the key strings, so from eleven elements on, `"10"` comes before `"2"` (`ListRecovery.ListFromDictElevenElements`).
- **`merge` updates the caller's `defaults` in place.** It assigns `config = defaults`, so the dict passed in is updated and is the one returned (`Merging.Merge`).

## Model

| member | source | states |
|---|---|---|
| `Config.Lookup` | loader/loader.py:87 | `k in d` holds exactly when `k` is among the keys, and `d[k]` is a value bound to `k` |
| `Config.Updated` | loader/loader.py:88 | `d[k] = v` keeps the key order, appending `k` only when new; afterwards `k` maps to `v` and every other key is unchanged |
| `Config.DecimalStringValue` | loader/loader.py:187 | `int(str(n)) == n` for every natural `n` |
| `Sorting.Sort` | loader/loader.py:191 | the sorted list is a permutation of the input |
| `Sorting.SortSorted` | loader/loader.py:191 | under a total order the result is sorted |
| `Sorting.SortIsUnique` | loader/loader.py:206 | any sorted permutation of the input is the result, so the model agrees with Python's `sorted` |
| `Sorting.StrLeTotalOrder` | loader/loader.py:206 | Python's code-point order on strings is total, antisymmetric and transitive |
| `ListRecovery.ParseIndex` | loader/loader.py:186-189 | `int(k)` succeeds exactly on non-empty strings of decimal digits |
| `ListRecovery.IndexVerdictMeaning` | loader/loader.py:181-201 | `_keys_are_indices` raises exactly on an empty dict, and returns `True` exactly when every key is an integer and the integers are 0..n-1 |
| `ListRecovery.KeysAreIndices` | loader/loader.py:181-201 | the loop returns or raises what the index test above prescribes |
| `ListRecovery.IndexKeysAreIndices` | loader/loader.py:181-201 | the keys `"0"`..`"n-1"` are recognised as indices for every n ≥ 1 |
| `ListRecovery.SortedKeysAre` | loader/loader.py:206 | `sorted(d.keys())` is the unique sorted arrangement of the keys |
| `ListRecovery.ConvertDictToList` | loader/loader.py:204-211 | the loop returns one element per key, in the string order of the keys |
| `ListRecovery.ListFromDictNumericOrder` | loader/loader.py:204-211 | with at most ten index keys, element i is the value stored under `str(i)` |
| `ListRecovery.ListFromDictElevenElements` | loader/loader.py:206 | with eleven index keys, element 2 is the value under `"10"`: the order is by string, not by number |
| `ListRecovery.ConvertEntries` | loader/loader.py:214-225 | the converted top-level dict keeps its keys in their order; it is never turned into a list |
| `ListRecovery.ConvertEntriesPointwise` | loader/loader.py:214-225 | each value is replaced at its own key and position by its own conversion, so non-dict values stay exactly as they were; the walk succeeds exactly when every value converts |
| `ListRecovery.GetConverted` | loader/loader.py:214-225 | after the walk, every key looks up the conversion of the value it looked up before |
| `ListRecovery.ConvertListdictToList` | loader/loader.py:214-225 | the loop that replaces dict values in place, recursing first, returns or raises what `ConvertEntries` prescribes |
| `ListRecovery.ConvertDictItem` | loader/loader.py:216-223 | the step for a dict value, descending into it and then checking its keys, returns or raises what `ConvertValue` prescribes for that dict |
| `ListRecovery.ConvertDictOutcome` | loader/loader.py:217-223 | a nested dict that converts has every value convertible; when its keys are indices it becomes a list with one element per key, element i being the conversion of the value at the i-th key in string order; otherwise it stays a dict with the same keys in the same order, each bound to the conversion of its old value |
| `ListRecovery.ConvertValueIdempotent` | loader/loader.py:214-225 | converting a converted value changes nothing |
| `ListRecovery.ConvertEntriesSucceeds` | loader/loader.py:194 | without empty dicts the conversion never raises |
| `ListRecovery.ConvertValueStrLeaves` | loader/loader.py:214-225 | a config whose every leaf is a string converts to one whose every leaf is still a string: the conversion turns no string into another kind of value |
| `Environment.Split` | loader/loader.py:267 | `name.split("__")` has one piece exactly when the name has no `"__"`; no piece contains `"__"`, and the first piece is a prefix of the name |
| `Environment.JoinSplit` | loader/loader.py:267 | joining the pieces with `"__"` gives the name back |
| `Environment.InsertPath` | loader/loader.py:268-279 | the walk adds at most the first segment to the top-level keys, leaves the value of every other top-level key unchanged, and raises only the collision error |
| `Environment.InsertPathKeepsOthers` | loader/loader.py:268-279 | a path that is neither a prefix of the segment path nor continues it looks up the same value after the walk as before |
| `Environment.InsertPathPlaces` | loader/loader.py:268-279 | after the walk, the value sits at the end of the segment path |
| `Environment.InsertPathCollision` | loader/loader.py:269-274 | the walk raises exactly when a segment before the last is bound to a non-dict, and the error names such a segment |
| `Environment.ReconstructFrom` | loader/loader.py:250-279 | processing the environment in order can raise only the collision error |
| `Environment.LoadEnvironment` | loader/loader.py:228-283 | the loop returns or raises what `Loaded` prescribes: the walk over the environment in order, then the list conversion |
| `Environment.OnlyPrefixedNamesCount` | loader/loader.py:251 | names that do not start with the prefix have no effect |
| `Environment.CollisionDependsOnOrder` | loader/loader.py:258-279 | a flat name `a` then a nested name `a__b` raises, naming `a`; in the other order the flat value silently replaces the dict |
| `Environment.LoadedFailsOnlyOnCollision` | loader/loader.py:228-283 | `load_environment` raises nothing but the collision error: it never builds an empty dict |
| `Environment.LoadedLeavesAreStrings` | loader/loader.py:261-279 | every leaf of the result is a string |
| `Environment.LoadedUniqueKeys` | loader/loader.py:248-283 | the result has no key twice |
| `Merging.PyDict.Contains` | loader/loader.py:87 | `k in config` holds exactly when `config[k]` has a value |
| `Merging.PyDict.SetItem` | loader/loader.py:88 | `config[k] = v` updates the object in place and keeps it a dict |
| `Merging.OverlayInto` | loader/loader.py:86-92 | one `for k, v in src.items()` loop leaves in the object the overlay of `src`, restricted to present keys when asked |
| `Merging.Merge` | loader/loader.py:79-103 | returns the caller's `defaults` object itself, updated in place to the merged dict |
| `Merging.OverlayUnique` | loader/loader.py:79-103 | the merged dict never holds a key twice |
| `Merging.OverlayRestrictedKeys` | loader/loader.py:86-92 | a restricted overlay keeps exactly the keys of the target, in order |
| `Merging.OverlayUnionKeys` | loader/loader.py:97-101 | an unrestricted overlay keeps the target's keys in front and appends the new keys of the source in source order |
| `Merging.OverlayLookup` | loader/loader.py:86-101 | a key takes the source's value when the source has it and may write it, and keeps its old value otherwise |
| `Merging.MergeRestricted` | loader/loader.py:83-94 | with non-empty defaults the keys are the defaults' keys; each value is the environment's, else the file's, else the default |
| `Merging.MergeUnion` | loader/loader.py:96-103 | with empty defaults the result is file ∪ environment, the file's keys first, and the environment wins on shared keys |
| `Dumping.Children` | loader/loader.py:319-324 | a container queues one item per element of a list or item of a dict |
| `Dumping.ChildrenSize` | loader/loader.py:319-324 | the items a container queues are smaller in total than the container, so the `while stack` loop ends |
| `Dumping.Enqueue` | loader/loader.py:319-324 | the two `stack.append` loops put exactly the container's children, in order, after what is already queued |
| `Dumping.DrainPermutesFlatten` | loader/loader.py:317-326 | the breadth-first dump emits exactly the lines of a depth-first walk, each leaf once; only the order differs |
| `Dumping.LevelOrder` | loader/loader.py:317-326 | the queue is FIFO: the scalars already queued are emitted, in order, before any child of the queued containers |
| `Dumping.BreadthFirst` | loader/loader.py:317-326 | the dump is the top-level scalars in order, followed by the dump of all their children |
| `Dumping.BreadthNotDepth` | loader/loader.py:318 | a scalar after a nested dict is emitted before the dict's contents, the reverse of depth-first order |
| `Dumping.SplitJoin` | loader/loader.py:328 | lines without their own newline are recovered by splitting the joined text on `"\n"` |
| `Dumping.ExportWord` | loader/loader.py:308-311 | the lead word is `"export "` exactly when `export` is set |
| `Dumping.DumpEnvironment` | loader/loader.py:286-328 | the loop over the FIFO work list returns the lines of `Drain`, led by the export word and the prefix, joined by newlines |
| `Dumping.DumpLines` | loader/loader.py:326-328 | the output is one line per scalar leaf, `[export ]PREFIX + path='value'`, with no trailing newline; no leaves give the empty string |
| `Dumping.DumpSecrets` | loader/loader.py:542-572 | TOML, JSON, YAML and BespON go to their encoders; any other format gives `dump_environment(kwargs)` with prefix `DJANGO_ENV_` and `export` set |
| `Validation.FalsyValues` | loader/loader.py:460-493 | the falsy values are exactly `""`, `0`, `False`, `None`, `[]` and `{}` |
| `Validation.ValidateTruthy` | loader/loader.py:490-495 | returns `True` exactly for truthy values; otherwise raises, naming the setting and the value |
| `Validation.ValidateFalsy` | loader/loader.py:460-465 | returns `True` exactly for falsy values; otherwise raises, naming the setting and the value |
| `Validation.ValidateNotEmptyString` | loader/loader.py:432-435 | raises exactly on the empty string and returns `True` for everything else |
| `Validation.TruthyFalsyComplement` | loader/loader.py:460-495 | exactly one of `validate_truthy` and `validate_falsy` accepts any value |
| `Validation.NotEmptyWeakerThanTruthy` | loader/loader.py:432-495 | what `validate_not_empty_string` rejects, `validate_truthy` rejects too; the values only the latter rejects are `0`, `False`, `None`, `[]` and `{}` |
| `FileLoading.FirstSuccess` | loader/loader.py:142-171 | the chosen decoder accepted the file and every decoder tried before it failed; none is chosen only when all fail |
| `FileLoading.LoadFile` | loader/loader.py:136-178 | a missing file gives `{}` even when bad formats raise; the first accepting decoder's dict is returned; otherwise it raises or gives `{}` according to the flag |
| `FileLoading.ValidateFileFormat` | loader/loader.py:331-408 | returns `True` exactly for an existing file that some decoder accepts; otherwise raises "not found" or "not recognised" |
| `FileLoading.ValidateMatchesLoad` | loader/loader.py:331-408 | the validator accepts exactly the existing files that `load_file` loads when bad formats raise, and reports an unrecognised file the same way |
| `Loader.LoadSecrets` | loader/loader.py:48-76 | loads the file, then the environment, and merges them into a fresh dict of the keyword defaults |
| `Loader.SecretsWithDefaults` | loader/loader.py:76 | with keyword defaults the result has exactly their keys, with values taken from the environment first, then the file, then the default |

## Left out

- **Decoders and encoders.** The TOML, JSON, YAML and BespON libraries are not part of this model. What each decoder made of the file is an input (`Decoded`). A decoder that returns something other than a dict is not modelled: a JSON list, or the `None` YAML makes of a document holding only `---`, or the string it makes of a bare scalar such as `hello`. Exceptions other than each decoder's own decoding error are not modelled either. The encoders of `dump_secrets` are reduced to the marker `Encoded(fmt)`.
- **File system and process state.** `Path(fn).is_file()` is the input `isFile`. `os.environ.items()` is the ordered input sequence `environ`. The Python-version branch at lines 253-256 strips the prefix in both arms and is modelled once.
- **Output that is not part of the result.** `warnings.warn`, the `print` diagnostics of `validate_file_format`, and the text of the exception messages are not modelled. The errors keep only the segment or setting name and the value.
- **Other parts of the program.** `generate_secret_key`, `main` and the argument parser of `loader/config.py` are not part of this model.
- ListRecovery.ParseIndex: does not model the leniency of `int()`. Only plain decimal digit strings are accepted; leading zeros are allowed. Signs, surrounding whitespace, underscores between digits and non-ASCII decimal digits (`int("٣") == 3`), all of which `int()` also accepts, are not modelled. Keys built by the environment walk never contain them unless the variable name does.
- **Floats.** Floating-point values, and their truthiness in the validators, are not modelled.
- Environment.LoadEnvironment: does not model the aliasing of the walk. The walk keeps a `sub_config` cursor into nested dicts of `config`. It is modelled on values: `InsertPath` rebuilds the path it walks. The resulting dict is the same. Aliasing with other references to nested dicts is not captured, and there are none within the function.
- ListRecovery.ConvertListdictToList: does not model the update in place. The rewrite of `ds[k]` during iteration is modelled on a sequence copy that is reassigned at the same index.
- Dumping.DumpEnvironment: does not model non-string keys. Keys are strings. The `str(k)` of a non-string key is not modelled.
- **Dump/load round trip.** Reloading the lines of `dump_environment` into `load_environment` is not proved. The two directions are only related through the key path format (`Split`/`JoinSplit`) and the index keys `"0"`..`"n-1"` (`IndexKeysAreIndices`).
