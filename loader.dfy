/** `load_secrets(fn, prefix, **kwargs)`: the keyword defaults, the secrets
    file and the environment, merged. */
module Loader {
  import opened Config
  import opened FileLoading
  import opened Environment
  import opened Merging

  /** What `load_secrets` returns or raises: the file is loaded first, then
      the environment, and either may raise. */
  function Secrets(isFile: bool, d: Decoded, environ: seq<(string, string)>, prefix: string, kwargs: Entries): Result<Entries> {
    var file :- LoadFile(isFile, d, true);
    var env :- Loaded(environ, prefix);
    Ok(Merged(kwargs, file, env))
  }

  /** `load_secrets(fn, prefix, **kwargs)`; `kwargs` is a fresh dict, so the
      update `merge` makes in place is seen by no caller. */
  method LoadSecrets(isFile: bool, d: Decoded, environ: seq<(string, string)>, prefix: string, kwargs: Entries)
    returns (r: Result<Entries>)
    requires UniqueKeys(kwargs)
    ensures r == Secrets(isFile, d, environ, prefix, kwargs)
  {
    var file := LoadFile(isFile, d, true);
    if file.Err? {
      return Err(file.error);
    }
    var env := LoadEnvironment(environ, prefix);
    if env.Err? {
      return Err(env.error);
    }
    var defaults := new PyDict(kwargs);
    var config := Merge(defaults, file.value, env.value);
    r := Ok(config.entries);
  }

  /** The decoders return dicts. */
  predicate DictsDecoded(d: Decoded) {
    forall f :: d.Attempt(f).Some? ==> UniqueKeys(d.Attempt(f).value)
  }

  /** With defaults, `load_secrets` returns exactly the defaults' keys, each
      taking the environment's value over the file's over the default. */
  lemma SecretsWithDefaults(isFile: bool, d: Decoded, environ: seq<(string, string)>, prefix: string, kwargs: Entries, k: string)
    requires kwargs != []
    requires DictsDecoded(d)
    requires Secrets(isFile, d, environ, prefix, kwargs).Ok?
    ensures var file := LoadFile(isFile, d, true).value;
      var env := Loaded(environ, prefix).value;
      var config := Secrets(isFile, d, environ, prefix, kwargs).value;
      && Keys(config) == Keys(kwargs)
      && Lookup(config, k) ==
        if k !in Keys(kwargs) then None
        else if k in Keys(env) then Lookup(env, k)
        else if k in Keys(file) then Lookup(file, k)
        else Lookup(kwargs, k)
  {
    var file := LoadFile(isFile, d, true).value;
    var env := Loaded(environ, prefix).value;
    LoadedUniqueKeys(environ, prefix);
    assert UniqueKeys(file) by {
      if isFile && FirstSuccess(d).Some? {
        assert d.Attempt(FirstSuccess(d).value.0) == Some(file);
      }
    }
    MergeRestricted(kwargs, file, env, k);
  }
}
