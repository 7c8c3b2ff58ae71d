/** Rebuilding nested configuration from environment variables:
    `load_environment`, with the process environment passed in as the
    ordered sequence of (name, value) pairs `os.environ.items()` yields. */
module Environment {
  import opened Config
  import opened ListRecovery

  /** `key.startswith(prefix)`. */
  predicate StartsWith(key: string, prefix: string) {
    prefix <= key
  }

  /** `"__" in name`. */
  predicate HasSeparator(s: string) {
    |s| >= 2 && ((s[0] == '_' && s[1] == '_') || HasSeparator(s[1..]))
  }

  /** A character put in front of a name without `"__"` makes none unless
      it is `'_'` followed by another. */
  lemma NoSeparatorCons(c: char, t: string)
    requires !HasSeparator(t)
    requires t == [] || c != '_' || t[0] != '_'
    ensures !HasSeparator([c] + t)
  {
    assert ([c] + t)[1..] == t;
  }

  /** `name.split("__")`: cut at each `"__"`, scanning from the left. */
  function Split(s: string): (r: seq<string>)
    ensures |r| >= 1
    ensures |r| == 1 <==> !HasSeparator(s)
    ensures r[0] <= s
    ensures forall i :: 0 <= i < |r| ==> !HasSeparator(r[i])
  {
    if |s| < 2 then [s]
    else if s[0] == '_' && s[1] == '_' then [""] + Split(s[2..])
    else
      var rest := Split(s[1..]);
      NoSeparatorCons(s[0], rest[0]);
      var r := [[s[0]] + rest[0]] + rest[1..];
      assert forall i :: 1 <= i < |r| ==> r[i] == rest[i];
      r
  }

  /** `"__".join(segments)`. */
  function Join(segs: seq<string>): string
    requires |segs| >= 1
  {
    if |segs| == 1 then segs[0] else segs[0] + "__" + Join(segs[1..])
  }

  /** A character put in front of the first segment ends up in front of
      the joined name. */
  lemma JoinCons(c: char, segs: seq<string>)
    requires |segs| >= 1
    ensures Join([[c] + segs[0]] + segs[1..]) == [c] + Join(segs)
  {
    var t := [[c] + segs[0]] + segs[1..];
    if |segs| == 1 {
      assert t == [[c] + segs[0]];
    } else {
      var j := Join(segs[1..]);
      assert t[0] == [c] + segs[0] && t[1..] == segs[1..];
      assert Join(t) == ([c] + segs[0]) + "__" + j;
      Associative([c], segs[0] + "__", j);
      Associative([c], segs[0], "__");
    }
  }

  /** Joining the pieces of a split gives the name back. */
  lemma {:induction false} JoinSplit(s: string)
    ensures Join(Split(s)) == s
  {
    if |s| >= 2 {
      if s[0] == '_' && s[1] == '_' {
        JoinSplit(s[2..]);
        assert s == "__" + s[2..];
      } else {
        JoinSplit(s[1..]);
        JoinCons(s[0], Split(s[1..]));
        assert s == [s[0]] + s[1..];
      }
    }
  }

  /** The value found by walking `path` down nested dicts, if any. */
  function LookupPath(c: Entries, path: seq<string>): Option<CV>
    requires |path| >= 1
    decreases |path|
  {
    match Lookup(c, path[0])
    case None => None
    case Some(v) =>
      if |path| == 1 then Some(v)
      else if v.Dict? then LookupPath(v.entries, path[1..])
      else None
  }

  /** Some dict on the way holds something other than a dict at the end of
      `path`. */
  predicate NonDictAt(c: Entries, path: seq<string>)
    requires |path| >= 1
  {
    LookupPath(c, path).Some? && !LookupPath(c, path).value.Dict?
  }

  /** The walk of `sub_config` down `segs[:-1]`, creating dicts that are
      missing, and the assignment of `value` to the last segment. */
  function InsertPath(c: Entries, segs: seq<string>, value: string): (r: Result<Entries>)
    requires |segs| >= 1
    ensures r.Ok? ==> Keys(r.value) == if segs[0] in Keys(c) then Keys(c) else Keys(c) + [segs[0]]
    ensures r.Ok? ==> forall j :: j != segs[0] ==> Lookup(r.value, j) == Lookup(c, j)
    ensures r.Err? ==> r.error.EnvironmentCollision?
    decreases |segs|
  {
    if |segs| == 1 then Ok(Updated(c, segs[0], Str(value)))
    else
      match Lookup(c, segs[0])
      case None =>
        var sub :- InsertPath([], segs[1..], value);
        Ok(Updated(c, segs[0], Dict(sub)))
      case Some(v) =>
        if v.Dict? then
          var sub :- InsertPath(v.entries, segs[1..], value);
          Ok(Updated(c, segs[0], Dict(sub)))
        else Err(EnvironmentCollision(segs[0]))
  }

  lemma LookupPathShift(c: Entries, segs: seq<string>, j: nat)
    requires 2 <= j <= |segs|
    requires Lookup(c, segs[0]).Some? && Lookup(c, segs[0]).value.Dict?
    ensures LookupPath(c, segs[..j]) == LookupPath(Lookup(c, segs[0]).value.entries, segs[1..][..j - 1])
  {
    assert segs[..j][1..] == segs[1..][..j - 1];
  }

  /** After the walk, `value` sits at the end of the path. */
  lemma {:induction false} InsertPathPlaces(c: Entries, segs: seq<string>, value: string)
    requires |segs| >= 1
    requires InsertPath(c, segs, value).Ok?
    ensures LookupPath(InsertPath(c, segs, value).value, segs) == Some(Str(value))
    decreases |segs|
  {
    if |segs| > 1 {
      var e := if Lookup(c, segs[0]).None? then [] else Lookup(c, segs[0]).value.entries;
      InsertPathPlaces(e, segs[1..], value);
    }
  }

  /** The dict the walk enters below the first segment: the one bound
      there, or a fresh one. */
  function Below(c: Entries, seg: string): Entries {
    match Lookup(c, seg)
    case Some(v) => if v.Dict? then v.entries else []
    case None => []
  }

  /** One level of the walk: a path through the first segment looks up,
      before and after, what its rest looks up in the dict below. */
  lemma InsertPathStep(c: Entries, segs: seq<string>, value: string, path: seq<string>)
    requires |segs| >= 2 && |path| >= 2 && path[0] == segs[0]
    requires InsertPath(c, segs, value).Ok?
    ensures InsertPath(Below(c, segs[0]), segs[1..], value).Ok?
    ensures LookupPath(c, path) == LookupPath(Below(c, segs[0]), path[1..])
    ensures LookupPath(InsertPath(c, segs, value).value, path) ==
      LookupPath(InsertPath(Below(c, segs[0]), segs[1..], value).value, path[1..])
  {
  }

  /** A path whose first segment is not the walk's looks up the same value
      after the walk as before. */
  lemma InsertPathOtherHead(c: Entries, segs: seq<string>, value: string, path: seq<string>)
    requires |segs| >= 1 && |path| >= 1 && path[0] != segs[0]
    requires InsertPath(c, segs, value).Ok?
    ensures LookupPath(InsertPath(c, segs, value).value, path) == LookupPath(c, path)
  {
    assert Lookup(InsertPath(c, segs, value).value, path[0]) == Lookup(c, path[0]);
  }

  /** Two paths with the same first segment, neither a prefix of the other,
      continue past it, and their tails are again neither a prefix of the
      other. */
  lemma PartedTails(path: seq<string>, segs: seq<string>)
    requires |path| >= 1 && |segs| >= 1 && path[0] == segs[0]
    requires !(path <= segs) && !(segs <= path)
    ensures |path| >= 2 && |segs| >= 2
    ensures !(path[1..] <= segs[1..]) && !(segs[1..] <= path[1..])
  {
    assert path == [path[0]] + path[1..];
    assert segs == [segs[0]] + segs[1..];
  }

  /** The walk leaves alone every path that parts from `segs`, that is, one
      that is neither a prefix of `segs` nor continues it: such a path looks
      up the same value after the walk as before. */
  lemma {:induction false} InsertPathKeepsOthers(c: Entries, segs: seq<string>, value: string, path: seq<string>)
    requires |segs| >= 1 && |path| >= 1
    requires !(path <= segs) && !(segs <= path)
    requires InsertPath(c, segs, value).Ok?
    ensures LookupPath(InsertPath(c, segs, value).value, path) == LookupPath(c, path)
    decreases |segs|
  {
    if path[0] != segs[0] {
      InsertPathOtherHead(c, segs, value, path);
    } else {
      PartedTails(path, segs);
      InsertPathStep(c, segs, value, path);
      InsertPathKeepsOthers(Below(c, segs[0]), segs[1..], value, path[1..]);
    }
  }

  /** Below a dict, the collisions on a path are those on the rest of the
      path inside that dict. */
  lemma NonDictShift(c: Entries, segs: seq<string>)
    requires |segs| >= 2
    requires Lookup(c, segs[0]).Some? && Lookup(c, segs[0]).value.Dict?
    ensures !NonDictAt(c, segs[..1])
    ensures forall j :: 2 <= j < |segs| ==>
      NonDictAt(c, segs[..j]) == NonDictAt(Lookup(c, segs[0]).value.entries, segs[1..][..j - 1])
  {
    assert segs[..1] == [segs[0]];
    forall j | 2 <= j < |segs|
      ensures NonDictAt(c, segs[..j]) == NonDictAt(Lookup(c, segs[0]).value.entries, segs[1..][..j - 1])
    {
      LookupPathShift(c, segs, j);
    }
  }

  /** The walk raises exactly when a segment before the last is bound to
      something other than a dict, and names that segment. */
  lemma {:induction false} InsertPathCollision(c: Entries, segs: seq<string>, value: string)
    requires |segs| >= 1
    ensures InsertPath(c, segs, value).Err? <==> exists j :: 1 <= j < |segs| && NonDictAt(c, segs[..j])
    ensures InsertPath(c, segs, value).Err? ==>
      exists j :: 1 <= j < |segs| && NonDictAt(c, segs[..j]) &&
        InsertPath(c, segs, value).error == EnvironmentCollision(segs[j - 1])
    decreases |segs|
  {
    if |segs| > 1 {
      var r := InsertPath(c, segs, value);
      match Lookup(c, segs[0])
      case None =>
        InsertPathCollision([], segs[1..], value);
        forall j | 1 <= j < |segs| ensures !NonDictAt(c, segs[..j]) {
          assert segs[..j][0] == segs[0];
        }
      case Some(v) =>
        if v.Dict? {
          InsertPathCollision(v.entries, segs[1..], value);
          NonDictShift(c, segs);
          if r.Err? {
            var k :| 1 <= k < |segs| - 1 && NonDictAt(v.entries, segs[1..][..k]) &&
              r.error == EnvironmentCollision(segs[1..][k - 1]);
            assert NonDictAt(c, segs[..k + 1]);
          } else {
            forall j | 1 <= j < |segs| ensures !NonDictAt(c, segs[..j]) {
              if j >= 2 { assert !NonDictAt(v.entries, segs[1..][..j - 1]); }
            }
          }
        } else {
          assert segs[..1] == [segs[0]];
          assert NonDictAt(c, segs[..1]);
        }
    }
  }

  /** What one environment entry does to the configuration being built. */
  function Step(c: Entries, key: string, value: string, prefix: string): Result<Entries> {
    if !StartsWith(key, prefix) then Ok(c)
    else
      var name := key[|prefix|..];
      if !HasSeparator(name) then Ok(Updated(c, name, Str(value)))
      else InsertPath(c, Split(name), value)
  }

  /** The entries processed in order from configuration `c`; the first error
      stops the loop. */
  function ReconstructFrom(c: Entries, environ: seq<(string, string)>, prefix: string): (r: Result<Entries>)
    ensures r.Err? ==> r.error.EnvironmentCollision?
    decreases |environ|
  {
    if environ == [] then Ok(c)
    else
      var c' :- Step(c, environ[0].0, environ[0].1, prefix);
      ReconstructFrom(c', environ[1..], prefix)
  }

  /** What `load_environment(prefix)` returns or raises. */
  function Loaded(environ: seq<(string, string)>, prefix: string): Result<Entries> {
    var config :- ReconstructFrom([], environ, prefix);
    ConvertEntries(config)
  }

  /** Processing the entries from the `i`-th on: that entry's step, then
      the rest. */
  lemma ReconstructCons(c: Entries, environ: seq<(string, string)>, i: nat, prefix: string)
    requires i < |environ|
    ensures ReconstructFrom(c, environ[i..], prefix) ==
      match Step(c, environ[i].0, environ[i].1, prefix)
      case Err(e) => Err(e)
      case Ok(c') => ReconstructFrom(c', environ[i + 1..], prefix)
  {
    assert environ[i..][0] == environ[i] && environ[i..][1..] == environ[i + 1..];
  }

  /** `load_environment(prefix)`. */
  method LoadEnvironment(environ: seq<(string, string)>, prefix: string) returns (r: Result<Entries>)
    ensures r == Loaded(environ, prefix)
  {
    var config: Entries := [];
    var i := 0;
    while i < |environ|
      invariant 0 <= i <= |environ|
      invariant ReconstructFrom(config, environ[i..], prefix) == ReconstructFrom([], environ, prefix)
    {
      var key, value := environ[i].0, environ[i].1;
      ghost var before := config;
      ReconstructCons(before, environ, i, prefix);
      if StartsWith(key, prefix) {
        var name := key[|prefix|..];
        if !HasSeparator(name) {
          config := Updated(config, name, Str(value));
        } else {
          var keys := Split(name);
          var walked := InsertPath(config, keys, value);
          if walked.Err? {
            assert Step(before, key, value, prefix) == walked;
            return Err(walked.error);
          }
          config := walked.value;
        }
      }
      assert Step(before, key, value, prefix) == Ok(config);
      i := i + 1;
    }
    assert environ[|environ|..] == [];
    r := ConvertListdictToList(config);
  }

  /** Splitting a name that starts with a separator-free segment and a
      separator gives that segment first. */
  lemma {:induction false} SplitAfterSegment(a: string, t: string)
    requires !HasSeparator(a)
    requires a == [] || a[|a| - 1] != '_'
    ensures Split(a + "__" + t) == [a] + Split(t)
  {
    var s := a + "__" + t;
    if a == [] {
      assert s == "__" + t && s[2..] == t;
    } else {
      assert s[1..] == a[1..] + "__" + t;
      assert !HasSeparator(a[1..]);
      assert !(s[0] == '_' && s[1] == '_') by {
        if |a| == 1 { assert s[0] == a[0] != '_'; } else { assert s[1] == a[1]; }
      }
      SplitAfterSegment(a[1..], t);
      assert [a[0]] + a[1..] == a;
    }
  }

  lemma PrefixedName(prefix: string, name: string)
    ensures StartsWith(prefix + name, prefix) && (prefix + name)[|prefix|..] == name
  {
  }

  /** Two entries processed in order. */
  lemma ReconstructPair(c: Entries, e1: (string, string), e2: (string, string), prefix: string)
    ensures ReconstructFrom(c, [e1, e2], prefix) ==
      match Step(c, e1.0, e1.1, prefix)
      case Err(e) => Err(e)
      case Ok(c1) =>
        match Step(c1, e2.0, e2.1, prefix)
        case Err(e) => Err(e)
        case Ok(c2) => Ok(c2)
  {
    assert [e1, e2][1..] == [e2] && [e2][1..] == [];
    var s1 := Step(c, e1.0, e1.1, prefix);
    if s1.Ok? {
      var s2 := Step(s1.value, e2.0, e2.1, prefix);
      if s2.Ok? {
        assert ReconstructFrom(s2.value, [], prefix) == Ok(s2.value);
      }
      assert ReconstructFrom(s1.value, [e2], prefix) == if s2.Ok? then Ok(s2.value) else Err(s2.error);
    }
  }

  /** Collision detection depends on the order of the entries: a nested name
      after a flat one raises, naming the shared segment, while the flat name
      after the nested one silently replaces the dict built so far. */
  lemma CollisionDependsOnOrder(prefix: string, a: string, b: string, x: string, y: string)
    requires !HasSeparator(a) && (a == [] || a[|a| - 1] != '_')
    requires !HasSeparator(b)
    ensures ReconstructFrom([], [(prefix + a, x), (prefix + (a + "__" + b), y)], prefix)
         == Err(EnvironmentCollision(a))
    ensures ReconstructFrom([], [(prefix + (a + "__" + b), y), (prefix + a, x)], prefix)
         == Ok([(a, Str(x))])
  {
    var nested := a + "__" + b;
    SplitAfterSegment(a, b);
    JoinSplit(b);
    assert Split(nested) == [a, b];
    PrefixedName(prefix, a);
    PrefixedName(prefix, nested);
    var flat := [(a, Str(x))];
    var built := [(a, Dict([(b, Str(y))]))];
    assert Step([], prefix + a, x, prefix) == Ok(flat) by {
      assert Updated([], a, Str(x)) == flat;
    }
    assert Step(flat, prefix + nested, y, prefix) == Err(EnvironmentCollision(a)) by {
      assert Lookup(flat, a) == Some(Str(x));
    }
    assert Step([], prefix + nested, y, prefix) == Ok(built) by {
      assert InsertPath([], [a, b][1..], y) == Ok([(b, Str(y))]);
    }
    assert Step(built, prefix + a, x, prefix) == Ok(flat) by {
      assert Updated(built, a, Str(x)) == flat;
    }
    ReconstructPair([], (prefix + a, x), (prefix + nested, y), prefix);
    ReconstructPair([], (prefix + nested, y), (prefix + a, x), prefix);
  }

  /** The entries whose names start with the prefix. */
  function WithPrefix(environ: seq<(string, string)>, prefix: string): (r: seq<(string, string)>)
    ensures forall p :: p in r ==> p in environ && StartsWith(p.0, prefix)
  {
    if environ == [] then []
    else if StartsWith(environ[0].0, prefix) then [environ[0]] + WithPrefix(environ[1..], prefix)
    else WithPrefix(environ[1..], prefix)
  }

  /** Only names that start with the prefix contribute. */
  lemma {:induction false} OnlyPrefixedNamesCount(c: Entries, environ: seq<(string, string)>, prefix: string)
    ensures ReconstructFrom(c, environ, prefix) == ReconstructFrom(c, WithPrefix(environ, prefix), prefix)
    decreases |environ|
  {
    if environ != [] {
      var step := Step(c, environ[0].0, environ[0].1, prefix);
      if step.Ok? {
        OnlyPrefixedNamesCount(step.value, environ[1..], prefix);
      }
    }
  }

  /** What the walk builds: string leaves and dicts that hold at least one
      key, each key once. */
  predicate EnvValue(v: CV) {
    match v
    case Str(_) => true
    case Dict(e) => e != [] && UniqueKeys(e) && forall i :: 0 <= i < |e| ==> EnvValue(e[i].1)
    case _ => false
  }

  predicate EnvConfig(c: Entries) {
    UniqueKeys(c) && forall i :: 0 <= i < |c| ==> EnvValue(c[i].1)
  }

  lemma UpdatedEnvConfig(c: Entries, k: string, v: CV)
    requires EnvConfig(c) && EnvValue(v)
    ensures EnvConfig(Updated(c, k, v))
  {
    UpdatedUnique(c, k, v);
    var r := Updated(c, k, v);
    forall i | 0 <= i < |r| ensures EnvValue(r[i].1) {
      assert r[i] in r;
      if r[i] != (k, v) {
        var j :| 0 <= j < |c| && c[j] == r[i];
      }
    }
  }

  lemma {:induction false} InsertPathEnvConfig(c: Entries, segs: seq<string>, value: string)
    requires |segs| >= 1
    requires EnvConfig(c)
    requires InsertPath(c, segs, value).Ok?
    ensures EnvConfig(InsertPath(c, segs, value).value)
    decreases |segs|
  {
    if |segs| == 1 {
      UpdatedEnvConfig(c, segs[0], Str(value));
    } else {
      var e := if Lookup(c, segs[0]).None? then [] else Lookup(c, segs[0]).value.entries;
      if Lookup(c, segs[0]).Some? {
        var v := Lookup(c, segs[0]).value;
        assert (segs[0], v) in c;
        var j :| 0 <= j < |c| && c[j] == (segs[0], v);
        assert EnvValue(c[j].1);
      }
      InsertPathEnvConfig(e, segs[1..], value);
      var sub := InsertPath(e, segs[1..], value).value;
      assert Keys(sub) != [];
      UpdatedEnvConfig(c, segs[0], Dict(sub));
    }
  }

  lemma {:induction false} ReconstructEnvConfig(c: Entries, environ: seq<(string, string)>, prefix: string)
    requires EnvConfig(c)
    requires ReconstructFrom(c, environ, prefix).Ok?
    ensures EnvConfig(ReconstructFrom(c, environ, prefix).value)
    decreases |environ|
  {
    if environ != [] {
      var key, value := environ[0].0, environ[0].1;
      if StartsWith(key, prefix) {
        var name := key[|prefix|..];
        if !HasSeparator(name) {
          UpdatedEnvConfig(c, name, Str(value));
        } else {
          InsertPathEnvConfig(c, Split(name), value);
        }
      }
      ReconstructEnvConfig(Step(c, key, value, prefix).value, environ[1..], prefix);
    }
  }

  lemma {:induction false} EnvValueNoEmptyDict(v: CV)
    requires EnvValue(v)
    ensures NoEmptyDict(v)
  {
    if v.Dict? {
      forall i | 0 <= i < |v.entries| ensures NoEmptyDict(v.entries[i].1) {
        EnvValueNoEmptyDict(v.entries[i].1);
      }
    }
  }

  /** `load_environment` raises nothing but the collision error: the dicts it
      builds are never empty, so `_keys_are_indices` never sees an empty one. */
  lemma LoadedFailsOnlyOnCollision(environ: seq<(string, string)>, prefix: string)
    ensures Loaded(environ, prefix).Err? ==> Loaded(environ, prefix).error.EnvironmentCollision?
  {
    var built := ReconstructFrom([], environ, prefix);
    if built.Ok? {
      ReconstructEnvConfig([], environ, prefix);
      forall i | 0 <= i < |built.value| ensures NoEmptyDict(built.value[i].1) {
        EnvValueNoEmptyDict(built.value[i].1);
      }
      ConvertEntriesSucceeds(built.value);
    }
  }

  lemma {:induction false} EnvValueStrLeaves(v: CV)
    requires EnvValue(v)
    ensures StrLeaves(v)
  {
    if v.Dict? {
      forall i | 0 <= i < |v.entries| ensures StrLeaves(v.entries[i].1) {
        EnvValueStrLeaves(v.entries[i].1);
      }
    }
  }

  /** Every leaf `load_environment` returns is a string: the environment
      holds only strings. */
  lemma LoadedLeavesAreStrings(environ: seq<(string, string)>, prefix: string)
    requires Loaded(environ, prefix).Ok?
    ensures forall i :: 0 <= i < |Loaded(environ, prefix).value| ==>
      StrLeaves(Loaded(environ, prefix).value[i].1)
  {
    var built := ReconstructFrom([], environ, prefix).value;
    ReconstructEnvConfig([], environ, prefix);
    forall i | 0 <= i < |built| ensures StrLeaves(built[i].1) {
      EnvValueStrLeaves(built[i].1);
    }
    ConvertEntriesStrLeaves(built);
  }

  /** What `load_environment` returns is a dict: no key twice. */
  lemma LoadedUniqueKeys(environ: seq<(string, string)>, prefix: string)
    requires Loaded(environ, prefix).Ok?
    ensures UniqueKeys(Loaded(environ, prefix).value)
  {
    ReconstructEnvConfig([], environ, prefix);
  }
}
