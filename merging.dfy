/** `merge(defaults, file, env)`: the three configuration sources combined
    into the caller's `defaults` dict, which is updated in place and
    returned. */
module Merging {
  import opened Config

  /** A Python dict object: a mutable, insertion-ordered mapping that other
      names may alias. */
  class PyDict {
    var entries: Entries

    ghost predicate Valid()
      reads this
    {
      UniqueKeys(entries)
    }

    constructor (e: Entries)
      requires UniqueKeys(e)
      ensures Valid() && entries == e
    {
      entries := e;
    }

    /** `k in self`. */
    function Contains(k: string): (b: bool)
      reads this
      ensures b <==> Lookup(entries, k).Some?
    {
      k in Keys(entries)
    }

    /** `self[k] = v`. */
    method SetItem(k: string, v: CV)
      requires Valid()
      modifies this
      ensures Valid()
      ensures entries == Updated(old(entries), k, v)
    {
      UpdatedUnique(entries, k, v);
      entries := Updated(entries, k, v);
    }
  }

  /** The items of `src`, in order, written into `d`; with `restrict`, only
      those whose key `d` already holds. */
  function Overlay(d: Entries, src: Entries, restrict: bool): Entries
    decreases |src|
  {
    if src == [] then d
    else
      var k, v := src[0].0, src[0].1;
      var d' := if !restrict || k in Keys(d) then Updated(d, k, v) else d;
      Overlay(d', src[1..], restrict)
  }

  /** The dict `merge` leaves in `defaults`: non-empty defaults restrict
      both overlays to their own keys. */
  function Merged(defaults: Entries, file: Entries, env: Entries): Entries {
    var restrict := defaults != [];
    Overlay(Overlay(defaults, file, restrict), env, restrict)
  }

  lemma {:induction false} OverlayUnique(d: Entries, src: Entries, restrict: bool)
    requires UniqueKeys(d)
    ensures UniqueKeys(Overlay(d, src, restrict))
    decreases |src|
  {
    if src != [] {
      UpdatedUnique(d, src[0].0, src[0].1);
      var d' := if !restrict || src[0].0 in Keys(d) then Updated(d, src[0].0, src[0].1) else d;
      OverlayUnique(d', src[1..], restrict);
    }
  }

  /** One `for k, v in src.items()` loop of `merge`. */
  method OverlayInto(config: PyDict, src: Entries, restrict: bool)
    requires config.Valid()
    modifies config
    ensures config.Valid()
    ensures config.entries == Overlay(old(config.entries), src, restrict)
  {
    for i := 0 to |src|
      invariant config.Valid()
      invariant Overlay(config.entries, src[i..], restrict) == Overlay(old(config.entries), src, restrict)
    {
      assert src[i..][0] == src[i] && src[i..][1..] == src[i + 1..];
      var k, v := src[i].0, src[i].1;
      if !restrict || config.Contains(k) {
        config.SetItem(k, v);
      }
    }
  }

  /** `merge(defaults, file, env)`: `config` is `defaults` itself, so the
      caller's dict is the one updated and returned. */
  method Merge(defaults: PyDict, file: Entries, env: Entries) returns (config: PyDict)
    requires defaults.Valid()
    modifies defaults
    ensures config == defaults
    ensures config.Valid()
    ensures config.entries == Merged(old(defaults.entries), file, env)
  {
    config := defaults;
    var restrict := config.entries != [];
    OverlayInto(config, file, restrict);
    OverlayInto(config, env, restrict);
  }

  /** A restricted overlay changes values only: the keys and their order
      stay those of `d`. */
  lemma {:induction false} OverlayRestrictedKeys(d: Entries, src: Entries)
    ensures Keys(Overlay(d, src, true)) == Keys(d)
    decreases |src|
  {
    if src != [] {
      var d' := if src[0].0 in Keys(d) then Updated(d, src[0].0, src[0].1) else d;
      OverlayRestrictedKeys(d', src[1..]);
    }
  }

  /** The keys of `ks` not in `known`, in their order. */
  function NewKeys(known: seq<string>, ks: seq<string>): (r: seq<string>)
    ensures forall x :: x in r <==> x in ks && x !in known
  {
    if ks == [] then []
    else if ks[0] in known then NewKeys(known, ks[1..])
    else [ks[0]] + NewKeys(known, ks[1..])
  }

  lemma {:induction false} NewKeysIgnores(known: seq<string>, x: string, ks: seq<string>)
    requires x !in ks
    ensures NewKeys(known + [x], ks) == NewKeys(known, ks)
  {
    if ks != [] {
      NewKeysIgnores(known, x, ks[1..]);
    }
  }

  /** An unrestricted overlay keeps the keys of `d`, in their order, and
      appends the keys of `src` that `d` lacks, in `src`'s order. */
  lemma {:induction false} OverlayUnionKeys(d: Entries, src: Entries)
    requires UniqueKeys(src)
    ensures Keys(Overlay(d, src, false)) == Keys(d) + NewKeys(Keys(d), Keys(src))
    decreases |src|
  {
    if src != [] {
      var k := src[0].0;
      var d' := Updated(d, k, src[0].1);
      var ks := Keys(src);
      assert ks[0] == k && ks[1..] == Keys(src[1..]);
      assert Keys(Overlay(d, src, false)) == Keys(d') + NewKeys(Keys(d'), ks[1..]) by {
        UniqueKeysTail(src);
        OverlayUnionKeys(d', src[1..]);
      }
      if k !in Keys(d) {
        var rest := NewKeys(Keys(d), ks[1..]);
        assert NewKeys(Keys(d), ks) == [k] + rest;
        assert NewKeys(Keys(d'), ks[1..]) == rest by {
          UniqueKeysTail(src);
          NewKeysIgnores(Keys(d), k, ks[1..]);
        }
        assert Keys(d') == Keys(d) + [k];
        Associative(Keys(d), [k], rest);
      } else {
        assert Keys(d') == Keys(d);
        assert NewKeys(Keys(d), ks) == NewKeys(Keys(d), ks[1..]);
      }
    }
  }

  /** After an overlay a key holds the value `src` gives it, when `src` has
      it and may write it, and its old value otherwise. */
  lemma {:induction false} OverlayLookup(d: Entries, src: Entries, restrict: bool, k: string)
    requires UniqueKeys(src)
    ensures Lookup(Overlay(d, src, restrict), k) ==
      if k in Keys(src) && (!restrict || k in Keys(d)) then Lookup(src, k) else Lookup(d, k)
    decreases |src|
  {
    if src != [] {
      var h, v := src[0].0, src[0].1;
      var write := !restrict || h in Keys(d);
      var d' := if write then Updated(d, h, v) else d;
      assert Keys(src) == [h] + Keys(src[1..]);
      UniqueKeysTail(src);
      OverlayLookup(d', src[1..], restrict, k);
      if k == h {
        assert k !in Keys(src[1..]);
        assert Lookup(src, k) == Some(v);
      } else {
        assert Lookup(d', k) == Lookup(d, k);
        assert k in Keys(d') <==> k in Keys(d);
        assert Lookup(src, k) == Lookup(src[1..], k);
      }
    }
  }

  /** `merge` with non-empty defaults: the keys are exactly the defaults'
      keys, in their order, and each value comes from the environment if it
      has the key, else from the file if it has it, else from the defaults. */
  lemma MergeRestricted(defaults: Entries, file: Entries, env: Entries, k: string)
    requires defaults != []
    requires UniqueKeys(file) && UniqueKeys(env)
    ensures Keys(Merged(defaults, file, env)) == Keys(defaults)
    ensures Lookup(Merged(defaults, file, env), k) ==
      if k !in Keys(defaults) then None
      else if k in Keys(env) then Lookup(env, k)
      else if k in Keys(file) then Lookup(file, k)
      else Lookup(defaults, k)
  {
    var mid := Overlay(defaults, file, true);
    OverlayRestrictedKeys(defaults, file);
    OverlayRestrictedKeys(mid, env);
    OverlayLookup(defaults, file, true, k);
    OverlayLookup(mid, env, true, k);
  }

  lemma {:induction false} NewKeysOfNothing(ks: seq<string>)
    ensures NewKeys([], ks) == ks
  {
    if ks != [] {
      NewKeysOfNothing(ks[1..]);
    }
  }

  /** `merge` with empty defaults: the union of file and environment, the
      file's keys in its order followed by the environment's new keys in
      theirs, with the environment's value on a shared key. */
  lemma MergeUnion(file: Entries, env: Entries, k: string)
    requires UniqueKeys(file) && UniqueKeys(env)
    ensures Keys(Merged([], file, env)) == Keys(file) + NewKeys(Keys(file), Keys(env))
    ensures k in Keys(Merged([], file, env)) <==> k in Keys(file) || k in Keys(env)
    ensures Lookup(Merged([], file, env), k) ==
      if k in Keys(env) then Lookup(env, k) else Lookup(file, k)
  {
    var mid := Overlay([], file, false);
    OverlayUnionKeys([], file);
    NewKeysOfNothing(Keys(file));
    assert Keys(mid) == Keys(file);
    OverlayUnionKeys(mid, env);
    OverlayLookup([], file, false, k);
    OverlayLookup(mid, env, false, k);
  }
}
