/** Recovering lists from dictionaries whose keys are list indices:
    `_keys_are_indices`, `_convert_dict_to_list` and
    `_convert_listdict_to_list`. */
module ListRecovery {
  import opened Config
  import opened Sorting

  /** `int(k)` for the keys the environment produces: a non-empty run of
      decimal digits (leading zeros allowed, as `int` allows them). */
  function ParseIndex(k: string): (r: Option<nat>)
    ensures r.Some? <==> k != [] && forall i :: 0 <= i < |k| ==> '0' <= k[i] <= '9'
  {
    if k != [] && forall i :: 0 <= i < |k| ==> '0' <= k[i] <= '9' then Some(DigitsValue(k)) else None
  }

  /** The integers of all keys, or `None` as soon as one key is not an integer. */
  function ParseAll(ks: seq<string>): (r: Option<seq<int>>)
    ensures r.Some? ==> |r.value| == |ks|
  {
    if forall i :: 0 <= i < |ks| ==> ParseIndex(ks[i]).Some? then
      Some(seq(|ks|, i requires 0 <= i < |ks| && ParseIndex(ks[i]).Some? => ParseIndex(ks[i]).value as int))
    else None
  }

  /** `list(range(0, n))`. */
  function Range(n: nat): (r: seq<int>)
    ensures |r| == n
    ensures forall i :: 0 <= i < n ==> r[i] == i
  {
    seq(n, i requires 0 <= i < n => i)
  }

  /** What `_keys_are_indices` returns or raises for a dict with these keys:
      `False` at the first key that is not an integer; then, on the sorted
      integers, `ValueError` from `min` of an empty list, `False` when the
      smallest is not 0, `False` when they are not `range(0, max + 1)`. The
      smallest and largest of a sorted list are its first and last. */
  function IndexVerdict(keys: seq<string>): Result<bool> {
    match ParseAll(keys)
    case None => Ok(false)
    case Some(ns) =>
      var sorted := Sort(ns, IntLe);
      if sorted == [] then Err(EmptyKeyList)
      else if sorted[0] != 0 then Ok(false)
      else if sorted[|sorted| - 1] < 0 || sorted != Range(sorted[|sorted| - 1] + 1) then Ok(false)
      else Ok(true)
  }

  lemma RangeSorted(n: nat)
    ensures Sorted(Range(n), IntLe)
  {
  }

  /** `_keys_are_indices` raises exactly on an empty dict, and answers `True`
      exactly when every key is an integer and the integers are
      0, 1, ..., n - 1 in some order. */
  lemma IndexVerdictMeaning(keys: seq<string>)
    ensures IndexVerdict(keys) == Err(EmptyKeyList) <==> keys == []
    ensures IndexVerdict(keys) == Ok(true) <==>
      keys != [] && ParseAll(keys).Some? && multiset(ParseAll(keys).value) == multiset(Range(|keys|))
  {
    IntLeTotalOrder();
    if ParseAll(keys).Some? {
      var ns := ParseAll(keys).value;
      var sorted := Sort(ns, IntLe);
      assert |sorted| == |ns| by { assert |multiset(sorted)| == |multiset(ns)|; }
      if keys != [] && multiset(ns) == multiset(Range(|keys|)) {
        RangeSorted(|keys|);
        SortIsUnique(ns, Range(|keys|), IntLe);
        assert sorted == Range(|keys|);
      }
      if IndexVerdict(keys) == Ok(true) {
        assert sorted == Range(sorted[|sorted| - 1] + 1);
      }
    }
  }

  /** One key that is not an integer makes the dict no list. */
  lemma NotAllIndices(d: Entries, i: nat)
    requires i < |d| && ParseIndex(d[i].0).None?
    ensures IndexVerdict(Keys(d)) == Ok(false)
  {
    assert ParseIndex(Keys(d)[i]).None?;
  }

  /** When every key is an integer, these are the integers of the keys. */
  lemma AllIndices(d: Entries, keys: seq<int>)
    requires |keys| == |d|
    requires forall j :: 0 <= j < |d| ==> ParseIndex(d[j].0).Some? && keys[j] == ParseIndex(d[j].0).value
    ensures ParseAll(Keys(d)) == Some(keys)
  {
    assert forall j :: 0 <= j < |d| ==> ParseIndex(Keys(d)[j]).Some?;
    assert ParseAll(Keys(d)).value == keys;
  }

  /** `_keys_are_indices(d)`: an accumulator loop over the keys, then the
      checks on the sorted list. */
  method KeysAreIndices(d: Entries) returns (r: Result<bool>)
    ensures r == IndexVerdict(Keys(d))
  {
    var keys: seq<int> := [];
    var i := 0;
    while i < |d|
      invariant 0 <= i <= |d|
      invariant |keys| == i
      invariant forall j :: 0 <= j < i ==> ParseIndex(d[j].0).Some? && keys[j] == ParseIndex(d[j].0).value
    {
      var n := ParseIndex(d[i].0);
      if n.None? {
        NotAllIndices(d, i);
        return Ok(false);
      }
      keys := keys + [n.value];
      i := i + 1;
    }
    AllIndices(d, keys);
    keys := Sort(keys, IntLe);
    if keys == [] {
      return Err(EmptyKeyList);
    }
    if keys[0] != 0 {
      return Ok(false);
    }
    var max := keys[|keys| - 1];
    if max < 0 || keys != Range(max + 1) {
      return Ok(false);
    }
    return Ok(true);
  }

  /** `sorted(d.keys())`. */
  function SortedKeys(d: Entries): (ks: seq<string>)
    ensures |ks| == |d|
    ensures forall i :: 0 <= i < |ks| ==> ks[i] in Keys(d)
  {
    var ks := Sort(Keys(d), StrLe);
    assert |ks| == |d| by { assert |multiset(ks)| == |multiset(Keys(d))|; }
    assert forall i :: 0 <= i < |ks| ==> ks[i] in Keys(d) by {
      forall i | 0 <= i < |ks| ensures ks[i] in Keys(d) {
        assert ks[i] in multiset(ks);
      }
    }
    ks
  }

  /** Any sorted arrangement of the keys is the one `sorted` returns. */
  lemma SortedKeysAre(d: Entries, ks: seq<string>)
    requires Sorted(ks, StrLe)
    requires multiset(ks) == multiset(Keys(d))
    ensures SortedKeys(d) == ks
  {
    StrLeTotalOrder();
    SortIsUnique(Keys(d), ks, StrLe);
  }

  /** What `_convert_dict_to_list` returns: the values, taken in the order of
      the keys sorted as strings. */
  function ListFromDict(d: Entries): (r: seq<CV>)
    ensures |r| == |d|
  {
    var ks := SortedKeys(d);
    seq(|ks|, i requires 0 <= i < |ks| => Get(d, ks[i]))
  }

  /** `_convert_dict_to_list(d)`. */
  method ConvertDictToList(d: Entries) returns (list: seq<CV>)
    ensures list == ListFromDict(d)
  {
    var keys := SortedKeys(d);
    list := [];
    for i := 0 to |keys|
      invariant list == ListFromDict(d)[..i]
    {
      TakeOneMore(ListFromDict(d), i);
      list := list + [Get(d, keys[i])];
    }
    assert ListFromDict(d)[..|keys|] == ListFromDict(d);
  }

  /** What `_convert_listdict_to_list` makes of one value of the dict it
      walks: a dict is converted inside first, then replaced by a list when
      its keys are indices; anything else, lists included, is left as it is. */
  function ConvertValue(v: CV): Result<CV>
    decreases Size(v), 0
  {
    match v
    case Dict(e) =>
      var converted :- ConvertEntries(e);
      var isList :- IndexVerdict(Keys(converted));
      if isList then Ok(List(ListFromDict(converted))) else Ok(Dict(converted))
    case _ => Ok(v)
  }

  /** What `_convert_listdict_to_list(ds)` returns or raises: the values in
      key order, each converted; the first error raised stops the walk. */
  function ConvertEntries(ds: Entries): (r: Result<Entries>)
    ensures r.Ok? ==> Keys(r.value) == Keys(ds)
    decreases EntriesSize(ds), 1
  {
    if ds == [] then Ok([])
    else
      EntriesSizeCons(ds);
      var v :- ConvertValue(ds[0].1);
      var rest :- ConvertEntries(ds[1..]);
      var r := [(ds[0].0, v)] + rest;
      UnconsKeys(ds);
      UnconsKeys(r);
      assert r[1..] == rest;
      Ok(r)
  }

  /** Converting a concatenation converts the first part, then the second. */
  lemma {:induction false} ConvertEntriesAppend(a: Entries, b: Entries)
    ensures ConvertEntries(a + b) ==
      match ConvertEntries(a)
      case Err(e) => Err(e)
      case Ok(x) =>
        match ConvertEntries(b)
        case Err(e) => Err(e)
        case Ok(y) => Ok(x + y)
  {
    if a == [] {
      assert a + b == b;
      if ConvertEntries(b).Ok? {
        assert [] + ConvertEntries(b).value == ConvertEntries(b).value;
      }
    } else {
      assert (a + b)[0] == a[0] && (a + b)[1..] == a[1..] + b;
      ConvertEntriesAppend(a[1..], b);
      if ConvertValue(a[0].1).Ok? && ConvertEntries(a[1..]).Ok? && ConvertEntries(b).Ok? {
        var v := ConvertValue(a[0].1).value;
        assert [(a[0].0, v)] + (ConvertEntries(a[1..]).value + ConvertEntries(b).value)
            == ([(a[0].0, v)] + ConvertEntries(a[1..]).value) + ConvertEntries(b).value;
      }
    }
  }

  lemma EntrySizeBound(ds: Entries, i: nat)
    requires i < |ds|
    ensures Size(ds[i].1) <= EntriesSize(ds)
  {
    assert ds == ds[..i] + ds[i..];
    EntriesSizeAppend(ds[..i], ds[i..]);
    EntriesSizeCons(ds[i..]);
  }

  lemma ConvertSingle(item: (string, CV), x: CV)
    requires ConvertValue(item.1) == Ok(x)
    ensures ConvertEntries([item]) == Ok([(item.0, x)])
  {
    var one := [item];
    assert one[0] == item && one[1..] == [];
    assert ConvertEntries(one[1..]) == Ok([]);
    assert [(item.0, x)] + [] == [(item.0, x)];
  }

  /** Converting one item more: the items so far, then this one. */
  lemma ConvertStep(ds: Entries, i: nat, x: CV)
    requires i < |ds|
    requires ConvertEntries(ds[..i]).Ok?
    requires ConvertValue(ds[i].1) == Ok(x)
    ensures ConvertEntries(ds[..i + 1]) == Ok(ConvertEntries(ds[..i]).value + [(ds[i].0, x)])
  {
    TakeOneMore(ds, i);
    ConvertSingle(ds[i], x);
    ConvertEntriesAppend(ds[..i], [ds[i]]);
  }

  lemma ConvertDictValue(e: Entries, sub: Entries, isList: bool)
    requires ConvertEntries(e) == Ok(sub)
    requires IndexVerdict(Keys(sub)) == Ok(isList)
    ensures ConvertValue(Dict(e)) == if isList then Ok(List(ListFromDict(sub))) else Ok(Dict(sub))
  {
  }

  /** An item whose conversion raises, after items that convert, makes the
      whole walk raise the same error. */
  lemma ConvertStopsAt(ds: Entries, i: nat)
    requires i < |ds|
    requires ConvertEntries(ds[..i]).Ok?
    requires ConvertValue(ds[i].1).Err?
    ensures ConvertEntries(ds) == Err(ConvertValue(ds[i].1).error)
  {
    assert ds == ds[..i] + ds[i..];
    ConvertEntriesAppend(ds[..i], ds[i..]);
    assert ds[i..][0] == ds[i];
  }

  /** `_convert_listdict_to_list(ds)`: walks the items in order and replaces
      each dict value in place, recursing into it first. */
  method ConvertListdictToList(ds: Entries) returns (r: Result<Entries>)
    ensures r == ConvertEntries(ds)
    decreases EntriesSize(ds), 0
  {
    var cur := ds;
    for i := 0 to |ds|
      invariant |cur| == |ds|
      invariant ConvertEntries(ds[..i]) == Ok(cur[..i])
    {
      var k, v := ds[i].0, ds[i].1;
      var x := v;
      if v.Dict? {
        EntrySizeBound(ds, i);
        var converted := ConvertDictItem(v.entries);
        if converted.Err? {
          ConvertStopsAt(ds, i);
          return Err(converted.error);
        }
        x := converted.value;
      }
      ConvertStep(ds, i, x);
      UpdateTake(cur, i, (k, x));
      cur := cur[i := (k, x)];
    }
    assert ds[..|ds|] == ds && cur[..|ds|] == cur;
    r := Ok(cur);
  }

  /** The body of the walk for a dict value: descend into it, then replace
      it by a list when its converted keys are indices. */
  method ConvertDictItem(e: Entries) returns (r: Result<CV>)
    ensures r == ConvertValue(Dict(e))
    decreases EntriesSize(e), 1
  {
    var sub := ConvertListdictToList(e);
    if sub.Err? {
      return Err(sub.error);
    }
    var isList := KeysAreIndices(sub.value);
    if isList.Err? {
      return Err(isList.error);
    }
    ConvertDictValue(e, sub.value, isList.value);
    if isList.value {
      var list := ConvertDictToList(sub.value);
      r := Ok(List(list));
    } else {
      r := Ok(Dict(sub.value));
    }
  }

  /** A second conversion changes nothing: what is left a dict after the
      first has keys that are not indices, and lists are not walked. */
  lemma {:induction false} ConvertValueIdempotent(v: CV)
    requires ConvertValue(v).Ok?
    ensures ConvertValue(ConvertValue(v).value) == ConvertValue(v)
    decreases Size(v), 0
  {
    if v.Dict? {
      ConvertEntriesIdempotent(v.entries);
    }
  }

  lemma {:induction false} ConvertEntriesIdempotent(ds: Entries)
    requires ConvertEntries(ds).Ok?
    ensures ConvertEntries(ConvertEntries(ds).value) == ConvertEntries(ds)
    decreases EntriesSize(ds), 1
  {
    if ds != [] {
      EntriesSizeCons(ds);
      ConvertValueIdempotent(ds[0].1);
      ConvertEntriesIdempotent(ds[1..]);
      var r := ConvertEntries(ds).value;
      assert r[0] == (ds[0].0, ConvertValue(ds[0].1).value);
      assert r[1..] == ConvertEntries(ds[1..]).value;
    }
  }

  /** Every dict inside the value has at least one key. */
  predicate NoEmptyDict(v: CV) {
    match v
    case List(xs) => forall i :: 0 <= i < |xs| ==> NoEmptyDict(xs[i])
    case Dict(e) => e != [] && forall i :: 0 <= i < |e| ==> NoEmptyDict(e[i].1)
    case _ => true
  }

  /** Without empty dicts the conversion cannot raise: `_keys_are_indices`
      raises only on an empty dict. */
  lemma {:induction false} ConvertValueSucceeds(v: CV)
    requires NoEmptyDict(v)
    ensures ConvertValue(v).Ok?
    decreases Size(v), 0
  {
    if v.Dict? {
      ConvertEntriesSucceeds(v.entries);
      IndexVerdictMeaning(Keys(ConvertEntries(v.entries).value));
    }
  }

  lemma {:induction false} ConvertEntriesSucceeds(ds: Entries)
    requires forall i :: 0 <= i < |ds| ==> NoEmptyDict(ds[i].1)
    ensures ConvertEntries(ds).Ok?
    decreases EntriesSize(ds), 1
  {
    if ds != [] {
      EntriesSizeCons(ds);
      ConvertValueSucceeds(ds[0].1);
      ConvertEntriesSucceeds(ds[1..]);
    }
  }

  /** Each value is replaced, at its own key and in its own place, by its own
      conversion, so anything but a dict stays exactly as it was; the walk
      succeeds exactly when every value converts. */
  lemma {:induction false} ConvertEntriesPointwise(ds: Entries)
    ensures ConvertEntries(ds).Ok? <==> forall i :: 0 <= i < |ds| ==> ConvertValue(ds[i].1).Ok?
    ensures ConvertEntries(ds).Ok? ==>
      |ConvertEntries(ds).value| == |ds| &&
      forall i :: 0 <= i < |ds| ==> ConvertEntries(ds).value[i] == (ds[i].0, ConvertValue(ds[i].1).value)
    ensures ConvertEntries(ds).Ok? ==>
      forall i :: 0 <= i < |ds| && !ds[i].1.Dict? ==> ConvertEntries(ds).value[i] == ds[i]
    decreases |ds|
  {
    if ds != [] {
      var tl := ds[1..];
      ConvertEntriesPointwise(tl);
      assert forall i :: 1 <= i < |ds| ==> ds[i] == tl[i - 1];
      if ConvertEntries(ds).Ok? {
        var r := ConvertEntries(ds).value;
        assert r[1..] == ConvertEntries(tl).value;
        forall i | 1 <= i < |ds| ensures r[i] == (ds[i].0, ConvertValue(ds[i].1).value) {
          assert r[i] == r[1..][i - 1];
        }
      }
    }
  }

  /** After a successful walk, every key looks up the conversion of what it
      looked up before. */
  lemma {:induction false} GetConverted(e: Entries, k: string)
    requires ConvertEntries(e).Ok?
    requires k in Keys(e)
    ensures ConvertValue(Get(e, k)).Ok?
    ensures k in Keys(ConvertEntries(e).value)
    ensures Get(ConvertEntries(e).value, k) == ConvertValue(Get(e, k)).value
    decreases |e|
  {
    var c := ConvertEntries(e).value;
    Uncons(e);
    Uncons(c);
    assert c[0].0 == e[0].0;
    if e[0].0 != k {
      assert c[1..] == ConvertEntries(e[1..]).value;
      GetConverted(e[1..], k);
    }
  }

  /** A dict is converted inside first. When its keys are indices it becomes
      a list with one element per key: element i is the conversion of the
      value at the i-th key in string order. Otherwise it stays a dict with
      the same keys in the same order, each bound to the conversion of its
      old value. */
  lemma ConvertDictOutcome(e: Entries)
    requires ConvertValue(Dict(e)).Ok?
    ensures ConvertEntries(e).Ok? && IndexVerdict(Keys(e)).Ok?
    ensures forall k :: k in Keys(e) ==> ConvertValue(Get(e, k)).Ok?
    ensures var r := ConvertValue(Dict(e)).value;
      IndexVerdict(Keys(e)) == Ok(true) ==>
        r.List? && |r.items| == |e| &&
        forall i :: 0 <= i < |e| ==> r.items[i] == ConvertValue(Get(e, SortedKeys(e)[i])).value
    ensures var r := ConvertValue(Dict(e)).value;
      IndexVerdict(Keys(e)) == Ok(false) ==>
        r.Dict? && Keys(r.entries) == Keys(e) &&
        forall k :: k in Keys(e) ==> Get(r.entries, k) == ConvertValue(Get(e, k)).value
  {
    ConvertedLookups(e);
    if IndexVerdict(Keys(e)) == Ok(true) {
      ConvertedList(e);
    }
  }

  /** `GetConverted` for every key at once. */
  lemma ConvertedLookups(e: Entries)
    requires ConvertEntries(e).Ok?
    ensures forall k :: k in Keys(e) ==>
      ConvertValue(Get(e, k)).Ok? && k in Keys(ConvertEntries(e).value) &&
      Get(ConvertEntries(e).value, k) == ConvertValue(Get(e, k)).value
  {
    forall k | k in Keys(e)
      ensures ConvertValue(Get(e, k)).Ok? && k in Keys(ConvertEntries(e).value)
      ensures Get(ConvertEntries(e).value, k) == ConvertValue(Get(e, k)).value
    {
      GetConverted(e, k);
    }
  }

  /** The list made of a converted dict holds, at i, the conversion of the
      value at the i-th key of the input in string order. */
  lemma ConvertedList(e: Entries)
    requires ConvertEntries(e).Ok?
    ensures forall k :: k in Keys(e) ==> ConvertValue(Get(e, k)).Ok?
    ensures var l := ListFromDict(ConvertEntries(e).value);
      |l| == |e| && forall i :: 0 <= i < |e| ==> l[i] == ConvertValue(Get(e, SortedKeys(e)[i])).value
  {
    var c := ConvertEntries(e).value;
    ConvertedLookups(e);
    assert SortedKeys(c) == SortedKeys(e);
  }

  /** Every leaf is a string. */
  predicate StrLeaves(v: CV) {
    match v
    case Str(_) => true
    case List(xs) => forall i :: 0 <= i < |xs| ==> StrLeaves(xs[i])
    case Dict(e) => forall i :: 0 <= i < |e| ==> StrLeaves(e[i].1)
    case _ => false
  }

  /** The conversion keeps every leaf a string. */
  lemma {:induction false} ConvertValueStrLeaves(v: CV)
    requires StrLeaves(v)
    requires ConvertValue(v).Ok?
    ensures StrLeaves(ConvertValue(v).value)
    decreases Size(v), 0
  {
    if v.Dict? {
      ConvertEntriesStrLeaves(v.entries);
      var c := ConvertEntries(v.entries).value;
      if IndexVerdict(Keys(c)) == Ok(true) {
        var ks := SortedKeys(c);
        var l := ListFromDict(c);
        forall i | 0 <= i < |l| ensures StrLeaves(l[i]) {
          assert (ks[i], Get(c, ks[i])) in c;
          var j :| 0 <= j < |c| && c[j] == (ks[i], Get(c, ks[i]));
          assert StrLeaves(c[j].1);
        }
      }
    }
  }

  lemma {:induction false} ConvertEntriesStrLeaves(ds: Entries)
    requires forall i :: 0 <= i < |ds| ==> StrLeaves(ds[i].1)
    requires ConvertEntries(ds).Ok?
    ensures forall i :: 0 <= i < |ds| ==> StrLeaves(ConvertEntries(ds).value[i].1)
    decreases EntriesSize(ds), 1
  {
    if ds != [] {
      EntriesSizeCons(ds);
      ConvertValueStrLeaves(ds[0].1);
      ConvertEntriesStrLeaves(ds[1..]);
      var r := ConvertEntries(ds).value;
      forall i | 0 <= i < |ds| ensures StrLeaves(r[i].1) {
        if i > 0 {
          assert r[i] == ConvertEntries(ds[1..]).value[i - 1];
        }
      }
    }
  }

  /** The keys `"0"`, ..., `"n-1"` that the environment writes for a list. */
  function IndexKeys(n: nat): (ks: seq<string>)
    ensures |ks| == n
  {
    seq(n, i requires 0 <= i < n => DecimalString(i))
  }

  /** The canonical index keys are recognised as indices. */
  lemma IndexKeysAreIndices(n: nat)
    requires n > 0
    ensures IndexVerdict(IndexKeys(n)) == Ok(true)
  {
    var ks := IndexKeys(n);
    forall i | 0 <= i < n ensures ParseIndex(ks[i]) == Some(i) {
      DecimalStringValue(i);
    }
    assert ParseAll(ks).value == Range(n);
    IndexVerdictMeaning(ks);
  }

  lemma SingleDigitsSorted(n: nat)
    requires n <= 10
    ensures Sorted(IndexKeys(n), StrLe)
  {
    forall i, j | 0 <= i < j < n ensures StrLe(IndexKeys(n)[i], IndexKeys(n)[j]) {
      assert IndexKeys(n)[i] == [Digit(i)] && IndexKeys(n)[j] == [Digit(j)];
    }
  }

  /** Up to ten elements, the string order of the index keys is the numeric
      order, so element i of the list is the value stored under `str(i)`. */
  lemma ListFromDictNumericOrder(d: Entries, n: nat)
    requires n <= 10
    requires multiset(Keys(d)) == multiset(IndexKeys(n))
    ensures |ListFromDict(d)| == n
    ensures forall i :: 0 <= i < n ==> DecimalString(i) in Keys(d) && ListFromDict(d)[i] == Get(d, DecimalString(i))
  {
    SingleDigitsSorted(n);
    SortedKeysAre(d, IndexKeys(n));
    assert |multiset(Keys(d))| == n;
    forall i | 0 <= i < n ensures DecimalString(i) in Keys(d) {
      assert DecimalString(i) == IndexKeys(n)[i];
    }
  }

  /** The eleven index keys in the order `sorted` puts them: `"10"` right
      after `"1"`. */
  function LexicalEleven(): (ks: seq<string>)
    ensures |ks| == 11
  {
    var ks := IndexKeys(11);
    ks[..2] + [ks[10]] + ks[2..10]
  }

  lemma IndexKeysEleven()
    ensures forall i :: 0 <= i < 10 ==> IndexKeys(11)[i] == [Digit(i)]
    ensures IndexKeys(11)[10] == "10"
  {
    assert DecimalString(10) == DecimalString(1) + [Digit(0)];
  }

  lemma LexicalElevenSorted()
    ensures Sorted(LexicalEleven(), StrLe)
  {
    IndexKeysEleven();
    var ks := LexicalEleven();
    forall i, j | 0 <= i < j < 11 ensures StrLe(ks[i], ks[j]) {
      if i == 1 && j == 2 {
        assert ks[i] == "1" && ks[j] == "10";
      } else {
        assert ks[i][0] < ks[j][0];
      }
    }
  }

  /** From eleven elements on, the string order is not the numeric order:
      `"10"` sorts before `"2"`, so the third element of the list is the
      value stored under `"10"`, not the one under `"2"`. */
  lemma ListFromDictElevenElements(d: Entries)
    requires multiset(Keys(d)) == multiset(IndexKeys(11))
    ensures DecimalString(10) in Keys(d) && ListFromDict(d)[2] == Get(d, DecimalString(10))
  {
    var ks := IndexKeys(11);
    assert ks == ks[..2] + ks[2..10] + [ks[10]];
    LexicalElevenSorted();
    SortedKeysAre(d, LexicalEleven());
    assert ks[10] in multiset(Keys(d));
  }
}
