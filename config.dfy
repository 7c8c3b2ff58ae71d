/** Configuration values and the insertion-ordered string-keyed dictionaries
    that hold them, as the loader sees them after a file or the environment
    has been decoded. */
module Config {

  /** A configuration value: the scalars a decoder can produce, lists, and
      dictionaries. A dictionary is an association list whose order is the
      insertion order of a Python dict; `UniqueKeys` is its invariant. */
  datatype CV =
    | Str(s: string)
    | Int(n: int)
    | Bool(b: bool)
    | Null
    | List(items: seq<CV>)
    | Dict(entries: seq<(string, CV)>)
  {
    predicate IsScalar() {
      !List? && !Dict?
    }
  }

  type Entries = seq<(string, CV)>

  /** The exceptions the core raises. */
  datatype Error =
    | EnvironmentCollision(segment: string)  // ImproperlyConfigured: "<segment> is defined multiple times"
    | EmptyKeyList                           // ValueError: min() of an empty sequence
    | FileNotFound                           // ImproperlyConfigured: the secrets file does not exist
    | UnrecognizedFormat                     // ImproperlyConfigured: no decoder accepted the file
    | FalsyValue(name: string, value: CV)    // ImproperlyConfigured from validate_truthy
    | TruthyValue(name: string, value: CV)   // ImproperlyConfigured from validate_falsy
    | EmptyString(name: string)              // ImproperlyConfigured from validate_not_empty_string

  datatype Option<+T> = None | Some(value: T)

  /** A computation that either returns a value or raises one of the errors. */
  datatype Result<+T> = Ok(value: T) | Err(error: Error)
  {
    predicate IsFailure() {
      Err?
    }

    function PropagateFailure<U>(): Result<U>
      requires Err?
    {
      Err(error)
    }

    function Extract(): T
      requires Ok?
    {
      value
    }
  }

  /** The keys of a dictionary, in insertion order. */
  function Keys(d: Entries): (ks: seq<string>)
    ensures |ks| == |d|
    ensures forall i :: 0 <= i < |d| ==> ks[i] == d[i].0
  {
    seq(|d|, i requires 0 <= i < |d| => d[i].0)
  }

  predicate Distinct<T(==)>(s: seq<T>) {
    forall i, j :: 0 <= i < j < |s| ==> s[i] != s[j]
  }

  /** A Python dict never holds a key twice. */
  predicate UniqueKeys(d: Entries) {
    Distinct(Keys(d))
  }

  /** `d[k]` when `k in d`; the first binding of `k`, which is the only one
      when the keys are unique. */
  function Lookup(d: Entries, k: string): (r: Option<CV>)
    ensures r.Some? <==> k in Keys(d)
    ensures r.Some? ==> (k, r.value) in d
  {
    if d == [] then None
    else if d[0].0 == k then Some(d[0].1)
    else
      assert Keys(d) == [d[0].0] + Keys(d[1..]);
      Lookup(d[1..], k)
  }

  lemma {:induction false} LookupAt(d: Entries, i: nat)
    requires UniqueKeys(d)
    requires i < |d|
    ensures Lookup(d, d[i].0) == Some(d[i].1)
  {
    if i > 0 {
      assert d[0].0 != d[i].0 by { assert Keys(d)[0] != Keys(d)[i]; }
      assert Keys(d[1..]) == Keys(d)[1..];
      LookupAt(d[1..], i - 1);
    }
  }

  lemma UnconsKeys(d: Entries)
    requires d != []
    ensures Keys(d) == [d[0].0] + Keys(d[1..])
  {
    var ks, kt := Keys(d), Keys(d[1..]);
    assert forall i :: 1 <= i < |ks| ==> ks[i] == kt[i - 1];
  }

  lemma UnconsMembers(d: Entries)
    requires d != []
    ensures forall p :: p in d <==> p == d[0] || p in d[1..]
  {
    assert d == [d[0]] + d[1..];
  }

  lemma Associative<T>(a: seq<T>, b: seq<T>, c: seq<T>)
    ensures a + (b + c) == (a + b) + c
  {
  }

  lemma TakeOneMore<T>(s: seq<T>, i: nat)
    requires i < |s|
    ensures s[..i + 1] == s[..i] + [s[i]]
  {
  }

  lemma UpdateTake<T>(s: seq<T>, i: nat, x: T)
    requires i < |s|
    ensures s[i := x][..i + 1] == s[..i] + [x]
  {
    var t := s[i := x][..i + 1];
    assert forall j :: 0 <= j < i ==> t[j] == s[j];
  }

  /** A non-empty dict seen as its first item followed by the rest. */
  lemma Uncons(d: Entries)
    requires d != []
    ensures Keys(d) == [d[0].0] + Keys(d[1..])
    ensures forall j :: Lookup(d, j) == if j == d[0].0 then Some(d[0].1) else Lookup(d[1..], j)
    ensures forall p :: p in d <==> p == d[0] || p in d[1..]
  {
    UnconsKeys(d);
    UnconsMembers(d);
  }

  /** `d[k] = v`: an existing key keeps its position and takes the new value,
      a new key is appended at the end. */
  function Updated(d: Entries, k: string, v: CV): (r: Entries)
    ensures Keys(r) == if k in Keys(d) then Keys(d) else Keys(d) + [k]
    ensures forall j :: Lookup(r, j) == if j == k then Some(v) else Lookup(d, j)
    ensures forall p :: p in r ==> p in d || p == (k, v)
  {
    if d == [] then [(k, v)]
    else if d[0].0 == k then
      var r := [(k, v)] + d[1..];
      Uncons(d);
      Uncons(r);
      assert r[1..] == d[1..];
      r
    else
      var rest := Updated(d[1..], k, v);
      var r := [d[0]] + rest;
      Uncons(d);
      Uncons(r);
      assert r[0] == d[0] && r[1..] == rest;
      assert k !in Keys(d[1..]) ==> [d[0].0] + (Keys(d[1..]) + [k]) == Keys(d) + [k];
      r
  }

  /** `d[k]` for a key known to be present. */
  function Get(d: Entries, k: string): CV
    requires k in Keys(d)
  {
    Lookup(d, k).value
  }

  /** Python's `str` of a natural number: decimal digits, no leading zero. */
  function DecimalString(n: nat): (s: string)
    ensures |s| >= 1
    ensures forall i :: 0 <= i < |s| ==> '0' <= s[i] <= '9'
  {
    if n < 10 then [Digit(n)] else DecimalString(n / 10) + [Digit(n % 10)]
  }

  function Digit(n: nat): char
    requires n < 10
  {
    ('0' as int + n) as char
  }

  /** The number a string of decimal digits spells. */
  function DigitsValue(s: string): nat
    requires forall i :: 0 <= i < |s| ==> '0' <= s[i] <= '9'
  {
    if s == [] then 0
    else DigitsValue(s[..|s| - 1]) * 10 + (s[|s| - 1] as int - '0' as int)
  }

  /** Reading back the digits `str` writes gives the number. */
  lemma {:induction false} DecimalStringValue(n: nat)
    ensures DigitsValue(DecimalString(n)) == n
  {
    if n >= 10 {
      DecimalStringValue(n / 10);
      var s := DecimalString(n);
      assert s[..|s| - 1] == DecimalString(n / 10);
    }
  }

  /** Python's `str` of an integer. */
  function IntString(n: int): string {
    if n < 0 then "-" + DecimalString(-n) else DecimalString(n)
  }

  /** Sizes of values, used as termination measures. */
  function Sum(s: seq<nat>): nat {
    if s == [] then 0 else s[0] + Sum(s[1..])
  }

  function Size(v: CV): nat {
    match v
    case List(xs) => 1 + Sum(seq(|xs|, i requires 0 <= i < |xs| => Size(xs[i])))
    case Dict(e) => 1 + Sum(seq(|e|, i requires 0 <= i < |e| => Size(e[i].1)))
    case _ => 1
  }

  function EntriesSize(e: Entries): nat {
    Sum(seq(|e|, i requires 0 <= i < |e| => Size(e[i].1)))
  }

  lemma {:induction false} SumAppend(a: seq<nat>, b: seq<nat>)
    ensures Sum(a + b) == Sum(a) + Sum(b)
  {
    if a == [] {
      assert a + b == b;
    } else {
      assert (a + b)[1..] == a[1..] + b;
      SumAppend(a[1..], b);
    }
  }

  lemma EntriesSizeAppend(a: Entries, b: Entries)
    ensures EntriesSize(a + b) == EntriesSize(a) + EntriesSize(b)
  {
    var sa := seq(|a|, i requires 0 <= i < |a| => Size(a[i].1));
    var sb := seq(|b|, i requires 0 <= i < |b| => Size(b[i].1));
    assert seq(|a + b|, i requires 0 <= i < |a + b| => Size((a + b)[i].1)) == sa + sb;
    SumAppend(sa, sb);
  }

  lemma EntriesSizeCons(e: Entries)
    requires e != []
    ensures EntriesSize(e) == Size(e[0].1) + EntriesSize(e[1..])
  {
    var t := e[1..];
    assert seq(|e|, i requires 0 <= i < |e| => Size(e[i].1))
        == [Size(e[0].1)] + seq(|t|, i requires 0 <= i < |t| => Size(t[i].1));
  }

  lemma UpdatedUnique(d: Entries, k: string, v: CV)
    requires UniqueKeys(d)
    ensures UniqueKeys(Updated(d, k, v))
  {
  }

  /** Dropping the first item of a dict leaves a dict without its key. */
  lemma UniqueKeysTail(d: Entries)
    requires UniqueKeys(d) && d != []
    ensures UniqueKeys(d[1..]) && d[0].0 !in Keys(d[1..])
  {
    assert Keys(d[1..]) == Keys(d)[1..];
  }
}
