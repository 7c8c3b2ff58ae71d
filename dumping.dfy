/** Writing a configuration back out as shell assignments: `dump_environment`
    and the format dispatch of `dump_secrets`. */
module Dumping {
  import opened Config

  /** Python's `str` of a scalar. */
  function ScalarString(v: CV): string
    requires v.IsScalar()
  {
    match v
    case Str(s) => s
    case Int(n) => IntString(n)
    case Bool(b) => if b then "True" else "False"
    case Null => "None"
  }

  /** The line one scalar leaf produces, before the export word and the
      prefix are put in front. */
  function Line(path: string, v: CV): string
    requires v.IsScalar()
  {
    path + "='" + ScalarString(v) + "'"
  }

  /** The work items a container puts on the queue: list elements under
      `path__0`, `path__1`, ..., dict items under `path__key`, in order. */
  function Children(path: string, v: CV): (r: Entries)
    requires !v.IsScalar()
    ensures |r| == if v.List? then |v.items| else |v.entries|
  {
    match v
    case List(xs) => seq(|xs|, i requires 0 <= i < |xs| => (path + "__" + DecimalString(i), xs[i]))
    case Dict(e) => seq(|e|, i requires 0 <= i < |e| => (path + "__" + e[i].0, e[i].1))
  }

  lemma ChildrenSize(path: string, v: CV)
    requires !v.IsScalar()
    ensures EntriesSize(Children(path, v)) + 1 == Size(v)
  {
    var r := Children(path, v);
    if v.List? {
      assert seq(|r|, i requires 0 <= i < |r| => Size(r[i].1)) == seq(|v.items|, i requires 0 <= i < |v.items| => Size(v.items[i]));
    } else {
      assert seq(|r|, i requires 0 <= i < |r| => Size(r[i].1)) == seq(|v.entries|, i requires 0 <= i < |v.entries| => Size(v.entries[i].1));
    }
  }

  /** What popping `item` adds to `dumps`: a line for a scalar, nothing
      for a container. */
  function Emitted(item: (string, CV)): seq<string> {
    if item.1.IsScalar() then [Line(item.0, item.1)] else []
  }

  /** What popping `item` puts on the queue: a container's children,
      nothing for a scalar. */
  function Queued(item: (string, CV)): Entries {
    if item.1.IsScalar() then [] else Children(item.0, item.1)
  }

  /** The work list after one turn of the `while stack` loop: the head is
      popped and a container's children go to the back. */
  function Requeued(queue: Entries): Entries
    requires queue != []
  {
    queue[1..] + Queued(queue[0])
  }

  /** Each turn shrinks the total size of the work list. */
  lemma RequeuedSize(queue: Entries)
    requires queue != []
    ensures EntriesSize(Requeued(queue)) < EntriesSize(queue)
  {
    EntriesSizeCons(queue);
    EntriesSizeAppend(queue[1..], Queued(queue[0]));
    if !queue[0].1.IsScalar() {
      ChildrenSize(queue[0].0, queue[0].1);
    }
  }

  /** The lines the `while stack` loop appends to `dumps`, starting from the
      work list `queue`. */
  function Drain(queue: Entries): seq<string>
    decreases EntriesSize(queue)
  {
    if queue == [] then []
    else
      RequeuedSize(queue);
      Emitted(queue[0]) + Drain(Requeued(queue))
  }

  /** The same lines in depth-first order: each item's whole subtree before
      the next item. */
  function Flatten(items: Entries): seq<string>
    decreases EntriesSize(items), 1
  {
    if items == [] then []
    else
      EntriesSizeCons(items);
      FlattenOne(items[0].0, items[0].1) + Flatten(items[1..])
  }

  function FlattenOne(path: string, v: CV): seq<string>
    decreases Size(v), 0
  {
    if v.IsScalar() then [Line(path, v)]
    else
      ChildrenSize(path, v);
      Flatten(Children(path, v))
  }

  lemma {:induction false} FlattenAppend(a: Entries, b: Entries)
    ensures Flatten(a + b) == Flatten(a) + Flatten(b)
    decreases |a|
  {
    if a == [] {
      assert a + b == b;
    } else {
      assert (a + b)[0] == a[0] && (a + b)[1..] == a[1..] + b;
      FlattenAppend(a[1..], b);
    }
  }

  /** The breadth-first dump emits exactly the leaves a depth-first walk
      finds, each once: only the order differs. */
  lemma {:induction false} DrainPermutesFlatten(queue: Entries)
    ensures multiset(Drain(queue)) == multiset(Flatten(queue))
    decreases EntriesSize(queue)
  {
    if queue != [] {
      var e, c, rest := Emitted(queue[0]), Queued(queue[0]), queue[1..];
      assert Drain(queue) == e + Drain(rest + c);
      RequeuedSize(queue);
      DrainPermutesFlatten(rest + c);
      FlattenAppend(rest, c);
      assert FlattenOne(queue[0].0, queue[0].1) == e + Flatten(c) by {
        if c == [] {
          assert Flatten(c) == [] && e + [] == e;
        }
      }
      assert Flatten(queue) == e + Flatten(c) + Flatten(rest);
    }
  }

  /** The lines of the scalars among `items`, in order. */
  function ScalarLines(items: Entries): seq<string> {
    if items == [] then [] else Emitted(items[0]) + ScalarLines(items[1..])
  }

  /** The children of the containers among `items`, in order. */
  function AllChildren(items: Entries): Entries {
    if items == [] then [] else Queued(items[0]) + AllChildren(items[1..])
  }

  lemma DrainUnfold(queue: Entries)
    requires queue != []
    ensures Drain(queue) == Emitted(queue[0]) + Drain(Requeued(queue))
  {
  }

  lemma RequeuedAppend(level: Entries, tail: Entries)
    requires level != []
    ensures (level + tail)[0] == level[0]
    ensures Requeued(level + tail) == level[1..] + (tail + Queued(level[0]))
  {
    assert (level + tail)[1..] == level[1..] + tail;
  }

  /** Draining a work list `level + tail` with `level` non-empty: the
      head's line, if any, comes first, and its children join the back. */
  lemma DrainHead(level: Entries, tail: Entries)
    requires level != []
    ensures Drain(level + tail) == Emitted(level[0]) + Drain(level[1..] + (tail + Queued(level[0])))
  {
    RequeuedAppend(level, tail);
    DrainUnfold(level + tail);
  }

  /** The queue is first in, first out: everything already queued is
      drained before any child of it, so the dump goes level by level. */
  lemma {:induction false} LevelOrder(level: Entries, tail: Entries)
    ensures Drain(level + tail) == ScalarLines(level) + Drain(tail + AllChildren(level))
    decreases |level|
  {
    if level == [] {
      assert level + tail == tail && tail + [] == tail;
    } else {
      var e, c, rest := Emitted(level[0]), Queued(level[0]), level[1..];
      LevelOrder(rest, tail + c);
      DrainHead(level, tail);
      assert (tail + c) + AllChildren(rest) == tail + AllChildren(level);
      Associative(e, ScalarLines(rest), Drain(tail + AllChildren(level)));
    }
  }

  lemma BreadthFirst(config: Entries)
    ensures Drain(config) == ScalarLines(config) + Drain(AllChildren(config))
  {
    assert config + [] == config;
    LevelOrder(config, []);
    assert [] + AllChildren(config) == AllChildren(config);
  }

  /** A scalar queued after a dict is dumped before the dict's contents,
      the reverse of the depth-first order. */
  lemma BreadthNotDepth(a: string, x: string, b: string, u: CV, w: CV)
    requires u.IsScalar() && w.IsScalar()
    ensures Drain([(a, Dict([(x, u)])), (b, w)]) == [Line(b, w), Line(a + "__" + x, u)]
    ensures Flatten([(a, Dict([(x, u)])), (b, w)]) == [Line(a + "__" + x, u), Line(b, w)]
  {
    var q := [(a, Dict([(x, u)])), (b, w)];
    var inner := (a + "__" + x, u);
    var ch := Children(a, Dict([(x, u)]));
    assert ch == [inner];
    var r := [(b, w), inner];
    assert Drain([inner]) == [Line(inner.0, u)] by {
      assert Requeued([inner]) == [];
    }
    assert Drain(r) == [Line(b, w)] + Drain([inner]) by {
      assert Requeued(r) == [inner];
    }
    assert Drain(q) == Drain(r) by {
      assert Requeued(q) == r;
    }
    assert Flatten(ch) == [Line(inner.0, u)] by {
      assert ch[1..] == [];
    }
    assert Flatten([(b, w)]) == [Line(b, w)] by {
      assert [(b, w)][1..] == [];
    }
    assert Flatten(q) == Flatten(ch) + Flatten([(b, w)]) by {
      assert q[1..] == [(b, w)];
    }
  }

  /** `"\n".join(lines)`. */
  function JoinLines(lines: seq<string>): string {
    if lines == [] then ""
    else if |lines| == 1 then lines[0]
    else lines[0] + "\n" + JoinLines(lines[1..])
  }

  /** `text.split("\n")`. */
  function SplitLines(text: string): (r: seq<string>)
    ensures |r| >= 1
  {
    if text == [] then [""]
    else if text[0] == '\n' then [""] + SplitLines(text[1..])
    else
      var rest := SplitLines(text[1..]);
      [[text[0]] + rest[0]] + rest[1..]
  }

  lemma {:induction false} SplitLinesAfter(a: string, t: string)
    requires '\n' !in a
    ensures SplitLines(a + "\n" + t) == [a] + SplitLines(t)
    ensures SplitLines(a) == [a]
  {
    if a == [] {
      assert a + "\n" + t == "\n" + t;
    } else {
      assert (a + "\n" + t)[1..] == a[1..] + "\n" + t;
      assert a[0] != '\n' && '\n' !in a[1..];
      SplitLinesAfter(a[1..], t);
      assert [a[0]] + a[1..] == a;
    }
  }

  /** Lines without a newline of their own are read back by splitting the
      joined text. */
  lemma {:induction false} SplitJoin(lines: seq<string>)
    requires lines != []
    requires forall i :: 0 <= i < |lines| ==> '\n' !in lines[i]
    ensures SplitLines(JoinLines(lines)) == lines
  {
    if |lines| == 1 {
      SplitLinesAfter(lines[0], "");
    } else {
      SplitJoin(lines[1..]);
      SplitLinesAfter(lines[0], JoinLines(lines[1..]));
      assert lines == [lines[0]] + lines[1..];
    }
  }

  /** `"export "` when `export`, nothing otherwise. */
  function ExportWord(exported: bool): (exp: string)
    ensures exp == "export " <==> exported
  {
    if exported then "export " else ""
  }

  /** Each line with the export word and the prefix in front. */
  function Prefixed(lead: string, lines: seq<string>): (r: seq<string>)
    ensures |r| == |lines|
    ensures forall i :: 0 <= i < |r| ==> r[i] == lead + lines[i]
  {
    seq(|lines|, i requires 0 <= i < |lines| => lead + lines[i])
  }

  /** What `dump_environment(config, prefix, export)` returns. */
  function EnvironmentText(config: Entries, prefix: string, exported: bool): string {
    JoinLines(Prefixed(ExportWord(exported) + prefix, Drain(config)))
  }

  /** The two `stack.append` loops of `dump_environment`: a list's
      elements under their indices, a dict's items under their keys. */
  method Enqueue(stack: Entries, k: string, v: CV) returns (queued: Entries)
    requires !v.IsScalar()
    ensures queued == stack + Children(k, v)
  {
    queued := stack;
    if v.List? {
      for i := 0 to |v.items|
        invariant queued == stack + Children(k, v)[..i]
      {
        queued := queued + [(k + "__" + DecimalString(i), v.items[i])];
      }
      assert Children(k, v)[..|v.items|] == Children(k, v);
    } else {
      for i := 0 to |v.entries|
        invariant queued == stack + Children(k, v)[..i]
      {
        queued := queued + [(k + "__" + v.entries[i].0, v.entries[i].1)];
      }
      assert Children(k, v)[..|v.entries|] == Children(k, v);
    }
  }

  /** One turn of the `while stack` loop keeps `dumps + Drain(stack)`. */
  lemma DrainTurn(earlier: seq<string>, before: Entries, dumps: seq<string>, stack: Entries)
    requires before != []
    requires stack == Requeued(before)
    requires dumps == earlier + Emitted(before[0])
    ensures dumps + Drain(stack) == earlier + Drain(before)
  {
    DrainUnfold(before);
    Associative(earlier, Emitted(before[0]), Drain(stack));
  }

  /** `dump_environment(config, prefix, export)`. */
  method DumpEnvironment(config: Entries, prefix: string, exported: bool) returns (out: string)
    ensures out == EnvironmentText(config, prefix, exported)
  {
    var stack: Entries := [];
    var dumps: seq<string> := [];
    var exp := if exported then "export " else "";
    for i := 0 to |config|
      invariant stack == config[..i]
    {
      stack := stack + [config[i]];
    }
    assert config[..|config|] == config;
    while stack != []
      invariant dumps + Drain(stack) == Drain(config)
      decreases EntriesSize(stack)
    {
      var k, v := stack[0].0, stack[0].1;
      ghost var before := stack;
      ghost var earlier := dumps;
      RequeuedSize(before);
      stack := stack[1..];
      if !v.IsScalar() {
        stack := Enqueue(stack, k, v);
      } else {
        dumps := dumps + [Line(k, v)];
      }
      assert stack == Requeued(before);
      assert dumps == earlier + Emitted(before[0]);
      DrainTurn(earlier, before, dumps, stack);
    }
    assert dumps == Drain(config) by {
      assert dumps + [] == dumps;
    }
    assert exp == ExportWord(exported);
    out := JoinLines(Prefixed(exp + prefix, dumps));
  }

  /** No newline in a key or in a string leaf. */
  predicate OneLine(v: CV) {
    match v
    case Str(s) => '\n' !in s
    case List(xs) => forall i :: 0 <= i < |xs| ==> OneLine(xs[i])
    case Dict(e) => forall i :: 0 <= i < |e| ==> '\n' !in e[i].0 && OneLine(e[i].1)
    case _ => true
  }

  lemma {:induction false} DecimalStringOneLine(n: nat)
    ensures '\n' !in DecimalString(n)
  {
  }

  lemma {:induction false} DrainOneLine(queue: Entries)
    requires forall i :: 0 <= i < |queue| ==> '\n' !in queue[i].0 && OneLine(queue[i].1)
    ensures forall i :: 0 <= i < |Drain(queue)| ==> '\n' !in Drain(queue)[i]
    decreases EntriesSize(queue)
  {
    if queue != [] {
      var k, v := queue[0].0, queue[0].1;
      var next := Requeued(queue);
      if v.IsScalar() {
        if v.Int? {
          DecimalStringOneLine(if v.n < 0 then -v.n else v.n);
        }
        assert '\n' !in Line(k, v);
      } else {
        var ch := Children(k, v);
        forall i | 0 <= i < |ch| ensures '\n' !in ch[i].0 && OneLine(ch[i].1) {
          if v.List? {
            DecimalStringOneLine(i);
          }
        }
        assert next == queue[1..] + ch;
      }
      RequeuedSize(queue);
      DrainOneLine(next);
    }
  }

  lemma ExportWordOneLine(exported: bool)
    ensures '\n' !in ExportWord(exported)
  {
    if exported {
      assert forall c | c in "export " :: c != '\n';
    }
  }

  lemma PrefixedOneLine(lead: string, lines: seq<string>)
    requires '\n' !in lead
    requires forall i :: 0 <= i < |lines| ==> '\n' !in lines[i]
    ensures forall i :: 0 <= i < |lines| ==> '\n' !in Prefixed(lead, lines)[i]
  {
  }

  /** The dump has one line per scalar leaf, each the export word and the
      prefix followed by `path='value'`, separated by newlines and with
      nothing after the last; a configuration without leaves dumps as the
      empty string. */
  lemma DumpLines(config: Entries, prefix: string, exported: bool)
    requires '\n' !in prefix
    requires forall i :: 0 <= i < |config| ==> '\n' !in config[i].0 && OneLine(config[i].1)
    ensures Drain(config) == [] ==> EnvironmentText(config, prefix, exported) == ""
    ensures Drain(config) != [] ==>
      SplitLines(EnvironmentText(config, prefix, exported)) == Prefixed(ExportWord(exported) + prefix, Drain(config))
  {
    var lead := ExportWord(exported) + prefix;
    var lines := Prefixed(lead, Drain(config));
    if lines != [] {
      ExportWordOneLine(exported);
      DrainOneLine(config);
      PrefixedOneLine(lead, Drain(config));
      SplitJoin(lines);
    }
  }

  /** What `dump_secrets(fmt, **kwargs)` does: the four named formats go to
      their encoders, anything else to the environment dump. */
  datatype Dumped = Encoded(format: string) | EnvText(text: string)

  /** The formats `dump_secrets` hands to an encoder library. */
  predicate IsEncoderFormat(fmt: string) {
    fmt == "TOML" || fmt == "JSON" || fmt == "YAML" || fmt == "BespON"
  }

  /** `dump_secrets(fmt, **kwargs)`. */
  method DumpSecrets(fmt: string, kwargs: Entries) returns (r: Dumped)
    ensures r.Encoded? <==> IsEncoderFormat(fmt)
    ensures r.Encoded? ==> r.format == fmt
    ensures r.EnvText? ==> r.text == EnvironmentText(kwargs, "DJANGO_ENV_", true)
  {
    if IsEncoderFormat(fmt) {
      r := Encoded(fmt);
    } else {
      var text := DumpEnvironment(kwargs, "DJANGO_ENV_", true);
      r := EnvText(text);
    }
  }
}
