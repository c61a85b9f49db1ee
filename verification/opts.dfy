/** The live option allow-list of lib/gitw/git_opts.rb: a GitOpts object collects the
    allowed option specs (GitAllowedOpt) in a table keyed by every alias, and renders each
    `add` request into a group of command-line tokens at the moment it is added. */
module Opts {
  import opened Wrappers

  /** A Ruby hash key used as an option label: a Symbol such as `:a` or a String such as
      `'-a'`. The two are distinct keys. */
  datatype Label = Sym(name: string) | Str(text: string)

  /** `label.to_s`. */
  function LabelText(l: Label): string {
    match l
    case Sym(n) => n
    case Str(t) => t
  }

  /** One allowed option: the name of its label symbol (`label.to_s.to_sym`), optional
      short and long forms, whether it takes an argument, and the `multiple` flag, which
      nothing reads. */
  datatype GitAllowedOpt = GitAllowedOpt(
    name: string,
    short: Option<string>,
    long: Option<string>,
    withArg: bool,
    multiple: bool)
  {
    /** The aliases the spec is indexed under: the label symbol, the label string, then
        the short and the long form when they are set. */
    function EachLabel(): (labels: seq<Label>)
      ensures |labels| == 2 + (if short.Some? then 1 else 0) + (if long.Some? then 1 else 0)
      ensures labels[..2] == [Sym(name), Str(name)]
      ensures short.Some? ==> labels[2] == Str(short.value)
      ensures long.Some? ==> labels[|labels| - 1] == Str(long.value)
      ensures forall l :: l in labels <==>
        l == Sym(name) || l == Str(name)
        || (short.Some? && l == Str(short.value)) || (long.Some? && l == Str(long.value))
    {
      [Sym(name), Str(name)]
      + (if short.Some? then [Str(short.value)] else [])
      + (if long.Some? then [Str(long.value)] else [])
    }

    /** The token group for one request: nothing when an argument is required and
        missing; otherwise the long form (or else the short form) followed by the argument
        when the spec takes one. The label the request used plays no part. */
    function BuildOpt(requested: Label, arg: Option<string>): (group: Option<seq<string>>)
      ensures group.None? <==> withArg && arg.None?
      ensures group.Some? ==>
        |group.value| == (if long.Some? || short.Some? then 1 else 0) + (if withArg then 1 else 0)
      ensures group.Some? && long.Some? ==> group.value[0] == long.value
      ensures group.Some? && long.None? && short.Some? ==> group.value[0] == short.value
      ensures group.Some? && withArg ==> group.value[|group.value| - 1] == arg.value
    {
      if withArg && arg.None? then None
      else
        var form := if long.Some? then [long.value] else if short.Some? then [short.value] else [];
        Some(form + (if withArg then [arg.value] else []))
    }
  }

  /** GitAllowedOpt.new: the label goes through `to_s.to_sym`. */
  function NewAllowedOpt(key: Label, short: Option<string>, long: Option<string>,
                         withArg: bool, multiple: bool): (spec: GitAllowedOpt)
    ensures spec.EachLabel()[..2] == [Sym(LabelText(key)), Str(LabelText(key))]
  {
    GitAllowedOpt(LabelText(key), short, long, withArg, multiple)
  }

  /** A request passed to `add`: a label and an optional argument. */
  datatype Request = Request(key: Label, arg: Option<string>)

  /** The allow table after `spec` is written under each of `labels` in turn. */
  function Reindexed(index: map<Label, GitAllowedOpt>, labels: seq<Label>, spec: GitAllowedOpt)
    : (r: map<Label, GitAllowedOpt>)
    ensures forall l {:trigger l in r} :: l in r <==> l in index || l in labels
    ensures forall l {:trigger r[l]} :: l in labels ==> r[l] == spec
    ensures forall l {:trigger r[l]} :: l in index && l !in labels ==> r[l] == index[l]
  {
    if labels == [] then index
    else Reindexed(index, labels[..|labels| - 1], spec)[labels[|labels| - 1] := spec]
  }

  /** The groups one `add` appends, given the allow table at that moment. */
  function Added(index: map<Label, GitAllowedOpt>, req: Request): (groups: seq<seq<string>>)
    ensures |groups| <= 1
    ensures groups != [] <==>
      req.key in index && index[req.key].BuildOpt(req.key, req.arg).Some?
    ensures groups != [] ==> groups[0] == index[req.key].BuildOpt(req.key, req.arg).value
  {
    if req.key in index then
      match index[req.key].BuildOpt(req.key, req.arg)
      case Some(group) => [group]
      case None => []
    else []
  }

  /** The groups a sequence of `add` calls appends against a fixed allow table. */
  function Render(index: map<Label, GitAllowedOpt>, reqs: seq<Request>): (groups: seq<seq<string>>)
    ensures |groups| <= |reqs|
  {
    if reqs == [] then []
    else Render(index, reqs[..|reqs| - 1]) + Added(index, reqs[|reqs| - 1])
  }

  /** The requests `from_a` makes: each label with no argument. */
  function ArrayRequests(labels: seq<Label>): (reqs: seq<Request>)
    ensures |reqs| == |labels|
    ensures forall i :: 0 <= i < |labels| ==> reqs[i] == Request(labels[i], None)
  {
    if labels == [] then []
    else ArrayRequests(labels[..|labels| - 1]) + [Request(labels[|labels| - 1], None)]
  }

  /** The flat token list the groups stand for on the command line. */
  function Flatten(groups: seq<seq<string>>): seq<string> {
    if groups == [] then [] else groups[0] + Flatten(groups[1..])
  }

  /** What `from` is handed: a Hash (its pairs, in order), an Array of labels, or anything
      else, `nil` included. */
  datatype Source = HashSource(pairs: seq<Request>) | ArraySource(labels: seq<Label>) | OtherSource

  /** The requests `from` was evidently meant to make for each kind of source. */
  function SourceRequests(source: Source): seq<Request> {
    match source
    case HashSource(pairs) => pairs
    case ArraySource(labels) => ArrayRequests(labels)
    case OtherSource => []
  }

  class GitOpts {
    var allowed: seq<GitAllowedOpt>
    var allowedIndex: map<Label, GitAllowedOpt>
    var opts: seq<seq<string>>

    constructor ()
      ensures allowed == [] && allowedIndex == map[] && opts == []
    {
      allowed := [];
      allowedIndex := map[];
      opts := [];
    }

    /** Registers a spec and writes it under each of its aliases, taking over any alias an
        earlier spec held; earlier specs stay in `allowed` and `opts` is untouched. */
    method Allow(key: Label, short: Option<string>, long: Option<string>, withArg: bool, multiple: bool)
      modifies this
      ensures allowed == old(allowed) + [NewAllowedOpt(key, short, long, withArg, multiple)]
      ensures allowedIndex == Reindexed(old(allowedIndex),
        NewAllowedOpt(key, short, long, withArg, multiple).EachLabel(),
        NewAllowedOpt(key, short, long, withArg, multiple))
      ensures opts == old(opts)
    {
      var spec := NewAllowedOpt(key, short, long, withArg, multiple);
      allowed := allowed + [spec];
      var labels := spec.EachLabel();
      for i := 0 to |labels|
        invariant allowedIndex == Reindexed(old(allowedIndex), labels[..i], spec)
        invariant allowed == old(allowed) + [spec] && opts == old(opts)
      {
        assert labels[..i + 1][..i] == labels[..i];
        allowedIndex := allowedIndex[labels[i] := spec];
      }
      assert labels[..|labels|] == labels;
    }

    /** Appends the group the request renders to, if its label is allowed right now and
        the spec accepts the argument; earlier groups are never touched. */
    method Add(key: Label, arg: Option<string>)
      modifies this`opts
      ensures opts == old(opts) + Added(allowedIndex, Request(key, arg))
    {
      if key in allowedIndex {
        var group := allowedIndex[key].BuildOpt(key, arg);
        if group.Some? {
          opts := opts + [group.value];
        }
      }
    }

    /** Adds each label of the array, without an argument, in order. */
    method FromA(labels: seq<Label>)
      modifies this`opts
      ensures opts == old(opts) + Render(allowedIndex, ArrayRequests(labels))
    {
      for i := 0 to |labels|
        invariant opts == old(opts) + Render(allowedIndex, ArrayRequests(labels[..i]))
      {
        assert labels[..i + 1][..i] == labels[..i];
        Add(labels[i], None);
      }
      assert labels[..|labels|] == labels;
    }

    /** Adds each key/value pair of the hash, in order. */
    method FromH(pairs: seq<Request>)
      modifies this`opts
      ensures opts == old(opts) + Render(allowedIndex, pairs)
    {
      for i := 0 to |pairs|
        invariant opts == old(opts) + Render(allowedIndex, pairs[..i])
      {
        assert pairs[..i + 1][..i] == pairs[..i];
        Add(pairs[i].key, pairs[i].arg);
      }
      assert pairs[..|pairs|] == pairs;
    }

    /** `from` as written: `case options.class` compares the class object itself against
        `Hash` and `Array`, which matches neither, so every source falls to the `else`
        branch and nothing is added. */
    method From(source: Source)
      ensures opts == old(opts)
    {
    }

    /** `from` as evidently intended: a Hash goes to `from_h`, an Array to `from_a`, and
        anything else is ignored. */
    method FromIntended(source: Source)
      modifies this`opts
      ensures opts == old(opts) + Render(allowedIndex, SourceRequests(source))
    {
      match source
      case HashSource(pairs) => FromH(pairs);
      case ArraySource(labels) => FromA(labels);
      case OtherSource =>
    }
  }

  /** Rendering is order-preserving: the groups of two request lists are the groups of
      the first followed by those of the second. */
  lemma {:induction false} RenderAppend(index: map<Label, GitAllowedOpt>, a: seq<Request>, b: seq<Request>)
    ensures Render(index, a + b) == Render(index, a) + Render(index, b)
    decreases |b|
  {
    if b == [] {
      assert a + b == a;
    } else {
      var n := |b| - 1;
      assert (a + b)[..|a + b| - 1] == a + b[..n];
      assert (a + b)[|a + b| - 1] == b[n];
      RenderAppend(index, a, b[..n]);
    }
  }

  /** A request whose label is not allowed contributes nothing and leaves the rendering
      of the other requests as it was. */
  lemma RenderDropsUnknown(index: map<Label, GitAllowedOpt>, a: seq<Request>, req: Request, b: seq<Request>)
    requires req.key !in index
    ensures Render(index, a + [req] + b) == Render(index, a + b)
  {
    assert (a + [req])[..|a|] == a;
    assert Render(index, a + [req]) == Render(index, a) + Added(index, req);
    assert Added(index, req) == [];
    RenderAppend(index, a + [req], b);
    RenderAppend(index, a, b);
  }

  /** Requests against an allow table that knows none of their labels render to nothing. */
  lemma {:induction false} RenderNoneAllowed(index: map<Label, GitAllowedOpt>, reqs: seq<Request>)
    requires forall i :: 0 <= i < |reqs| ==> reqs[i].key !in index
    ensures Render(index, reqs) == []
  {
    if reqs != [] {
      RenderNoneAllowed(index, reqs[..|reqs| - 1]);
    }
  }

  /** `n` copies of a request. */
  function Repeat<T>(x: T, n: nat): (r: seq<T>)
    ensures |r| == n && forall i :: 0 <= i < n ==> r[i] == x
  {
    if n == 0 then [] else Repeat(x, n - 1) + [x]
  }

  /** `multiple` restricts nothing: the same request added `n` times yields `n` copies
      of its group, whatever the spec's `multiple` flag says. */
  lemma {:induction false} RenderRepeated(index: map<Label, GitAllowedOpt>, req: Request, n: nat)
    requires req.key in index && index[req.key].BuildOpt(req.key, req.arg).Some?
    ensures Render(index, Repeat(req, n)) == Repeat(index[req.key].BuildOpt(req.key, req.arg).value, n)
  {
    if n > 0 {
      assert Repeat(req, n)[..n - 1] == Repeat(req, n - 1);
      RenderRepeated(index, req, n - 1);
    }
  }

  /** Flattening keeps the order of the groups. */
  lemma {:induction false} FlattenAppend(a: seq<seq<string>>, b: seq<seq<string>>)
    ensures Flatten(a + b) == Flatten(a) + Flatten(b)
  {
    if a == [] {
      assert a + b == b;
    } else {
      assert (a + b)[0] == a[0];
      assert (a + b)[1..] == a[1..] + b;
      FlattenAppend(a[1..], b);
    }
  }

  lemma FlattenSingleton(g: seq<string>)
    ensures Flatten([g]) == g
  {
    assert [g][1..] == [];
  }

  /** The `git_opts` allow table of lib/gitw/git_exe.rb: `-c`, `--git-dir`, `--work-tree`,
      `-C` and `-v/--version`. */
  method GlobalOpts() returns (o: GitOpts)
    ensures fresh(o) && o.opts == []
    ensures Sym("dir") in o.allowedIndex
    ensures o.allowedIndex[Sym("dir")] == GitAllowedOpt("dir", Some("-C"), None, true, false)
  {
    o := new GitOpts();
    o.Allow(Sym("c"), Some("-c"), None, true, true);
    o.Allow(Sym("git_dir"), None, Some("--git-dir"), true, false);
    o.Allow(Sym("work_tree"), None, Some("--work-tree"), true, false);
    o.Allow(Sym("dir"), Some("-C"), None, true, false);
    var dir := GitAllowedOpt("dir", Some("-C"), None, true, false);
    assert Sym("dir") in dir.EachLabel();
    assert o.allowedIndex[Sym("dir")] == dir;
    var version := GitAllowedOpt("version", Some("-v"), Some("--version"), false, false);
    assert Sym("dir") !in version.EachLabel();
    o.Allow(Sym("version"), Some("-v"), Some("--version"), false, false);
  }

  /** The discrepancy in `from`: for the global table, the intended `from` turns the hash
      `{dir: '/repo'}` into `-C /repo`, while `from` as written adds nothing. */
  method FromLosesOptions() returns (asWritten: seq<string>, intended: seq<string>)
    ensures asWritten == []
    ensures intended == ["-C", "/repo"]
  {
    var req := Request(Sym("dir"), Some("/repo"));
    var o := GlobalOpts();
    o.From(HashSource([req]));
    asWritten := Flatten(o.opts);
    var p := GlobalOpts();
    p.FromIntended(HashSource([req]));
    assert [req][..0] == [];
    var g := p.allowedIndex[Sym("dir")].BuildOpt(req.key, req.arg);
    assert g.Some? && |g.value| == 2 && g.value[0] == "-C" && g.value[1] == "/repo";
    assert g.value == ["-C", "/repo"];
    assert Render(p.allowedIndex, [req]) == Added(p.allowedIndex, req) == [["-C", "/repo"]];
    FlattenSingleton(g.value);
    intended := Flatten(p.opts);
  }

  /** The first two options of the filtering example. */
  method FilterTableAB() returns (o: GitOpts)
    ensures fresh(o) && o.opts == []
    ensures Sym("option_a") in o.allowedIndex && Sym("option_b") in o.allowedIndex
    ensures o.allowedIndex[Sym("option_a")] == GitAllowedOpt("option_a", Some("-a"), Some("--option-a"), false, false)
    ensures o.allowedIndex[Sym("option_b")] == GitAllowedOpt("option_b", Some("-b"), Some("--option-b"), false, false)
    ensures Sym("option_d") !in o.allowedIndex
  {
    o := new GitOpts();
    var a := GitAllowedOpt("option_a", Some("-a"), Some("--option-a"), false, false);
    var b := GitAllowedOpt("option_b", Some("-b"), Some("--option-b"), false, false);
    assert "option_d"[7] != "option_a"[7] && "option_d"[7] != "option_b"[7];
    assert "option_b"[7] != "option_a"[7];
    o.Allow(Sym("option_a"), Some("-a"), Some("--option-a"), false, false);
    assert Sym("option_a") in a.EachLabel() && Sym("option_d") !in a.EachLabel();
    o.Allow(Sym("option_b"), Some("-b"), Some("--option-b"), false, false);
    assert Sym("option_a") !in b.EachLabel() && Sym("option_d") !in b.EachLabel();
    assert Sym("option_b") in b.EachLabel();
  }

  /** The allow table of the filtering example: `option_a`, `option_b`, `option_c`, each
      with a short and a long form. */
  method FilterTable() returns (o: GitOpts)
    ensures fresh(o) && o.opts == []
    ensures Sym("option_a") in o.allowedIndex && Sym("option_b") in o.allowedIndex
    ensures o.allowedIndex[Sym("option_a")] == GitAllowedOpt("option_a", Some("-a"), Some("--option-a"), false, false)
    ensures o.allowedIndex[Sym("option_b")] == GitAllowedOpt("option_b", Some("-b"), Some("--option-b"), false, false)
    ensures Sym("option_d") !in o.allowedIndex
  {
    o := FilterTableAB();
    var c := GitAllowedOpt("option_c", Some("-c"), Some("--option-c"), false, false);
    assert "option_c"[7] != "option_a"[7] && "option_c"[7] != "option_b"[7];
    assert "option_d"[7] != "option_c"[7];
    assert Sym("option_a") !in c.EachLabel() && Sym("option_b") !in c.EachLabel();
    assert Sym("option_d") !in c.EachLabel();
    o.Allow(Sym("option_c"), Some("-c"), Some("--option-c"), false, false);
  }

  /** Adding filters against the allow table: an unknown label adds nothing. */
  method FilterExample() returns (tokens: seq<string>)
    ensures tokens == ["--option-a", "--option-b"]
  {
    var o := FilterTable();
    var ga := o.allowedIndex[Sym("option_a")].BuildOpt(Sym("option_a"), None);
    var gb := o.allowedIndex[Sym("option_b")].BuildOpt(Sym("option_b"), None);
    assert ga.Some? && |ga.value| == 1 && ga.value[0] == "--option-a";
    assert gb.Some? && |gb.value| == 1 && gb.value[0] == "--option-b";
    assert ga.value == ["--option-a"] && gb.value == ["--option-b"];
    assert Added(o.allowedIndex, Request(Sym("option_a"), None)) == [ga.value];
    assert Added(o.allowedIndex, Request(Sym("option_b"), None)) == [gb.value];
    assert Added(o.allowedIndex, Request(Sym("option_d"), None)) == [];
    o.Add(Sym("option_a"), None);
    assert o.opts == [ga.value];
    o.Add(Sym("option_b"), None);
    o.Add(Sym("option_d"), None);
    assert o.opts == [ga.value] + [gb.value];
    FlattenAppend([ga.value], [gb.value]);
    FlattenSingleton(ga.value);
    FlattenSingleton(gb.value);
    tokens := Flatten(o.opts);
  }

  /** The allow table of the repetition example: `-a`, `-b` with an argument, `-c`. */
  method RepeatTable() returns (o: GitOpts)
    ensures fresh(o) && o.opts == []
    ensures Sym("a") in o.allowedIndex && Sym("b") in o.allowedIndex
    ensures o.allowedIndex[Sym("a")] == GitAllowedOpt("a", Some("-a"), None, false, false)
    ensures o.allowedIndex[Sym("b")] == GitAllowedOpt("b", Some("-b"), None, true, false)
  {
    o := new GitOpts();
    var a := GitAllowedOpt("a", Some("-a"), None, false, false);
    var b := GitAllowedOpt("b", Some("-b"), None, true, false);
    var c := GitAllowedOpt("c", Some("-c"), None, false, false);
    o.Allow(Sym("a"), Some("-a"), None, false, false);
    assert Sym("a") in a.EachLabel();
    o.Allow(Sym("b"), Some("-b"), None, true, false);
    assert Sym("a") !in b.EachLabel() && Sym("b") in b.EachLabel();
    o.Allow(Sym("c"), Some("-c"), None, false, false);
    assert Sym("a") !in c.EachLabel() && Sym("b") !in c.EachLabel();
  }

  /** The same label added several times yields one group per call, in order. */
  method RepeatExample() returns (tokens: seq<string>)
    ensures tokens == ["-a", "-a", "-b", "123", "-b", "456"]
  {
    var o := RepeatTable();
    var ga := o.allowedIndex[Sym("a")].BuildOpt(Sym("a"), None);
    var gb1 := o.allowedIndex[Sym("b")].BuildOpt(Sym("b"), Some("123"));
    var gb2 := o.allowedIndex[Sym("b")].BuildOpt(Sym("b"), Some("456"));
    assert ga.Some? && |ga.value| == 1 && ga.value[0] == "-a";
    assert gb1.Some? && |gb1.value| == 2 && gb1.value[0] == "-b" && gb1.value[1] == "123";
    assert gb2.Some? && |gb2.value| == 2 && gb2.value[0] == "-b" && gb2.value[1] == "456";
    assert Added(o.allowedIndex, Request(Sym("a"), None)) == [ga.value];
    assert Added(o.allowedIndex, Request(Sym("b"), Some("123"))) == [gb1.value];
    assert Added(o.allowedIndex, Request(Sym("b"), Some("456"))) == [gb2.value];
    o.Add(Sym("a"), None);
    assert o.opts == [ga.value];
    o.Add(Sym("a"), None);
    o.Add(Sym("b"), Some("123"));
    o.Add(Sym("b"), Some("456"));
    assert o.opts == [ga.value] + [ga.value] + [gb1.value] + [gb2.value];
    FlattenAppend([ga.value] + [ga.value] + [gb1.value], [gb2.value]);
    FlattenAppend([ga.value] + [ga.value], [gb1.value]);
    FlattenAppend([ga.value], [ga.value]);
    FlattenSingleton(ga.value);
    FlattenSingleton(gb1.value);
    FlattenSingleton(gb2.value);
    tokens := Flatten(o.opts);
    assert tokens == ga.value + ga.value + gb1.value + gb2.value;
    assert ga.value == ["-a"] && gb1.value == ["-b", "123"] && gb2.value == ["-b", "456"];
  }

  /** Filtering happens when `add` is called: a label allowed only afterwards was already
      dropped. */
  method AddBeforeAllow() returns (groups: seq<seq<string>>)
    ensures groups == []
  {
    var o := new GitOpts();
    o.Add(Sym("a"), None);
    o.Allow(Sym("a"), Some("-a"), None, false, false);
    groups := o.opts;
  }
}
