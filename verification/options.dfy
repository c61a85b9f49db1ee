/** The older option DSL (lib/gitw/git_options.rb): a GitOptions object keeps a hash
    from option names and short names to GitOption values and renders keyword
    arguments into token groups. Ruby symbols and strings both reach the hash through
    `to_sym`, so keys are modelled as the symbol's name. */
module Options {
  import opened Wrappers
  import opened OptionFormat

  /** One keyword argument handed to `inline`: its key and its value. */
  datatype Arg = Arg(key: string, value: Option<string>)

  /** The table after `add(option)`: nothing for `nil`; otherwise the option is written
      under its name and then, when it has one, under its short name. */
  function Registered(table: map<string, GitOption>, option: Option<GitOption>): (r: map<string, GitOption>)
    ensures option.None? ==> r == table
    ensures option.Some? ==> option.value.option in r && r[option.value.option] == option.value
    ensures option.Some? && option.value.short.Some? ==>
      option.value.short.value in r && r[option.value.short.value] == option.value
    ensures option.Some? ==> forall k {:trigger k in r} :: k in r <==>
      k in table || k == option.value.option || option.value.short == Some(k)
    ensures option.Some? ==> forall k {:trigger r[k]} ::
      k in table && k != option.value.option && option.value.short != Some(k) ==> r[k] == table[k]
  {
    match option
    case None => table
    case Some(o) =>
      var t := table[o.option := o];
      if o.short.Some? then t[o.short.value := o] else t
  }

  /** The table after adding each of `options` in turn. */
  function RegisteredAll(table: map<string, GitOption>, options: seq<Option<GitOption>>): map<string, GitOption> {
    if options == [] then table
    else Registered(RegisteredAll(table, options[..|options| - 1]), options[|options| - 1])
  }

  /** Every entry of the table answers to its key, by its name or by its short name. */
  predicate Keyed(table: map<string, GitOption>) {
    forall k {:trigger table[k]} :: k in table ==> table[k].option == k || table[k].short == Some(k)
  }

  /** `add` keeps every entry answering to its key. */
  lemma {:induction false} RegisteredKeyed(table: map<string, GitOption>, option: Option<GitOption>)
    requires Keyed(table)
    ensures Keyed(Registered(table, option))
  {
    var r := Registered(table, option);
    forall k | k in r ensures r[k].option == k || r[k].short == Some(k) {
      if option.Some? && k != option.value.option && option.value.short != Some(k) {
        assert r[k] == table[k];
      }
    }
  }

  /** A table built by `GitOptions.new` has every entry answering to its key. */
  lemma {:induction false} RegisteredAllKeyed(options: seq<Option<GitOption>>)
    ensures Keyed(RegisteredAll(map[], options))
  {
    if options != [] {
      RegisteredAllKeyed(options[..|options| - 1]);
      RegisteredKeyed(RegisteredAll(map[], options[..|options| - 1]), options[|options| - 1]);
    }
  }

  /** `option_for`: the option stored under a name, or `nil`; in a keyed table the option
      found answers to that name. */
  function Lookup(table: map<string, GitOption>, name: string): (r: Option<GitOption>)
    ensures r.None? <==> name !in table
    ensures Keyed(table) && r.Some? ==> r.value.option == name || r.value.short == Some(name)
  {
    if name in table then Some(table[name]) else None
  }

  /** The groups `inline` produces for a list of keyword arguments. */
  function Inlined(table: map<string, GitOption>, args: seq<Arg>): (groups: seq<seq<string>>)
    ensures |groups| <= |args|
  {
    if args == [] then []
    else
      var last := args[|args| - 1];
      Inlined(table, args[..|args| - 1])
      + (match Lookup(table, last.key)
         case Some(o) => [o.Format(last.value)]
         case None => [])
  }

  class GitOptions {
    var options: map<string, GitOption>

    /** `GitOptions.new(*options)`: adds each option in turn to an empty table. */
    constructor (opts: seq<Option<GitOption>>)
      ensures options == RegisteredAll(map[], opts)
    {
      options := map[];
      new;
      for i := 0 to |opts|
        invariant options == RegisteredAll(map[], opts[..i])
      {
        assert opts[..i + 1][..i] == opts[..i];
        Add(opts[i]);
      }
      assert opts[..|opts|] == opts;
    }

    /** Writes the option under its name and short name; `nil` is ignored. */
    method Add(option: Option<GitOption>)
      modifies this
      ensures options == Registered(old(options), option)
    {
      if option.Some? {
        options := options[option.value.option := option.value];
        if option.value.short.Some? {
          options := options[option.value.short.value := option.value];
        }
      }
    }

    /** `option_for`: nil exactly for a name never added; otherwise an option answering
        to that name, when the table was built by `new` and `add`. */
    function OptionFor(name: string): (r: Option<GitOption>)
      reads this
      ensures r.None? <==> name !in options
      ensures Keyed(options) && r.Some? ==> r.value.option == name || r.value.short == Some(name)
    {
      Lookup(options, name)
    }

    /** Renders each recognised keyword argument, in order, skipping the others. */
    method Inline(args: seq<Arg>) returns (groups: seq<seq<string>>)
      ensures groups == Inlined(options, args)
    {
      groups := [];
      for i := 0 to |args|
        invariant groups == Inlined(options, args[..i])
      {
        assert args[..i + 1][..i] == args[..i];
        var option := OptionFor(args[i].key);
        if option.Some? {
          groups := groups + [option.value.Format(args[i].value)];
        }
      }
      assert args[..|args|] == args;
    }
  }

  /** After `add(o)`, `option_for` finds `o` by its name and by its short name, and every
      other name answers as before. */
  lemma OptionForAfterAdd(table: map<string, GitOption>, o: GitOption, name: string)
    ensures Lookup(Registered(table, Some(o)), o.option) == Some(o)
    ensures o.short.Some? ==> Lookup(Registered(table, Some(o)), o.short.value) == Some(o)
    ensures name != o.option && o.short != Some(name) ==>
      Lookup(Registered(table, Some(o)), name) == Lookup(table, name)
  {
  }

  /** `inline` keeps the order of its arguments. */
  lemma {:induction false} InlinedAppend(table: map<string, GitOption>, a: seq<Arg>, b: seq<Arg>)
    ensures Inlined(table, a + b) == Inlined(table, a) + Inlined(table, b)
    decreases |b|
  {
    if b == [] {
      assert a + b == a;
    } else {
      var n := |b| - 1;
      assert (a + b)[..|a + b| - 1] == a + b[..n];
      assert (a + b)[|a + b| - 1] == b[n];
      InlinedAppend(table, a, b[..n]);
    }
  }

  /** An unknown key is skipped and leaves the other groups as they were. */
  lemma InlinedSkipsUnknown(table: map<string, GitOption>, a: seq<Arg>, arg: Arg, b: seq<Arg>)
    requires arg.key !in table
    ensures Inlined(table, a + [arg] + b) == Inlined(table, a + b)
  {
    assert (a + [arg])[..|a|] == a;
    assert Inlined(table, a + [arg]) == Inlined(table, a);
    InlinedAppend(table, a + [arg], b);
    InlinedAppend(table, a, b);
  }

  /** When every key is recognised there is one group per argument, in argument order,
      each the format of the option its key names. */
  lemma {:induction false} InlinedAllKnown(table: map<string, GitOption>, args: seq<Arg>)
    requires forall i :: 0 <= i < |args| ==> args[i].key in table
    ensures |Inlined(table, args)| == |args|
    ensures forall i :: 0 <= i < |args| ==>
      Inlined(table, args)[i] == table[args[i].key].Format(args[i].value)
  {
    if args != [] {
      InlinedAllKnown(table, args[..|args| - 1]);
    }
  }

  /** A key matching only a short name still renders with the long name. */
  lemma InlineShortName(table: map<string, GitOption>, o: GitOption, value: Option<string>)
    requires o.short.Some?
    ensures Inlined(Registered(table, Some(o)), [Arg(o.short.value, value)]) == [o.Format(value)]
    ensures Inlined(Registered(table, Some(o)), [Arg(o.short.value, value)])[0][0] == "--" + o.option
  {
    assert [Arg(o.short.value, value)][..0] == [];
  }

  /** `inline` with no arguments gives no groups, whatever the table. */
  method InlineEmpty(opts: seq<Option<GitOption>>) returns (groups: seq<seq<string>>)
    ensures groups == []
  {
    var g := new GitOptions(opts);
    groups := g.Inline([]);
  }
}
