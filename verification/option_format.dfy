/** One option of the older option DSL (lib/gitw/git_option.rb): a long name, an
    optional short name and whether it takes an argument. */
module OptionFormat {
  import opened Wrappers

  /** Ruby's `to_s` on an optional argument: `nil.to_s` is the empty string. */
  function ToS(v: Option<string>): string {
    match v
    case Some(s) => s
    case None => ""
  }

  datatype GitOption = GitOption(option: string, short: Option<string>, hasArgument: bool)
  {
    /** The tokens for this option: `--name`, then the argument's string form when the
        option takes one. An empty string is still a token, so a `nil` argument to an
        option that takes one gives `["--name", ""]`. */
    function Format(argument: Option<string>): (tokens: seq<string>)
      ensures 1 <= |tokens| <= 2
      ensures tokens[0] == "--" + option
      ensures |tokens| == 2 <==> hasArgument
      ensures hasArgument && argument.Some? ==> tokens[1] == argument.value
      ensures hasArgument && argument.None? ==> tokens[1] == ""
    {
      ["--" + option] + (if hasArgument then [ToS(argument)] else [])
    }
  }

  /** Without `has_argument`, the argument makes no difference to the tokens. */
  lemma FormatIgnoresArgument(o: GitOption, a: Option<string>, b: Option<string>)
    requires !o.hasArgument
    ensures o.Format(a) == o.Format(b) == ["--" + o.option]
  {
  }
}
