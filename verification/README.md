# gitw core in Dafny

A model of the core of gitw, a Ruby library that drives the `git` command line. The model
covers four parts of it:

- **Option builders.** `GitOpts` with `GitAllowedOpt` keeps an allow-list of options and
  turns `add` requests into command-line token groups. The older `GitOptions` with
  `GitOption` renders keyword arguments.
- **Status parser.** `Git::Status` with `Git::StatusFile` reads `git status --porcelain`
  output and indexes the changed and untracked paths.
- **Remote parser.** `Git::RemoteRefs` with `Git::RemoteRef` reads `git remote -v` output
  and merges the fetch and push lines of each remote.
- **URL parsers.** `Git::URL` and `Repository::URL` split a remote URL into user, host
  and normalised path, either from the scp-like SSH form or from Ruby's URI parser.

The modules are:

| module | file | models |
|---|---|---|
| `Wrappers` | wrappers.dfy | `Option` and `Result` |
| `Text` | text.dfy | Ruby's `\s` and `\w` classes, `String#strip`, `String#each_line`, maximal-run scans |
| `Opts` | opts.dfy | lib/gitw/git_opts.rb |
| `OptionFormat` | option_format.dfy | lib/gitw/git_option.rb |
| `Options` | options.dfy | lib/gitw/git_options.rb |
| `StatusParser` | status.dfy | lib/gitw/git/status.rb |
| `RemoteParser` | remote_ref.dfy | lib/gitw/git/remote_ref.rb |
| `UrlSyntax` | url_syntax.dfy | the SSH grammar, path normalisation, dirname and basename, and the field values shared by both URL files |
| `GitUrl` | git_url.dfy | lib/gitw/git/url.rb |
| `RepositoryUrl` | repository_url.dfy | lib/gitw/repository/url.rb |

Objects whose methods update fields are classes:

- `GitOpts`, `GitOptions`, `Status`, `RemoteRef`, `RemoteRefs` and both `URL` classes.
- Each method states its new state exactly, either as a function of the old state or
  through a specification function.
- Loops in the source are `for` loops carrying invariants.

Value-like parts are datatypes and functions:

- `GitAllowedOpt`, `GitOption`, `StatusFile`, and ref and URL field values.

Each regular expression of the source is re-expressed as a scan over maximal runs of
characters. Lemmas prove the scans sound and complete for the text shapes the expression
accepts.

Two behaviours of the code the model states outright:

- `RemoteRef#update` takes each non-nil field of the other ref, so the last fetch line and
  the last push line of a remote win.
- `GitOpts#from_h` adds every pair, including those whose value is `false`.

## Model

| member | source | states |
|---|---|---|
| Opts.GitAllowedOpt.EachLabel | lib/gitw/git_opts.rb:79-81 | The label symbol, the label string, then short and long when set, in that order: short sits right after the two label forms and long comes last. The exact count of labels, and the members of the list in both directions. |
| Opts.GitAllowedOpt.BuildOpt | lib/gitw/git_opts.rb:83-90 | No group exactly when an argument is required and missing. Otherwise: the long form (or else the short form), then the argument when one is taken, with the exact group length. |
| Opts.NewAllowedOpt | lib/gitw/git_opts.rb:71-77 | The label goes through `to_s.to_sym`, so the first two aliases are its symbol and string forms. |
| Opts.Reindexed | lib/gitw/git_opts.rb:22-24 | Writing a spec under each alias: the aliases map to the spec, other keys keep their entries, and the key set is the union. |
| Opts.Added | lib/gitw/git_opts.rb:29-37 | At most one group. There is one exactly when the label is allowed and BuildOpt accepts the argument, and it is that group. |
| Opts.GitOpts.constructor | lib/gitw/git_opts.rb:10-15 | Empty allow list, empty index, no groups. |
| Opts.GitOpts.Allow | lib/gitw/git_opts.rb:17-27 | Appends the spec, re-indexes it under every alias (taking over aliases an earlier spec held), and leaves the groups unchanged. |
| Opts.GitOpts.Add | lib/gitw/git_opts.rb:29-37 | The groups grow by exactly Added for the current allow table. |
| Opts.GitOpts.FromA | lib/gitw/git_opts.rb:39-45 | The groups grow by the rendering of one argument-less request per label, in order. |
| Opts.GitOpts.FromH | lib/gitw/git_opts.rb:47-53 | The groups grow by the rendering of every pair, in order. |
| Opts.GitOpts.From | lib/gitw/git_opts.rb:55-62 | As written: the groups are unchanged for every source (see Findings). |
| Opts.GitOpts.FromIntended | lib/gitw/git_opts.rb:55-62 | As intended: a Hash renders like FromH, an Array like FromA, anything else adds nothing. |
| Opts.Render | lib/gitw/git_opts.rb:29-37 | A run of `add` calls gives at most one group per request. |
| Opts.RenderAppend | lib/gitw/git_opts.rb:29-53 | Rendering two request lists is rendering each and concatenating, so order is preserved. |
| Opts.RenderDropsUnknown | lib/gitw/git_opts.rb:30-34 | A request with an unknown label contributes nothing and does not disturb the others. |
| Opts.RenderNoneAllowed | lib/gitw/git_opts.rb:30-34 | Against a table that knows none of the labels, nothing is rendered. |
| Opts.RenderRepeated | lib/gitw/git_opts.rb:69-90 | `multiple` restricts nothing: n identical requests give n copies of their group. |
| Opts.FlattenAppend | lib/gitw/git_opts.rb:33 | The flat token list of concatenated groups is the concatenation of their token lists. |
| Opts.GlobalOpts | lib/gitw/git_exe.rb:31-37 | The allow table `git_opts` builds holds `-C` with an argument under `:dir`, and no groups yet. |
| Opts.FromLosesOptions | lib/gitw/git_opts.rb:55-62 | For that table and `{dir: '/repo'}`: `from` as written yields no tokens, the intended `from` yields `-C /repo`. |
| Opts.FilterTableAB | test/gitw/test_git_opts.rb:22-24 | Allowing `option_a` and `option_b` indexes each under its label with its short and long forms, leaves `option_d` unknown, and adds no groups. |
| Opts.FilterTable | test/gitw/test_git_opts.rb:22-25 | Allowing `option_c` as well keeps those two entries and `option_d` unknown. |
| Opts.FilterExample | lib/gitw/git_opts.rb:29-37 | Allowed `a` and `b` plus unknown `d` give exactly `--option-a --option-b`. |
| Opts.RepeatTable | test/gitw/test_git_opts.rb:36-39 | The repetition example's table indexes `a` without and `b` with an argument, and adds no groups. |
| Opts.RepeatExample | lib/gitw/git_opts.rb:29-37 | Repeated labels give `-a -a -b 123 -b 456`. |
| Opts.AddBeforeAllow | lib/gitw/git_opts.rb:29-37 | Filtering happens when `add` is called: a label allowed later was already dropped. |
| OptionFormat.GitOption.Format | lib/gitw/git_option.rb:15-17 | One or two tokens. The first is `--` plus the name, and there is a second exactly when the option takes an argument: the argument's `to_s`, so `""` for nil. |
| OptionFormat.FormatIgnoresArgument | lib/gitw/git_option.rb:15-17 | Without `has_argument` the argument never matters. |
| Options.Registered | lib/gitw/git_options.rb:12-20 | After `add`, nil changes nothing. Otherwise the option is stored under its name and its short name, other keys are kept, and the key set is exactly the old keys plus those names. |
| Options.RegisteredKeyed | lib/gitw/git_options.rb:12-20 | `add` keeps every entry stored under the option's own name or its short name. |
| Options.RegisteredAllKeyed | lib/gitw/git_options.rb:7-20 | Every table `new` builds has each entry stored under its option's name or short name. |
| Options.Lookup | lib/gitw/git_options.rb:22-24 | Nil exactly when no option is stored under the name. In a table built by `add`, the option found has that name or that short name. |
| Options.GitOptions.OptionFor | lib/gitw/git_options.rb:22-24 | The same for the object's own table: nil exactly for an unknown name, otherwise an option answering to that name. |
| Options.GitOptions.constructor | lib/gitw/git_options.rb:7-10 | The table is every option added in turn to an empty table. |
| Options.GitOptions.Add | lib/gitw/git_options.rb:12-20 | The table becomes Registered of the old table. |
| Options.GitOptions.Inline | lib/gitw/git_options.rb:26-33 | The groups are Inlined of the table and arguments. |
| Options.Inlined | lib/gitw/git_options.rb:26-33 | At most one group per argument. |
| Options.OptionForAfterAdd | lib/gitw/git_options.rb:12-24 | After `add(o)`, `option_for` finds `o` by its name and short name, and answers as before for every other name. |
| Options.InlinedAppend | lib/gitw/git_options.rb:26-33 | Inlining keeps argument order across concatenation. |
| Options.InlinedSkipsUnknown | lib/gitw/git_options.rb:28-29 | An unknown key is skipped without disturbing the other groups. |
| Options.InlinedAllKnown | lib/gitw/git_options.rb:26-33 | With every key known: one group per argument, each the format of its option. |
| Options.InlineShortName | lib/gitw/git_options.rb:16-31 | A key naming only a short name renders with the long `--name`. |
| Options.InlineEmpty | lib/gitw/git_options.rb:26-33 | No arguments give no groups, whatever the table. |
| StatusParser.StatusFile.IndexChanged | lib/gitw/git/status.rb:68-74 | False exactly for the codes `' '`, `'!'` and `'?'`. True for every other code, unknown codes and nil included. |
| StatusParser.StatusFile.WorktreeChanged | lib/gitw/git/status.rb:76-82 | The same rule on the working-tree code. |
| StatusParser.StatusFile.IsUntracked | lib/gitw/git/status.rb:84-89 | True exactly when either code is `'?'`. |
| StatusParser.ParseLine | lib/gitw/git/status.rb:40-44 | A line matches exactly when it has at least three characters and the third is whitespace. The codes are its first two characters, and the path and original path hold no line feed. |
| StatusParser.ParsePlainLine | lib/gitw/git/status.rb:40-44 | Codes, separator and a path without a rename marker parse to that path with no original path, whether or not the line ends in a line feed. |
| StatusParser.FirstMarker | lib/gitw/git/status.rb:43 | The lazy `.*?` of the original path: the first position from which ` -> ` starts, or none when there is no such position. |
| StatusParser.ParseRenameLine | lib/gitw/git/status.rb:43-44 | `orig -> path` parses to both paths whenever no rename marker starts inside the original path, so an original path may hold spaces. |
| StatusParser.NoMarkerInPlainOrig | lib/gitw/git/status.rb:43 | An original path without whitespace holds no rename marker. |
| StatusParser.ParseSpacedRenameExample | lib/gitw/git/status.rb:43-44 | `R  a b -> c` parses to path `c` with original path `a b`. |
| StatusParser.ParseModifiedExample | lib/gitw/git/status.rb:91-98 | `M  lib/gitw.rb` parses to codes `M` and space and that path. |
| StatusParser.ParseUntrackedExample | lib/gitw/git/status.rb:91-98 | `?? newfile.txt` followed by a line feed parses to an untracked file. |
| StatusParser.LastMatch | lib/gitw/git/status.rb:13-17 | The last position whose file has the path and is selected, or none, with both directions. |
| StatusParser.PathIndex | lib/gitw/git/status.rb:13-17 | A path is a key exactly when some selected file has it, and it maps to the last such file. |
| StatusParser.Compact | lib/gitw/git/status.rb:8 | Exactly the present entries are kept. |
| StatusParser.CompactAppend | lib/gitw/git/status.rb:8 | Compacting a concatenation is concatenating the compacted parts, so order and repetitions are kept. |
| StatusParser.CompactSingle | lib/gitw/git/status.rb:8 | One entry is kept exactly when it is present. |
| StatusParser.ParseLines | lib/gitw/git/status.rb:31-33 | One parse result per line, in order. |
| StatusParser.ParsedFilesFromLines | lib/gitw/git/status.rb:28-35 | Every parsed file comes from some line of the output. |
| StatusParser.Status.constructor | lib/gitw/git/status.rb:7-18 | The files are the compacted entries, and the three indexes agree with them. |
| StatusParser.Status.Changed | lib/gitw/git/status.rb:20-22 | Some file exactly when a file with that path has an index or working-tree change. It is the last index-changed file with the path, or else the last working-tree-changed one. |
| StatusParser.Status.Untracked | lib/gitw/git/status.rb:24-26 | Some file exactly when a file with that path is untracked, and it is the last such file. |
| StatusParser.Status.Parse | lib/gitw/git/status.rb:28-35 | A fresh, consistent status whose files are the parsed lines of the output. |
| StatusParser.IndexingMaps | lib/gitw/git/status.rb:13-17 | The example's files put `a` in the index and working-tree maps and `b` only in the untracked map. |
| StatusParser.IndexingExample | lib/gitw/git/status.rb:20-26 | `a` (MM) is changed, `b` (??) is untracked and not changed, and a missing path is neither. |
| Text.Strip | lib/gitw/git/remote_ref.rb:72 | `String#strip`: never longer, and the result neither starts nor ends with whitespace or NUL. |
| Text.StripLineNoNewline | lib/gitw/git/remote_ref.rb:72 | A line stripped of its surrounding whitespace holds no line feed. |
| Text.EachLine | lib/gitw/git/status.rb:31 | `String#each_line`: nonempty lines that concatenate to the text, each ending in its only line feed except possibly the last. |
| RemoteParser.MatchRemoteLine | lib/gitw/git/remote_ref.rb:44-48 | A match's name, URL, mode and two separators fit in the text. |
| RemoteParser.ModeText | lib/gitw/git/remote_ref.rb:48 | `(fetch)` and `(push)` are parenthesised and contain no whitespace. |
| RemoteParser.MatchWellFormed | lib/gitw/git/remote_ref.rb:44-48 | A match has a nonempty word-character name and a nonempty whitespace-free URL. |
| RemoteParser.MatchComplete | lib/gitw/git/remote_ref.rb:44-48 | Every well-formed `name ws url ws (mode)` text is recognised with its name, URL and mode. |
| RemoteParser.MatchSound | lib/gitw/git/remote_ref.rb:44-48 | Every recognised text is such a line, with whitespace runs that exist. |
| RemoteParser.ParseRef | lib/gitw/git/remote_ref.rb:71-76 | A recognised line sets exactly one of fetch and push. |
| RemoteParser.ParseRefShape | lib/gitw/git/remote_ref.rb:71-76 | A recognised line has a nonempty word-character name and a nonempty whitespace-free URL. |
| RemoteParser.ParseRefOfLine | lib/gitw/git/remote_ref.rb:71-76 | Surrounding whitespace is stripped, then the mode decides which field holds the URL. |
| RemoteParser.Merge | lib/gitw/git/remote_ref.rb:62-69 | A different name changes nothing. For the same name, each non-nil field of the other ref wins and each nil field keeps the old value. |
| RemoteParser.MergeSelf | lib/gitw/git/remote_ref.rb:63 | Merging a ref with itself is the identity, consistent with the early return. |
| RemoteParser.RemoteRef.constructor | lib/gitw/git/remote_ref.rb:52-56 | The three fields as given. |
| RemoteParser.RemoteRef.Url | lib/gitw/git/remote_ref.rb:58-60 | The fetch URL when set, else the push URL. |
| RemoteParser.RemoteRef.Update | lib/gitw/git/remote_ref.rb:62-69 | Returns self, and the new fields are Merge of the old fields of both refs. |
| RemoteParser.RemoteRef.Parse | lib/gitw/git/remote_ref.rb:71-76 | Nil exactly when the line is not recognised. Otherwise a fresh ref with the parsed fields. |
| RemoteParser.CompactRefs | lib/gitw/git/remote_ref.rb:8 | Never longer than the input, and a list without nil entries is kept entry for entry. |
| RemoteParser.CompactRefsMembers | lib/gitw/git/remote_ref.rb:8 | Every kept ref is an entry, and every non-nil entry is kept. |
| RemoteParser.CompactRefsAppend | lib/gitw/git/remote_ref.rb:8 | Compacting a concatenation is concatenating the compacted parts, so order and repetitions are kept. |
| RemoteParser.CompactRefsSingle | lib/gitw/git/remote_ref.rb:8 | One entry is kept exactly when it is not nil. |
| RemoteParser.NameIndex | lib/gitw/git/remote_ref.rb:13-17 | A name is a key exactly when a ref has it, and it maps to the last such ref. |
| RemoteParser.WithUrl | lib/gitw/git/remote_ref.rb:15-16 | The refs with that URL, and empty exactly when no ref has it. |
| RemoteParser.UrlIndex | lib/gitw/git/remote_ref.rb:13-17 | A URL is a key exactly when some ref has it, and it maps to those refs in list order. |
| RemoteParser.RemoteRefs.constructor | lib/gitw/git/remote_ref.rb:7-18 | The refs are the compacted entries, and both indexes agree with them. |
| RemoteParser.RemoteRefs.IndexRefs | lib/gitw/git/remote_ref.rb:13-17 | The loop builds exactly NameIndex and UrlIndex. |
| RemoteParser.RemoteRefs.ByName | lib/gitw/git/remote_ref.rb:20-22 | Non-nil exactly when a ref has the name, and then the last such ref. |
| RemoteParser.RemoteRefs.ByUrl | lib/gitw/git/remote_ref.rb:24-26 | Nil exactly when no ref has the URL. Otherwise all refs with it, in order. |
| RemoteParser.Dedup | lib/gitw/git/remote_ref.rb:35-39 | The first appearance of each name: the same members, pairwise distinct. |
| RemoteParser.ParseAllAt | lib/gitw/git/remote_ref.rb:31-32 | Entry i of the parse list is `RemoteRef.parse` of line i. |
| RemoteParser.MergedRefs | lib/gitw/git/remote_ref.rb:31-37 | Never more merged refs than parse results. |
| RemoteParser.MergedRefsSnoc | lib/gitw/git/remote_ref.rb:32-36 | One more line: a nil parse leaves the merged refs, a ref is absorbed into them. |
| RemoteParser.MergedRefsNames | lib/gitw/git/remote_ref.rb:28-39 | The merged refs are one per name, in order of each name's first appearance among the recognised lines. |
| RemoteParser.MergedRefsLaterWins | lib/gitw/git/remote_ref.rb:28-39 | Each merged ref carries the URL of the last fetch line and the last push line of its name. |
| RemoteParser.MergedRefsDistinct | lib/gitw/git/remote_ref.rb:28-39 | Merged names are pairwise distinct. |
| RemoteParser.NamesAbsent | lib/gitw/git/remote_ref.rb:28-39 | A name with no merged ref had no recognised line. |
| RemoteParser.StoreRef | lib/gitw/git/remote_ref.rb:32-37 | One loop step: the store then holds Absorb of the specification, and other names keep their refs. |
| RemoteParser.StoreLine | lib/gitw/git/remote_ref.rb:32-36 | One block run: an unrecognised line leaves the store, a recognised one is absorbed, and every stored ref is old or fresh. |
| RemoteParser.CollectRefs | lib/gitw/git/remote_ref.rb:31-37 | The store holds, in insertion order, fresh refs whose fields are the merged parses of the lines. |
| RemoteParser.StoreValues | lib/gitw/git/remote_ref.rb:39 | `values` are the stored refs in insertion order. |
| RemoteParser.FromStore | lib/gitw/git/remote_ref.rb:38 | A fresh, consistent RemoteRefs whose refs' fields are the stored values in insertion order. |
| RemoteParser.ParseRemotes | lib/gitw/git/remote_ref.rb:28-39 | A fresh, consistent RemoteRefs whose refs' fields are the merged refs of the output's lines. |
| RemoteParser.ParseFetchExample | lib/gitw/git/remote_ref.rb:71-76 | `origin git@gitlab.com:ttych/gitw.git (fetch)` gives a fetch URL only. |
| RemoteParser.ParsePushExample | lib/gitw/git/remote_ref.rb:71-76 | The push line gives a push URL only. |
| RemoteParser.ListingLineParses | lib/gitw/git/remote_ref.rb:71-76 | A listing line with a leading indent and a line feed parses as its mode says. |
| RemoteParser.MergedFetchPush | lib/gitw/git/remote_ref.rb:31-37 | A nil parse, a ref, then a push-only ref of the same name merge into one ref with the push URL added. |
| RemoteParser.ParseAllThree | lib/gitw/git/remote_ref.rb:31-32 | Three lines give their three parses, in order. |
| RemoteParser.ListingMerges | lib/gitw/git/remote_ref.rb:31-37 | A blank line and the fetch and push lines of one remote are lines of `each_line`, and they merge into one ref with both URLs. |
| RemoteParser.UpdateExample | lib/gitw/git/remote_ref.rb:62-69 | A same-named ref brings its push URL, and a ref of another name changes nothing. |
| RemoteParser.LookupExample | lib/gitw/git/remote_ref.rb:20-26 | One `origin` found by name and by URL, and nothing for other names or URLs. |
| UrlSyntax.HostFrom | lib/gitw/git/url.rb:12-15 | A nonempty host of host characters, followed by `:` and a path that does not start with `/`. |
| UrlSyntax.MatchWithUser | lib/gitw/git/url.rb:11-15 | With the user group: valid captures that reassemble to the input. |
| UrlSyntax.MatchWithoutUser | lib/gitw/git/url.rb:12-15 | Without the user group: valid captures that reassemble to the input. |
| UrlSyntax.SshMatch | lib/gitw/git/url.rb:9-16 | Every match is valid captures whose text is the input, and its path has no line feed. |
| UrlSyntax.SshMatchWithUser | lib/gitw/git/url.rb:9-16 | Every valid `user@host:path` text is recognised as exactly those captures. |
| UrlSyntax.SshMatchWithoutUser | lib/gitw/git/url.rb:9-16 | Every valid `host:path` text with no `@` is recognised with no user. |
| UrlSyntax.ColonSlashNotSsh | lib/gitw/git/url.rb:13 | An input whose first `:` is followed by `/` never takes the SSH form. |
| UrlSyntax.NoColonNotSsh | lib/gitw/git/url.rb:13 | An input without `:` never takes the SSH form. |
| UrlSyntax.ChompGit | lib/gitw/git/url.rb:43 | One trailing `.git` is removed, and any other input is kept. |
| UrlSyntax.StripLeadingSlashes | lib/gitw/git/url.rb:43 | A suffix of the input after removing only `/`, and it does not start with `/`. |
| UrlSyntax.StripTrailingSlashes | lib/gitw/git/url.rb:43 | A prefix of the input before removing only `/`, and it does not end with `/`. |
| UrlSyntax.NormalizePath | lib/gitw/git/url.rb:43 | The result never starts or ends with `/`, and has no line feed. |
| UrlSyntax.NormalizeDecorated | lib/gitw/git/url.rb:43 | Leading slashes and a `.git` suffix are removed from an otherwise normalised path. |
| UrlSyntax.TrailingSlashKeepsGit | lib/gitw/git/url.rb:43 | `.git` is chomped before trailing slashes go, so `repo.git/` keeps its `.git`. |
| UrlSyntax.RepoGitSlashExample | lib/gitw/git/url.rb:43 | `repo.git/` normalises to `repo.git`. |
| UrlSyntax.LastSlash | lib/gitw/git/url.rb:47-53 | The position of the last `/`, or none when there is no `/`. |
| UrlSyntax.Basename | lib/gitw/git/url.rb:51-53 | A suffix of the path with no `/`, nonempty for a nonempty path, preceded by a `/` when there is one, and the whole path when there is none. |
| UrlSyntax.Dirname | lib/gitw/git/url.rb:47-49 | Nonempty and normalised. `.` without a `/`, otherwise the prefix of the path before the run of `/` that ends at the last `/`. |
| UrlSyntax.DirnameBasenameSplit | lib/gitw/git/url.rb:47-53 | A path with a `/` is its dirname, a nonempty run of `/` and its basename. |
| UrlSyntax.LastSlashBefore | lib/gitw/git/url.rb:47-53 | In `d/b` with no `/` in `b`, the last `/` is the one before `b`. |
| UrlSyntax.DirnameBasenameOf | lib/gitw/git/url.rb:47-53 | `d/b` has dirname `d` and basename `b`. |
| UrlSyntax.ParsedFields | lib/gitw/git/url.rb:31-44 | The SSH captures with the raw text as url. Otherwise InvalidUri when URI.parse raises, NilPath for a nil path, or URI.parse's fields. The path is always normalised. |
| UrlSyntax.ParsedFieldsNormalizes | lib/gitw/git/url.rb:31-44 | The bridge from the two `parse` methods to ParsedFields: the fields before the chomp step become ParsedFields once the path is normalised. |
| UrlSyntax.ParsedFieldsFails | lib/gitw/git/url.rb:37-43 | Without the SSH form, a raising URI.parse gives InvalidUri and a nil path gives NilPath. |
| UrlSyntax.SshExample | lib/gitw/git/url.rb:31-44 | `git@gitlab.com:orga/repo.git` gives user `git`, host `gitlab.com`, path `orga/repo`. |
| UrlSyntax.HostOnlyExample | lib/gitw/git/url.rb:31-44 | `github.com:rubocop` gives no user, host `github.com`, path `rubocop`. |
| UrlSyntax.HttpExample | lib/gitw/git/url.rb:31-44 | `https://gitlab.com/orga/repo.git` is not SSH and takes URI.parse's fields with path `orga/repo`. |
| UrlSyntax.LocalExample | lib/gitw/git/url.rb:31-44 | `/git/local/url` is not SSH and gets path `git/local/url`. |
| UrlSyntax.DirnameBasenameExamples | lib/gitw/git/url.rb:47-53 | Dirname and basename of `git/local/url`, `orga/repo` and `rubocop`. |
| GitUrl.URL.Blank | lib/gitw/git/url.rb:20-26 | The raw URL and four nil fields. |
| GitUrl.URL.Parse | lib/gitw/git/url.rb:31-44 | Succeeds exactly when ParsedFields does, then with its fields and a normalised path. Otherwise fails with its error. |
| GitUrl.URL.New | lib/gitw/git/url.rb:20-28 | A fresh, parsed URL exactly when ParsedFields succeeds, with its fields. Otherwise its error. |
| GitUrl.URL.PathDirname | lib/gitw/git/url.rb:47-49 | `.` without a `/`, otherwise the path prefix before its last run of `/`: everything from the end of the prefix up to the last `/` is `/`. |
| GitUrl.URL.PathBasename | lib/gitw/git/url.rb:51-53 | The `/`-free suffix of the path after its last `/`, or the whole path when it has no `/`. |
| GitUrl.URL.ToS | lib/gitw/git/url.rb:55-57 | The url, or `""` for nil. |
| RepositoryUrl.URL.Blank | lib/gitw/repository/url.rb:20-26 | The raw URL and four nil fields. |
| RepositoryUrl.URL.ParseAsSsh | lib/gitw/repository/url.rb:35-43 | True exactly when SSH_RE matches, then the fields are its captures and the raw text. Otherwise nothing changes. |
| RepositoryUrl.URL.ParseAsUri | lib/gitw/repository/url.rb:45-53 | URI.parse raising leaves the fields. Otherwise they are URI.parse's fields and the answer is true. |
| RepositoryUrl.URL.Parse | lib/gitw/repository/url.rb:30-33 | The same outcome as ParsedFields, like the other URL class. |
| RepositoryUrl.URL.New | lib/gitw/repository/url.rb:20-28 | A fresh, parsed URL exactly when ParsedFields succeeds. Otherwise its error. |
| RepositoryUrl.URL.PathDirname | lib/gitw/repository/url.rb:55-57 | As GitUrl.URL.PathDirname. |
| RepositoryUrl.URL.PathBasename | lib/gitw/repository/url.rb:59-61 | As GitUrl.URL.PathBasename. |
| RepositoryUrl.URL.ToS | lib/gitw/repository/url.rb:63-65 | The url, or `""` for nil. |
| RepositoryUrl.AgreesWithGitUrl | lib/gitw/repository/url.rb:30-53 | On every input both URL classes fail with the same error or produce the same fields and text. |

## Left out

- `Status.parse(nil)` and `RemoteRefs.parse(nil)` would call `new` with no argument, which raises ArgumentError. The model's parse operations take a string, so nil is not an input.
- Line feeds inside single status lines, remote lines, raw URLs and URI paths are excluded by preconditions. With them, Ruby's `^` and `$` would also match at inner line boundaries. Lines from `each_line` have a line feed only at their end, so the status and remote parsers are unaffected.
- URI.parse is Ruby's standard library and is not part of this model. Its outcome is a parameter (`UriOutcome`): the user, host, path and string form it returns, or the error it raises. URI.parse never returns nil, so the `return unless uri` branch of `parse_as_uri` is not modelled.
- File.dirname and File.basename are modelled only on normalised paths, which are the only paths the URL classes store after parsing.
- Arguments that are not strings (numbers, symbols as values) are modelled by their string form. `GitOption#format` applies `to_s` to them.
- `GitAllowedOpt#multiple` is stored but read nowhere. The model keeps the field, and RenderRepeated shows that it restricts nothing.
- RemoteParser.RemoteRefs.Valid: the URL index is only shown consistent with the refs' URLs at construction. Ruby's index would go stale if a ref were updated later, and the model does not track that.
- `RemoteRefs.parse` and `Status.parse` are modelled as methods over the lines of `each_line`. The enumerator and `with_object` plumbing is not modelled.
- Object identity in `RemoteRef#update`'s `self == other_ref` test is modelled only through MergeSelf: merging a ref with itself changes nothing, so the early return and the merge agree.
- `GitOpts#opts` holds each group as a separate list. The examples compare Flatten of the groups with the token lists test/gitw/test_git_opts.rb:30-47 expects from `*git_opts`. GitOpts defines no `to_a`, so that splat yields the object itself, not its tokens. How a GitOpts object reaches the command line (lib/gitw/git_exe.rb:48) is not part of this model.
- RemoteParser.ParseRef answers nil for a text that still holds a line feed once stripped. Only lines of `each_line` reach it, and none of them is such a text (Text.StripLineNoNewline).
- The calls in lib/gitw/git_exe.rb and lib/gitw/repository.rb that use these classes are not modelled, apart from the allow table of `git_opts` (Opts.GlobalOpts).

## Findings

| source | as written | input that shows it | evidently intended | confidence | as-written member | corrected member |
|---|---|---|---|---|---|---|
| lib/gitw/git_opts.rb:55-62 | `case options.class` compares the class object with `Hash` and `Array` using `===`, which tests whether the class object is an instance of Hash or Array. It never is, so `from` always takes the `else` branch and adds nothing. | `git_opts.from({dir: '/repo'})` against the allow table of lib/gitw/git_exe.rb:31-37 adds no `-C /repo`. | `case options` dispatching a Hash to `from_h` and an Array to `from_a` | high (not executed) | Opts.GitOpts.From, Opts.FromLosesOptions | Opts.GitOpts.FromIntended |
