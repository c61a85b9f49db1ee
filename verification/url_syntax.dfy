/** The string logic lib/gitw/git/url.rb and lib/gitw/repository/url.rb share: the
    scp-like SSH syntax `[user@]host:path` of SSH_RE, the normalisation of the stored path,
    File.dirname/File.basename on normalised paths, and the field values both classes
    compute from a raw URL and the outcome of URI.parse. */
module UrlSyntax {
  import opened Wrappers
  import opened Text

  /** The user part `[^@/]`. */
  predicate UserChar(c: char) {
    c != '@' && c != '/'
  }

  /** The host part `[^:/]`. */
  predicate HostChar(c: char) {
    c != ':' && c != '/'
  }

  /** The three captures of SSH_RE. */
  datatype SshParts = SshParts(user: Option<string>, host: string, path: string)

  /** The captures SSH_RE can produce: a nonempty user without `@` or `/`, a nonempty host
      without `:` or `/`, and a path that does not start with `/`. */
  predicate ValidParts(p: SshParts) {
    && (p.user.Some? ==> p.user.value != [] && forall k :: 0 <= k < |p.user.value| ==> UserChar(p.user.value[k]))
    && p.host != [] && (forall k :: 0 <= k < |p.host| ==> HostChar(p.host[k]))
    && (p.path == [] || p.path[0] != '/')
  }

  /** The text `[user@]host:path`. */
  function SshText(p: SshParts): string {
    (if p.user.Some? then p.user.value + "@" else "") + p.host + ":" + p.path
  }

  /** `(?<host>[^:/]+):(?!/)(?<path>.*?)$` tried at position `i`: the host is the maximal
      run of host characters, it must be followed by `:`, and that `:` by anything but `/`. */
  function HostFrom(s: string, i: nat): (r: Option<(string, string)>)
    requires i <= |s| && NoNewline(s)
    ensures r.Some? ==> s[i..] == r.value.0 + ":" + r.value.1
    ensures r.Some? ==> NoNewline(r.value.1)
    ensures r.Some? ==> r.value.0 != [] && forall k :: 0 <= k < |r.value.0| ==> HostChar(r.value.0[k])
    ensures r.Some? ==> r.value.1 == [] || r.value.1[0] != '/'
  {
    var h := Span(s, i, HostChar);
    if h > i && h < |s| && s[h] == ':' && (h + 1 == |s| || s[h + 1] != '/') then
      assert s[i..] == s[i..h] + ":" + s[h + 1..];
      SuffixNoNewline(s, s[h + 1..]);
      Some((s[i..h], s[h + 1..]))
    else None
  }

  /** SSH_RE with its optional `(?<user>[^@/]+)@` group taking part: the user is the maximal
      run of user characters and must be followed by `@`. */
  function MatchWithUser(s: string): (r: Option<SshParts>)
    requires NoNewline(s)
    ensures r.Some? ==> ValidParts(r.value) && r.value.user.Some? && SshText(r.value) == s
    ensures r.Some? ==> NoNewline(r.value.path)
  {
    var a := Span(s, 0, UserChar);
    if 0 < a < |s| && s[a] == '@' then
      match HostFrom(s, a + 1)
      case Some(hp) =>
        assert s == s[..a] + "@" + s[a + 1..];
        Some(SshParts(Some(s[..a]), hp.0, hp.1))
      case None => None
    else None
  }

  /** SSH_RE with the user group left out: the host is matched from the start. */
  function MatchWithoutUser(s: string): (r: Option<SshParts>)
    requires NoNewline(s)
    ensures r.Some? ==> ValidParts(r.value) && r.value.user.None? && SshText(r.value) == s
    ensures r.Some? ==> NoNewline(r.value.path)
  {
    match HostFrom(s, 0)
    case Some(hp) =>
      assert s[0..] == s;
      Some(SshParts(None, hp.0, hp.1))
    case None => None
  }

  /** SSH_RE matched against a string without line feeds (so `^` and `$` are its ends): the
      optional user group is tried first, and only when that fails is the host matched from
      the start. */
  function SshMatch(s: string): (r: Option<SshParts>)
    requires NoNewline(s)
    ensures r.Some? ==> ValidParts(r.value) && SshText(r.value) == s
    ensures r.Some? ==> NoNewline(r.value.path)
  {
    var withUser := MatchWithUser(s);
    if withUser.Some? then withUser else MatchWithoutUser(s)
  }

  lemma {:induction false} SuffixNoNewline(s: string, t: string)
    requires NoNewline(s) && |t| <= |s| && s[|s| - |t|..] == t
    ensures NoNewline(t)
  {
    forall k | 0 <= k < |t| ensures t[k] != '\n' {
      assert s[|s| - |t| + k] == t[k];
    }
  }

  /** The text of valid parts with a user is recognised as those parts. */
  lemma {:induction false} SshMatchWithUser(p: SshParts)
    requires ValidParts(p) && p.user.Some? && NoNewline(SshText(p))
    ensures SshMatch(SshText(p)) == Some(p)
  {
    var u := p.user.value;
    var s := SshText(p);
    var a := |u|;
    var h := a + 1 + |p.host|;
    assert s == u + ("@" + (p.host + (":" + p.path)));
    assert s[..a] == u && s[a] == '@';
    assert s[a + 1..h] == p.host && s[h] == ':' && s[h + 1..] == p.path;
    SpanStops(s, 0, a, UserChar);
    HostFromAt(s, a + 1, h);
    assert MatchWithUser(s) == Some(SshParts(Some(s[..a]), s[a + 1..h], s[h + 1..]));
  }

  /** HostFrom succeeds on a run of host characters followed by `:` and no `/`. */
  lemma {:induction false} HostFromAt(s: string, i: nat, h: nat)
    requires NoNewline(s) && i < h < |s|
    requires forall k :: i <= k < h ==> HostChar(s[k])
    requires s[h] == ':' && (h + 1 == |s| || s[h + 1] != '/')
    ensures HostFrom(s, i) == Some((s[i..h], s[h + 1..]))
  {
    SpanStops(s, i, h, HostChar);
  }

  /** The text of valid parts without a user is recognised as those parts when no `@` in it
      could start a user group. */
  lemma {:induction false} SshMatchWithoutUser(p: SshParts)
    requires ValidParts(p) && p.user.None? && NoNewline(SshText(p))
    requires forall k :: 0 <= k < |p.host| ==> p.host[k] != '@'
    requires forall k :: 0 <= k < |p.path| ==> p.path[k] != '@'
    ensures SshMatch(SshText(p)) == Some(p)
  {
    var s := SshText(p);
    var h := |p.host|;
    assert s == p.host + (":" + p.path);
    assert s[..h] == p.host && s[h] == ':' && s[h + 1..] == p.path;
    forall k | 0 <= k < |s| ensures s[k] != '@' {
      if k < h { assert s[k] == p.host[k]; }
      else if h < k { assert s[k] == p.path[k - h - 1]; }
    }
    var a := Span(s, 0, UserChar);
    assert a == |s| || s[a] == '/';
    SpanStops(s, 0, h, HostChar);
    assert s[0..h] == p.host && s[0..] == s;
  }

  /** An input whose first `:` is followed by `/`, such as `https://host/path`, never takes
      the SSH form. */
  lemma {:induction false} ColonSlashNotSsh(s: string, i: nat)
    requires NoNewline(s)
    requires i + 1 < |s| && s[i] == ':' && s[i + 1] == '/'
    requires forall k :: 0 <= k < i ==> s[k] != ':'
    ensures SshMatch(s).None?
  {
    var a := Span(s, 0, UserChar);
    if 0 < a < |s| && s[a] == '@' {
      assert a < i;
      HostFromBeforeColonSlash(s, a + 1, i);
    }
    HostFromBeforeColonSlash(s, 0, i);
  }

  lemma {:induction false} HostFromBeforeColonSlash(s: string, j: nat, i: nat)
    requires NoNewline(s)
    requires j <= i && i + 1 < |s| && s[i] == ':' && s[i + 1] == '/'
    requires forall k :: 0 <= k < i ==> s[k] != ':'
    ensures HostFrom(s, j).None?
  {
    var h := Span(s, j, HostChar);
    assert h <= i;
  }

  /** `chomp('.git')`: one trailing `.git` is removed. */
  function ChompGit(p: string): (r: string)
    ensures |p| >= 4 && p[|p| - 4..] == ".git" ==> p == r + ".git"
    ensures !(|p| >= 4 && p[|p| - 4..] == ".git") ==> r == p
  {
    if |p| >= 4 && p[|p| - 4..] == ".git" then
      assert p == p[..|p| - 4] + p[|p| - 4..];
      p[..|p| - 4]
    else p
  }

  predicate IsSlash(c: char) {
    c == '/'
  }

  /** `sub(%r{^/+}, '')` on a string without line feeds: the leading run of `/` is removed. */
  function StripLeadingSlashes(p: string): (r: string)
    ensures |r| <= |p| && r == p[|p| - |r|..]
    ensures forall k :: 0 <= k < |p| - |r| ==> p[k] == '/'
    ensures r == [] || r[0] != '/'
  {
    var k := Span(p, 0, IsSlash);
    p[k..]
  }

  /** `sub(%r{/+$}, '')` on a string without line feeds: the trailing run of `/` is
      removed, since the leftmost match of `/+$` is the run that reaches the end. */
  function StripTrailingSlashes(p: string): (r: string)
    ensures |r| <= |p| && r == p[..|r|]
    ensures forall k :: |r| <= k < |p| ==> p[k] == '/'
    ensures r == [] || r[|r| - 1] != '/'
  {
    if p != [] && p[|p| - 1] == '/' then StripTrailingSlashes(p[..|p| - 1]) else p
  }

  /** A path as the URL classes store it: no `/` at either end. */
  predicate Normalized(p: string) {
    p == [] || (p[0] != '/' && p[|p| - 1] != '/')
  }

  /** The path normalisation of `parse`: chomp `.git`, then leading slashes, then trailing
      slashes. */
  function NormalizePath(p: string): (r: string)
    requires NoNewline(p)
    ensures Normalized(r)
    ensures NoNewline(r)
  {
    var c := ChompGit(p);
    var l := StripLeadingSlashes(c);
    var r := StripTrailingSlashes(l);
    assert forall k :: 0 <= k < |r| ==> r[k] == p[|c| - |l| + k];
    assert r != [] ==> r[0] == l[0];
    r
  }

  /** Surrounding slashes and one `.git` suffix are removed from a path that is otherwise
      normalised. */
  lemma {:induction false} NormalizeDecorated(lead: string, p: string)
    requires forall k :: 0 <= k < |lead| ==> lead[k] == '/'
    requires p != [] && p[0] != '/' && p[|p| - 1] != '/'
    requires NoNewline(lead + p + ".git")
    ensures NormalizePath(lead + p + ".git") == p
  {
    var s := lead + p + ".git";
    assert s[|s| - 4..] == ".git";
    assert ChompGit(s) == lead + p;
    StripLeadingSlashesRun(lead, p);
  }

  lemma {:induction false} StripLeadingSlashesRun(lead: string, p: string)
    requires forall k :: 0 <= k < |lead| ==> lead[k] == '/'
    requires p != [] && p[0] != '/'
    ensures StripLeadingSlashes(lead + p) == p
  {
    var t := lead + p;
    assert t[|lead|] == p[0];
    SpanStops(t, 0, |lead|, IsSlash);
    assert t[|lead|..] == p;
  }

  /** `.git` is chomped before the trailing slashes go, so a `.git` followed by a slash is
      kept. */
  lemma {:induction false} TrailingSlashKeepsGit(p: string, trail: string)
    requires p != [] && p[0] != '/' && p[|p| - 1] != '/'
    requires trail != [] && forall k :: 0 <= k < |trail| ==> trail[k] == '/'
    requires NoNewline(p + trail)
    ensures NormalizePath(p + trail) == p
  {
    var s := p + trail;
    assert s[|s| - 1] == '/';
    assert ChompGit(s) == s;
    assert StripLeadingSlashes(s) == s by {
      assert s[0] == p[0];
      SpanStops(s, 0, 0, IsSlash);
    }
    TrailingSlashesRemoved(p, trail);
  }

  lemma {:induction false} TrailingSlashesRemoved(p: string, trail: string)
    requires p != [] && p[|p| - 1] != '/'
    requires forall k :: 0 <= k < |trail| ==> trail[k] == '/'
    ensures StripTrailingSlashes(p + trail) == p
    decreases |trail|
  {
    if trail == [] {
      assert p + trail == p;
    } else {
      var s := p + trail;
      assert s[..|s| - 1] == p + trail[..|trail| - 1];
      TrailingSlashesRemoved(p, trail[..|trail| - 1]);
    }
  }

  /** The example `repo.git/`. */
  lemma {:induction false} RepoGitSlashExample()
    ensures NormalizePath("repo.git/") == "repo.git"
  {
    assert "repo.git/" == "repo.git" + "/";
    TrailingSlashKeepsGit("repo.git", "/");
  }

  /** The position of the last `/`. */
  function LastSlash(p: string): (r: Option<nat>)
    ensures r.Some? ==> r.value < |p| && p[r.value] == '/'
    ensures r.Some? ==> forall k :: r.value < k < |p| ==> p[k] != '/'
    ensures r.None? ==> forall k :: 0 <= k < |p| ==> p[k] != '/'
  {
    if p == [] then None
    else if p[|p| - 1] == '/' then Some(|p| - 1)
    else LastSlash(p[..|p| - 1])
  }

  /** File.basename of a normalised path: what follows the last `/`, or the whole path. */
  function Basename(p: string): (b: string)
    requires Normalized(p)
    ensures |b| <= |p| && b == p[|p| - |b|..]
    ensures forall k :: 0 <= k < |b| ==> b[k] != '/'
    ensures p != [] ==> b != []
    ensures LastSlash(p).None? ==> b == p
    ensures LastSlash(p).Some? ==> |b| < |p| && p[|p| - |b| - 1] == '/'
  {
    match LastSlash(p)
    case None => p
    case Some(i) => p[i + 1..]
  }

  /** File.dirname of a normalised path: `.` when there is no `/`, otherwise what precedes
      the last run of `/`. */
  function Dirname(p: string): (d: string)
    requires Normalized(p)
    ensures d != [] && Normalized(d)
    ensures LastSlash(p).None? ==> d == "."
    ensures LastSlash(p).Some? ==> |d| < |p| && d == p[..|d|] && p[|d|] == '/'
    ensures LastSlash(p).Some? ==> forall k :: |d| <= k <= LastSlash(p).value ==> p[k] == '/'
  {
    match LastSlash(p)
    case None => "."
    case Some(i) =>
      var d := StripTrailingSlashes(p[..i]);
      assert p[0] != '/' && d == p[..i][..|d|];
      assert d != [] && d[0] == p[0];
      d
  }

  /** A normalised path with a `/` is its dirname, a nonempty run of `/` and its basename. */
  lemma {:induction false} DirnameBasenameSplit(p: string)
    requires Normalized(p) && LastSlash(p).Some?
    ensures |Dirname(p)| + |Basename(p)| < |p|
    ensures p == Dirname(p) + p[|Dirname(p)|..|p| - |Basename(p)|] + Basename(p)
    ensures forall k :: |Dirname(p)| <= k < |p| - |Basename(p)| ==> p[k] == '/'
  {
    var i := LastSlash(p).value;
    var d := Dirname(p);
    var b := Basename(p);
    assert d == p[..i][..|d|];
    assert b == p[i + 1..];
    assert p == p[..|d|] + p[|d|..|p| - |b|] + p[|p| - |b|..];
  }

  /** The outcome of Ruby's URI.parse on the raw URL, which the model takes as a parameter:
      the URI's user, host, path and string form, or the InvalidURIError it raises. */
  datatype UriOutcome =
    | UriParsed(user: Option<string>, host: Option<string>, path: Option<string>, text: string)
    | UriInvalid

  /** URI.parse never yields a path holding a line feed. */
  predicate UriWellFormed(uri: UriOutcome) {
    uri.UriParsed? && uri.path.Some? ==> NoNewline(uri.path.value)
  }

  /** The errors `parse` can raise: URI::InvalidURIError from URI.parse, or the NoMethodError
      of calling `chomp` on a nil path. */
  datatype UrlError = InvalidUri | NilPath

  /** The fields of a URL object after `parse`. */
  datatype UrlFields = UrlFields(url: Option<string>, user: Option<string>, host: Option<string>, path: string)

  /** What `parse` computes in both URL classes: the SSH captures when SSH_RE matches (with
      the raw input as url), otherwise URI.parse's fields, then the normalised path. */
  function ParsedFields(raw: string, uri: UriOutcome): (r: Result<UrlFields, UrlError>)
    requires NoNewline(raw) && UriWellFormed(uri)
    ensures r.Success? ==> Normalized(r.value.path)
    ensures SshMatch(raw).Some? ==> r.Success? && r.value.url == Some(raw)
    ensures SshMatch(raw).Some? ==> r.value.user == SshMatch(raw).value.user && r.value.host == Some(SshMatch(raw).value.host)
    ensures SshMatch(raw).None? ==> (r.Failure? <==> uri.UriInvalid? || uri.path.None?)
    ensures SshMatch(raw).None? && uri.UriInvalid? ==> r == Failure(InvalidUri)
    ensures SshMatch(raw).None? && uri.UriParsed? && r.Success? ==>
      r.value.url == Some(uri.text) && r.value.user == uri.user && r.value.host == uri.host
  {
    match SshMatch(raw)
    case Some(m) =>
      Success(UrlFields(Some(raw), m.user, Some(m.host), NormalizePath(m.path)))
    case None =>
      match uri
      case UriInvalid => Failure(InvalidUri)
      case UriParsed(user, host, path, text) =>
        if path.None? then Failure(NilPath)
        else Success(UrlFields(Some(text), user, host, NormalizePath(path.value)))
  }

  /** The bridge from the two `parse` methods to ParsedFields, unfolding its body: the fields
      `parse` holds just before the chomp step (the SSH captures, or URI.parse's fields with a
      path) become ParsedFields once their path is normalised. */
  lemma {:induction false} ParsedFieldsNormalizes(raw: string, uri: UriOutcome, f: UrlFields)
    requires NoNewline(raw) && UriWellFormed(uri)
    requires SshMatch(raw).Some? ==> f == UrlFields(Some(raw), SshMatch(raw).value.user, Some(SshMatch(raw).value.host), SshMatch(raw).value.path)
    requires SshMatch(raw).None? ==> uri.UriParsed? && uri.path == Some(f.path) && f == UrlFields(Some(uri.text), uri.user, uri.host, f.path)
    ensures NoNewline(f.path)
    ensures ParsedFields(raw, uri) == Success(f.(path := NormalizePath(f.path)))
  {
  }

  /** Without the SSH form, `parse` fails exactly when URI.parse raises or gives no path. */
  lemma {:induction false} ParsedFieldsFails(raw: string, uri: UriOutcome)
    requires NoNewline(raw) && UriWellFormed(uri) && SshMatch(raw).None?
    ensures uri.UriInvalid? ==> ParsedFields(raw, uri) == Failure(InvalidUri)
    ensures uri.UriParsed? && uri.path.None? ==> ParsedFields(raw, uri) == Failure(NilPath)
  {
  }

  /** An input without `:` never takes the SSH form. */
  lemma {:induction false} NoColonNotSsh(s: string)
    requires NoNewline(s)
    requires forall k :: 0 <= k < |s| ==> s[k] != ':'
    ensures SshMatch(s).None?
  {
    var a := Span(s, 0, UserChar);
    if 0 < a < |s| && s[a] == '@' {
      var h := Span(s, a + 1, HostChar);
    }
    var h := Span(s, 0, HostChar);
  }

  /** The SSH example `git@gitlab.com:orga/repo.git`. */
  lemma {:induction false} SshExample()
    ensures NoNewline("git@gitlab.com:orga/repo.git")
    ensures ParsedFields("git@gitlab.com:orga/repo.git", UriInvalid)
      == Success(UrlFields(Some("git@gitlab.com:orga/repo.git"), Some("git"), Some("gitlab.com"), "orga/repo"))
  {
    SshExampleMatch();
    SshExamplePath();
  }

  lemma {:induction false} SshExampleMatch()
    ensures NoNewline("git@gitlab.com:orga/repo.git")
    ensures SshMatch("git@gitlab.com:orga/repo.git") == Some(SshParts(Some("git"), "gitlab.com", "orga/repo.git"))
  {
    SshExampleParts();
    SshMatchWithUser(SshParts(Some("git"), "gitlab.com", "orga/repo.git"));
  }

  lemma {:induction false} SshExampleParts()
    ensures SshText(SshParts(Some("git"), "gitlab.com", "orga/repo.git")) == "git@gitlab.com:orga/repo.git"
    ensures ValidParts(SshParts(Some("git"), "gitlab.com", "orga/repo.git"))
    ensures NoNewline("git@gitlab.com:orga/repo.git")
  {
    SshExampleText();
    SshExampleValid();
  }

  lemma {:induction false} SshExampleText()
    ensures SshText(SshParts(Some("git"), "gitlab.com", "orga/repo.git")) == "git@gitlab.com:orga/repo.git"
  {
  }

  lemma {:induction false} SshExampleValid()
    ensures ValidParts(SshParts(Some("git"), "gitlab.com", "orga/repo.git"))
  {
  }

  lemma {:induction false} SshExamplePath()
    ensures NoNewline("orga/repo.git") && NormalizePath("orga/repo.git") == "orga/repo"
  {
    assert "orga/repo.git" == "" + "orga/repo" + ".git";
    NormalizeDecorated("", "orga/repo");
  }

  /** The example `github.com:rubocop`, which has no user. */
  lemma {:induction false} HostOnlyExample()
    ensures NoNewline("github.com:rubocop")
    ensures ParsedFields("github.com:rubocop", UriInvalid)
      == Success(UrlFields(Some("github.com:rubocop"), None, Some("github.com"), "rubocop"))
  {
    HostOnlyExampleParts();
    SshMatchWithoutUser(SshParts(None, "github.com", "rubocop"));
  }

  lemma {:induction false} HostOnlyExampleParts()
    ensures SshText(SshParts(None, "github.com", "rubocop")) == "github.com:rubocop"
    ensures ValidParts(SshParts(None, "github.com", "rubocop")) && NoNewline("github.com:rubocop")
    ensures forall k :: 0 <= k < |"github.com"| ==> "github.com"[k] != '@'
    ensures forall k :: 0 <= k < |"rubocop"| ==> "rubocop"[k] != '@'
  {
  }

  /** The example `https://gitlab.com/orga/repo.git`, which URI.parse reads. */
  lemma {:induction false} HttpExample(uri: UriOutcome)
    requires uri == UriParsed(None, Some("gitlab.com"), Some("/orga/repo.git"), "https://gitlab.com/orga/repo.git")
    ensures NoNewline("https://gitlab.com/orga/repo.git") && UriWellFormed(uri)
    ensures ParsedFields("https://gitlab.com/orga/repo.git", uri)
      == Success(UrlFields(Some("https://gitlab.com/orga/repo.git"), None, Some("gitlab.com"), "orga/repo"))
  {
    HttpExampleNotSsh();
    HttpExamplePath();
  }

  lemma {:induction false} HttpExampleNotSsh()
    ensures NoNewline("https://gitlab.com/orga/repo.git")
    ensures SshMatch("https://gitlab.com/orga/repo.git").None?
  {
    ColonSlashNotSsh("https://gitlab.com/orga/repo.git", 5);
  }

  lemma {:induction false} HttpExamplePath()
    ensures NoNewline("/orga/repo.git") && NormalizePath("/orga/repo.git") == "orga/repo"
  {
    assert "/orga/repo.git" == "/" + "orga/repo" + ".git";
    NormalizeDecorated("/", "orga/repo");
  }

  /** The example `/git/local/url`, a local path URI.parse reads. */
  lemma {:induction false} LocalExample(uri: UriOutcome)
    requires uri == UriParsed(None, None, Some("/git/local/url"), "/git/local/url")
    ensures NoNewline("/git/local/url") && UriWellFormed(uri)
    ensures ParsedFields("/git/local/url", uri) == Success(UrlFields(Some("/git/local/url"), None, None, "git/local/url"))
  {
    LocalExampleNotSsh();
    LocalExamplePath();
  }

  lemma {:induction false} LocalExampleNotSsh()
    ensures NoNewline("/git/local/url") && SshMatch("/git/local/url").None?
  {
    NoColonNotSsh("/git/local/url");
  }

  lemma {:induction false} LocalExamplePath()
    ensures NoNewline("/git/local/url") && NormalizePath("/git/local/url") == "git/local/url"
  {
    var p := "git/local/url";
    assert p[|p| - 4..] == "/url";
    assert "/git/local/url" == "/" + p;
    NormalizeLeading("/", p);
  }

  /** Leading slashes are removed from a path that is otherwise normalised and does not
      end in `.git`. */
  lemma {:induction false} NormalizeLeading(lead: string, p: string)
    requires forall k :: 0 <= k < |lead| ==> lead[k] == '/'
    requires p != [] && p[0] != '/' && p[|p| - 1] != '/'
    requires |p| >= 4 ==> p[|p| - 4..] != ".git"
    requires |p| < 4 ==> |lead + p| < 4 || (lead + p)[|lead + p| - 4..] != ".git"
    requires NoNewline(lead + p)
    ensures NormalizePath(lead + p) == p
  {
    var s := lead + p;
    if |p| >= 4 {
      assert s[|s| - 4..] == p[|p| - 4..];
    }
    assert ChompGit(s) == s;
    StripLeadingSlashesRun(lead, p);
  }

  /** The last `/` of `d/b` is the one before `b` when `b` holds none. */
  lemma {:induction false} LastSlashBefore(d: string, b: string)
    requires forall k :: 0 <= k < |b| ==> b[k] != '/'
    ensures LastSlash(d + "/" + b) == Some(|d|)
    decreases |b|
  {
    var p := d + "/" + b;
    if b == [] {
      assert p[|p| - 1] == '/';
    } else {
      assert p[|p| - 1] == b[|b| - 1];
      assert p[..|p| - 1] == d + "/" + b[..|b| - 1];
      LastSlashBefore(d, b[..|b| - 1]);
    }
  }

  /** The dirname and basename of `d/b`, for a normalised `d` and a `b` without `/`. */
  lemma {:induction false} DirnameBasenameOf(d: string, b: string)
    requires d != [] && Normalized(d)
    requires b != [] && forall k :: 0 <= k < |b| ==> b[k] != '/'
    ensures Normalized(d + "/" + b)
    ensures Dirname(d + "/" + b) == d && Basename(d + "/" + b) == b
  {
    var p := d + "/" + b;
    LastSlashBefore(d, b);
    assert p[..|d|] == d && p[|d| + 1..] == b;
  }

  /** The dirname and basename of the example paths. */
  lemma {:induction false} DirnameBasenameExamples()
    ensures Dirname("git/local/url") == "git/local" && Basename("git/local/url") == "url"
    ensures Dirname("orga/repo") == "orga" && Basename("orga/repo") == "repo"
    ensures Dirname("rubocop") == "." && Basename("rubocop") == "rubocop"
  {
    assert "git/local/url" == "git/local" + "/" + "url";
    DirnameBasenameOf("git/local", "url");
    assert "orga/repo" == "orga" + "/" + "repo";
    DirnameBasenameOf("orga", "repo");
    assert LastSlash("rubocop").None?;
  }
}
