/** Gitw::Repository::URL (lib/gitw/repository/url.rb): the same URL object as
    Gitw::Git::URL, with `parse` split into `parse_as_ssh` and `parse_as_uri`. */
module RepositoryUrl {
  import opened Wrappers
  import opened Text
  import opened UrlSyntax
  import GitUrl

  class URL {
    const rawUrl: string
    var url: Option<string>
    var user: Option<string>
    var host: Option<string>
    var path: Option<string>

    /** A parsed URL: its path is set and normalised. */
    predicate Valid()
      reads this
    {
      path.Some? && Normalized(path.value)
    }

    /** The field values, once the path is set. */
    function Fields(): (f: UrlFields)
      reads this
      requires path.Some?
      ensures f.path == path.value
    {
      UrlFields(url, user, host, path.value)
    }

    /** The assignments of `initialize` that precede the call to `parse`. */
    constructor Blank(raw: string)
      ensures rawUrl == raw
      ensures url.None? && user.None? && host.None? && path.None?
    {
      rawUrl := raw;
      url := None;
      user := None;
      host := None;
      path := None;
    }

    /** `parse_as_ssh`: when SSH_RE matches, the fields take its captures and the raw text,
        and the answer is true; otherwise nothing changes. */
    method ParseAsSsh() returns (matched: bool)
      requires NoNewline(rawUrl)
      modifies this
      ensures matched <==> SshMatch(rawUrl).Some?
      ensures matched ==> url == Some(rawUrl) && user == SshMatch(rawUrl).value.user
      ensures matched ==> host == Some(SshMatch(rawUrl).value.host) && path == Some(SshMatch(rawUrl).value.path)
      ensures !matched ==> unchanged(this)
    {
      var m := SshMatch(rawUrl);
      if m.None? {
        return false;
      }
      user := m.value.user;
      host := Some(m.value.host);
      path := Some(m.value.path);
      url := Some(rawUrl);
      return true;
    }

    /** `parse_as_uri`: the fields take URI.parse's user, host, path and string form, and
        the answer is true; URI.parse raising leaves the fields as they were. */
    method ParseAsUri(uri: UriOutcome) returns (r: Result<bool, UrlError>)
      modifies this
      ensures uri.UriInvalid? ==> r == Failure(InvalidUri) && unchanged(this)
      ensures uri.UriParsed? ==> r == Success(true)
      ensures uri.UriParsed? ==> url == Some(uri.text) && user == uri.user && host == uri.host && path == uri.path
    {
      match uri
      case UriInvalid =>
        return Failure(InvalidUri);
      case UriParsed(u, h, p, text) =>
        user := u;
        host := h;
        path := p;
        url := Some(text);
        return Success(true);
    }

    /** `parse`: `parse_as_ssh || parse_as_uri`, then the path is normalised (a nil path
        aborts it). */
    method Parse(uri: UriOutcome) returns (err: Option<UrlError>)
      requires NoNewline(rawUrl) && UriWellFormed(uri)
      modifies this
      ensures err.None? <==> ParsedFields(rawUrl, uri).Success?
      ensures err.Some? ==> err.value == ParsedFields(rawUrl, uri).error
      ensures err.None? ==> Valid() && Fields() == ParsedFields(rawUrl, uri).value
    {
      var matched := ParseAsSsh();
      if !matched {
        ParsedFieldsFails(rawUrl, uri);
        var r := ParseAsUri(uri);
        if r.Failure? {
          return Some(r.error);
        }
      }
      if path.None? {
        return Some(NilPath);
      }
      ParsedFieldsNormalizes(rawUrl, uri, UrlFields(url, user, host, path.value));
      path := Some(NormalizePath(path.value));
      return None;
    }

    /** `URL.new(raw_url)`: a fresh parsed URL, or the error `parse` raises. */
    static method New(raw: string, uri: UriOutcome) returns (r: Result<URL, UrlError>)
      requires NoNewline(raw) && UriWellFormed(uri)
      ensures r.Success? <==> ParsedFields(raw, uri).Success?
      ensures r.Failure? ==> r.error == ParsedFields(raw, uri).error
      ensures r.Success? ==> fresh(r.value) && r.value.rawUrl == raw && r.value.Valid()
      ensures r.Success? ==> r.value.Fields() == ParsedFields(raw, uri).value
    {
      var u := new URL.Blank(raw);
      var err := u.Parse(uri);
      if err.Some? {
        return Failure(err.value);
      }
      return Success(u);
    }

    /** `path_dirname`. */
    function PathDirname(): (d: string)
      reads this
      requires Valid()
      ensures d != [] && Normalized(d)
      ensures LastSlash(path.value).None? ==> d == "."
      ensures LastSlash(path.value).Some? ==> |d| < |path.value| && d == path.value[..|d|] && path.value[|d|] == '/'
      ensures LastSlash(path.value).Some? ==> forall k :: |d| <= k <= LastSlash(path.value).value ==> path.value[k] == '/'
    {
      Dirname(path.value)
    }

    /** `path_basename`. */
    function PathBasename(): (b: string)
      reads this
      requires Valid()
      ensures forall k :: 0 <= k < |b| ==> b[k] != '/'
      ensures |b| <= |path.value| && b == path.value[|path.value| - |b|..]
      ensures path.value != [] ==> b != []
      ensures LastSlash(path.value).None? ==> b == path.value
      ensures LastSlash(path.value).Some? ==> |b| < |path.value| && path.value[|path.value| - |b| - 1] == '/'
    {
      Basename(path.value)
    }

    /** `to_s`: the stored url, or the empty string for nil. */
    function ToS(): (t: string)
      reads this
      ensures url.Some? ==> t == url.value
      ensures url.None? ==> t == ""
    {
      if url.Some? then url.value else ""
    }
  }

  /** The two URL classes agree: on every input both fail with the same error or both
      produce the same fields. */
  method AgreesWithGitUrl(raw: string, uri: UriOutcome) returns (agree: bool)
    requires NoNewline(raw) && UriWellFormed(uri)
    ensures agree
  {
    var mine := URL.New(raw, uri);
    var theirs := GitUrl.URL.New(raw, uri);
    if mine.Success? {
      agree := theirs.Success? && mine.value.Fields() == theirs.value.Fields()
        && mine.value.ToS() == theirs.value.ToS();
    } else {
      agree := theirs.Failure? && mine.error == theirs.error;
    }
  }

  /** The HTTP example through the class, with the fields URI.parse gives for it. */
  method HttpUrlExample() {
    var uri := UriParsed(None, Some("gitlab.com"), Some("/orga/repo.git"), "https://gitlab.com/orga/repo.git");
    HttpExample(uri);
    DirnameBasenameExamples();
    var r := URL.New("https://gitlab.com/orga/repo.git", uri);
    var u := r.value;
    assert u.ToS() == "https://gitlab.com/orga/repo.git";
    assert u.host == Some("gitlab.com") && u.user.None?;
    assert u.PathDirname() == "orga" && u.PathBasename() == "repo";
  }

  /** The host-only example `github.com:rubocop` through the class. */
  method HostOnlyUrlExample() {
    HostOnlyExample();
    DirnameBasenameExamples();
    var r := URL.New("github.com:rubocop", UriInvalid);
    var u := r.value;
    assert u.user.None? && u.host == Some("github.com");
    assert u.PathDirname() == "." && u.PathBasename() == "rubocop";
  }
}
