/** Gitw::Git::URL (lib/gitw/git/url.rb): a URL object whose `parse`, run by the
    constructor, fills url, user, host and path from the SSH form or from URI.parse. */
module GitUrl {
  import opened Wrappers
  import opened Text
  import opened UrlSyntax

  class URL {
    const rawUrl: string
    var url: Option<string>
    var user: Option<string>
    var host: Option<string>
    var path: Option<string>

    /** A parsed URL: its path is set and normalised. */
    predicate Valid()
      reads this
    {
      path.Some? && Normalized(path.value)
    }

    /** The field values, once the path is set. */
    function Fields(): (f: UrlFields)
      reads this
      requires path.Some?
      ensures f.path == path.value
    {
      UrlFields(url, user, host, path.value)
    }

    /** The assignments of `initialize` that precede the call to `parse`. */
    constructor Blank(raw: string)
      ensures rawUrl == raw
      ensures url.None? && user.None? && host.None? && path.None?
    {
      rawUrl := raw;
      url := None;
      user := None;
      host := None;
      path := None;
    }

    /** `parse`: the SSH captures, or else URI.parse's fields (URI.parse raising aborts it),
        then the path is normalised (a nil path aborts it). */
    method Parse(uri: UriOutcome) returns (err: Option<UrlError>)
      requires NoNewline(rawUrl) && UriWellFormed(uri)
      modifies this
      ensures err.None? <==> ParsedFields(rawUrl, uri).Success?
      ensures err.Some? ==> err.value == ParsedFields(rawUrl, uri).error
      ensures err.None? ==> Valid() && Fields() == ParsedFields(rawUrl, uri).value
    {
      var m := SshMatch(rawUrl);
      if m.Some? {
        user := m.value.user;
        host := Some(m.value.host);
        path := Some(m.value.path);
        url := Some(rawUrl);
      } else {
        ParsedFieldsFails(rawUrl, uri);
        if uri.UriInvalid? {
          return Some(InvalidUri);
        }
        user := uri.user;
        host := uri.host;
        path := uri.path;
        url := Some(uri.text);
      }
      if path.None? {
        return Some(NilPath);
      }
      ParsedFieldsNormalizes(rawUrl, uri, UrlFields(url, user, host, path.value));
      path := Some(NormalizePath(path.value));
      return None;
    }

    /** `URL.new(raw_url)`: a fresh parsed URL, or the error `parse` raises. */
    static method New(raw: string, uri: UriOutcome) returns (r: Result<URL, UrlError>)
      requires NoNewline(raw) && UriWellFormed(uri)
      ensures r.Success? <==> ParsedFields(raw, uri).Success?
      ensures r.Failure? ==> r.error == ParsedFields(raw, uri).error
      ensures r.Success? ==> fresh(r.value) && r.value.rawUrl == raw && r.value.Valid()
      ensures r.Success? ==> r.value.Fields() == ParsedFields(raw, uri).value
    {
      var u := new URL.Blank(raw);
      var err := u.Parse(uri);
      if err.Some? {
        return Failure(err.value);
      }
      return Success(u);
    }

    /** `path_dirname`. */
    function PathDirname(): (d: string)
      reads this
      requires Valid()
      ensures d != [] && Normalized(d)
      ensures LastSlash(path.value).None? ==> d == "."
      ensures LastSlash(path.value).Some? ==> |d| < |path.value| && d == path.value[..|d|] && path.value[|d|] == '/'
      ensures LastSlash(path.value).Some? ==> forall k :: |d| <= k <= LastSlash(path.value).value ==> path.value[k] == '/'
    {
      Dirname(path.value)
    }

    /** `path_basename`. */
    function PathBasename(): (b: string)
      reads this
      requires Valid()
      ensures forall k :: 0 <= k < |b| ==> b[k] != '/'
      ensures |b| <= |path.value| && b == path.value[|path.value| - |b|..]
      ensures path.value != [] ==> b != []
      ensures LastSlash(path.value).None? ==> b == path.value
      ensures LastSlash(path.value).Some? ==> |b| < |path.value| && path.value[|path.value| - |b| - 1] == '/'
    {
      Basename(path.value)
    }

    /** `to_s`: the stored url, or the empty string for nil. */
    function ToS(): (t: string)
      reads this
      ensures url.Some? ==> t == url.value
      ensures url.None? ==> t == ""
    {
      if url.Some? then url.value else ""
    }
  }

  /** The SSH example through the class: `git@gitlab.com:orga/repo.git` keeps its text and
      splits into user `git`, host `gitlab.com` and path `orga/repo`. */
  method SshUrlExample() {
    SshExample();
    DirnameBasenameExamples();
    var r := URL.New("git@gitlab.com:orga/repo.git", UriInvalid);
    var u := r.value;
    assert u.ToS() == "git@gitlab.com:orga/repo.git";
    assert u.user == Some("git") && u.host == Some("gitlab.com");
    assert u.PathDirname() == "orga" && u.PathBasename() == "repo";
  }

  /** The local example through the class, with the fields URI.parse gives for it. */
  method LocalUrlExample() {
    var uri := UriParsed(None, None, Some("/git/local/url"), "/git/local/url");
    LocalExample(uri);
    DirnameBasenameExamples();
    var r := URL.New("/git/local/url", uri);
    var u := r.value;
    assert u.ToS() == "/git/local/url";
    assert u.PathDirname() == "git/local" && u.PathBasename() == "url";
  }

  /** An input that is not SSH and that URI.parse rejects fails with its error. */
  method InvalidUrlExample(raw: string)
    requires NoNewline(raw) && SshMatch(raw).None?
  {
    var r := URL.New(raw, UriInvalid);
    assert r == Failure(InvalidUri);
  }
}

