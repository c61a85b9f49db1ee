/** The remote listing parser of lib/gitw/git/remote_ref.rb: each line of `git remote -v`
    becomes a RemoteRef holding its fetch or push URL, lines of the same remote are merged,
    and RemoteRefs indexes the merged refs by name and by URL. */
module RemoteParser {
  import opened Wrappers
  import opened Text

  /** The mode a remote line ends with. */
  datatype Mode = Fetch | Push

  function ModeText(m: Mode): (t: string)
    ensures t != [] && t[0] == '(' && t[|t| - 1] == ')'
    ensures forall k :: 0 <= k < |t| ==> !IsStripChar(t[k])
  {
    match m
    case Fetch => "(fetch)"
    case Push => "(push)"
  }

  /** The three captures of REMOTE_LINE_RE. */
  datatype RemoteLine = RemoteLine(name: string, url: string, mode: Mode)

  /** A nonempty run of whitespace. */
  predicate Spaces(w: string) {
    w != [] && forall k :: 0 <= k < |w| ==> IsSpace(w[k])
  }

  /** A remote name `\w+` and a URL `[^\s]+`. */
  predicate WellFormed(name: string, url: string) {
    && name != [] && (forall k :: 0 <= k < |name| ==> IsWordChar(name[k]))
    && url != [] && (forall k :: 0 <= k < |url| ==> NotSpace(url[k]))
  }

  /** The text of a remote line: name, whitespace, URL, whitespace, mode. */
  function LineText(name: string, ws1: string, url: string, ws2: string, m: Mode): string {
    name + (ws1 + (url + (ws2 + ModeText(m))))
  }

  /** REMOTE_LINE_RE matched against a string without line feeds, read as a scan: the
      word run, the whitespace run, the non-whitespace run and the whitespace run are all
      maximal, and what is left must be the mode exactly. */
  function MatchRemoteLine(s: string): (r: Option<RemoteLine>)
    requires NoNewline(s)
    ensures r.Some? ==> |r.value.name| + |r.value.url| + |ModeText(r.value.mode)| + 2 <= |s|
  {
    var a := Span(s, 0, IsWordChar);
    var b := Span(s, a, IsSpace);
    var c := Span(s, b, NotSpace);
    var d := Span(s, c, IsSpace);
    if a == 0 || b == a || c == b || d == c then None
    else if s[d..] == "(fetch)" then Some(RemoteLine(s[..a], s[b..c], Fetch))
    else if s[d..] == "(push)" then Some(RemoteLine(s[..a], s[b..c], Push))
    else None
  }

  /** The four scans of MatchRemoteLine over `s` end at `a`, `b`, `c` and `d`. */
  predicate Scans(s: string, a: nat, b: nat, c: nat, d: nat) {
    && Span(s, 0, IsWordChar) == a
    && Span(s, a, IsSpace) == b
    && Span(s, b, NotSpace) == c
    && Span(s, c, IsSpace) == d
  }

  /** A match has a nonempty word-character name and a nonempty whitespace-free URL. */
  lemma {:induction false} MatchWellFormed(s: string)
    requires NoNewline(s) && MatchRemoteLine(s).Some?
    ensures WellFormed(MatchRemoteLine(s).value.name, MatchRemoteLine(s).value.url)
  {
    var a := Span(s, 0, IsWordChar);
    var b := Span(s, a, IsSpace);
    var c := Span(s, b, NotSpace);
  }

  /** Where each part of a remote line sits in its text. */
  lemma {:induction false} LineTextParts(name: string, ws1: string, url: string, ws2: string, m: Mode)
    ensures |LineText(name, ws1, url, ws2, m)| == |name| + |ws1| + |url| + |ws2| + |ModeText(m)|
    ensures forall k :: 0 <= k < |name| ==> LineText(name, ws1, url, ws2, m)[k] == name[k]
    ensures forall k :: 0 <= k < |ws1| ==> LineText(name, ws1, url, ws2, m)[|name| + k] == ws1[k]
    ensures forall k :: 0 <= k < |url| ==> LineText(name, ws1, url, ws2, m)[|name| + |ws1| + k] == url[k]
    ensures forall k :: 0 <= k < |ws2| ==> LineText(name, ws1, url, ws2, m)[|name| + |ws1| + |url| + k] == ws2[k]
    ensures LineText(name, ws1, url, ws2, m)[|name| + |ws1| + |url| + |ws2|..] == ModeText(m)
  {
  }

  /** The scans of MatchRemoteLine stop at the boundaries of the parts of a remote line. */
  lemma {:induction false} LineTextSpans(name: string, ws1: string, url: string, ws2: string, m: Mode)
    requires WellFormed(name, url) && Spaces(ws1) && Spaces(ws2)
    ensures Span(LineText(name, ws1, url, ws2, m), 0, IsWordChar) == |name|
    ensures Span(LineText(name, ws1, url, ws2, m), |name|, IsSpace) == |name| + |ws1|
    ensures Span(LineText(name, ws1, url, ws2, m), |name| + |ws1|, NotSpace) == |name| + |ws1| + |url|
    ensures Span(LineText(name, ws1, url, ws2, m), |name| + |ws1| + |url|, IsSpace) == |name| + |ws1| + |url| + |ws2|
  {
    SpanName(name, ws1, url, ws2, m);
    SpanGap(name, ws1, url, ws2, m);
    SpanUrl(name, ws1, url, ws2, m);
    SpanGap2(name, ws1, url, ws2, m);
  }

  lemma {:induction false} SpanName(name: string, ws1: string, url: string, ws2: string, m: Mode)
    requires WellFormed(name, url) && Spaces(ws1)
    ensures Span(LineText(name, ws1, url, ws2, m), 0, IsWordChar) == |name|
  {
    var r2 := ws1 + (url + (ws2 + ModeText(m)));
    assert r2[0] == ws1[0];
    SpanPrefix(name, r2, IsWordChar);
  }

  lemma {:induction false} SpanGap(name: string, ws1: string, url: string, ws2: string, m: Mode)
    requires WellFormed(name, url) && Spaces(ws1)
    ensures Span(LineText(name, ws1, url, ws2, m), |name|, IsSpace) == |name| + |ws1|
  {
    var r3 := url + (ws2 + ModeText(m));
    assert r3[0] == url[0] && NotSpace(url[0]);
    SpanShift(name, ws1 + r3, 0, IsSpace);
    SpanPrefix(ws1, r3, IsSpace);
  }

  lemma {:induction false} SpanUrl(name: string, ws1: string, url: string, ws2: string, m: Mode)
    requires WellFormed(name, url) && Spaces(ws2)
    ensures Span(LineText(name, ws1, url, ws2, m), |name| + |ws1|, NotSpace) == |name| + |ws1| + |url|
  {
    var r4 := ws2 + ModeText(m);
    var r3 := url + r4;
    assert r4[0] == ws2[0];
    SpanShift(name, ws1 + r3, |ws1|, NotSpace);
    SpanShift(ws1, r3, 0, NotSpace);
    SpanPrefix(url, r4, NotSpace);
  }

  lemma {:induction false} SpanGap2(name: string, ws1: string, url: string, ws2: string, m: Mode)
    requires Spaces(ws2)
    ensures Span(LineText(name, ws1, url, ws2, m), |name| + |ws1| + |url|, IsSpace) == |name| + |ws1| + |url| + |ws2|
  {
    var mt := ModeText(m);
    var r4 := ws2 + mt;
    var r3 := url + r4;
    SpanShift(name, ws1 + r3, |ws1| + |url|, IsSpace);
    SpanShift(ws1, r3, |url|, IsSpace);
    SpanShift(url, r4, 0, IsSpace);
    SpanPrefix(ws2, mt, IsSpace);
  }

  /** A remote line has a line feed only where its whitespace does. */
  lemma {:induction false} LineTextNoNewline(name: string, ws1: string, url: string, ws2: string, m: Mode)
    requires WellFormed(name, url) && NoNewline(ws1) && NoNewline(ws2)
    ensures NoNewline(LineText(name, ws1, url, ws2, m))
  {
    var mt := ModeText(m);
    NoNewlineConcat(ws2, mt);
    NoNewlineConcat(url, ws2 + mt);
    NoNewlineConcat(ws1, url + (ws2 + mt));
    NoNewlineConcat(name, ws1 + (url + (ws2 + mt)));
  }

  /** Every well-formed remote line is recognised, with its name, URL and mode. */
  lemma {:induction false} MatchComplete(name: string, ws1: string, url: string, ws2: string, m: Mode)
    requires WellFormed(name, url) && Spaces(ws1) && Spaces(ws2) && NoNewline(ws1) && NoNewline(ws2)
    ensures NoNewline(LineText(name, ws1, url, ws2, m))
    ensures MatchRemoteLine(LineText(name, ws1, url, ws2, m)) == Some(RemoteLine(name, url, m))
  {
    LineTextScan(name, ws1, url, ws2, m);
    LineTextSlices(name, ws1, url, ws2, m);
    MatchAt(LineText(name, ws1, url, ws2, m), |name|, |name| + |ws1|, |name| + |ws1| + |url|,
            |name| + |ws1| + |url| + |ws2|, name, url, m);
  }

  /** The facts MatchAt needs, for a well-formed remote line. */
  lemma {:induction false} LineTextScan(name: string, ws1: string, url: string, ws2: string, m: Mode)
    requires WellFormed(name, url) && Spaces(ws1) && Spaces(ws2) && NoNewline(ws1) && NoNewline(ws2)
    ensures NoNewline(LineText(name, ws1, url, ws2, m))
    ensures 0 < |name| < |name| + |ws1| < |name| + |ws1| + |url| < |name| + |ws1| + |url| + |ws2|
    ensures |name| + |ws1| + |url| + |ws2| <= |LineText(name, ws1, url, ws2, m)|
    ensures Scans(LineText(name, ws1, url, ws2, m), |name|, |name| + |ws1|, |name| + |ws1| + |url|,
                  |name| + |ws1| + |url| + |ws2|)
    ensures LineText(name, ws1, url, ws2, m)[|name| + |ws1| + |url| + |ws2|..] == ModeText(m)
  {
    LineTextNoNewline(name, ws1, url, ws2, m);
    LineTextSpans(name, ws1, url, ws2, m);
    LineTextSlices(name, ws1, url, ws2, m);
  }

  /** MatchRemoteLine on a text whose four scans end at the given positions and whose tail
      is a mode's text: the name and the URL are the slices the scans delimit. */
  lemma {:induction false} MatchAt(s: string, a: nat, b: nat, c: nat, d: nat, name: string, url: string, m: Mode)
    requires NoNewline(s) && 0 < a < b < c < d <= |s|
    requires Scans(s, a, b, c, d)
    requires s[d..] == ModeText(m) && s[..a] == name && s[b..c] == url
    ensures MatchRemoteLine(s) == Some(RemoteLine(name, url, m))
  {
    if m == Push {
      assert s[d..][1] != "(fetch)"[1];
    }
  }

  /** The name, the URL and the mode text are slices of a remote line. */
  lemma {:induction false} LineTextSlices(name: string, ws1: string, url: string, ws2: string, m: Mode)
    ensures LineText(name, ws1, url, ws2, m)[..|name|] == name
    ensures LineText(name, ws1, url, ws2, m)[|name| + |ws1|..|name| + |ws1| + |url|] == url
    ensures LineText(name, ws1, url, ws2, m)[|name| + |ws1| + |url| + |ws2|..] == ModeText(m)
  {
    LineTextParts(name, ws1, url, ws2, m);
  }

  /** Nothing but a well-formed remote line is recognised. */
  lemma {:induction false} MatchSound(s: string)
    requires NoNewline(s) && MatchRemoteLine(s).Some?
    ensures exists ws1, ws2 ::
      (Spaces(ws1) && Spaces(ws2) &&
       s == LineText(MatchRemoteLine(s).value.name, ws1, MatchRemoteLine(s).value.url, ws2,
                     MatchRemoteLine(s).value.mode))
  {
    var r := MatchRemoteLine(s).value;
    var a := Span(s, 0, IsWordChar);
    var b := Span(s, a, IsSpace);
    var c := Span(s, b, NotSpace);
    var d := Span(s, c, IsSpace);
    var ws1, ws2 := s[a..b], s[c..d];
    assert Spaces(ws1) && Spaces(ws2);
    assert r.name == s[..a] && r.url == s[b..c] && ModeText(r.mode) == s[d..];
    Reassemble(s, a, b, c, d);
    assert s == LineText(r.name, ws1, r.url, ws2, r.mode);
  }

  /** The fields of a remote ref. */
  datatype RefValue = RefValue(name: string, fetch: Option<string>, push: Option<string>)

  /** `RemoteRef.parse`: the line is stripped first; a recognised line sets exactly the
      field its mode names to its URL. A text that still holds a line feed once stripped is
      answered with nil; no line of `each_line` is such a text (StripLineNoNewline). */
  function ParseRef(line: string): (r: Option<RefValue>)
    ensures r.Some? ==> (r.value.fetch.Some? <==> r.value.push.None?)
  {
    var s := Strip(line);
    if !NoNewline(s) then None
    else match MatchRemoteLine(s)
    case None => None
    case Some(l) =>
      if l.mode == Fetch then Some(RefValue(l.name, Some(l.url), None))
      else Some(RefValue(l.name, None, Some(l.url)))
  }

  /** A recognised stripped line has a nonempty word-character name and a nonempty
      whitespace-free URL. */
  lemma {:induction false} ParseRefShape(line: string)
    requires ParseRef(line).Some?
    ensures var v := ParseRef(line).value;
      WellFormed(v.name, if v.fetch.Some? then v.fetch.value else v.push.value)
  {
    MatchWellFormed(Strip(line));
  }

  /** A stripped line parses to the ref its mode describes. */
  lemma {:induction false} ParseRefOfLine(pre: string, name: string, ws1: string, url: string, ws2: string, m: Mode, post: string)
    requires forall k :: 0 <= k < |pre| ==> IsStripChar(pre[k])
    requires forall k :: 0 <= k < |post| ==> IsStripChar(post[k])
    requires WellFormed(name, url) && Spaces(ws1) && Spaces(ws2) && NoNewline(ws1) && NoNewline(ws2)
    ensures ParseRef(pre + LineText(name, ws1, url, ws2, m) + post)
         == Some(if m == Fetch then RefValue(name, Some(url), None) else RefValue(name, None, Some(url)))
  {
    var s := LineText(name, ws1, url, ws2, m);
    assert s[0] == name[0];
    assert s[|s| - 1] == ')';
    StripSurrounded(pre, s, post);
    MatchComplete(name, ws1, url, ws2, m);
  }

  /** `update` on values: from a ref of another name nothing changes; from a ref of the same
      name each field takes the other's value when that is present. */
  function Merge(mine: RefValue, other: RefValue): (m: RefValue)
    ensures m.name == mine.name
    ensures other.name != mine.name ==> m == mine
    ensures other.name == mine.name && other.fetch.Some? ==> m.fetch == other.fetch
    ensures other.name == mine.name && other.push.Some? ==> m.push == other.push
    ensures other.fetch.None? ==> m.fetch == mine.fetch
    ensures other.push.None? ==> m.push == mine.push
  {
    if other.name != mine.name then mine
    else RefValue(mine.name,
                  if other.fetch.Some? then other.fetch else mine.fetch,
                  if other.push.Some? then other.push else mine.push)
  }

  /** Merging a ref into itself changes nothing, so the identity test of `update` agrees with
      the merge. */
  lemma {:induction false} MergeSelf(v: RefValue)
    ensures Merge(v, v) == v
  {
  }

  class RemoteRef {
    const name: string
    var fetch: Option<string>
    var push: Option<string>

    constructor (name: string, fetch: Option<string>, push: Option<string>)
      ensures this.name == name && this.fetch == fetch && this.push == push
    {
      this.name := name;
      this.fetch := fetch;
      this.push := push;
    }

    function Value(): RefValue
      reads this
    {
      RefValue(name, fetch, push)
    }

    /** `url`: the fetch URL when there is one, else the push URL. */
    function Url(): (u: Option<string>)
      reads this
      ensures u.Some? <==> fetch.Some? || push.Some?
      ensures fetch.Some? ==> u == fetch
      ensures fetch.None? ==> u == push
    {
      if fetch.Some? then fetch else push
    }

    /** `update(other_ref)`: merges the other ref's fields into this one and returns self. */
    method Update(other: RemoteRef) returns (self: RemoteRef)
      modifies this
      ensures self == this
      ensures Value() == Merge(old(Value()), old(other.Value()))
    {
      self := this;
      if this == other { return; }
      if name != other.name { return; }
      var f, p := other.fetch, other.push;
      fetch := if f.Some? then f else fetch;
      push := if p.Some? then p else push;
    }

    /** `RemoteRef.parse(ref_line)`: a new ref for a recognised line, else nil. */
    static method Parse(line: string) returns (r: RemoteRef?)
      requires IsLine(line)
      ensures r == null <==> ParseRef(line).None?
      ensures r != null ==> fresh(r) && r.Value() == ParseRef(line).value
    {
      var v := ParseRef(line);
      if v.None? { return null; }
      r := new RemoteRef(v.value.name, v.value.fetch, v.value.push);
    }
  }

  /** Array#compact on refs. */
  function CompactRefs(entries: seq<RemoteRef?>): (refs: seq<RemoteRef>)
    ensures |refs| <= |entries|
    ensures (forall i :: 0 <= i < |entries| ==> entries[i] != null) ==>
      |refs| == |entries| && forall i :: 0 <= i < |entries| ==> refs[i] == entries[i]
  {
    if entries == [] then []
    else
      var rest := CompactRefs(entries[..|entries| - 1]);
      if entries[|entries| - 1] == null then rest else rest + [entries[|entries| - 1]]
  }

  /** Compacting a list without nil entries leaves it as it is. */
  lemma {:induction false} CompactRefsNoNil(entries: seq<RemoteRef>)
    ensures CompactRefs(entries) == entries
  {
    var es: seq<RemoteRef?> := entries;
    assert forall i :: 0 <= i < |es| ==> es[i] != null;
  }

  /** Compacting keeps exactly the non-nil entries. */
  lemma {:induction false} CompactRefsMembers(entries: seq<RemoteRef?>)
    ensures forall i :: 0 <= i < |CompactRefs(entries)| ==> CompactRefs(entries)[i] in entries
    ensures forall i :: 0 <= i < |entries| && entries[i] != null ==> entries[i] in CompactRefs(entries)
  {
    if entries != [] {
      var init := entries[..|entries| - 1];
      CompactRefsMembers(init);
      assert forall x :: x in init ==> x in entries;
      forall i | 0 <= i < |entries| - 1 ensures entries[i] == init[i] { }
    }
  }

  /** Compacting keeps order and multiplicity: a concatenation compacts piecewise. */
  lemma {:induction false} CompactRefsAppend(xs: seq<RemoteRef?>, ys: seq<RemoteRef?>)
    ensures CompactRefs(xs + ys) == CompactRefs(xs) + CompactRefs(ys)
    decreases |ys|
  {
    if ys == [] {
      assert xs + ys == xs;
    } else {
      var init := ys[..|ys| - 1];
      assert (xs + ys)[..|xs + ys| - 1] == xs + init;
      CompactRefsAppend(xs, init);
    }
  }

  /** A single entry compacts to itself when non-nil and to nothing when nil. */
  lemma {:induction false} CompactRefsSingle(x: RemoteRef?)
    ensures CompactRefs([x]) == if x == null then [] else [x]
  {
    assert [x][..0] == [];
  }

  /** The position of the last ref named `n`. */
  function LastNamed(refs: seq<RemoteRef>, n: string): (r: Option<nat>)
    ensures r.Some? ==> r.value < |refs| && refs[r.value].name == n
    ensures r.Some? ==> forall j :: r.value < j < |refs| ==> refs[j].name != n
    ensures r.None? ==> forall j :: 0 <= j < |refs| ==> refs[j].name != n
  {
    if refs == [] then None
    else if refs[|refs| - 1].name == n then Some(|refs| - 1)
    else LastNamed(refs[..|refs| - 1], n)
  }

  /** The name index as `RemoteRefs#initialize` fills it: the last ref of each name. */
  function NameIndex(refs: seq<RemoteRef>): (m: map<string, RemoteRef>)
    ensures forall n {:trigger n in m} :: n in m <==> LastNamed(refs, n).Some?
    ensures forall n {:trigger m[n]} :: n in m ==> m[n] == refs[LastNamed(refs, n).value]
  {
    if refs == [] then map[]
    else
      var r := refs[|refs| - 1];
      NameIndex(refs[..|refs| - 1])[r.name := r]
  }

  /** The refs whose `url` is `u`, in list order. */
  function WithUrl(refs: seq<RemoteRef>, u: Option<string>): (r: seq<RemoteRef>)
    reads refs
    ensures |r| <= |refs|
    ensures forall i :: 0 <= i < |r| ==> r[i].Url() == u
    ensures r == [] <==> forall i :: 0 <= i < |refs| ==> refs[i].Url() != u
  {
    if refs == [] then []
    else
      var rest := WithUrl(refs[..|refs| - 1], u);
      var x := refs[|refs| - 1];
      if x.Url() == u then rest + [x] else rest
  }

  /** The URL index as `RemoteRefs#initialize` fills it: a list per URL, created on first
      use, so every key has a nonempty list. */
  function UrlIndex(refs: seq<RemoteRef>): (m: map<Option<string>, seq<RemoteRef>>)
    reads refs
    ensures forall u {:trigger u in m} :: u in m <==> WithUrl(refs, u) != []
    ensures forall u {:trigger m[u]} :: u in m ==> m[u] == WithUrl(refs, u)
  {
    if refs == [] then map[]
    else
      var m := UrlIndex(refs[..|refs| - 1]);
      var x := refs[|refs| - 1];
      var u := x.Url();
      UrlIndexStep(refs, m);
      m[u := (if u in m then m[u] else []) + [x]]
  }

  /** One step of `UrlIndex`: appending the last ref to its URL's list keeps the index
      equal to `WithUrl` key by key. */
  lemma {:induction false} UrlIndexStep(refs: seq<RemoteRef>, m: map<Option<string>, seq<RemoteRef>>)
    requires refs != []
    requires forall u {:trigger u in m} :: u in m <==> WithUrl(refs[..|refs| - 1], u) != []
    requires forall u {:trigger m[u]} :: u in m ==> m[u] == WithUrl(refs[..|refs| - 1], u)
    ensures var x := refs[|refs| - 1];
            var m' := m[x.Url() := (if x.Url() in m then m[x.Url()] else []) + [x]];
            forall u {:trigger u in m'} :: u in m' <==> WithUrl(refs, u) != []
    ensures var x := refs[|refs| - 1];
            var m' := m[x.Url() := (if x.Url() in m then m[x.Url()] else []) + [x]];
            forall u {:trigger m'[u]} :: u in m' ==> m'[u] == WithUrl(refs, u)
  {
    var x := refs[|refs| - 1];
    var m' := m[x.Url() := (if x.Url() in m then m[x.Url()] else []) + [x]];
    forall u
      ensures (u in m' <==> WithUrl(refs, u) != []) && (u in m' ==> m'[u] == WithUrl(refs, u))
    {
      assert WithUrl(refs, u) == if x.Url() == u then WithUrl(refs[..|refs| - 1], u) + [x]
                                 else WithUrl(refs[..|refs| - 1], u);
    }
  }

  lemma {:induction false} PrefixSnoc(rs: seq<RemoteRef>, i: nat)
    requires i < |rs|
    ensures rs[..i + 1] == rs[..i] + [rs[i]]
  {
  }

  lemma {:induction false} NameIndexSnoc(refs: seq<RemoteRef>, r: RemoteRef)
    ensures NameIndex(refs + [r]) == NameIndex(refs)[r.name := r]
  {
    assert (refs + [r])[..|refs|] == refs;
  }

  lemma {:induction false} UrlIndexSnoc(refs: seq<RemoteRef>, r: RemoteRef)
    ensures UrlIndex(refs + [r])
         == UrlIndex(refs)[r.Url() := (if r.Url() in UrlIndex(refs) then UrlIndex(refs)[r.Url()] else []) + [r]]
  {
    assert (refs + [r])[..|refs|] == refs;
  }

  /** The URL index depends only on the refs' own fields. */
  twostate lemma {:induction false} UrlIndexFrame(refs: seq<RemoteRef>)
    requires forall i :: 0 <= i < |refs| ==> unchanged(refs[i])
    ensures UrlIndex(refs) == old(UrlIndex(refs))
  {
  }

  class RemoteRefs {
    var refs: seq<RemoteRef>
    var indexName: map<string, RemoteRef>
    var indexUrl: map<Option<string>, seq<RemoteRef>>

    /** Both indexes agree with the ref list and the refs' current URLs. */
    ghost predicate Valid()
      reads this, refs
    {
      indexName == NameIndex(refs) && indexUrl == UrlIndex(refs)
    }

    /** `RemoteRefs.new(refs)`: drops the nil entries and fills both indexes. */
    constructor (entries: seq<RemoteRef?>)
      ensures refs == CompactRefs(entries) && Valid()
    {
      var rs := CompactRefs(entries);
      var byName, byUrl := IndexRefs(rs);
      refs, indexName, indexUrl := rs, byName, byUrl;
      new;
      assert forall i :: 0 <= i < |rs| ==> rs[i] as object != this as object;
      UrlIndexFrame(rs);
    }

    /** The loop of `RemoteRefs#initialize`: each ref is written under its name and
        appended to the list of its URL. */
    static method IndexRefs(rs: seq<RemoteRef>) returns (byName: map<string, RemoteRef>, byUrl: map<Option<string>, seq<RemoteRef>>)
      ensures byName == NameIndex(rs) && byUrl == UrlIndex(rs)
    {
      byName, byUrl := map[], map[];
      for i := 0 to |rs|
        invariant byName == NameIndex(rs[..i])
        invariant byUrl == UrlIndex(rs[..i])
      {
        var r := rs[i];
        PrefixSnoc(rs, i);
        NameIndexSnoc(rs[..i], r);
        UrlIndexSnoc(rs[..i], r);
        byName := byName[r.name := r];
        var u := r.Url();
        var list := if u in byUrl then byUrl[u] else [];
        byUrl := byUrl[u := list + [r]];
      }
      assert rs[..|rs|] == rs;
    }

    /** `by_name`: the last ref with that name, or nil. */
    function ByName(n: string): (r: RemoteRef?)
      reads this, refs
      requires Valid()
      ensures r != null <==> exists i :: 0 <= i < |refs| && refs[i].name == n
      ensures r != null ==> r.name == n && r == refs[LastNamed(refs, n).value]
    {
      if n in indexName then indexName[n] else null
    }

    /** `by_url`: every ref whose `url` is `u`, in list order, or nil when there is none. */
    function ByUrl(u: Option<string>): (r: Option<seq<RemoteRef>>)
      reads this, refs
      requires Valid()
      ensures r.None? <==> forall i :: 0 <= i < |refs| ==> refs[i].Url() != u
      ensures r.Some? ==> r.value == WithUrl(refs, u) && r.value != []
    {
      if u in indexUrl then Some(indexUrl[u]) else None
    }
  }

  /** The position of the entry named `n`. */
  function NamePos(acc: seq<RefValue>, n: string): (r: Option<nat>)
    ensures r.Some? ==> r.value < |acc| && acc[r.value].name == n
    ensures r.None? ==> forall j :: 0 <= j < |acc| ==> acc[j].name != n
  {
    if acc == [] then None
    else if acc[|acc| - 1].name == n then Some(|acc| - 1)
    else NamePos(acc[..|acc| - 1], n)
  }

  /** One step of the store in `RemoteRefs.parse`: a new name is appended (updating a ref
      with itself changes nothing), a known one is merged in place. */
  function Absorb(acc: seq<RefValue>, v: RefValue): seq<RefValue> {
    match NamePos(acc, v.name)
    case Some(j) => acc[j := Merge(acc[j], v)]
    case None => acc + [v]
  }

  /** `RemoteRef.parse` applied to each line, in line order. */
  function ParseAll(lines: seq<string>): (ps: seq<Option<RefValue>>)
    ensures |ps| == |lines|
  {
    if lines == [] then []
    else ParseAll(lines[..|lines| - 1]) + [ParseRef(lines[|lines| - 1])]
  }

  /** Entry i of ParseAll is the parse of line i. */
  lemma {:induction false} ParseAllAt(lines: seq<string>, i: nat)
    requires i < |lines|
    ensures ParseAll(lines)[i] == ParseRef(lines[i])
  {
    if i < |lines| - 1 {
      var init := lines[..|lines| - 1];
      ParseAllAt(init, i);
    }
  }

  /** The refs the store of `RemoteRefs.parse` ends with, in the store's order, from the
      parse of each line: a nil parse is skipped, a ref is absorbed. */
  function MergedRefs(ps: seq<Option<RefValue>>): (m: seq<RefValue>)
    ensures |m| <= |ps|
  {
    if ps == [] then []
    else
      var acc := MergedRefs(ps[..|ps| - 1]);
      match ps[|ps| - 1]
      case None => acc
      case Some(v) => Absorb(acc, v)
  }

  lemma {:induction false} MergedRefsSnoc(ps: seq<Option<RefValue>>, p: Option<RefValue>)
    ensures MergedRefs(ps + [p]) == match p case None => MergedRefs(ps) case Some(v) => Absorb(MergedRefs(ps), v)
  {
    assert (ps + [p])[..|ps|] == ps;
  }

  lemma {:induction false} ParseAllStep(lines: seq<string>, i: nat)
    requires i < |lines|
    ensures ParseAll(lines[..i + 1]) == ParseAll(lines[..i]) + [ParseRef(lines[i])]
  {
    assert lines[..i + 1][..i] == lines[..i];
  }

  /** The merged refs `RemoteRefs.parse` collects from its lines. */
  function ParsedRefs(lines: seq<string>): seq<RefValue>
  {
    MergedRefs(ParseAll(lines))
  }

  function Names(vs: seq<RefValue>): (ns: seq<string>)
    ensures |ns| == |vs| && forall j :: 0 <= j < |vs| ==> ns[j] == vs[j].name
  {
    if vs == [] then [] else Names(vs[..|vs| - 1]) + [vs[|vs| - 1].name]
  }

  /** The names of the recognised lines, in line order. */
  function LineNames(ps: seq<Option<RefValue>>): seq<string> {
    if ps == [] then []
    else
      var rest := LineNames(ps[..|ps| - 1]);
      match ps[|ps| - 1]
      case None => rest
      case Some(v) => rest + [v.name]
  }

  /** The first appearance of each string, in order. */
  function Dedup(xs: seq<string>): (ys: seq<string>)
    ensures forall x :: x in ys <==> x in xs
    ensures forall j, k :: 0 <= j < k < |ys| ==> ys[j] != ys[k]
  {
    if xs == [] then []
    else
      var rest := Dedup(xs[..|xs| - 1]);
      var x := xs[|xs| - 1];
      assert forall y :: y in xs <==> y in xs[..|xs| - 1] || y == x;
      if x in rest then rest else rest + [x]
  }

  lemma {:induction false} DedupSnoc(xs: seq<string>, x: string)
    ensures Dedup(xs + [x]) == if x in Dedup(xs) then Dedup(xs) else Dedup(xs) + [x]
  {
    assert (xs + [x])[..|xs|] == xs;
  }

  lemma {:induction false} NamesSnoc(acc: seq<RefValue>, v: RefValue)
    ensures Names(acc + [v]) == Names(acc) + [v.name]
  {
    assert (acc + [v])[..|acc|] == acc;
  }

  lemma {:induction false} NamesMerge(acc: seq<RefValue>, j: nat, w: RefValue)
    requires j < |acc| && w.name == acc[j].name
    ensures Names(acc[j := w]) == Names(acc)
  {
  }

  lemma {:induction false} NamePosIn(acc: seq<RefValue>, n: string)
    ensures NamePos(acc, n).Some? <==> n in Names(acc)
  {
    var ns := Names(acc);
    if n in ns {
      var k :| 0 <= k < |ns| && ns[k] == n;
      assert acc[k].name == n;
    }
  }

  /** `RemoteRefs.parse` yields one ref per name, in order of first appearance of the
      name among the recognised lines. */
  lemma {:induction false} MergedRefsNames(ps: seq<Option<RefValue>>)
    ensures Names(MergedRefs(ps)) == Dedup(LineNames(ps))
  {
    if ps != [] {
      var init := ps[..|ps| - 1];
      MergedRefsNames(init);
      var acc := MergedRefs(init);
      match ps[|ps| - 1]
      case None =>
      case Some(v) =>
        DedupSnoc(LineNames(init), v.name);
        NamePosIn(acc, v.name);
        match NamePos(acc, v.name)
        case Some(j) =>
          NamesMerge(acc, j, Merge(acc[j], v));
        case None =>
          NamesSnoc(acc, v);
    }
  }

  /** The fetch URL the last recognised line of name `n` with a fetch mode carried. */
  function LastFetch(ps: seq<Option<RefValue>>, n: string): Option<string> {
    if ps == [] then None
    else
      var v := ps[|ps| - 1];
      if v.Some? && v.value.name == n && v.value.fetch.Some? then v.value.fetch
      else LastFetch(ps[..|ps| - 1], n)
  }

  /** The push URL the last recognised line of name `n` with a push mode carried. */
  function LastPush(ps: seq<Option<RefValue>>, n: string): Option<string> {
    if ps == [] then None
    else
      var v := ps[|ps| - 1];
      if v.Some? && v.value.name == n && v.value.push.Some? then v.value.push
      else LastPush(ps[..|ps| - 1], n)
  }

  /** Each merged ref carries the fetch and push URL of the last line of its name that
      gave one: a later URL overrides an earlier one. */
  lemma {:induction false} MergedRefsLaterWins(ps: seq<Option<RefValue>>, j: nat)
    requires j < |MergedRefs(ps)|
    ensures MergedRefs(ps)[j].fetch == LastFetch(ps, MergedRefs(ps)[j].name)
    ensures MergedRefs(ps)[j].push == LastPush(ps, MergedRefs(ps)[j].name)
  {
    var init := ps[..|ps| - 1];
    var acc := MergedRefs(init);
    var out := MergedRefs(ps);
    var n := out[j].name;
    match ps[|ps| - 1]
    case None =>
      MergedRefsLaterWins(init, j);
    case Some(v) =>
      match NamePos(acc, v.name)
      case Some(k) =>
        MergedRefsLaterWins(init, j);
        if j != k {
          assert out[j] == acc[j];
          MergedRefsDistinct(init);
          assert n != v.name;
        }
      case None =>
        if j < |acc| {
          assert out[j] == acc[j];
          MergedRefsLaterWins(init, j);
        } else {
          assert out[j] == v;
          NamesAbsent(init, n);
        }
  }

  /** Names of the merged refs are pairwise distinct. */
  lemma {:induction false} MergedRefsDistinct(ps: seq<Option<RefValue>>)
    ensures forall j, k :: 0 <= j < k < |MergedRefs(ps)| ==> MergedRefs(ps)[j].name != MergedRefs(ps)[k].name
  {
    MergedRefsNames(ps);
    var ns := Names(MergedRefs(ps));
    assert forall j :: 0 <= j < |ns| ==> ns[j] == MergedRefs(ps)[j].name;
  }

  /** A name no merged ref carries was given no URL by any line. */
  lemma {:induction false} NamesAbsent(ps: seq<Option<RefValue>>, n: string)
    requires NamePos(MergedRefs(ps), n).None?
    ensures LastFetch(ps, n).None? && LastPush(ps, n).None?
  {
    if ps != [] {
      var init := ps[..|ps| - 1];
      var acc := MergedRefs(init);
      match ps[|ps| - 1]
      case None =>
        NamesAbsent(init, n);
      case Some(v) =>
        match NamePos(acc, v.name)
        case Some(k) =>
          assert acc[k].name == MergedRefs(ps)[k].name;
          assert v.name != n;
          forall j | 0 <= j < |acc| ensures acc[j].name != n {
            assert acc[j].name == MergedRefs(ps)[j].name;
          }
          NamesAbsent(init, n);
        case None =>
          assert MergedRefs(ps)[|acc|] == v;
          assert v.name != n;
          forall j | 0 <= j < |acc| ensures acc[j].name != n {
            assert acc[j] == MergedRefs(ps)[j];
          }
          NamesAbsent(init, n);
    }
  }

  /** The store of `RemoteRefs.parse` holds, in the order of its names, refs whose fields are
      the merged values `spec`, each under its own name. */
  ghost predicate StoreHolds(store: map<string, RemoteRef>, order: seq<string>, spec: seq<RefValue>)
    reads store.Values
  {
    && |order| == |spec|
    && (forall j :: 0 <= j < |order| ==> order[j] in store && store[order[j]].Value() == spec[j])
    && (forall n {:trigger n in store} :: n in store ==> n in order)
    && (forall n {:trigger store[n]} :: n in store ==> store[n].name == n)
  }

  /** The body of the loop of `RemoteRefs.parse` for a recognised line: the ref is stored
      under its name unless the name is already there, and the stored ref is then updated
      from it. */
  method StoreRef(store: map<string, RemoteRef>, order: seq<string>, remote: RemoteRef, ghost spec: seq<RefValue>)
    returns (store': map<string, RemoteRef>, order': seq<string>)
    requires StoreHolds(store, order, spec)
    requires forall j, k :: 0 <= j < k < |spec| ==> spec[j].name != spec[k].name
    requires forall n {:trigger store[n]} :: n in store ==> store[n] != remote
    modifies store.Values, remote
    ensures StoreHolds(store', order', Absorb(spec, old(remote.Value())))
    ensures forall n {:trigger store'[n]} :: n in store' ==> store'[n] == remote || (n in store && store'[n] == store[n])
  {
    var v := remote.Value();
    var spec' := Absorb(spec, v);
    if v.name !in store {
      NamePosIn(spec, v.name);
      assert v.name !in Names(spec) by {
        forall j | 0 <= j < |spec| ensures spec[j].name != v.name {
          assert store[order[j]].name == order[j];
        }
      }
      store', order' := store[v.name := remote], order + [v.name];
      var _ := remote.Update(remote);
      assert StoreHolds(store', order', spec');
    } else {
      store', order' := store, order;
      var k :| 0 <= k < |order| && order[k] == v.name;
      assert spec[k].name == v.name;
      assert NamePos(spec, v.name) == Some(k);
      var target := store[v.name];
      var _ := target.Update(remote);
      forall j | 0 <= j < |order|
        ensures store[order[j]].Value() == spec'[j]
      {
        if j != k {
          assert spec[j].name != spec[k].name;
        }
      }
    }
  }

  /** The block `RemoteRefs.parse` runs for one line: a recognised line is stored, an
      unrecognised one is skipped. */
  method StoreLine(store: map<string, RemoteRef>, order: seq<string>, line: string, ghost spec: seq<RefValue>)
    returns (store': map<string, RemoteRef>, order': seq<string>)
    requires IsLine(line)
    requires StoreHolds(store, order, spec)
    requires forall j, k :: 0 <= j < k < |spec| ==> spec[j].name != spec[k].name
    modifies store.Values
    ensures StoreHolds(store', order', match ParseRef(line) case None => spec case Some(v) => Absorb(spec, v))
    ensures forall r :: r in store'.Values ==> r in store.Values || fresh(r)
  {
    var remote := RemoteRef.Parse(line);
    if remote == null {
      return store, order;
    }
    store', order' := StoreRef(store, order, remote, spec);
  }

  /** The loop of `RemoteRefs.parse`: the store keyed by name, with its insertion order. */
  method CollectRefs(lines: seq<string>) returns (store: map<string, RemoteRef>, order: seq<string>)
    requires forall i :: 0 <= i < |lines| ==> IsLine(lines[i])
    ensures StoreHolds(store, order, ParsedRefs(lines))
    ensures forall r :: r in store.Values ==> fresh(r)
  {
    store, order := map[], [];
    ghost var ps: seq<Option<RefValue>> := [];
    for i := 0 to |lines|
      invariant ps == ParseAll(lines[..i])
      invariant StoreHolds(store, order, MergedRefs(ps))
      invariant forall r :: r in store.Values ==> fresh(r)
    {
      MergedRefsDistinct(ps);
      store, order := StoreLine(store, order, lines[i], MergedRefs(ps));
      MergedRefsSnoc(ps, ParseRef(lines[i]));
      ParseAllStep(lines, i);
      ps := ps + [ParseRef(lines[i])];
    }
    assert lines[..|lines|] == lines;
  }

  /** `refs.values`: the stored refs in insertion order. */
  method StoreValues(store: map<string, RemoteRef>, order: seq<string>) returns (entries: seq<RemoteRef>)
    requires forall j :: 0 <= j < |order| ==> order[j] in store
    ensures |entries| == |order|
    ensures forall j :: 0 <= j < |order| ==> entries[j] == store[order[j]]
  {
    entries := [];
    for j := 0 to |order|
      invariant |entries| == j
      invariant forall k :: 0 <= k < j ==> entries[k] == store[order[k]]
    {
      entries := entries + [store[order[j]]];
    }
  }

  /** `new(refs.values)` at the end of `RemoteRefs.parse`: the stored refs, in insertion
      order, become the list of a new RemoteRefs. */
  method FromStore(store: map<string, RemoteRef>, order: seq<string>, ghost spec: seq<RefValue>) returns (result: RemoteRefs)
    requires StoreHolds(store, order, spec)
    ensures fresh(result) && result.Valid()
    ensures |result.refs| == |spec|
    ensures forall j :: 0 <= j < |spec| ==> result.refs[j].Value() == spec[j]
  {
    var entries := StoreValues(store, order);
    assert forall j :: 0 <= j < |entries| ==> entries[j].Value() == spec[j];
    CompactRefsNoNil(entries);
    result := new RemoteRefs(entries);
  }

  /** `RemoteRefs.parse(output)`: parses each line, keeps one ref per name in a store in
      order of first appearance, merges every later line of that name into it, and builds
      the indexes from the stored refs. */
  method ParseRemotes(output: string) returns (result: RemoteRefs)
    ensures fresh(result) && result.Valid()
    ensures |result.refs| == |ParsedRefs(EachLine(output))|
    ensures forall j :: 0 <= j < |result.refs| ==> result.refs[j].Value() == ParsedRefs(EachLine(output))[j]
  {
    var lines := EachLine(output);
    var store, order := CollectRefs(lines);
    result := FromStore(store, order, ParsedRefs(lines));
  }

  /** The URL of the fixture remote `origin`. */
  const OriginUrl := "git@gitlab.com:ttych/gitw.git"

  lemma {:induction false} OriginWellFormed()
    ensures WellFormed("origin", OriginUrl)
  {
  }

  /** The fixture line `origin git@gitlab.com:ttych/gitw.git (fetch)`. */
  lemma {:induction false} ParseFetchExample()
    ensures ParseRef(LineText("origin", " ", OriginUrl, " ", Fetch)) == Some(RefValue("origin", Some(OriginUrl), None))
  {
    var t := LineText("origin", " ", OriginUrl, " ", Fetch);
    OriginWellFormed();
    LineTextNoNewline("origin", " ", OriginUrl, " ", Fetch);
    assert "" + t + "" == t;
    ParseRefOfLine("", "origin", " ", OriginUrl, " ", Fetch, "");
  }

  /** The fixture line `origin git@gitlab.com:ttych/gitw.git (push)`. */
  lemma {:induction false} ParsePushExample()
    ensures ParseRef(LineText("origin", " ", OriginUrl, " ", Push)) == Some(RefValue("origin", None, Some(OriginUrl)))
  {
    var t := LineText("origin", " ", OriginUrl, " ", Push);
    OriginWellFormed();
    LineTextNoNewline("origin", " ", OriginUrl, " ", Push);
    assert "" + t + "" == t;
    ParseRefOfLine("", "origin", " ", OriginUrl, " ", Push, "");
  }

  /** A line of `git remote -v` output as the fixture writes it: two spaces before the
      URL, one after, and the line feed that ends it. */
  function ListingLine(name: string, url: string, m: Mode): string {
    LineText(name, "  ", url, " ", m) + "\n"
  }

  lemma {:induction false} ListingLineParses(name: string, url: string, m: Mode)
    requires WellFormed(name, url)
    ensures IsLine(ListingLine(name, url, m))
    ensures ParseRef(ListingLine(name, url, m))
         == Some(if m == Fetch then RefValue(name, Some(url), None) else RefValue(name, None, Some(url)))
  {
    var t := LineText(name, "  ", url, " ", m);
    LineTextNoNewline(name, "  ", url, " ", m);
    assert ListingLine(name, url, m) == "" + t + "\n";
    ParseRefOfLine("", name, "  ", url, " ", m, "\n");
  }

  /** ParseAll on three lines. */
  lemma {:induction false} ParseAllThree(l0: string, l1: string, l2: string)
    ensures ParseAll([l0, l1, l2]) == [ParseRef(l0), ParseRef(l1), ParseRef(l2)]
  {
    assert [l0][..0] == [];
    assert ParseAll([l0]) == [ParseRef(l0)];
    assert [l0, l1][..1] == [l0];
    assert ParseAll([l0, l1]) == [ParseRef(l0)] + [ParseRef(l1)];
    assert [l0, l1, l2][..2] == [l0, l1];
    assert ParseAll([l0, l1, l2]) == [ParseRef(l0), ParseRef(l1)] + [ParseRef(l2)];
  }

  /** The `git remote -v` fixture shape: a blank line, then the fetch and the push line of
      one remote, which `RemoteRefs.parse` merges into one ref carrying both URLs
      (OriginWellFormed shows the fixture's `origin` line is of this shape). */
  lemma {:induction false} ListingMerges(name: string, url: string)
    requires WellFormed(name, url)
    ensures IsLine("\n") && IsLine(ListingLine(name, url, Fetch)) && IsLine(ListingLine(name, url, Push))
    ensures ParsedRefs(["\n", ListingLine(name, url, Fetch), ListingLine(name, url, Push)])
         == [RefValue(name, Some(url), Some(url))]
  {
    ListingLineParses(name, url, Fetch);
    ListingLineParses(name, url, Push);
    assert ParseRef("\n") == None by {
      assert Strip("\n") == "";
    }
    ParseAllThree("\n", ListingLine(name, url, Fetch), ListingLine(name, url, Push));
    MergedFetchPush(RefValue(name, Some(url), None), url);
  }

  /** A blank line, a fetch line, then a push line of the same name. */
  lemma {:induction false} MergedFetchPush(v: RefValue, url: string)
    ensures MergedRefs([None, Some(v), Some(RefValue(v.name, None, Some(url)))]) == [RefValue(v.name, v.fetch, Some(url))]
  {
    var w := RefValue(v.name, None, Some(url));
    var none: Option<RefValue> := None;
    assert [] + [none] == [none] && [none] + [Some(v)] == [none, Some(v)];
    assert [none, Some(v)] + [Some(w)] == [none, Some(v), Some(w)];
    MergedRefsSnoc([], none);
    MergedRefsSnoc([None], Some(v));
    MergedRefsSnoc([None, Some(v)], Some(w));
    assert NamePos([v], v.name) == Some(0);
  }

  /** The `update` examples: a same-named ref brings its push URL; a ref of another name
      changes nothing. */
  method UpdateExample() returns (ok: bool)
    ensures ok
  {
    var ref1 := new RemoteRef("remote", Some("git@gitlab.com:ttych/gitw.git"), None);
    var ref2 := new RemoteRef("remote", None, Some("https://gitlab.com/ttych/gitw.git"));
    var _ := ref1.Update(ref2);
    var ref3 := new RemoteRef("remote", Some("git@gitlab.com:ttych/gitw.git"), None);
    var ref4 := new RemoteRef("remote2", None, Some("https://gitlab.com/ttych/gitw.git"));
    var _ := ref3.Update(ref4);
    ok := ref1.fetch == Some("git@gitlab.com:ttych/gitw.git") && ref1.push == Some("https://gitlab.com/ttych/gitw.git")
       && ref3.fetch == Some("git@gitlab.com:ttych/gitw.git") && ref3.push == None;
  }

  /** The lookup examples: one `origin` ref whose fetch and push URL agree. */
  method LookupExample() returns (byOrigin: bool, byOther: bool, urlCount: nat, byOtherUrl: bool)
    ensures byOrigin && !byOther && urlCount == 1 && !byOtherUrl
  {
    var url := OriginUrl;
    var origin := new RemoteRef("origin", Some(url), Some(url));
    var refs := new RemoteRefs([origin]);
    assert refs.refs == [origin];
    byOrigin := refs.ByName("origin") != null;
    byOther := refs.ByName("my_ref") != null;
    var found := refs.ByUrl(Some(url));
    assert origin.Url() == Some(url);
    assert refs.refs[0].Url() == Some(url);
    assert found.Some?;
    assert WithUrl([origin], Some(url)) == [origin];
    urlCount := |found.value|;
    var other := "git@gitlab.com:test/test.git";
    assert Some(url) != Some(other) by { assert |url| != |other|; }
    byOtherUrl := refs.ByUrl(Some(other)).Some?;
  }
}
