/** Character classes and string scans standing in for the Ruby regular expressions and
    String methods the parsers use. */
module Text {

  /** Ruby's `\s`: space, tab, line feed, vertical tab, form feed, carriage return. */
  predicate IsSpace(c: char) {
    c == ' ' || c == '\t' || c == '\n' || c == '\U{000B}' || c == '\U{000C}' || c == '\r'
  }

  /** Ruby's `\w`: an ASCII letter, digit or underscore. */
  predicate IsWordChar(c: char) {
    ('a' <= c <= 'z') || ('A' <= c <= 'Z') || ('0' <= c <= '9') || c == '_'
  }

  /** The characters String#strip removes at either end: whitespace and NUL. */
  predicate IsStripChar(c: char) {
    IsSpace(c) || c == '\0'
  }

  /** A string with no line feed, except possibly as its last character: the shape of
      each piece String#each_line yields. */
  predicate IsLine(s: string) {
    forall i :: 0 <= i < |s| - 1 ==> s[i] != '\n'
  }

  /** A string with no line feed at all. */
  predicate NoNewline(s: string) {
    forall i :: 0 <= i < |s| ==> s[i] != '\n'
  }

  /** The end of the longest run of characters satisfying `p` that starts at `i`. */
  function Span(s: string, i: nat, p: char -> bool): (j: nat)
    requires i <= |s|
    ensures i <= j <= |s|
    ensures forall k :: i <= k < j ==> p(s[k])
    ensures j < |s| ==> !p(s[j])
    decreases |s| - i
  {
    if i == |s| || !p(s[i]) then i else Span(s, i + 1, p)
  }

  /** Any character but whitespace: Ruby's `[^\s]`. */
  predicate NotSpace(c: char) {
    !IsSpace(c)
  }

  /** A scan stops exactly where the run of `p` characters ends. */
  lemma {:induction false} SpanStops(s: string, i: nat, j: nat, p: char -> bool)
    requires i <= j <= |s|
    requires forall k :: i <= k < j ==> p(s[k])
    requires j == |s| || !p(s[j])
    ensures Span(s, i, p) == j
    decreases j - i
  {
    if i < j {
      SpanStops(s, i + 1, j, p);
    }
  }

  /** A scan over a run of `p` characters stops where the run ends. */
  lemma SpanPrefix(x: string, y: string, p: char -> bool)
    requires forall k :: 0 <= k < |x| ==> p(x[k])
    requires y == [] || !p(y[0])
    ensures Span(x + y, 0, p) == |x|
  {
    var s := x + y;
    assert forall k :: 0 <= k < |x| ==> s[k] == x[k];
    assert |x| < |s| ==> s[|x|] == y[0];
    SpanStops(s, 0, |x|, p);
  }

  /** A scan inside the second part of a concatenation is a scan of that part. */
  lemma {:induction false} SpanShift(x: string, y: string, i: nat, p: char -> bool)
    requires i <= |y|
    ensures Span(x + y, |x| + i, p) == |x| + Span(y, i, p)
    decreases |y| - i
  {
    var s := x + y;
    if i < |y| {
      assert s[|x| + i] == y[i];
      SpanShift(x, y, i + 1, p);
    }
  }

  /** A string is the concatenation of its pieces between any four cut points. */
  lemma Reassemble(s: string, a: nat, b: nat, c: nat, d: nat)
    requires a <= b <= c <= d <= |s|
    ensures s == s[..a] + (s[a..b] + (s[b..c] + (s[c..d] + s[d..])))
  {
    assert s[c..] == s[c..d] + s[d..];
    assert s[b..] == s[b..c] + s[c..];
    assert s[a..] == s[a..b] + s[b..];
    assert s == s[..a] + s[a..];
  }

  /** A concatenation holds a line feed exactly when one of its parts does. */
  lemma NoNewlineConcat(x: string, y: string)
    ensures NoNewline(x + y) <==> NoNewline(x) && NoNewline(y)
  {
    var s := x + y;
    assert forall k :: 0 <= k < |x| ==> s[k] == x[k];
    assert forall k :: 0 <= k < |y| ==> s[|x| + k] == y[k];
  }

  /** String#lstrip. */
  function StripLeft(s: string): (r: string)
    ensures |r| <= |s| && r == s[|s| - |r|..]
    ensures forall k :: 0 <= k < |s| - |r| ==> IsStripChar(s[k])
    ensures r == [] || !IsStripChar(r[0])
  {
    var k := Span(s, 0, IsStripChar);
    s[k..]
  }

  /** String#rstrip. */
  function StripRight(s: string): (r: string)
    ensures |r| <= |s| && r == s[..|r|]
    ensures forall k :: |r| <= k < |s| ==> IsStripChar(s[k])
    ensures r == [] || !IsStripChar(r[|r| - 1])
    decreases |s|
  {
    if s != [] && IsStripChar(s[|s| - 1]) then StripRight(s[..|s| - 1]) else s
  }

  /** String#strip. */
  function Strip(s: string): (r: string)
    ensures |r| <= |s|
    ensures r == [] || (!IsStripChar(r[0]) && !IsStripChar(r[|r| - 1]))
  {
    StripRight(StripLeft(s))
  }

  /** Stripping a line removes its line feed, so the result holds none. */
  lemma StripLineNoNewline(line: string)
    requires IsLine(line)
    ensures NoNewline(Strip(line))
  {
    var t := StripLeft(line);
    var r := StripRight(t);
    assert forall i :: 0 <= i < |t| - 1 ==> t[i] == line[|line| - |t| + i];
    forall i | 0 <= i < |r|
      ensures r[i] != '\n'
    {
      if i == |r| - 1 {
        assert !IsStripChar(r[i]);
      } else {
        assert r[i] == t[i];
      }
    }
  }

  /** Stripping leaves a string alone when it is surrounded only by strippable characters
      and itself begins and ends with a character strip keeps. */
  lemma {:induction false} StripSurrounded(pre: string, s: string, post: string)
    requires forall k :: 0 <= k < |pre| ==> IsStripChar(pre[k])
    requires forall k :: 0 <= k < |post| ==> IsStripChar(post[k])
    requires s != [] && !IsStripChar(s[0]) && !IsStripChar(s[|s| - 1])
    ensures Strip(pre + s + post) == s
  {
    var t := pre + s + post;
    var k := Span(t, 0, IsStripChar);
    assert t[|pre|] == s[0];
    assert k == |pre|;
    assert StripLeft(t) == s + post;
    StripRightSuffix(s, post);
  }

  lemma {:induction false} StripRightSuffix(s: string, post: string)
    requires forall k :: 0 <= k < |post| ==> IsStripChar(post[k])
    requires s != [] && !IsStripChar(s[|s| - 1])
    ensures StripRight(s + post) == s
    decreases |post|
  {
    if post == [] {
      assert s + post == s;
    } else {
      var t := s + post;
      assert t[..|t| - 1] == s + post[..|post| - 1];
      assert IsStripChar(t[|t| - 1]);
      StripRightSuffix(s, post[..|post| - 1]);
    }
  }

  /** The concatenation of a list of strings. */
  function Concat(ss: seq<string>): string {
    if ss == [] then [] else ss[0] + Concat(ss[1..])
  }

  /** String#each_line with the default separator: the pieces of `s`, each ending just
      after a line feed except possibly the last. */
  function EachLine(s: string): (lines: seq<string>)
    ensures Concat(lines) == s
    ensures forall i :: 0 <= i < |lines| ==> lines[i] != [] && IsLine(lines[i])
    ensures forall i :: 0 <= i < |lines| - 1 ==> lines[i][|lines[i]| - 1] == '\n'
    decreases |s|
  {
    if s == [] then []
    else
      var k := Span(s, 0, c => c != '\n');
      if k == |s| then
        assert Concat([s]) == s + Concat([]);
        [s]
      else
        var rest := EachLine(s[k + 1..]);
        assert ([s[..k + 1]] + rest)[1..] == rest;
        assert s == s[..k + 1] + s[k + 1..];
        [s[..k + 1]] + rest
  }
}
