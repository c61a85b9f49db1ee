/** The porcelain status parser of lib/gitw/git/status.rb: each line of
    `git status --porcelain` (short format, version 1) becomes a StatusFile, and a Status
    indexes the files by path three ways: index changes, working-tree changes and
    untracked files. */
module StatusParser {
  import opened Wrappers
  import opened Text

  /** The meanings STATUS_MAP gives to status codes. */
  datatype Kind =
    | Unmodified | Modified | FileTypeChanged | Added | Deleted
    | Renamed | Copied | Updated | Untracked | Ignored

  /** STATUS_MAP: the porcelain status codes. */
  const StatusMap: map<string, Kind> := map[
    " " := Unmodified, "M" := Modified, "T" := FileTypeChanged, "A" := Added,
    "D" := Deleted, "R" := Renamed, "C" := Copied, "U" := Updated,
    "?" := Untracked, "!" := Ignored]

  /** `STATUS_MAP[code]`: `nil` for a missing code or one outside the table. */
  function KindOf(code: Option<string>): Option<Kind> {
    if code.Some? && code.value in StatusMap then Some(StatusMap[code.value]) else None
  }

  /** One entry of the status listing; the status codes are optional because the
      constructor accepts `nil` for them. */
  datatype StatusFile = StatusFile(
    path: string,
    indexStatus: Option<string>,
    worktreeStatus: Option<string>,
    origPath: Option<string>)
  {
    /** `index_changed?`: false exactly for the unmodified, ignored and untracked codes;
        true for every other code, including codes outside STATUS_MAP and `nil`. */
    predicate IndexChanged()
      ensures IndexChanged() <==>
        !(indexStatus == Some(" ") || indexStatus == Some("!") || indexStatus == Some("?"))
    {
      var k := KindOf(indexStatus);
      !(k == Some(Unmodified) || k == Some(Ignored) || k == Some(Untracked))
    }

    /** `workingtree_changed?`: the same rule applied to the working-tree code. */
    predicate WorktreeChanged()
      ensures WorktreeChanged() <==>
        !(worktreeStatus == Some(" ") || worktreeStatus == Some("!") || worktreeStatus == Some("?"))
    {
      var k := KindOf(worktreeStatus);
      !(k == Some(Unmodified) || k == Some(Ignored) || k == Some(Untracked))
    }

    /** `untracked?`: either code is the untracked code. */
    predicate IsUntracked()
      ensures IsUntracked() <==> indexStatus == Some("?") || worktreeStatus == Some("?")
    {
      KindOf(indexStatus) == Some(Untracked) || KindOf(worktreeStatus) == Some(Untracked)
    }
  }

  /** The rename marker `\s->\s` of STATUS_LINE_RE starting at `i` of the line's body;
      its final `\s` may be the line feed that ends the line. */
  predicate MarkerAt(body: string, terminated: bool, i: nat) {
    && i + 3 <= |body|
    && IsSpace(body[i]) && body[i + 1] == '-' && body[i + 2] == '>'
    && ((i + 3 < |body| && IsSpace(body[i + 3])) || (i + 3 == |body| && terminated))
  }

  /** The first rename marker at or after `i`: the lazy `(?<orig_path>.*?)` stops at it. */
  function FirstMarker(body: string, terminated: bool, i: nat): (r: Option<nat>)
    requires i <= |body|
    ensures r.Some? ==> i <= r.value && MarkerAt(body, terminated, r.value)
    ensures r.Some? ==> forall j :: i <= j < r.value ==> !MarkerAt(body, terminated, j)
    ensures r.None? ==> forall j :: i <= j ==> !MarkerAt(body, terminated, j)
    decreases |body| - i
  {
    if i + 3 > |body| then None
    else if MarkerAt(body, terminated, i) then Some(i)
    else FirstMarker(body, terminated, i + 1)
  }

  /** `StatusFile.parse` on one line, with STATUS_LINE_RE read as a scan: two status
      characters, a whitespace separator, then the rest of the line up to its line feed,
      split at the first rename marker when there is one. `IsLine` is the shape of the
      lines String#each_line hands it. */
  function ParseLine(line: string): (r: Option<StatusFile>)
    requires IsLine(line)
    ensures r.Some? <==> |line| >= 3 && IsSpace(line[2])
    ensures r.Some? ==> r.value.indexStatus == Some([line[0]])
    ensures r.Some? ==> r.value.worktreeStatus == Some([line[1]])
    ensures r.Some? ==> NoNewline(r.value.path)
    ensures r.Some? && r.value.origPath.Some? ==> NoNewline(r.value.origPath.value)
  {
    if |line| < 3 || !IsSpace(line[2]) then None
    else
      var codes := ([line[0]], [line[1]]);
      if line[2] == '\n' then
        // the separator is the final line feed: the path is empty
        Some(StatusFile("", Some(codes.0), Some(codes.1), None))
      else
        var terminated := line[|line| - 1] == '\n';
        var body := if terminated then line[3..|line| - 1] else line[3..];
        assert NoNewline(body);
        match FirstMarker(body, terminated, 0)
        case Some(i) =>
          var path := if i + 3 < |body| then body[i + 4..] else "";
          Some(StatusFile(path, Some(codes.0), Some(codes.1), Some(body[..i])))
        case None =>
          Some(StatusFile(body, Some(codes.0), Some(codes.1), None))
  }

  /** A line without a rename parses to its two codes and the rest of the line as path. */
  lemma {:induction false} ParsePlainLine(x: char, y: char, sep: char, path: string, lf: bool)
    requires x != '\n' && y != '\n' && IsSpace(sep) && sep != '\n' && NoNewline(path)
    requires forall i :: !MarkerAt(path, lf, i)
    ensures IsLine([x, y, sep] + path + (if lf then "\n" else ""))
    ensures ParseLine([x, y, sep] + path + (if lf then "\n" else ""))
         == Some(StatusFile(path, Some([x]), Some([y]), None))
  {
    var line := [x, y, sep] + path + (if lf then "\n" else "");
    assert line[2] == sep && line[0] == x && line[1] == y;
    assert (line[|line| - 1] == '\n') == lf;
    if lf { assert line[3..|line| - 1] == path; } else { assert line[3..] == path; }
    assert FirstMarker(path, lf, 0).None?;
  }

  /** A rename line `XY ORIG -> PATH` gives the original path and the new path, when no
      rename marker starts inside the original path: the lazy `orig_path` group stops at
      the first marker. */
  lemma {:induction false} ParseRenameLine(x: char, y: char, sep: char, orig: string, path: string, lf: bool)
    requires x != '\n' && y != '\n' && IsSpace(sep) && sep != '\n'
    requires NoNewline(orig) && NoNewline(path)
    requires forall j :: 0 <= j < |orig| ==> !MarkerAt(orig + " -> " + path, lf, j)
    ensures IsLine([x, y, sep] + orig + " -> " + path + (if lf then "\n" else ""))
    ensures ParseLine([x, y, sep] + orig + " -> " + path + (if lf then "\n" else ""))
         == Some(StatusFile(path, Some([x]), Some([y]), Some(orig)))
  {
    var line := [x, y, sep] + orig + " -> " + path + (if lf then "\n" else "");
    var body := orig + " -> " + path;
    assert line[2] == sep && line[0] == x && line[1] == y;
    assert (line[|line| - 1] == '\n') == lf;
    if lf { assert line[3..|line| - 1] == body; } else { assert line[3..] == body; }
    assert MarkerAt(body, lf, |orig|);
    var m := FirstMarker(body, lf, 0);
    assert m == Some(|orig|);
    assert body[..|orig|] == orig;
    assert body[|orig| + 4..] == path;
  }

  /** An original path without whitespace holds no earlier rename marker. */
  lemma {:induction false} NoMarkerInPlainOrig(orig: string, path: string, lf: bool)
    requires forall k :: 0 <= k < |orig| ==> !IsSpace(orig[k])
    ensures forall j :: 0 <= j < |orig| ==> !MarkerAt(orig + " -> " + path, lf, j)
  {
    forall j | 0 <= j < |orig| ensures !MarkerAt(orig + " -> " + path, lf, j) {
      assert (orig + " -> " + path)[j] == orig[j];
    }
  }

  /** A rename whose original path holds a space: `R  a b -> c` splits at the marker, not
      at the first space. */
  lemma {:induction false} ParseSpacedRenameExample()
    ensures ParseLine("R  a b -> c") == Some(StatusFile("c", Some("R"), Some(" "), Some("a b")))
  {
    var body := "a b" + " -> " + "c";
    assert !MarkerAt(body, false, 1) by { assert body[2] == 'b'; }
    assert !MarkerAt(body, false, 0) && !MarkerAt(body, false, 2);
    ParseRenameLine('R', ' ', ' ', "a b", "c", false);
    assert ['R', ' ', ' '] + "a b" + " -> " + "c" + "" == "R  a b -> c";
  }

  /** A path with no whitespace holds no rename marker. */
  lemma {:induction false} NoMarkerWithoutSpace(path: string, lf: bool)
    requires forall k :: 0 <= k < |path| ==> !IsSpace(path[k])
    ensures forall i :: !MarkerAt(path, lf, i)
  {
  }

  /** The fixture line `M  lib/gitw.rb`: staged modification, clean working tree. */
  lemma {:induction false} ParseModifiedExample()
    ensures ParseLine("M  lib/gitw.rb") == Some(StatusFile("lib/gitw.rb", Some("M"), Some(" "), None))
    ensures ParseLine("M  lib/gitw.rb").value.IndexChanged()
    ensures !ParseLine("M  lib/gitw.rb").value.WorktreeChanged()
    ensures !ParseLine("M  lib/gitw.rb").value.IsUntracked()
  {
    NoMarkerWithoutSpace("lib/gitw.rb", false);
    ParsePlainLine('M', ' ', ' ', "lib/gitw.rb", false);
    assert ['M', ' ', ' '] + "lib/gitw.rb" + "" == "M  lib/gitw.rb";
  }

  /** The fixture line `?? newfile.txt`: untracked, neither kind of change. */
  lemma {:induction false} ParseUntrackedExample()
    ensures ParseLine("?? newfile.txt\n") == Some(StatusFile("newfile.txt", Some("?"), Some("?"), None))
    ensures ParseLine("?? newfile.txt\n").value.IsUntracked()
    ensures !ParseLine("?? newfile.txt\n").value.IndexChanged()
    ensures !ParseLine("?? newfile.txt\n").value.WorktreeChanged()
  {
    NoMarkerWithoutSpace("newfile.txt", true);
    ParsePlainLine('?', '?', ' ', "newfile.txt", true);
    assert ['?', '?', ' '] + "newfile.txt" + "\n" == "?? newfile.txt\n";
  }

  /** Which of the three path indexes. */
  datatype Which = ByIndex | ByWorktree | ByUntracked

  predicate Selected(f: StatusFile, which: Which) {
    match which
    case ByIndex => f.IndexChanged()
    case ByWorktree => f.WorktreeChanged()
    case ByUntracked => f.IsUntracked()
  }

  /** The position of the last file with path `p` that the index selects. */
  function LastMatch(files: seq<StatusFile>, p: string, which: Which): (r: Option<nat>)
    ensures r.Some? ==> r.value < |files| && files[r.value].path == p && Selected(files[r.value], which)
    ensures r.Some? ==> forall j :: r.value < j < |files| ==> !(files[j].path == p && Selected(files[j], which))
    ensures r.None? ==> forall j :: 0 <= j < |files| ==> !(files[j].path == p && Selected(files[j], which))
  {
    if files == [] then None
    else if files[|files| - 1].path == p && Selected(files[|files| - 1], which) then Some(|files| - 1)
    else LastMatch(files[..|files| - 1], p, which)
  }

  /** A path index as `Status#initialize` fills it: each selected file is written under
      its path, so the last one with a given path wins. */
  function PathIndex(files: seq<StatusFile>, which: Which): (m: map<string, StatusFile>)
    ensures forall p {:trigger p in m} :: p in m <==> LastMatch(files, p, which).Some?
    ensures forall p {:trigger m[p]} :: p in m ==> m[p] == files[LastMatch(files, p, which).value]
  {
    if files == [] then map[]
    else
      var f := files[|files| - 1];
      var m := PathIndex(files[..|files| - 1], which);
      if Selected(f, which) then m[f.path := f] else m
  }

  lemma {:induction false} PathIndexSnoc(files: seq<StatusFile>, f: StatusFile, which: Which)
    ensures PathIndex(files + [f], which)
         == if Selected(f, which) then PathIndex(files, which)[f.path := f] else PathIndex(files, which)
  {
    assert (files + [f])[..|files|] == files;
  }

  /** Array#compact: the present values, in order. */
  function Compact(xs: seq<Option<StatusFile>>): (ys: seq<StatusFile>)
    ensures |ys| <= |xs|
    ensures forall y :: y in ys <==> Some(y) in xs
  {
    if xs == [] then []
    else
      var rest := Compact(xs[..|xs| - 1]);
      assert forall y :: Some(y) in xs <==> Some(y) in xs[..|xs| - 1] || xs[|xs| - 1] == Some(y);
      match xs[|xs| - 1]
      case Some(x) => rest + [x]
      case None => rest
  }

  /** Compacting keeps order and multiplicity: a concatenation compacts piecewise. */
  lemma {:induction false} CompactAppend(xs: seq<Option<StatusFile>>, ys: seq<Option<StatusFile>>)
    ensures Compact(xs + ys) == Compact(xs) + Compact(ys)
    decreases |ys|
  {
    if ys == [] {
      assert xs + ys == xs;
    } else {
      var init := ys[..|ys| - 1];
      assert (xs + ys)[..|xs + ys| - 1] == xs + init;
      CompactAppend(xs, init);
    }
  }

  /** A single entry compacts to itself when present and to nothing when nil. */
  lemma {:induction false} CompactSingle(x: Option<StatusFile>)
    ensures Compact([x]) == if x.Some? then [x.value] else []
  {
    assert [x][..0] == [];
  }

  /** `StatusFile.parse` applied to each line. */
  function ParseLines(lines: seq<string>): (parsed: seq<Option<StatusFile>>)
    requires forall i :: 0 <= i < |lines| ==> IsLine(lines[i])
    ensures |parsed| == |lines|
    ensures forall i :: 0 <= i < |lines| ==> parsed[i] == ParseLine(lines[i])
  {
    if lines == [] then []
    else ParseLines(lines[..|lines| - 1]) + [ParseLine(lines[|lines| - 1])]
  }

  /** The files `Status.parse` keeps for an output text. */
  function ParsedFiles(output: string): seq<StatusFile> {
    Compact(ParseLines(EachLine(output)))
  }

  /** Every file of a parsed status comes from one line of the output; lines that do not
      match, such as blank lines, leave no file. */
  lemma {:induction false} ParsedFilesFromLines(output: string, f: StatusFile)
    requires f in ParsedFiles(output)
    ensures exists i :: 0 <= i < |EachLine(output)| && ParseLine(EachLine(output)[i]) == Some(f)
  {
    var parsed := ParseLines(EachLine(output));
    assert Some(f) in parsed;
    var i :| 0 <= i < |parsed| && parsed[i] == Some(f);
  }

  class Status {
    var files: seq<StatusFile>
    var indexMap: map<string, StatusFile>
    var worktreeMap: map<string, StatusFile>
    var untrackedMap: map<string, StatusFile>

    /** The three indexes agree with the file list. */
    ghost predicate Valid()
      reads this
    {
      && indexMap == PathIndex(files, ByIndex)
      && worktreeMap == PathIndex(files, ByWorktree)
      && untrackedMap == PathIndex(files, ByUntracked)
    }

    /** `Status.new(files)`: drops the `nil` entries and fills the three indexes. */
    constructor (entries: seq<Option<StatusFile>>)
      ensures files == Compact(entries) && Valid()
    {
      var fs := Compact(entries);
      var byIndex, byWorktree, byUntracked := map[], map[], map[];
      for i := 0 to |fs|
        invariant byIndex == PathIndex(fs[..i], ByIndex)
        invariant byWorktree == PathIndex(fs[..i], ByWorktree)
        invariant byUntracked == PathIndex(fs[..i], ByUntracked)
      {
        assert fs[..i + 1] == fs[..i] + [fs[i]];
        var f := fs[i];
        PathIndexSnoc(fs[..i], f, ByIndex);
        PathIndexSnoc(fs[..i], f, ByWorktree);
        PathIndexSnoc(fs[..i], f, ByUntracked);
        if f.IndexChanged() { byIndex := byIndex[f.path := f]; }
        if f.WorktreeChanged() { byWorktree := byWorktree[f.path := f]; }
        if f.IsUntracked() { byUntracked := byUntracked[f.path := f]; }
      }
      assert fs[..|fs|] == fs;
      files, indexMap, worktreeMap, untrackedMap := fs, byIndex, byWorktree, byUntracked;
    }

    /** `changed?`: some file with path `p` has an index or working-tree change; the last
        index-changed file with that path is preferred, else the last working-tree-changed one. */
    function Changed(p: string): (r: Option<StatusFile>)
      reads this
      requires Valid()
      ensures r.Some? <==> exists i :: 0 <= i < |files| && files[i].path == p
                                    && (files[i].IndexChanged() || files[i].WorktreeChanged())
      ensures r.Some? ==> r.value.path == p && r.value in files
      ensures r.Some? && !r.value.IndexChanged() ==> forall i :: 0 <= i < |files| && files[i].path == p ==> !files[i].IndexChanged()
      ensures LastMatch(files, p, ByIndex).Some? ==> r == Some(files[LastMatch(files, p, ByIndex).value])
      ensures LastMatch(files, p, ByIndex).None? && LastMatch(files, p, ByWorktree).Some?
              ==> r == Some(files[LastMatch(files, p, ByWorktree).value])
    {
      if p in indexMap then Some(indexMap[p])
      else if p in worktreeMap then Some(worktreeMap[p])
      else None
    }

    /** `untracked?`: the last untracked file with path `p`, if any. */
    function Untracked(p: string): (r: Option<StatusFile>)
      reads this
      requires Valid()
      ensures r.Some? <==> exists i :: 0 <= i < |files| && files[i].path == p && files[i].IsUntracked()
      ensures r.Some? ==> r.value.path == p && r.value.IsUntracked() && r.value in files
      ensures r.Some? ==> r.value == files[LastMatch(files, p, ByUntracked).value]
    {
      if p in untrackedMap then Some(untrackedMap[p]) else None
    }

    /** `Status.parse(output)`: parses each line and builds the status from the results. */
    static method Parse(output: string) returns (s: Status)
      ensures fresh(s) && s.Valid() && s.files == ParsedFiles(output)
    {
      var lines := EachLine(output);
      var store: seq<Option<StatusFile>> := [];
      for i := 0 to |lines|
        invariant store == ParseLines(lines[..i])
      {
        assert lines[..i + 1][..i] == lines[..i];
        store := store + [ParseLine(lines[i])];
      }
      assert lines[..|lines|] == lines;
      s := new Status(store);
    }
  }

  /** The indexes of the example's two files: `a` is in the index and working-tree maps,
      `b` only in the untracked one. */
  lemma {:induction false} IndexingMaps(a: StatusFile, b: StatusFile)
    requires a == StatusFile("a", Some("M"), Some("M"), None)
    requires b == StatusFile("b", Some("?"), Some("?"), None)
    ensures PathIndex([a, b], ByIndex) == map["a" := a]
    ensures PathIndex([a, b], ByWorktree) == map["a" := a]
    ensures PathIndex([a, b], ByUntracked) == map["b" := b]
  {
    assert [a, b][..1] == [a] && [a][..0] == [];
  }

  /** The indexing example: `a` modified in index and working tree, `b` untracked. */
  method IndexingExample() returns (changedA: bool, changedB: bool, untrackedB: bool, changedMissing: bool)
    ensures changedA && !changedB && untrackedB && !changedMissing
  {
    var a := StatusFile("a", Some("M"), Some("M"), None);
    var b := StatusFile("b", Some("?"), Some("?"), None);
    var s := new Status([Some(a), Some(b)]);
    assert s.files == [a, b];
    IndexingMaps(a, b);
    changedA := s.Changed("a").Some?;
    changedB := s.Changed("b").Some?;
    untrackedB := s.Untracked("b").Some?;
    changedMissing := s.Changed("missing").Some?;
  }
}
