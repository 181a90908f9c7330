/**
 * The tree renderer, `generate_tree_structure`: an indented text picture of a
 * directory in which, at every level, the directories come first (each line
 * followed by the rendering of its contents one level deeper, excluded names
 * left out entirely) and the files after them, with long file lists cut down
 * to a head window, a summary line and a tail window.
 *
 * `RenderLines` is the specification, as a sequence of lines; the method
 * `GenerateTreeStructure` builds the text with the loops of `generate_tree_structure` and
 * is proved to produce exactly `TreeText`, the concatenation of those lines.
 */
module TreeRenderer {
  import opened Text
  import opened FileTree

  /** The filter arguments `exclude_files`, `exclude_dirs` and `file_limit`. */
  datatype Options = Options(excludeFiles: seq<string>, excludeDirs: seq<string>, fileLimit: int)

  /** One output line: its nesting depth and the text after the `|-- ` marker. */
  datatype Line = Line(level: nat, body: string)

  /** `"    " * level + "|-- "`: four spaces per level, then the marker. */
  function Prefix(level: nat): string {
    Spaces(level) + "|-- "
  }

  function Format(line: Line): string {
    Prefix(line.level) + line.body + "\n"
  }

  /** Every line of the text starts with its level's prefix and ends with a newline. */
  lemma FormatShape(line: Line)
    ensures var r := Format(line);
      && |r| == 4 * line.level + 5 + |line.body|
      && (forall i :: 0 <= i < 4 * line.level ==> r[i] == ' ')
      && r[4 * line.level..4 * line.level + 4] == "|-- "
      && r[4 * line.level + 4..|r| - 1] == line.body
      && r[|r| - 1] == '\n'
  {
    var p := Prefix(line.level);
    var r := Format(line);
    SpacesAreBlank(line.level);
    assert r == p + line.body + "\n";
    assert r[..|p|] == p;
    assert r[4 * line.level..4 * line.level + 4] == p[4 * line.level..];
  }

  /** The text of a sequence of lines. */
  function Concat(lines: seq<Line>): string {
    if lines == [] then ""
    else Concat(lines[..|lines| - 1]) + Format(lines[|lines| - 1])
  }

  lemma {:induction false} ConcatAppend(a: seq<Line>, b: seq<Line>)
    ensures Concat(a + b) == Concat(a) + Concat(b)
    decreases |b|
  {
    if b == [] {
      assert a + b == a;
    } else {
      var c := a + b;
      var b' := b[..|b| - 1];
      assert c[..|c| - 1] == a + b';
      assert c[|c| - 1] == b[|b| - 1];
      ConcatAppend(a, b');
      calc {
        Concat(c);
        Concat(a + b') + Format(b[|b| - 1]);
        (Concat(a) + Concat(b')) + Format(b[|b| - 1]);
        Concat(a) + (Concat(b') + Format(b[|b| - 1]));
        Concat(a) + Concat(b);
      }
    }
  }

  /** The text of one line between two runs of lines. */
  lemma ConcatTriple(a: seq<Line>, x: Line, b: seq<Line>)
    ensures Concat(a + [x] + b) == Concat(a) + Format(x) + Concat(b)
  {
    ConcatAppend(a + [x], b);
    ConcatAppend(a, [x]);
    ConcatSingle(x);
  }

  /** Regrouping a concatenation of four strings. */
  lemma Regroup(a: string, b: string, c: string, d: string)
    ensures a + (b + c + d) == a + b + c + d
  {
  }

  lemma ConcatSingle(line: Line)
    ensures Concat([line]) == Format(line)
  {
    assert [line][..0] == [];
    assert "" + Format(line) == Format(line);
  }

  /** `any(item.endswith(ex) for ex in exclude_files)`. */
  predicate ExcludedFile(name: string, excludeFiles: seq<string>) {
    excludeFiles != [] && (EndsWith(name, excludeFiles[0]) || ExcludedFile(name, excludeFiles[1..]))
  }

  /** The suffix test holds exactly when some excluded suffix ends the name. */
  lemma {:induction false} ExcludedFileMeans(name: string, excludeFiles: seq<string>)
    ensures ExcludedFile(name, excludeFiles) <==> exists ex :: ex in excludeFiles && EndsWith(name, ex)
  {
    if excludeFiles != [] {
      ExcludedFileMeans(name, excludeFiles[1..]);
      assert excludeFiles == [excludeFiles[0]] + excludeFiles[1..];
    }
  }

  /**
   * The lines of one `for item in ...` loop over file names: one line per
   * name that no excluded suffix matches, in the order given.
   */
  function ShownFiles(names: seq<string>, o: Options, level: nat): (r: seq<Line>)
    ensures |r| <= |names|
  {
    if names == [] then []
    else
      var last := names[|names| - 1];
      var front := ShownFiles(names[..|names| - 1], o, level);
      if ExcludedFile(last, o.excludeFiles) then front else front + [Line(level, last)]
  }

  /** One more name adds its line to the text exactly when it is not excluded. */
  lemma ShownFilesStep(tree: string, names: seq<string>, i: nat, o: Options, level: nat)
    requires i < |names|
    ensures tree + Concat(ShownFiles(names[..i + 1], o, level)) ==
      (if ExcludedFile(names[i], o.excludeFiles) then tree + Concat(ShownFiles(names[..i], o, level))
       else tree + Concat(ShownFiles(names[..i], o, level)) + (Prefix(level) + names[i] + "\n"))
  {
    assert names[..i + 1][..i] == names[..i];
    var front := ShownFiles(names[..i], o, level);
    if !ExcludedFile(names[i], o.excludeFiles) {
      assert Concat(front + [Line(level, names[i])]) == Concat(front) + Format(Line(level, names[i])) by {
        ConcatAppend(front, [Line(level, names[i])]);
        ConcatSingle(Line(level, names[i]));
      }
    }
  }

  /** Python's clamping of a slice bound `i` against a length `n`. */
  function SliceBound(i: int, n: nat): (r: nat)
    ensures r <= n
  {
    if i < 0 then (if n + i < 0 then 0 else n + i)
    else if i > n then n
    else i
  }

  /** `s[:k]`. */
  function Head(s: seq<string>, k: int): seq<string> {
    s[..SliceBound(k, |s|)]
  }

  /** `s[-k:]`. */
  function Tail(s: seq<string>, k: int): seq<string> {
    s[SliceBound(-k, |s|)..]
  }

  /** `f"... ({count} more files skipped)"`. */
  function SkipBody(count: nat): string {
    "... (" + DecimalString(count) + " more files skipped)"
  }

  /** The summary line that stands for the files between the two windows. */
  function SkipLine(level: nat, count: nat): Line {
    Line(level, SkipBody(count))
  }

  /**
   * The file part of one level. The count in the summary line is taken over
   * all the files, before excluded suffixes are filtered out of the windows.
   */
  function FileLines(files: seq<string>, o: Options, level: nat): seq<Line> {
    if |files| > o.fileLimit * 2 then
      ShownFiles(Head(files, o.fileLimit), o, level)
      + [SkipLine(level, |files| - o.fileLimit * 2)]
      + ShownFiles(Tail(files, o.fileLimit), o, level)
    else
      ShownFiles(files, o, level)
  }

  /** `dirs`: the subdirectories of a readable listing, in sorted order. */
  function SortedDirs(l: Listing): seq<Node>
    requires l.Entries?
  {
    Dirs(SortByName(l.children))
  }

  /** `files`: the file names of a readable listing, in sorted order. */
  function SortedFiles(l: Listing): seq<string>
    requires l.Entries?
  {
    FileNames(SortByName(l.children))
  }

  /** Each of the sorted directories is a directory the listing holds. */
  lemma SortedDirIsChild(l: Listing, j: nat)
    requires l.Entries? && j < |SortedDirs(l)|
    ensures SortedDirs(l)[j] in l.children && SortedDirs(l)[j].Dir?
  {
    SortByNameSpec(l.children);
    DirsFrom(SortByName(l.children));
    assert SortedDirs(l)[j] in SortedDirs(l);
  }

  /** The lines a listing renders to when it sits at depth `level`. */
  function RenderLines(l: Listing, o: Options, level: nat): seq<Line>
    decreases l
  {
    match l
    case PermissionDenied => []
    case Entries(_) => DirLines(l, |SortedDirs(l)|, o, level) + FileLines(SortedFiles(l), o, level)
  }

  /**
   * The directory part of one level, up to its `n`-th directory: for each
   * directory not named in `excludeDirs`, its own line and then everything
   * below it.
   */
  function DirLines(parent: Listing, n: nat, o: Options, level: nat): seq<Line>
    requires parent.Entries? && n <= |SortedDirs(parent)|
    decreases parent, n
  {
    if n == 0 then []
    else
      var d := SortedDirs(parent)[n - 1];
      SortedDirIsChild(parent, n - 1);
      var front := DirLines(parent, n - 1, o, level);
      if d.name in o.excludeDirs then front
      else front + [Line(level, d.name + "/")] + RenderLines(d.listing, o, level + 1)
  }

  /** The string `generate_tree_structure` returns. */
  function TreeText(l: Listing, o: Options, level: nat): string {
    Concat(RenderLines(l, o, level))
  }

  /** One more directory adds its header and its subtree, unless it is excluded. */
  lemma DirLinesStep(parent: Listing, i: nat, o: Options, level: nat)
    requires parent.Entries? && i < |SortedDirs(parent)|
    ensures var d, front := SortedDirs(parent)[i], Concat(DirLines(parent, i, o, level));
      var entry := Prefix(level) + d.name + "/" + "\n" + TreeText(d.listing, o, level + 1);
      Concat(DirLines(parent, i + 1, o, level)) == if d.name in o.excludeDirs then front else front + entry
  {
    var front := DirLines(parent, i, o, level);
    var d := SortedDirs(parent)[i];
    if d.name !in o.excludeDirs {
      var header := Line(level, d.name + "/");
      var sub := RenderLines(d.listing, o, level + 1);
      assert DirLines(parent, i + 1, o, level) == front + [header] + sub;
      ConcatTriple(front, header, sub);
      HeaderRegroup(Concat(front), Prefix(level), d.name, Concat(sub));
    }
  }

  /** Regrouping the text of a directory's header line and its subtree. */
  lemma HeaderRegroup(a: string, p: string, name: string, c: string)
    ensures a + (p + (name + "/") + "\n") + c == a + (p + name + "/" + "\n" + c)
  {
  }

  /** The text of the file part, window by window. */
  lemma FileLinesConcat(files: seq<string>, o: Options, level: nat)
    ensures |files| > o.fileLimit * 2 ==>
      Concat(FileLines(files, o, level)) ==
        Concat(ShownFiles(Head(files, o.fileLimit), o, level))
        + Format(SkipLine(level, |files| - o.fileLimit * 2))
        + Concat(ShownFiles(Tail(files, o.fileLimit), o, level))
    ensures |files| <= o.fileLimit * 2 ==>
      Concat(FileLines(files, o, level)) == Concat(ShownFiles(files, o, level))
  {
    if |files| > o.fileLimit * 2 {
      var h := ShownFiles(Head(files, o.fileLimit), o, level);
      var skip := SkipLine(level, |files| - o.fileLimit * 2);
      var t := ShownFiles(Tail(files, o.fileLimit), o, level);
      ConcatAppend(h + [skip], t);
      ConcatAppend(h, [skip]);
      ConcatSingle(skip);
    }
  }

  /** The same, after the text built so far. */
  lemma FileLinesText(tree: string, files: seq<string>, o: Options, level: nat)
    ensures |files| > o.fileLimit * 2 ==>
      tree + Concat(FileLines(files, o, level)) ==
        tree + Concat(ShownFiles(Head(files, o.fileLimit), o, level))
        + Format(SkipLine(level, |files| - o.fileLimit * 2))
        + Concat(ShownFiles(Tail(files, o.fileLimit), o, level))
    ensures |files| <= o.fileLimit * 2 ==>
      tree + Concat(FileLines(files, o, level)) == tree + Concat(ShownFiles(files, o, level))
  {
    if |files| > o.fileLimit * 2 {
      var h := Concat(ShownFiles(Head(files, o.fileLimit), o, level));
      var skip := Format(SkipLine(level, |files| - o.fileLimit * 2));
      var t := Concat(ShownFiles(Tail(files, o.fileLimit), o, level));
      assert Concat(FileLines(files, o, level)) == h + skip + t by {
        FileLinesConcat(files, o, level);
      }
      Regroup(tree, h, skip, t);
    } else {
      FileLinesConcat(files, o, level);
    }
  }

  /** The text of a readable listing: its directory part, then its file part. */
  lemma TreeTextParts(l: Listing, o: Options, level: nat)
    requires l.Entries?
    ensures TreeText(l, o, level) ==
      Concat(DirLines(l, |SortedDirs(l)|, o, level)) + Concat(FileLines(SortedFiles(l), o, level))
  {
    ConcatAppend(DirLines(l, |SortedDirs(l)|, o, level), FileLines(SortedFiles(l), o, level));
  }

  /** Appends the lines of one loop over file names, as the loop bodies do. */
  method AppendFiles(tree: string, names: seq<string>, o: Options, level: nat) returns (r: string)
    ensures r == tree + Concat(ShownFiles(names, o, level))
  {
    r := tree;
    var prefix := Prefix(level);
    var i := 0;
    while i < |names|
      invariant 0 <= i <= |names|
      invariant r == tree + Concat(ShownFiles(names[..i], o, level))
    {
      var item := names[i];
      ShownFilesStep(tree, names, i, o, level);
      if !ExcludedFile(item, o.excludeFiles) {
        r := r + (prefix + item + "\n");
      }
      i := i + 1;
    }
    assert names[..i] == names;
  }

  /**
   * The file part of one level: the head window, the summary line and the
   * tail window when there are more than twice `fileLimit` files, and all of
   * them otherwise.
   */
  method AppendFileSection(tree: string, files: seq<string>, o: Options, level: nat) returns (r: string)
    ensures r == tree + Concat(FileLines(files, o, level))
  {
    var prefix := Prefix(level);
    var k := o.fileLimit;
    FileLinesText(tree, files, o, level);
    if |files| > k * 2 {
      r := AppendFiles(tree, Head(files, k), o, level);
      var skipped := |files| - k * 2;
      var text := prefix + SkipBody(skipped) + "\n";
      assert text == Format(SkipLine(level, skipped));
      r := r + text;
      r := AppendFiles(r, Tail(files, k), o, level);
    } else {
      r := AppendFiles(tree, files, o, level);
    }
  }

  /**
   * One pass of the loop over directories: a directory named in
   * `excludeDirs` is skipped, any other gets its line and then the text of its
   * own listing one level deeper.
   */
  method AppendDirEntry(tree: string, root: Listing, i: nat, o: Options, level: nat) returns (r: string)
    requires root.Entries? && i < |SortedDirs(root)|
    requires tree == Concat(DirLines(root, i, o, level))
    ensures r == Concat(DirLines(root, i + 1, o, level))
    decreases root, 0
  {
    var directory := SortedDirs(root)[i];
    if directory.name in o.excludeDirs {
      DirLinesStep(root, i, o, level);
      r := tree;
    } else {
      SortedDirIsChild(root, i);
      var sub := GenerateTreeStructure(directory.listing, o, level + 1);
      DirLinesStep(root, i, o, level);
      r := tree + (Prefix(level) + directory.name + "/" + "\n" + sub);
    }
  }

  /** The directory part of one level, directory by directory. */
  method AppendDirSection(root: Listing, o: Options, level: nat) returns (tree: string)
    requires root.Entries?
    ensures tree == Concat(DirLines(root, |SortedDirs(root)|, o, level))
    decreases root, 1
  {
    tree := "";
    var dirs := SortedDirs(root);
    var i := 0;
    while i < |dirs|
      invariant 0 <= i <= |dirs|
      invariant tree == Concat(DirLines(root, i, o, level))
    {
      tree := AppendDirEntry(tree, root, i, o, level);
      i := i + 1;
    }
  }

  /**
   * `generate_tree_structure(root_dir, exclude_files, exclude_dirs, level,
   * file_limit)`, with the directory given by its listing: an unreadable
   * directory gives the empty string.
   */
  method GenerateTreeStructure(root: Listing, o: Options, level: nat) returns (tree: string)
    ensures tree == TreeText(root, o, level)
    decreases root, 2
  {
    if root.PermissionDenied? {
      return "";
    }
    var files := FileNames(SortByName(root.children));
    tree := AppendDirSection(root, o, level);
    tree := AppendFileSection(tree, files, o, level);
    TreeTextParts(root, o, level);
  }
}
