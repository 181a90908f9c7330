/**
 * What the rendered tree looks like as a whole: every line of a subtree sits
 * deeper than the directory line above it; the lines at one depth are the
 * headers of that level's non-excluded directories, in name order, followed by
 * its file part; an excluded directory leaves no trace, whatever it holds;
 * and an unreadable directory renders like an empty one.
 */
module TreeShape {
  import opened Text
  import opened FileTree
  import opened TreeRenderer

  /** Every line is at depth `level` or deeper. */
  predicate Deeper(lines: seq<Line>, level: nat) {
    forall j :: 0 <= j < |lines| ==> lines[j].level >= level
  }

  /** Every line is at depth `level` exactly. */
  predicate Flat(lines: seq<Line>, level: nat) {
    forall j :: 0 <= j < |lines| ==> lines[j].level == level
  }

  lemma DeeperAppend(a: seq<Line>, b: seq<Line>, level: nat)
    requires Deeper(a, level) && Deeper(b, level)
    ensures Deeper(a + b, level)
  {
    var c := a + b;
    forall j | 0 <= j < |c|
      ensures c[j].level >= level
    {
      if j >= |a| {
        assert c[j] == b[j - |a|];
      }
    }
  }

  lemma FlatAppend(a: seq<Line>, b: seq<Line>, level: nat)
    requires Flat(a, level) && Flat(b, level)
    ensures Flat(a + b, level)
  {
    var c := a + b;
    forall j | 0 <= j < |c|
      ensures c[j].level == level
    {
      if j >= |a| {
        assert c[j] == b[j - |a|];
      }
    }
  }

  lemma {:induction false} ShownFilesFlat(names: seq<string>, o: Options, level: nat)
    ensures Flat(ShownFiles(names, o, level), level)
  {
    if names != [] {
      var front := ShownFiles(names[..|names| - 1], o, level);
      ShownFilesFlat(names[..|names| - 1], o, level);
      FlatAppend(front, [Line(level, names[|names| - 1])], level);
    }
  }

  /** The file part of a level, summary line included, is all at that level. */
  lemma FileLinesFlat(files: seq<string>, o: Options, level: nat)
    ensures Flat(FileLines(files, o, level), level)
  {
    var k := o.fileLimit;
    ShownFilesFlat(files, o, level);
    if |files| > k * 2 {
      ShownFilesFlat(Head(files, k), o, level);
      ShownFilesFlat(Tail(files, k), o, level);
      FlatAppend(ShownFiles(Head(files, k), o, level), [SkipLine(level, |files| - k * 2)], level);
      FlatAppend(ShownFiles(Head(files, k), o, level) + [SkipLine(level, |files| - k * 2)],
        ShownFiles(Tail(files, k), o, level), level);
    }
  }

  /** Nothing a listing renders at depth `level` is shallower than `level`. */
  lemma {:induction false} RenderDeeper(l: Listing, o: Options, level: nat)
    ensures Deeper(RenderLines(l, o, level), level)
    decreases l
  {
    if l.Entries? {
      DirLinesDeeper(l, |SortedDirs(l)|, o, level);
      FileLinesFlat(SortedFiles(l), o, level);
      DeeperAppend(DirLines(l, |SortedDirs(l)|, o, level), FileLines(SortedFiles(l), o, level), level);
    }
  }

  lemma {:induction false} DirLinesDeeper(parent: Listing, n: nat, o: Options, level: nat)
    requires parent.Entries? && n <= |SortedDirs(parent)|
    ensures Deeper(DirLines(parent, n, o, level), level)
    decreases parent, n, 1
  {
    if n > 0 {
      DirLinesDeeper(parent, n - 1, o, level);
      ChildDeeper(parent, n, o, level);
      DirLinesDeeperNext(parent, n, o, level);
    }
  }

  /** The subtree of the directory at `n - 1` renders no line above its own level. */
  lemma {:induction false} ChildDeeper(parent: Listing, n: nat, o: Options, level: nat)
    requires parent.Entries? && 0 < n <= |SortedDirs(parent)|
    ensures var d := SortedDirs(parent)[n - 1];
      Deeper(RenderLines(d.listing, o, level + 1), level + 1)
    decreases parent, n, 0
  {
    var d := SortedDirs(parent)[n - 1];
    SortedDirIsChild(parent, n - 1);
    RenderDeeper(d.listing, o, level + 1);
  }

  /** One more directory keeps the directory part at or below `level`. */
  lemma DirLinesDeeperNext(parent: Listing, n: nat, o: Options, level: nat)
    requires parent.Entries? && 0 < n <= |SortedDirs(parent)|
    requires Deeper(DirLines(parent, n - 1, o, level), level)
    requires var d := SortedDirs(parent)[n - 1];
      Deeper(RenderLines(d.listing, o, level + 1), level + 1)
    ensures Deeper(DirLines(parent, n, o, level), level)
  {
    var d := SortedDirs(parent)[n - 1];
    var front := DirLines(parent, n - 1, o, level);
    if d.name !in o.excludeDirs {
      var header := Line(level, d.name + "/");
      var sub := RenderLines(d.listing, o, level + 1);
      assert DirLines(parent, n, o, level) == front + [header] + sub;
      assert Deeper(sub, level);
      DeeperAppend(front, [header], level);
      DeeperAppend(front + [header], sub, level);
    }
  }

  /** The lines at depth `level` exactly, in order. */
  function AtLevel(lines: seq<Line>, level: nat): (r: seq<Line>)
    ensures |r| <= |lines|
  {
    if lines == [] then []
    else
      var front := AtLevel(lines[..|lines| - 1], level);
      if lines[|lines| - 1].level == level then front + [lines[|lines| - 1]] else front
  }

  lemma {:induction false} AtLevelAppend(a: seq<Line>, b: seq<Line>, level: nat)
    ensures AtLevel(a + b, level) == AtLevel(a, level) + AtLevel(b, level)
    decreases |b|
  {
    if b == [] {
      assert a + b == a;
    } else {
      var c := a + b;
      assert c[..|c| - 1] == a + b[..|b| - 1];
      assert c[|c| - 1] == b[|b| - 1];
      AtLevelAppend(a, b[..|b| - 1], level);
    }
  }

  lemma {:induction false} AtLevelOfDeeper(lines: seq<Line>, level: nat)
    requires Deeper(lines, level + 1)
    ensures AtLevel(lines, level) == []
  {
    if lines != [] {
      AtLevelOfDeeper(lines[..|lines| - 1], level);
    }
  }

  lemma {:induction false} AtLevelOfFlat(lines: seq<Line>, level: nat)
    requires Flat(lines, level)
    ensures AtLevel(lines, level) == lines
  {
    if lines != [] {
      AtLevelOfFlat(lines[..|lines| - 1], level);
    }
  }

  /** The names of the directories the loop does not skip, in order. */
  function ShownDirNames(dirs: seq<Node>, excludeDirs: seq<string>): (r: seq<string>)
    ensures |r| <= |dirs|
  {
    if dirs == [] then []
    else
      var last := dirs[|dirs| - 1];
      var front := ShownDirNames(dirs[..|dirs| - 1], excludeDirs);
      if last.name in excludeDirs then front else front + [last.name]
  }

  /** One `name/` line per directory name. */
  function Headers(names: seq<string>, level: nat): (r: seq<Line>)
    ensures |r| == |names|
  {
    if names == [] then []
    else Headers(names[..|names| - 1], level) + [Line(level, names[|names| - 1] + "/")]
  }

  /** Each shown name is the name of one of the directories. */
  lemma {:induction false} ShownDirNamesFrom(dirs: seq<Node>, excludeDirs: seq<string>, i: nat)
    requires i < |ShownDirNames(dirs, excludeDirs)|
    ensures exists j :: 0 <= j < |dirs| && dirs[j].name == ShownDirNames(dirs, excludeDirs)[i]
  {
    var front := dirs[..|dirs| - 1];
    var r := ShownDirNames(dirs, excludeDirs);
    if i < |ShownDirNames(front, excludeDirs)| {
      ShownDirNamesFrom(front, excludeDirs, i);
      var j :| 0 <= j < |front| && front[j].name == ShownDirNames(front, excludeDirs)[i];
      assert dirs[j] == front[j];
    } else {
      assert dirs[|dirs| - 1].name == r[i];
    }
  }

  /** A name is shown exactly when some directory has it and it is not excluded. */
  lemma {:induction false} ShownDirNamesMembers(dirs: seq<Node>, excludeDirs: seq<string>, x: string)
    ensures x in ShownDirNames(dirs, excludeDirs) <==>
      x !in excludeDirs && exists j :: 0 <= j < |dirs| && dirs[j].name == x
  {
    if dirs != [] {
      var front := dirs[..|dirs| - 1];
      ShownDirNamesMembers(front, excludeDirs, x);
      if exists j :: 0 <= j < |dirs| && dirs[j].name == x {
        var j :| 0 <= j < |dirs| && dirs[j].name == x;
        if j < |front| {
          assert front[j] == dirs[j];
        }
      }
      if exists j :: 0 <= j < |front| && front[j].name == x {
        var j :| 0 <= j < |front| && front[j].name == x;
        assert dirs[j] == front[j];
      }
    }
  }

  /** Skipping directories keeps the others in name order. */
  lemma {:induction false} ShownDirNamesAscending(dirs: seq<Node>, excludeDirs: seq<string>)
    requires SortedByName(dirs)
    ensures Ascending(ShownDirNames(dirs, excludeDirs))
  {
    if dirs != [] {
      var front, last := dirs[..|dirs| - 1], dirs[|dirs| - 1];
      var f := ShownDirNames(front, excludeDirs);
      assert SortedByName(front) by {
        forall i, j | 0 <= i < j < |front|
          ensures LessEq(front[i].name, front[j].name)
        {
          assert front[i] == dirs[i] && front[j] == dirs[j];
        }
      }
      ShownDirNamesAscending(front, excludeDirs);
      if last.name !in excludeDirs {
        var r := f + [last.name];
        forall i, j | 0 <= i < j < |r|
          ensures LessEq(r[i], r[j])
        {
          if j < |f| {
            assert r[i] == f[i] && r[j] == f[j];
          } else {
            ShownDirNamesFrom(front, excludeDirs, i);
            var j' :| 0 <= j' < |front| && front[j'].name == f[i];
            assert dirs[j'] == front[j'];
            assert r[i] == f[i];
          }
        }
      }
    }
  }

  /** The depth-`level` lines of the directory part are the headers, in order. */
  lemma {:induction false} DirLinesOwn(parent: Listing, n: nat, o: Options, level: nat)
    requires parent.Entries? && n <= |SortedDirs(parent)|
    ensures AtLevel(DirLines(parent, n, o, level), level) ==
      Headers(ShownDirNames(SortedDirs(parent)[..n], o.excludeDirs), level)
  {
    if n > 0 {
      var dirs := SortedDirs(parent);
      var d := dirs[n - 1];
      assert dirs[..n][..n - 1] == dirs[..n - 1];
      DirLinesOwn(parent, n - 1, o, level);
      if d.name !in o.excludeDirs {
        SortedDirIsChild(parent, n - 1);
        var front := DirLines(parent, n - 1, o, level);
        var header := Line(level, d.name + "/");
        var sub := RenderLines(d.listing, o, level + 1);
        assert DirLines(parent, n, o, level) == front + [header] + sub;
        AtLevelAppend(front + [header], sub, level);
        AtLevelAppend(front, [header], level);
        assert AtLevel([header], level) == [header] by {
          assert [header][..0] == [];
        }
        RenderDeeper(d.listing, o, level + 1);
        AtLevelOfDeeper(sub, level);
      }
    }
  }

  /**
   * At its own depth a readable listing shows the line of each non-excluded
   * directory, in name order, and then its file part: directories first,
   * every subtree one level deeper, both groups sorted.
   */
  lemma OwnLines(l: Listing, o: Options, level: nat)
    requires l.Entries?
    ensures AtLevel(RenderLines(l, o, level), level) ==
      Headers(ShownDirNames(SortedDirs(l), o.excludeDirs), level) + FileLines(SortedFiles(l), o, level)
    ensures Ascending(ShownDirNames(SortedDirs(l), o.excludeDirs))
    ensures Ascending(SortedFiles(l))
  {
    var dirs := SortedDirs(l);
    assert dirs[..|dirs|] == dirs;
    DirLinesOwn(l, |dirs|, o, level);
    AtLevelAppend(DirLines(l, |dirs|, o, level), FileLines(SortedFiles(l), o, level), level);
    FileLinesFlat(SortedFiles(l), o, level);
    AtLevelOfFlat(FileLines(SortedFiles(l), o, level), level);
    GroupsSorted(l.children);
    ShownDirNamesAscending(dirs, o.excludeDirs);
  }

  /**
   * A directory of the listing gets a header line at the listing's own depth
   * exactly when its name is not excluded.
   */
  lemma HeaderShown(l: Listing, o: Options, level: nat, name: string)
    requires l.Entries?
    ensures Line(level, name + "/") in Headers(ShownDirNames(SortedDirs(l), o.excludeDirs), level) <==>
      name !in o.excludeDirs && exists c :: c in l.children && c.Dir? && c.name == name
  {
    var dirs := SortedDirs(l);
    var names := ShownDirNames(dirs, o.excludeDirs);
    HeadersMembers(names, level, name);
    ShownDirNamesMembers(dirs, o.excludeDirs, name);
    if exists c :: c in l.children && c.Dir? && c.name == name {
      var c :| c in l.children && c.Dir? && c.name == name;
      SortByNameSpec(l.children);
      DirsCount(SortByName(l.children), c);
      assert c in dirs;
    }
    if exists j :: 0 <= j < |dirs| && dirs[j].name == name {
      var j :| 0 <= j < |dirs| && dirs[j].name == name;
      SortedDirIsChild(l, j);
    }
  }

  /** The header list holds the line `name/` exactly when `name` is listed. */
  lemma {:induction false} HeadersMembers(names: seq<string>, level: nat, name: string)
    ensures Line(level, name + "/") in Headers(names, level) <==> name in names
  {
    if names != [] {
      var front, last := names[..|names| - 1], names[|names| - 1];
      HeadersMembers(front, level, name);
      assert names == front + [last];
      if last + "/" == name + "/" {
        assert last == (last + "/")[..|last|] == (name + "/")[..|name|] == name;
      }
    }
  }

  /** Taking one element less off the end commutes with dropping excluded directories. */
  lemma DropSnoc(s: seq<Node>, x: Node, ex: seq<string>)
    ensures DropExcluded(s + [x], ex) == DropExcluded(s, ex) + (if ExcludedDir(x, ex) then [] else [x])
  {
    var c := s + [x];
    if s == [] {
      assert c == [x] + [];
      DropCons(x, [], ex);
    } else {
      assert c == [s[0]] + (s[1..] + [x]);
      DropCons(s[0], s[1..] + [x], ex);
      DropSnoc(s[1..], x, ex);
      assert s == [s[0]] + s[1..];
      DropCons(s[0], s[1..], ex);
    }
  }

  /**
   * Two listings whose sorted directories agree once the excluded ones are
   * dropped produce the same directory part.
   */
  lemma {:induction false} DirLinesAgree(l1: Listing, l2: Listing, n: nat, m: nat, o: Options, level: nat)
    requires l1.Entries? && l2.Entries?
    requires n <= |SortedDirs(l1)| && m <= |SortedDirs(l2)|
    requires SortedDirs(l2)[..m] == DropExcluded(SortedDirs(l1)[..n], o.excludeDirs)
    ensures DirLines(l1, n, o, level) == DirLines(l2, m, o, level)
  {
    var ex := o.excludeDirs;
    var d1, d2 := SortedDirs(l1), SortedDirs(l2);
    if n == 0 {
      assert d1[..n] == [];
      assert m == 0;
    } else {
      var d := d1[n - 1];
      assert d1[..n] == d1[..n - 1] + [d];
      DropSnoc(d1[..n - 1], d, ex);
      if d.name in ex {
        DirLinesAgree(l1, l2, n - 1, m, o, level);
      } else {
        assert d2[..m] == DropExcluded(d1[..n - 1], ex) + [d];
        assert d2[..m][..m - 1] == d2[..m - 1];
        assert d2[m - 1] == d2[..m][m - 1] == d;
        DirLinesAgree(l1, l2, n - 1, m - 1, o, level);
      }
    }
  }

  /**
   * Excluded directories vanish: the tree of a listing is the tree of the same
   * listing with every directory named in `excludeDirs` taken out, so neither
   * such a directory nor anything inside it is rendered.
   */
  lemma ExcludedDirsVanish(cs: seq<Node>, o: Options, level: nat)
    ensures RenderLines(Entries(cs), o, level) ==
      RenderLines(Entries(DropExcluded(cs, o.excludeDirs)), o, level)
  {
    var ex := o.excludeDirs;
    var l1, l2 := Entries(cs), Entries(DropExcluded(cs, ex));
    SortDropCommute(cs, ex);
    DropDirsFiles(SortByName(cs), ex);
    assert SortedDirs(l2) == DropExcluded(SortedDirs(l1), ex);
    assert SortedFiles(l2) == SortedFiles(l1);
    assert SortedDirs(l1)[..|SortedDirs(l1)|] == SortedDirs(l1);
    assert SortedDirs(l2)[..|SortedDirs(l2)|] == SortedDirs(l2);
    DirLinesAgree(l1, l2, |SortedDirs(l1)|, |SortedDirs(l2)|, o, level);
  }

  lemma {:induction false} DropRelist(s: seq<Node>, name: string, l: Listing, ex: seq<string>)
    requires name in ex
    ensures DropExcluded(RelistAll(s, name, l), ex) == DropExcluded(s, ex)
  {
    if s != [] {
      DropRelist(s[1..], name, l, ex);
      assert RelistAll(s, name, l) == [Relist(s[0], name, l)] + RelistAll(s[1..], name, l);
      DropCons(Relist(s[0], name, l), RelistAll(s[1..], name, l), ex);
    }
  }

  /**
   * What an excluded directory holds never matters: giving every directory
   * called `name` any other listing leaves the tree unchanged.
   */
  lemma ExcludedContentsIgnored(cs: seq<Node>, name: string, l: Listing, o: Options, level: nat)
    requires name in o.excludeDirs
    ensures RenderLines(Entries(RelistAll(cs, name, l)), o, level) == RenderLines(Entries(cs), o, level)
  {
    ExcludedDirsVanish(cs, o, level);
    ExcludedDirsVanish(RelistAll(cs, name, l), o, level);
    DropRelist(cs, name, l, o.excludeDirs);
  }

  /** An unreadable directory contributes nothing of its own. */
  lemma UnreadableRendersNothing(o: Options, level: nat)
    ensures TreeText(PermissionDenied, o, level) == ""
    ensures o.fileLimit >= 0 ==> RenderLines(Entries([]), o, level) == []
  {
  }

  /**
   * Two listings whose sorted directories differ only in the listing given to
   * the directories called `name`, both of which render to no lines, produce
   * the same directory part.
   */
  lemma {:induction false} DirLinesRelist(cs: seq<Node>, name: string, a: Listing, b: Listing,
                                          n: nat, o: Options, level: nat)
    requires RenderLines(a, o, level + 1) == [] && RenderLines(b, o, level + 1) == []
    requires n <= |SortedDirs(Entries(RelistAll(cs, name, a)))|
    requires SortedDirs(Entries(RelistAll(cs, name, a))) == RelistAll(SortedDirs(Entries(cs)), name, a)
    requires SortedDirs(Entries(RelistAll(cs, name, b))) == RelistAll(SortedDirs(Entries(cs)), name, b)
    ensures DirLines(Entries(RelistAll(cs, name, a)), n, o, level) ==
      DirLines(Entries(RelistAll(cs, name, b)), n, o, level)
  {
    if n > 0 {
      DirLinesRelist(cs, name, a, b, n - 1, o, level);
      var d := SortedDirs(Entries(cs))[n - 1];
      var la, lb := Entries(RelistAll(cs, name, a)), Entries(RelistAll(cs, name, b));
      assert SortedDirs(la)[n - 1] == Relist(d, name, a);
      assert SortedDirs(lb)[n - 1] == Relist(d, name, b);
    }
  }

  /**
   * An unreadable directory renders exactly like an empty one: only its own
   * line appears and its siblings, before and after it, are untouched.
   */
  lemma UnreadableLikeEmpty(cs: seq<Node>, name: string, o: Options, level: nat)
    requires o.fileLimit >= 0
    ensures RenderLines(Entries(RelistAll(cs, name, PermissionDenied)), o, level) ==
      RenderLines(Entries(RelistAll(cs, name, Entries([]))), o, level)
  {
    var a, b := PermissionDenied, Entries([]);
    var s := SortByName(cs);
    SortRelistCommute(cs, name, a);
    SortRelistCommute(cs, name, b);
    RelistDirsFiles(s, name, a);
    RelistDirsFiles(s, name, b);
    UnreadableRendersNothing(o, level + 1);
    DirLinesRelist(cs, name, a, b, |SortedDirs(Entries(RelistAll(cs, name, a)))|, o, level);
  }
}
