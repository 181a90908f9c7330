/**
 * What the file part of one level shows. A short list of files is shown
 * whole, less the names an excluded suffix matches; a long one is cut to a
 * window of `fileLimit` names at each end with one summary line between them,
 * whose count is taken before the suffix filter.
 */
module FileWindows {
  import opened Text
  import opened TreeRenderer

  /** The names no excluded suffix matches, in their original order. */
  function Kept(names: seq<string>, excludeFiles: seq<string>): (r: seq<string>)
    ensures |r| <= |names|
  {
    if names == [] then []
    else if ExcludedFile(names[0], excludeFiles) then Kept(names[1..], excludeFiles)
    else [names[0]] + Kept(names[1..], excludeFiles)
  }

  /** One line per name, all at the same depth. */
  function AsLines(names: seq<string>, level: nat): (r: seq<Line>)
    ensures |r| == |names|
  {
    if names == [] then [] else [Line(level, names[0])] + AsLines(names[1..], level)
  }

  lemma {:induction false} KeptAppend(a: seq<string>, b: seq<string>, excludeFiles: seq<string>)
    ensures Kept(a + b, excludeFiles) == Kept(a, excludeFiles) + Kept(b, excludeFiles)
  {
    if a == [] {
      assert a + b == b;
    } else {
      var x, t := a[0], a[1..];
      var c := a + b;
      assert c[0] == x && c[1..] == t + b;
      KeptAppend(t, b, excludeFiles);
    }
  }

  lemma {:induction false} AsLinesAppend(a: seq<string>, b: seq<string>, level: nat)
    ensures AsLines(a + b, level) == AsLines(a, level) + AsLines(b, level)
  {
    if a == [] {
      assert a + b == b;
    } else {
      var x, t := a[0], a[1..];
      var c := a + b;
      assert c[0] == x && c[1..] == t + b;
      AsLinesAppend(t, b, level);
    }
  }

  /** A name is kept exactly when it is one of the names and no excluded suffix matches it. */
  lemma {:induction false} KeptMembers(names: seq<string>, excludeFiles: seq<string>, f: string)
    ensures f in Kept(names, excludeFiles) <==> f in names && !ExcludedFile(f, excludeFiles)
  {
    if names != [] {
      KeptMembers(names[1..], excludeFiles, f);
      assert names == [names[0]] + names[1..];
    }
  }

  /** A kept name is kept as many times as it occurs; an excluded one never. */
  lemma {:induction false} KeptCount(names: seq<string>, excludeFiles: seq<string>, f: string)
    ensures multiset(Kept(names, excludeFiles))[f] ==
      if ExcludedFile(f, excludeFiles) then 0 else multiset(names)[f]
  {
    if names != [] {
      KeptCount(names[1..], excludeFiles, f);
      assert names == [names[0]] + names[1..];
    }
  }

  /**
   * The loop over a list of names writes one line per kept name, in order, at
   * the level it was given.
   */
  lemma {:induction false} ShownFilesKept(names: seq<string>, o: Options, level: nat)
    ensures ShownFiles(names, o, level) == AsLines(Kept(names, o.excludeFiles), level)
  {
    if names != [] {
      var front, last := names[..|names| - 1], names[|names| - 1];
      assert names == front + [last];
      ShownFilesKept(front, o, level);
      KeptAppend(front, [last], o.excludeFiles);
      assert [last][1..] == [];
      AsLinesAppend(Kept(front, o.excludeFiles), Kept([last], o.excludeFiles), level);
    }
  }

  /** Every line of `AsLines` carries its name, at the given level. */
  lemma {:induction false} AsLinesAt(names: seq<string>, level: nat, j: nat)
    requires j < |names|
    ensures AsLines(names, level)[j] == Line(level, names[j])
  {
    if j > 0 {
      AsLinesAt(names[1..], level, j - 1);
    }
  }

  /**
   * A list of at most twice `fileLimit` names is shown whole: the i-th line is
   * the i-th kept name, so each non-excluded name appears as often as it
   * occurs, in order; an excluded name and the summary line never appear.
   */
  lemma ShortListing(files: seq<string>, o: Options, level: nat)
    requires |files| <= o.fileLimit * 2
    ensures var r, kept := FileLines(files, o, level), Kept(files, o.excludeFiles);
      |r| == |kept| && forall j :: 0 <= j < |r| ==> r[j] == Line(level, kept[j])
    ensures forall f :: Line(level, f) in FileLines(files, o, level) <==>
      f in files && !ExcludedFile(f, o.excludeFiles)
  {
    var kept := Kept(files, o.excludeFiles);
    ShownFilesKept(files, o, level);
    forall j | 0 <= j < |kept|
      ensures AsLines(kept, level)[j] == Line(level, kept[j])
    {
      AsLinesAt(kept, level, j);
    }
    forall f
      ensures Line(level, f) in FileLines(files, o, level) <==> f in files && !ExcludedFile(f, o.excludeFiles)
    {
      KeptMembers(files, o.excludeFiles, f);
      if Line(level, f) in FileLines(files, o, level) {
        var j :| 0 <= j < |kept| && AsLines(kept, level)[j] == Line(level, f);
        assert kept[j] == f;
      }
      if f in kept {
        var j :| 0 <= j < |kept| && kept[j] == f;
        assert AsLines(kept, level)[j] == Line(level, f);
      }
    }
  }

  /**
   * A list of more than twice `fileLimit` names, with `fileLimit` at least one:
   * the first and the last `fileLimit` names (kept ones only) around one
   * summary line counting the names between the two windows, so at most
   * 2 * fileLimit + 1 lines.
   */
  lemma LongListing(files: seq<string>, o: Options, level: nat)
    requires o.fileLimit >= 1 && |files| > o.fileLimit * 2
    ensures var k, n := o.fileLimit, |files|;
      k < n - k &&
      FileLines(files, o, level) ==
        AsLines(Kept(files[..k], o.excludeFiles), level)
        + [SkipLine(level, n - 2 * k)]
        + AsLines(Kept(files[n - k..], o.excludeFiles), level)
    ensures |FileLines(files, o, level)| <= 2 * o.fileLimit + 1
  {
    var k, n := o.fileLimit, |files|;
    assert Head(files, k) == files[..k];
    assert Tail(files, k) == files[n - k..];
    ShownFilesKept(files[..k], o, level);
    ShownFilesKept(files[n - k..], o, level);
  }

  /**
   * The count in the summary line depends on the number of files and on
   * `fileLimit` alone: the names the excluded suffixes hide from the windows
   * are not counted.
   */
  lemma SkipCountIgnoresExclusions(files: seq<string>, o: Options, excludeFiles: seq<string>, level: nat)
    requires o.fileLimit >= 1 && |files| > o.fileLimit * 2
    ensures var o' := o.(excludeFiles := excludeFiles);
      var i, i' := |Kept(files[..o.fileLimit], o.excludeFiles)|, |Kept(files[..o.fileLimit], excludeFiles)|;
      i < |FileLines(files, o, level)| && i' < |FileLines(files, o', level)| &&
      FileLines(files, o, level)[i] == FileLines(files, o', level)[i'] == SkipLine(level, |files| - 2 * o.fileLimit)
  {
    LongListing(files, o, level);
    LongListing(files, o.(excludeFiles := excludeFiles), level);
  }

  /**
   * With `fileLimit` zero, any non-empty list gets the summary line counting
   * every file, and then every file again: `files[-0:]` is the whole list.
   */
  lemma ZeroLimit(files: seq<string>, o: Options, level: nat)
    requires o.fileLimit == 0 && files != []
    ensures FileLines(files, o, level) ==
      [SkipLine(level, |files|)] + AsLines(Kept(files, o.excludeFiles), level)
  {
    assert Head(files, 0) == [];
    assert Tail(files, 0) == files;
    ShownFilesKept(files, o, level);
  }

  /**
   * Five names, a limit of two and `.md` excluded: the summary line says one
   * file is skipped, yet only three names are shown, because the excluded
   * `a.md` sits in the first window and is counted as shown.
   */
  lemma SkipCountBeforeExclusion()
    ensures var o := Options([".md"], [], 2);
      FileLines(["a.md", "b", "c", "d", "e"], o, 0) ==
        [Line(0, "b"), SkipLine(0, 1), Line(0, "d"), Line(0, "e")]
  {
    var o := Options([".md"], [], 2);
    var files := ["a.md", "b", "c", "d", "e"];
    assert Head(files, 2) == ["a.md", "b"];
    assert Tail(files, 2) == ["d", "e"];
    assert EndsWith("a.md", ".md");
    assert !EndsWith("b", ".md") && !EndsWith("d", ".md") && !EndsWith("e", ".md");
    ShownFilesKept(["a.md", "b"], o, 0);
    ShownFilesKept(["d", "e"], o, 0);
  }

  /**
   * Ten files with a limit of two: the first two, the line
   * "... (6 more files skipped)", the last two.
   */
  lemma TenFiles()
    ensures var files := ["f0", "f1", "f2", "f3", "f4", "f5", "f6", "f7", "f8", "f9"];
      FileLines(files, Options([], [], 2), 0) ==
        [Line(0, "f0"), Line(0, "f1"), SkipLine(0, 6), Line(0, "f8"), Line(0, "f9")]
  {
    var o := Options([], [], 2);
    var files := ["f0", "f1", "f2", "f3", "f4", "f5", "f6", "f7", "f8", "f9"];
    assert Head(files, 2) == ["f0", "f1"];
    assert Tail(files, 2) == ["f8", "f9"];
    ShownFilesKept(["f0", "f1"], o, 0);
    ShownFilesKept(["f8", "f9"], o, 0);
  }

  /** The summary line of that listing reads "... (6 more files skipped)". */
  lemma SixSkipped()
    ensures SkipBody(6) == "... (6 more files skipped)"
  {
    assert DecimalString(6) == "6";
  }
}
