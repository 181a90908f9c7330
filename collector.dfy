/**
 * The collector, `collect_files_by_type`: walk the whole directory top-down,
 * as `os.walk` does, and list the path (relative to the root) of every
 * non-directory entry whose name ends with the requested extension. It takes
 * no exclusion lists: files the tree hides are still collected.
 *
 * `Walk` is the sequence of `(dirpath, filenames)` steps `os.walk` yields;
 * `Collected` is what the nested loops of `collect_files_by_type` append;
 * `Matching` is an independent, child-by-child definition of the same paths,
 * and `WalkMatches` proves the two agree as multisets.
 */
module Collector {
  import opened Text
  import opened FileTree
  import opened TreeRenderer

  /**
   * One step of `os.walk`: the directory, as its path components below the
   * root, and the names of its entries that are not directories, in listing
   * order.
   */
  datatype Step = Step(dir: seq<string>, fileNames: seq<string>)

  /**
   * `os.path.relpath(os.path.join(dirpath, filename), root_dir)`: the
   * components joined with `/`.
   */
  function Path(dir: seq<string>, name: string): string {
    Join("/", dir + [name])
  }

  /** The names of the entries `os.walk` puts in `filenames`: everything but directories. */
  function NonDirNames(cs: seq<Node>): (r: seq<string>)
    ensures |r| <= |cs|
  {
    if cs == [] then []
    else
      var last := cs[|cs| - 1];
      var front := NonDirNames(cs[..|cs| - 1]);
      if last.Dir? then front else front + [last.name]
  }

  /**
   * The steps `os.walk` yields for a directory at `dir`: its own step first,
   * then the walks of its subdirectories in listing order. An unreadable
   * directory yields nothing (the default `onerror` ignores the failure).
   */
  function Walk(l: Listing, dir: seq<string>): seq<Step>
    decreases l
  {
    match l
    case PermissionDenied => []
    case Entries(cs) => [Step(dir, NonDirNames(cs))] + SubWalks(l, |cs|, dir)
  }

  /** The walks below the first `n` entries of a listing, the directories among them in order. */
  function SubWalks(parent: Listing, n: nat, dir: seq<string>): seq<Step>
    requires parent.Entries? && n <= |parent.children|
    decreases parent, n
  {
    if n == 0 then []
    else
      var c := parent.children[n - 1];
      var front := SubWalks(parent, n - 1, dir);
      if c.Dir? then front + Walk(c.listing, dir + [c.name]) else front
  }

  /** The paths the inner loop appends for one step: the names that end with `ext`. */
  function Hits(dir: seq<string>, names: seq<string>, ext: string): (r: seq<string>)
    ensures |r| <= |names|
  {
    if names == [] then []
    else
      var last := names[|names| - 1];
      var front := Hits(dir, names[..|names| - 1], ext);
      if EndsWith(last, ext) then front + [Path(dir, last)] else front
  }

  /** The list the outer loop builds from a sequence of steps. */
  function Collected(steps: seq<Step>, ext: string): seq<string> {
    if steps == [] then []
    else
      var last := steps[|steps| - 1];
      Collected(steps[..|steps| - 1], ext) + Hits(last.dir, last.fileNames, ext)
  }

  /** One more file name adds its path to the result exactly when it ends with `ext`. */
  lemma HitsStep(acc: seq<string>, dir: seq<string>, names: seq<string>, j: nat, ext: string)
    requires j < |names|
    ensures acc + Hits(dir, names[..j + 1], ext) ==
      (if EndsWith(names[j], ext) then acc + Hits(dir, names[..j], ext) + [Path(dir, names[j])]
       else acc + Hits(dir, names[..j], ext))
  {
    assert names[..j + 1][..j] == names[..j];
  }

  /** One more step adds its hits to the result. */
  lemma CollectedStep(steps: seq<Step>, i: nat, ext: string)
    requires i < |steps|
    ensures Collected(steps[..i + 1], ext) ==
      Collected(steps[..i], ext) + Hits(steps[i].dir, steps[i].fileNames, ext)
  {
    assert steps[..i + 1][..i] == steps[..i];
  }

  /**
   * `collect_files_by_type(root_dir, file_extension, root_dir)`: the two nested
   * loops over the steps of the walk and the names of each step.
   */
  method CollectFilesByType(root: Listing, fileExtension: string) returns (collected: seq<string>)
    ensures collected == Collected(Walk(root, []), fileExtension)
  {
    collected := [];
    var steps := Walk(root, []);
    var i := 0;
    while i < |steps|
      invariant 0 <= i <= |steps|
      invariant collected == Collected(steps[..i], fileExtension)
    {
      var step := steps[i];
      var j := 0;
      while j < |step.fileNames|
        invariant 0 <= j <= |step.fileNames|
        invariant collected == Collected(steps[..i], fileExtension) + Hits(step.dir, step.fileNames[..j], fileExtension)
      {
        var filename := step.fileNames[j];
        HitsStep(Collected(steps[..i], fileExtension), step.dir, step.fileNames, j, fileExtension);
        if EndsWith(filename, fileExtension) {
          collected := collected + [Path(step.dir, filename)];
        }
        j := j + 1;
      }
      assert step.fileNames[..j] == step.fileNames;
      CollectedStep(steps, i, fileExtension);
      i := i + 1;
    }
    assert steps[..i] == steps;
  }

  /** A joined path ends with its last component. */
  lemma {:induction false} JoinEndsWithLast(sep: string, parts: seq<string>)
    requires |parts| >= 1
    ensures EndsWith(Join(sep, parts), parts[|parts| - 1])
  {
    if |parts| > 1 {
      JoinEndsWithLast(sep, parts[1..]);
      EndsWithAppend(parts[0] + sep, Join(sep, parts[1..]), parts[|parts| - 1]);
      assert Join(sep, parts) == parts[0] + sep + Join(sep, parts[1..]);
    }
  }

  /** A path ends with every suffix its file name ends with. */
  lemma PathEndsWith(dir: seq<string>, name: string, ext: string)
    requires EndsWith(name, ext)
    ensures EndsWith(Path(dir, name), ext)
  {
    JoinEndsWithLast("/", dir + [name]);
    EndsWithTransitive(Path(dir, name), name, ext);
  }

  lemma {:induction false} HitsEndWith(dir: seq<string>, names: seq<string>, ext: string)
    ensures forall p :: p in Hits(dir, names, ext) ==> EndsWith(p, ext)
  {
    if names != [] {
      HitsEndWith(dir, names[..|names| - 1], ext);
      var last := names[|names| - 1];
      if EndsWith(last, ext) {
        PathEndsWith(dir, last, ext);
      }
    }
  }

  /** Every collected path ends with the requested extension. */
  lemma {:induction false} CollectedEndWith(steps: seq<Step>, ext: string)
    ensures forall p :: p in Collected(steps, ext) ==> EndsWith(p, ext)
  {
    if steps != [] {
      var last := steps[|steps| - 1];
      CollectedEndWith(steps[..|steps| - 1], ext);
      HitsEndWith(last.dir, last.fileNames, ext);
    }
  }

  lemma {:induction false} CollectedAppend(a: seq<Step>, b: seq<Step>, ext: string)
    ensures Collected(a + b, ext) == Collected(a, ext) + Collected(b, ext)
    decreases |b|
  {
    if b == [] {
      assert a + b == a;
    } else {
      var c, front, last := a + b, b[..|b| - 1], b[|b| - 1];
      assert c[..|c| - 1] == a + front;
      assert c[|c| - 1] == last;
      CollectedAppend(a, front, ext);
      var h := Hits(last.dir, last.fileNames, ext);
      assert Collected(c, ext) == Collected(a + front, ext) + h;
      assert Collected(b, ext) == Collected(front, ext) + h;
    }
  }

  /** The single path an entry that is not a directory contributes, if its name matches. */
  function FileHit(dir: seq<string>, name: string, ext: string): multiset<string> {
    if EndsWith(name, ext) then multiset{Path(dir, name)} else multiset{}
  }

  /**
   * The paths to collect below a directory at `dir`, defined entry by entry:
   * a matching non-directory contributes its path, a directory whatever its
   * own listing contributes, an unreadable directory nothing.
   */
  function Matching(l: Listing, dir: seq<string>, ext: string): multiset<string>
    decreases l
  {
    match l
    case PermissionDenied => multiset{}
    case Entries(cs) => MatchingIn(l, |cs|, dir, ext)
  }

  /** The paths to collect among the first `n` entries of a listing. */
  function MatchingIn(parent: Listing, n: nat, dir: seq<string>, ext: string): multiset<string>
    requires parent.Entries? && n <= |parent.children|
    decreases parent, n
  {
    if n == 0 then multiset{}
    else
      var c := parent.children[n - 1];
      MatchingIn(parent, n - 1, dir, ext) +
        (if c.Dir? then Matching(c.listing, dir + [c.name], ext) else FileHit(dir, c.name, ext))
  }

  /**
   * The walk collects exactly the paths `Matching` defines, each as often:
   * the order may differ, the contents do not.
   */
  lemma {:induction false} WalkMatches(l: Listing, dir: seq<string>, ext: string)
    ensures multiset(Collected(Walk(l, dir), ext)) == Matching(l, dir, ext)
    decreases l
  {
    if l.Entries? {
      var cs := l.children;
      var own := [Step(dir, NonDirNames(cs))];
      assert Collected(own, ext) == Hits(dir, NonDirNames(cs), ext) by {
        assert own[..0] == [];
      }
      CollectedAppend(own, SubWalks(l, |cs|, dir), ext);
      SubWalksMatch(l, |cs|, dir, ext);
      assert cs[..|cs|] == cs;
    }
  }

  /** Regrouping the two sides of one step of the induction below. */
  lemma RegroupDir(h: multiset<string>, b: multiset<string>, x: multiset<string>, prev: multiset<string>)
    requires prev == h + b
    ensures h + (b + x) == prev + x
  {
  }

  lemma RegroupFile(h: multiset<string>, b: multiset<string>, y: multiset<string>, prev: multiset<string>)
    requires prev == h + b
    ensures (h + y) + b == prev + y
  {
  }

  /** One more entry of a listing, in each of the three definitions. */
  lemma SubWalksStep(parent: Listing, n: nat, dir: seq<string>, ext: string)
    requires parent.Entries? && 0 < n <= |parent.children|
    ensures var cs, c := parent.children, parent.children[n - 1];
      c.Dir? ==>
        && multiset(Hits(dir, NonDirNames(cs[..n]), ext)) == multiset(Hits(dir, NonDirNames(cs[..n - 1]), ext))
        && multiset(Collected(SubWalks(parent, n, dir), ext)) ==
          multiset(Collected(SubWalks(parent, n - 1, dir), ext)) + multiset(Collected(Walk(c.listing, dir + [c.name]), ext))
        && MatchingIn(parent, n, dir, ext) == MatchingIn(parent, n - 1, dir, ext) + Matching(c.listing, dir + [c.name], ext)
    ensures var cs, c := parent.children, parent.children[n - 1];
      !c.Dir? ==>
        && multiset(Hits(dir, NonDirNames(cs[..n]), ext)) ==
          multiset(Hits(dir, NonDirNames(cs[..n - 1]), ext)) + FileHit(dir, c.name, ext)
        && multiset(Collected(SubWalks(parent, n, dir), ext)) == multiset(Collected(SubWalks(parent, n - 1, dir), ext))
        && MatchingIn(parent, n, dir, ext) == MatchingIn(parent, n - 1, dir, ext) + FileHit(dir, c.name, ext)
  {
    var cs, c := parent.children, parent.children[n - 1];
    assert cs[..n][..n - 1] == cs[..n - 1];
    var names := NonDirNames(cs[..n - 1]);
    if c.Dir? {
      assert NonDirNames(cs[..n]) == names;
      CollectedAppend(SubWalks(parent, n - 1, dir), Walk(c.listing, dir + [c.name]), ext);
    } else {
      assert NonDirNames(cs[..n]) == names + [c.name];
      assert (names + [c.name])[..|names|] == names;
    }
  }

  /** The paths collected among the first `n` entries, counted two ways. */
  predicate SubWalksAgree(parent: Listing, n: nat, dir: seq<string>, ext: string)
    requires parent.Entries? && n <= |parent.children|
  {
    multiset(Hits(dir, NonDirNames(parent.children[..n]), ext)) +
      multiset(Collected(SubWalks(parent, n, dir), ext)) == MatchingIn(parent, n, dir, ext)
  }

  /** The inductive step when the next entry is a directory whose walk agrees with `Matching`. */
  lemma SubWalksAgreeDir(parent: Listing, n: nat, dir: seq<string>, ext: string)
    requires parent.Entries? && 0 < n <= |parent.children| && parent.children[n - 1].Dir?
    requires SubWalksAgree(parent, n - 1, dir, ext)
    requires var c := parent.children[n - 1];
      multiset(Collected(Walk(c.listing, dir + [c.name]), ext)) == Matching(c.listing, dir + [c.name], ext)
    ensures SubWalksAgree(parent, n, dir, ext)
  {
    var cs, c := parent.children, parent.children[n - 1];
    SubWalksStep(parent, n, dir, ext);
    RegroupDir(multiset(Hits(dir, NonDirNames(cs[..n - 1]), ext)),
      multiset(Collected(SubWalks(parent, n - 1, dir), ext)),
      Matching(c.listing, dir + [c.name], ext), MatchingIn(parent, n - 1, dir, ext));
  }

  /** The inductive step when the next entry is not a directory. */
  lemma SubWalksAgreeFile(parent: Listing, n: nat, dir: seq<string>, ext: string)
    requires parent.Entries? && 0 < n <= |parent.children| && !parent.children[n - 1].Dir?
    requires SubWalksAgree(parent, n - 1, dir, ext)
    ensures SubWalksAgree(parent, n, dir, ext)
  {
    var cs, c := parent.children, parent.children[n - 1];
    SubWalksStep(parent, n, dir, ext);
    RegroupFile(multiset(Hits(dir, NonDirNames(cs[..n - 1]), ext)),
      multiset(Collected(SubWalks(parent, n - 1, dir), ext)),
      FileHit(dir, c.name, ext), MatchingIn(parent, n - 1, dir, ext));
  }

  lemma {:induction false} SubWalksMatch(parent: Listing, n: nat, dir: seq<string>, ext: string)
    requires parent.Entries? && n <= |parent.children|
    ensures SubWalksAgree(parent, n, dir, ext)
    decreases parent, n, 1
  {
    if n > 0 {
      SubWalksMatch(parent, n - 1, dir, ext);
      ChildMatches(parent, n, dir, ext);
      SubWalksAgreeNext(parent, n, dir, ext);
    }
  }

  /** The walk below the entry at `n - 1`, if it is a directory, agrees with `Matching`. */
  lemma {:induction false} ChildMatches(parent: Listing, n: nat, dir: seq<string>, ext: string)
    requires parent.Entries? && 0 < n <= |parent.children|
    ensures var c := parent.children[n - 1];
      c.Dir? ==> multiset(Collected(Walk(c.listing, dir + [c.name]), ext)) == Matching(c.listing, dir + [c.name], ext)
    decreases parent, n, 0
  {
    var c := parent.children[n - 1];
    if c.Dir? {
      WalkMatches(c.listing, dir + [c.name], ext);
    }
  }

  /** The inductive step, given the agreement for the entries before and below. */
  lemma SubWalksAgreeNext(parent: Listing, n: nat, dir: seq<string>, ext: string)
    requires parent.Entries? && 0 < n <= |parent.children|
    requires SubWalksAgree(parent, n - 1, dir, ext)
    requires var c := parent.children[n - 1];
      c.Dir? ==> multiset(Collected(Walk(c.listing, dir + [c.name]), ext)) == Matching(c.listing, dir + [c.name], ext)
    ensures SubWalksAgree(parent, n, dir, ext)
  {
    if parent.children[n - 1].Dir? {
      SubWalksAgreeDir(parent, n, dir, ext);
    } else {
      SubWalksAgreeFile(parent, n, dir, ext);
    }
  }

  /**
   * A path is collected exactly when the listings hold a matching entry at
   * that path, below readable directories only.
   */
  lemma CollectedMembers(root: Listing, ext: string, p: string)
    ensures p in Collected(Walk(root, []), ext) <==> Matching(root, [], ext)[p] > 0
  {
    WalkMatches(root, [], ext);
  }

  /** No component of a path holds the separator. */
  predicate Plain(parts: seq<string>) {
    forall i :: 0 <= i < |parts| ==> '/' !in parts[i]
  }

  /** A path built from plain components splits back into them. */
  lemma PathSplits(dir: seq<string>, name: string)
    requires Plain(dir + [name])
    ensures Split(Path(dir, name), '/') == dir + [name]
  {
    SplitJoinRoundTrip(dir + [name], '/');
  }

  /** The names of a run of entries. */
  function Names(cs: seq<Node>): seq<string> {
    seq(|cs|, i requires 0 <= i < |cs| => cs[i].name)
  }

  /** The path's components start with `dir` and go on below it. */
  predicate Below(p: string, dir: seq<string>) {
    var parts := Split(p, '/');
    |parts| > |dir| && parts[..|dir|] == dir
  }

  /**
   * Every path counted in `m` is counted once, lies below `dir`, and its
   * next component is one of `names`.
   */
  predicate OnceBelow(m: multiset<string>, dir: seq<string>, names: seq<string>) {
    forall p :: p in m ==> m[p] == 1 && Below(p, dir) && Split(p, '/')[|dir|] in names
  }

  /** Paths below `dir + [name]` continue with `name` below `dir`. */
  lemma OnceBelowChild(m: multiset<string>, dir: seq<string>, name: string)
    requires forall p :: p in m ==> m[p] == 1 && Below(p, dir + [name])
    ensures OnceBelow(m, dir, [name])
  {
    forall p | p in m
      ensures Below(p, dir) && Split(p, '/')[|dir|] == name
    {
      var parts := Split(p, '/');
      assert parts[..|dir| + 1] == dir + [name];
      assert parts[..|dir|] == parts[..|dir| + 1][..|dir|];
      assert parts[|dir|] == parts[..|dir| + 1][|dir|];
    }
  }

  /** The path of a file entry, if it matches, is counted once. */
  lemma FileHitOnce(dir: seq<string>, name: string, ext: string)
    requires Plain(dir + [name])
    ensures OnceBelow(FileHit(dir, name, ext), dir, [name])
  {
    PathSplits(dir, name);
    var parts := dir + [name];
    assert parts[..|dir|] == dir && parts[|dir|] == name;
  }

  /** Two groups of paths that continue with different names do not overlap. */
  lemma OnceBelowUnion(a: multiset<string>, b: multiset<string>, dir: seq<string>, names: seq<string>, x: string)
    requires OnceBelow(a, dir, names) && OnceBelow(b, dir, [x]) && x !in names
    ensures OnceBelow(a + b, dir, names + [x])
  {
    forall p | p in a + b
      ensures (a + b)[p] == 1 && Below(p, dir) && Split(p, '/')[|dir|] in names + [x]
    {
      if p in a {
        assert Split(p, '/')[|dir|] in names;
        assert p !in b;
      } else {
        assert Split(p, '/')[|dir|] in [x];
      }
    }
  }

  /** The entry at `n - 1` comes after the others, under a name none of them has. */
  lemma NamesStep(parent: Listing, n: nat)
    requires parent.Entries? && 0 < n <= |parent.children| && WellFormed(parent)
    ensures var cs := parent.children;
      Names(cs[..n]) == Names(cs[..n - 1]) + [cs[n - 1].name] && cs[n - 1].name !in Names(cs[..n - 1])
  {
    var cs := parent.children;
    assert Names(cs[..n]) == Names(cs[..n - 1]) + [cs[n - 1].name];
    var front := Names(cs[..n - 1]);
    forall i | 0 <= i < |front|
      ensures front[i] != cs[n - 1].name
    {
      assert front[i] == cs[i].name;
    }
  }

  /**
   * In a well-formed tree no path is collected twice: a matching entry's path
   * names it uniquely, the directory components first.
   */
  lemma {:induction false} MatchingOnce(l: Listing, dir: seq<string>, ext: string)
    requires WellFormed(l) && Plain(dir)
    ensures forall p :: p in Matching(l, dir, ext) ==> Matching(l, dir, ext)[p] == 1 && Below(p, dir)
    decreases l
  {
    if l.Entries? {
      MatchingInOnce(l, |l.children|, dir, ext);
    }
  }

  lemma {:induction false} MatchingInOnce(parent: Listing, n: nat, dir: seq<string>, ext: string)
    requires parent.Entries? && n <= |parent.children|
    requires WellFormed(parent) && Plain(dir)
    ensures OnceBelow(MatchingIn(parent, n, dir, ext), dir, Names(parent.children[..n]))
    decreases parent, n
  {
    if n > 0 {
      var cs, c := parent.children, parent.children[n - 1];
      MatchingInOnce(parent, n - 1, dir, ext);
      NamesStep(parent, n);
      assert Plain(dir + [c.name]);
      if c.Dir? {
        MatchingOnce(c.listing, dir + [c.name], ext);
        OnceBelowChild(Matching(c.listing, dir + [c.name], ext), dir, c.name);
        OnceBelowUnion(MatchingIn(parent, n - 1, dir, ext), Matching(c.listing, dir + [c.name], ext),
          dir, Names(cs[..n - 1]), c.name);
      } else {
        FileHitOnce(dir, c.name, ext);
        OnceBelowUnion(MatchingIn(parent, n - 1, dir, ext), FileHit(dir, c.name, ext),
          dir, Names(cs[..n - 1]), c.name);
      }
    }
  }

  /** A directory `.git` holding one file `x.jl`. */
  const GitOnly := Entries([Dir(".git", Entries([File("x.jl")]))])

  /** The walk of that directory: the root with no files, then `.git` with `x.jl`. */
  lemma GitOnlyWalk()
    ensures Walk(GitOnly, []) == [Step([], []), Step([".git"], ["x.jl"])]
  {
    var sub := Entries([File("x.jl")]);
    assert [File("x.jl")][..0] == [];
    assert [Dir(".git", sub)][..0] == [];
    assert NonDirNames(GitOnly.children) == [];
    assert NonDirNames(sub.children) == ["x.jl"];
    assert SubWalks(sub, 1, [".git"]) == [];
    assert [] + [".git"] == [".git"];
    assert SubWalks(GitOnly, 1, []) == Walk(sub, [".git"]);
  }

  lemma GitOnlyPath()
    ensures Path([".git"], "x.jl") == ".git/x.jl"
  {
    var parts := [".git"] + ["x.jl"];
    assert parts[1..] == ["x.jl"];
    assert Join("/", parts) == ".git" + "/" + "x.jl";
  }

  /**
   * The collector is not filtered: a matching file inside a directory the
   * tree excludes is still collected, as `.git/x.jl`.
   */
  lemma CollectsUnderExcludedDir()
    ensures Collected(Walk(GitOnly, []), ".jl") == [".git/x.jl"]
  {
    var steps := [Step([], []), Step([".git"], ["x.jl"])];
    GitOnlyWalk();
    GitOnlyPath();
    assert ["x.jl"][..0] == [];
    assert EndsWith("x.jl", ".jl");
    assert Hits([".git"], ["x.jl"], ".jl") == [".git/x.jl"];
    assert steps[..1] == [Step([], [])];
    assert [Step([], [])][..0] == [];
    assert Collected(steps[..1], ".jl") == [];
  }

  /** The tree of the same directory, with `.git` excluded, is empty. */
  lemma ExcludedDirNotRendered()
    ensures RenderLines(GitOnly, Options([], [".git"], 2), 0) == []
  {
    assert [Dir(".git", Entries([File("x.jl")]))][..0] == [];
    assert SortByName(GitOnly.children) == GitOnly.children;
    assert SortedDirs(GitOnly) == GitOnly.children;
    assert SortedFiles(GitOnly) == [];
  }
}
