/**
 * The abstract directory tree that stands in for the real filesystem, and the
 * operations on one directory listing that both walkers perform: sorting the
 * entries by name (as `list.sort()` does for the names `os.listdir` returns),
 * splitting them into directories and files (the two comprehensions of
 * `generate_tree_structure`), and the two edits the renderer's lemmas talk
 * about (dropping excluded directories, swapping a directory's listing).
 */
module FileTree {
  import opened Text

  /**
   * One entry of a directory. `Other` is an entry that is neither a directory
   * nor a regular file (a dangling link, a socket): `os.path.isdir` and
   * `os.path.isfile` are both false for it.
   */
  datatype Node =
    | Dir(name: string, listing: Listing)
    | File(name: string)
    | Other(name: string)

  /**
   * What listing a directory yields: its entries, in the arbitrary order the
   * operating system enumerates them, or a permission failure.
   */
  datatype Listing =
    | Entries(children: seq<Node>)
    | PermissionDenied

  /** Every entry's name is at most every later entry's name. */
  predicate SortedByName(s: seq<Node>) {
    forall i, j :: 0 <= i < j < |s| ==> LessEq(s[i].name, s[j].name)
  }

  /** Ascending order of plain strings. */
  predicate Ascending(s: seq<string>) {
    forall i, j :: 0 <= i < j < |s| ==> LessEq(s[i], s[j])
  }

  /** A listing is sorted when its head is below all the rest and the rest is sorted. */
  lemma SortedCons(x: Node, t: seq<Node>)
    ensures SortedByName([x] + t) <==>
      SortedByName(t) && forall y :: y in t ==> LessEq(x.name, y.name)
  {
    var r := [x] + t;
    if SortedByName(t) && forall y :: y in t ==> LessEq(x.name, y.name) {
      forall i, j | 0 <= i < j < |r|
        ensures LessEq(r[i].name, r[j].name)
      {
        if i == 0 {
          assert r[j] == t[j - 1];
        } else {
          assert r[i] == t[i - 1] && r[j] == t[j - 1];
        }
      }
    }
    if SortedByName(r) {
      forall i, j | 0 <= i < j < |t|
        ensures LessEq(t[i].name, t[j].name)
      {
        assert t[i] == r[i + 1] && t[j] == r[j + 1];
      }
      forall y | y in t
        ensures LessEq(x.name, y.name)
      {
        var k :| 0 <= k < |t| && t[k] == y;
        assert r[0] == x && r[k + 1] == y;
      }
    }
  }

  /** Puts `x` in front of the first entry whose name is not below it. */
  function Insert(x: Node, s: seq<Node>): (r: seq<Node>)
    ensures |r| == |s| + 1
  {
    if s == [] then [x]
    else if LessEq(x.name, s[0].name) then [x] + s
    else [s[0]] + Insert(x, s[1..])
  }

  lemma {:induction false} InsertMembers(x: Node, s: seq<Node>)
    ensures forall y :: y in Insert(x, s) <==> y == x || y in s
    ensures multiset(Insert(x, s)) == multiset(s) + multiset{x}
  {
    if s != [] && !LessEq(x.name, s[0].name) {
      InsertMembers(x, s[1..]);
      assert s == [s[0]] + s[1..];
    }
  }

  lemma {:induction false} InsertSorted(x: Node, s: seq<Node>)
    requires SortedByName(s)
    ensures SortedByName(Insert(x, s))
  {
    if s != [] {
      var s0, s1 := s[0], s[1..];
      assert s == [s0] + s1;
      SortedCons(s0, s1);
      if LessEq(x.name, s0.name) {
        forall y | y in s
          ensures LessEq(x.name, y.name)
        {
          if y != s0 {
            LessEqTransitive(x.name, s0.name, y.name);
          }
        }
        SortedCons(x, s);
      } else {
        LessEqTotal(x.name, s0.name);
        InsertSorted(x, s1);
        InsertMembers(x, s1);
        SortedCons(s0, Insert(x, s1));
      }
    }
  }

  /**
   * `list.sort()` on the names of a listing, carrying the entries along: the
   * result is in ascending order of name and holds exactly the same entries.
   * Insertion keeps entries with equal names in their original order, as
   * Python's stable sort does.
   */
  function SortByName(s: seq<Node>): (r: seq<Node>)
    ensures |r| == |s|
  {
    if s == [] then [] else Insert(s[0], SortByName(s[1..]))
  }

  /** The sorted listing is in order and is a permutation of the listing. */
  lemma {:induction false} SortByNameSpec(s: seq<Node>)
    ensures multiset(SortByName(s)) == multiset(s)
    ensures forall x :: x in SortByName(s) <==> x in s
    ensures SortedByName(SortByName(s))
  {
    if s != [] {
      var t := SortByName(s[1..]);
      SortByNameSpec(s[1..]);
      InsertSorted(s[0], t);
      InsertMembers(s[0], t);
      assert s == [s[0]] + s[1..];
    }
  }

  /** `[item for item in dir_content if os.path.isdir(...)]`. */
  function Dirs(s: seq<Node>): (r: seq<Node>)
    ensures |r| <= |s|
    ensures forall j :: 0 <= j < |r| ==> r[j].Dir?
  {
    if s == [] then []
    else if s[0].Dir? then [s[0]] + Dirs(s[1..])
    else Dirs(s[1..])
  }

  /** `Dirs` keeps only directories, all of them taken from the listing. */
  lemma {:induction false} DirsFrom(s: seq<Node>)
    ensures forall x :: x in Dirs(s) ==> x in s && x.Dir?
  {
    if s != [] {
      DirsFrom(s[1..]);
    }
  }

  /** `[item for item in dir_content if os.path.isfile(...)]`, as names. */
  function FileNames(s: seq<Node>): (r: seq<string>)
  {
    if s == [] then []
    else if s[0].File? then [s[0].name] + FileNames(s[1..])
    else FileNames(s[1..])
  }

  lemma DirsCons(x: Node, t: seq<Node>)
    ensures Dirs([x] + t) == if x.Dir? then [x] + Dirs(t) else Dirs(t)
  {
    assert ([x] + t)[1..] == t;
  }

  lemma FileNamesCons(x: Node, t: seq<Node>)
    ensures FileNames([x] + t) == if x.File? then [x.name] + FileNames(t) else FileNames(t)
  {
    assert ([x] + t)[1..] == t;
  }

  /** Occurrences in `Dirs(s)` are occurrences in `s` of directories. */
  lemma {:induction false} DirsCount(s: seq<Node>, y: Node)
    ensures multiset(Dirs(s))[y] == if y.Dir? then multiset(s)[y] else 0
  {
    if s != [] {
      DirsCount(s[1..], y);
      assert s == [s[0]] + s[1..];
    }
  }

  /** Occurrences of a name in `FileNames(s)` are occurrences of that file. */
  lemma {:induction false} FileNamesCount(s: seq<Node>, n: string)
    ensures multiset(FileNames(s))[n] == multiset(s)[File(n)]
  {
    if s != [] {
      FileNamesCount(s[1..], n);
      assert s == [s[0]] + s[1..];
    }
  }

  /** Keeping only the directories keeps them in the same relative order. */
  lemma {:induction false} DirsSorted(s: seq<Node>)
    requires SortedByName(s)
    ensures SortedByName(Dirs(s))
  {
    if s != [] {
      var x, t := s[0], s[1..];
      assert s == [x] + t;
      SortedCons(x, t);
      DirsSorted(t);
      DirsFrom(t);
      if x.Dir? {
        SortedCons(x, Dirs(t));
      }
    }
  }

  lemma {:induction false} FileNamesFrom(s: seq<Node>, n: string)
    requires n in FileNames(s)
    ensures File(n) in s
  {
    if s != [] {
      if s[0].File? && s[0].name == n {
      } else {
        FileNamesFrom(s[1..], n);
      }
    }
  }

  /** Keeping only the file names keeps them in the same relative order. */
  lemma {:induction false} FileNamesAscending(s: seq<Node>)
    requires SortedByName(s)
    ensures Ascending(FileNames(s))
  {
    if s != [] {
      FileNamesAscending(s[1..]);
      var r := FileNames(s);
      if s[0].File? {
        forall i, j | 0 <= i < j < |r|
          ensures LessEq(r[i], r[j])
        {
          if i == 0 {
            assert r[j] in FileNames(s[1..]);
            FileNamesFrom(s[1..], r[j]);
            var k :| 0 <= k < |s[1..]| && s[1..][k] == File(r[j]);
            assert s[k + 1] == File(r[j]);
          } else {
            assert r[i] == FileNames(s[1..])[i - 1] && r[j] == FileNames(s[1..])[j - 1];
          }
        }
      }
    }
  }

  /**
   * Both groups a listing is split into come out in ascending order of name,
   * and each group holds exactly the directories (the file names) of the
   * listing, as many times as the listing does.
   */
  lemma GroupsSorted(cs: seq<Node>)
    ensures SortedByName(Dirs(SortByName(cs)))
    ensures Ascending(FileNames(SortByName(cs)))
    ensures multiset(Dirs(SortByName(cs))) == multiset(Dirs(cs))
    ensures multiset(FileNames(SortByName(cs))) == multiset(FileNames(cs))
  {
    var s := SortByName(cs);
    SortByNameSpec(cs);
    DirsSorted(s);
    FileNamesAscending(s);
    forall y
      ensures multiset(Dirs(s))[y] == multiset(Dirs(cs))[y]
    {
      DirsCount(s, y);
      DirsCount(cs, y);
    }
    forall n
      ensures multiset(FileNames(s))[n] == multiset(FileNames(cs))[n]
    {
      FileNamesCount(s, n);
      FileNamesCount(cs, n);
    }
  }

  lemma {:induction false} DirsInsertOther(x: Node, t: seq<Node>)
    requires !x.Dir?
    ensures Dirs(Insert(x, t)) == Dirs(t)
  {
    if t == [] {
    } else if LessEq(x.name, t[0].name) {
      DirsCons(x, t);
    } else {
      DirsInsertOther(x, t[1..]);
      DirsCons(t[0], Insert(x, t[1..]));
      DirsCons(t[0], t[1..]);
      assert t == [t[0]] + t[1..];
    }
  }

  lemma {:induction false} DirsInsertDir(x: Node, t: seq<Node>)
    requires x.Dir? && SortedByName(t)
    ensures Dirs(Insert(x, t)) == Insert(x, Dirs(t))
  {
    if t == [] {
    } else if LessEq(x.name, t[0].name) {
      var d := Dirs(t);
      DirsCons(x, t);
      if d != [] {
        DirsFrom(t);
        assert d[0] in t;
        var k :| 0 <= k < |t| && t[k] == d[0];
        if k > 0 {
          LessEqTransitive(x.name, t[0].name, d[0].name);
        }
      }
    } else {
      var t0, t1 := t[0], t[1..];
      assert t == [t0] + t1;
      SortedCons(t0, t1);
      DirsInsertDir(x, t1);
      DirsCons(t0, Insert(x, t1));
      DirsCons(t0, t1);
    }
  }

  /**
   * Keeping the directories of the sorted listing is sorting the directories
   * alone: the stable sort does not reorder entries relative to each other
   * when the others are taken out.
   */
  lemma {:induction false} SortDirsCommute(s: seq<Node>)
    ensures Dirs(SortByName(s)) == SortByName(Dirs(s))
  {
    if s != [] {
      SortDirsCommute(s[1..]);
      var t := SortByName(s[1..]);
      SortByNameSpec(s[1..]);
      DirsCons(s[0], s[1..]);
      assert s == [s[0]] + s[1..];
      if s[0].Dir? {
        DirsInsertDir(s[0], t);
        assert ([s[0]] + Dirs(s[1..]))[1..] == Dirs(s[1..]);
      } else {
        DirsInsertOther(s[0], t);
      }
    }
  }

  lemma AscendingTail(a: seq<string>)
    requires Ascending(a) && a != []
    ensures Ascending(a[1..])
  {
    forall i, j | 0 <= i < j < |a[1..]|
      ensures LessEq(a[1..][i], a[1..][j])
    {
      assert a[1..][i] == a[i + 1] && a[1..][j] == a[j + 1];
    }
  }

  lemma AscendingHeadLeast(a: seq<string>, x: string)
    requires Ascending(a) && x in a
    ensures LessEq(a[0], x)
  {
    var k :| 0 <= k < |a| && a[k] == x;
    if k == 0 {
      LessEqReflexive(x);
    }
  }

  /** Two ascending sequences holding the same strings are the same sequence. */
  lemma {:induction false} AscendingUnique(a: seq<string>, b: seq<string>)
    requires Ascending(a) && Ascending(b) && multiset(a) == multiset(b)
    ensures a == b
    decreases |a|
  {
    if a == [] {
      assert |b| == |multiset(b)| == 0;
    } else {
      assert a == [a[0]] + a[1..];
      assert a[0] in multiset(b);
      assert b == [b[0]] + b[1..];
      assert b[0] in multiset(a);
      AscendingHeadLeast(a, b[0]);
      AscendingHeadLeast(b, a[0]);
      LessEqAntisymmetric(a[0], b[0]);
      assert multiset(a[1..]) == multiset(b[1..]) by {
        var h, ta, tb := multiset{a[0]}, multiset(a[1..]), multiset(b[1..]);
        assert multiset(a) == h + ta;
        assert multiset(b) == h + tb;
        assert ta == (h + ta) - h && tb == (h + tb) - h;
      }
      AscendingTail(a);
      AscendingTail(b);
      AscendingUnique(a[1..], b[1..]);
    }
  }

  /**
   * The file names of the sorted listing are the file names sorted on their
   * own: any ascending arrangement of those names is this one.
   */
  lemma FilesSortedAlone(cs: seq<Node>, names: seq<string>)
    requires Ascending(names) && multiset(names) == multiset(FileNames(cs))
    ensures FileNames(SortByName(cs)) == names
  {
    GroupsSorted(cs);
    AscendingUnique(FileNames(SortByName(cs)), names);
  }

  /**
   * What a real directory guarantees: no two entries of one listing share a
   * name and no name holds the separator `/`, in every directory below too.
   */
  predicate WellFormed(l: Listing)
    decreases l
  {
    match l
    case PermissionDenied => true
    case Entries(cs) =>
      && (forall i, j :: 0 <= i < j < |cs| ==> cs[i].name != cs[j].name)
      && (forall i :: 0 <= i < |cs| ==> '/' !in cs[i].name)
      && (forall i :: 0 <= i < |cs| && cs[i].Dir? ==> WellFormed(cs[i].listing))
  }

  /** An entry the renderer skips because it is a directory in `excludeDirs`. */
  predicate ExcludedDir(x: Node, excludeDirs: seq<string>) {
    x.Dir? && x.name in excludeDirs
  }

  /** The listing with every excluded directory taken out. */
  function DropExcluded(s: seq<Node>, excludeDirs: seq<string>): (r: seq<Node>)
  {
    if s == [] then []
    else if ExcludedDir(s[0], excludeDirs) then DropExcluded(s[1..], excludeDirs)
    else [s[0]] + DropExcluded(s[1..], excludeDirs)
  }

  lemma DropCons(x: Node, t: seq<Node>, ex: seq<string>)
    ensures DropExcluded([x] + t, ex) ==
      if ExcludedDir(x, ex) then DropExcluded(t, ex) else [x] + DropExcluded(t, ex)
  {
    assert ([x] + t)[1..] == t;
  }

  lemma {:induction false} DropMembers(s: seq<Node>, ex: seq<string>)
    ensures forall x :: x in DropExcluded(s, ex) ==> x in s
  {
    if s != [] {
      DropMembers(s[1..], ex);
    }
  }

  lemma {:induction false} DropInsertExcluded(x: Node, t: seq<Node>, ex: seq<string>)
    requires ExcludedDir(x, ex)
    ensures DropExcluded(Insert(x, t), ex) == DropExcluded(t, ex)
  {
    if t == [] {
    } else if LessEq(x.name, t[0].name) {
      DropCons(x, t, ex);
    } else {
      DropInsertExcluded(x, t[1..], ex);
      DropCons(t[0], Insert(x, t[1..]), ex);
      DropCons(t[0], t[1..], ex);
      assert t == [t[0]] + t[1..];
    }
  }

  lemma {:induction false} DropInsertKept(x: Node, t: seq<Node>, ex: seq<string>)
    requires !ExcludedDir(x, ex) && SortedByName(t)
    ensures DropExcluded(Insert(x, t), ex) == Insert(x, DropExcluded(t, ex))
  {
    if t == [] {
    } else if LessEq(x.name, t[0].name) {
      var d := DropExcluded(t, ex);
      DropCons(x, t, ex);
      if d != [] {
        DropMembers(t, ex);
        assert d[0] in t;
        var k :| 0 <= k < |t| && t[k] == d[0];
        if k > 0 {
          LessEqTransitive(x.name, t[0].name, d[0].name);
        }
      }
    } else {
      var t0, t1 := t[0], t[1..];
      assert t == [t0] + t1;
      SortedCons(t0, t1);
      DropInsertKept(x, t1, ex);
      DropCons(t0, Insert(x, t1), ex);
      DropCons(t0, t1, ex);
    }
  }

  /** Sorting and then dropping excluded directories is dropping, then sorting. */
  lemma {:induction false} SortDropCommute(s: seq<Node>, ex: seq<string>)
    ensures SortByName(DropExcluded(s, ex)) == DropExcluded(SortByName(s), ex)
  {
    if s != [] {
      SortDropCommute(s[1..], ex);
      var t := SortByName(s[1..]);
      SortByNameSpec(s[1..]);
      if ExcludedDir(s[0], ex) {
        DropInsertExcluded(s[0], t, ex);
      } else {
        DropInsertKept(s[0], t, ex);
        DropCons(s[0], s[1..], ex);
        assert s == [s[0]] + s[1..];
        assert ([s[0]] + DropExcluded(s[1..], ex))[1..] == DropExcluded(s[1..], ex);
      }
    }
  }

  /** Dropping excluded directories leaves the two groups as they were, less those. */
  lemma {:induction false} DropDirsFiles(s: seq<Node>, ex: seq<string>)
    ensures Dirs(DropExcluded(s, ex)) == DropExcluded(Dirs(s), ex)
    ensures FileNames(DropExcluded(s, ex)) == FileNames(s)
  {
    if s != [] {
      var x, t := s[0], s[1..];
      assert s == [x] + t;
      DropDirsFiles(t, ex);
      if x.Dir? {
        DropCons(x, Dirs(t), ex);
      }
      if !ExcludedDir(x, ex) {
        DirsCons(x, DropExcluded(t, ex));
        FileNamesCons(x, DropExcluded(t, ex));
      }
    }
  }

  /** The entry, with the listing `l` if it is a directory called `name`. */
  function Relist(x: Node, name: string, l: Listing): (r: Node)
    ensures r.name == x.name && r.Dir? == x.Dir? && r.File? == x.File?
  {
    if x.Dir? && x.name == name then Dir(name, l) else x
  }

  /** Every directory called `name` in the listing given the listing `l`. */
  function RelistAll(s: seq<Node>, name: string, l: Listing): (r: seq<Node>)
    ensures |r| == |s| && forall i :: 0 <= i < |s| ==> r[i] == Relist(s[i], name, l)
  {
    if s == [] then [] else [Relist(s[0], name, l)] + RelistAll(s[1..], name, l)
  }

  lemma {:induction false} InsertRelist(x: Node, t: seq<Node>, name: string, l: Listing)
    ensures Insert(Relist(x, name, l), RelistAll(t, name, l)) == RelistAll(Insert(x, t), name, l)
  {
    if t != [] && !LessEq(x.name, t[0].name) {
      InsertRelist(x, t[1..], name, l);
      assert RelistAll(t, name, l)[1..] == RelistAll(t[1..], name, l);
    }
  }

  /** Sorting compares names only, so it does not see what a directory holds. */
  lemma {:induction false} SortRelistCommute(s: seq<Node>, name: string, l: Listing)
    ensures SortByName(RelistAll(s, name, l)) == RelistAll(SortByName(s), name, l)
  {
    if s != [] {
      SortRelistCommute(s[1..], name, l);
      assert RelistAll(s, name, l)[1..] == RelistAll(s[1..], name, l);
      InsertRelist(s[0], SortByName(s[1..]), name, l);
    }
  }

  lemma {:induction false} RelistDirsFiles(s: seq<Node>, name: string, l: Listing)
    ensures Dirs(RelistAll(s, name, l)) == RelistAll(Dirs(s), name, l)
    ensures FileNames(RelistAll(s, name, l)) == FileNames(s)
  {
    if s != [] {
      var t := s[1..];
      assert s == [s[0]] + t;
      RelistDirsFiles(t, name, l);
      var x := Relist(s[0], name, l);
      assert RelistAll(s, name, l) == [x] + RelistAll(t, name, l);
      DirsCons(x, RelistAll(t, name, l));
      FileNamesCons(x, RelistAll(t, name, l));
      DirsCons(s[0], t);
      FileNamesCons(s[0], t);
      if s[0].Dir? {
        assert RelistAll([s[0]] + Dirs(t), name, l) == [x] + RelistAll(Dirs(t), name, l);
      }
    }
  }
}
