/**
 * The reader, `read_file_contents`: one dictionary entry per collected path,
 * holding the file's text or, when opening or decoding it fails, the text
 * `Error reading file: ` followed by the failure's description.
 *
 * The filesystem is a parameter `store` that says, for each path, what
 * reading it gives. The dictionary is a sequence of key/value pairs in
 * insertion order, as Python's `dict` keeps them.
 */
module ContentReader {

  datatype Option<T> = None | Some(value: T)

  /** What reading a file gives: its text, or a failure and its description. */
  datatype ReadOutcome = Read(text: string) | Failure(description: string)

  /** The value stored for a path. */
  function Shown(outcome: ReadOutcome): string {
    match outcome
    case Read(text) => text
    case Failure(description) => "Error reading file: " + description
  }

  /** An insertion-ordered dictionary from paths to texts. */
  type Dict = seq<(string, string)>

  /** The keys, in insertion order. */
  function Keys(d: Dict): seq<string> {
    seq(|d|, i requires 0 <= i < |d| => d[i].0)
  }

  /** No key occurs twice. */
  predicate Distinct(s: seq<string>) {
    forall i, j :: 0 <= i < j < |s| ==> s[i] != s[j]
  }

  /** `d.get(key)`. */
  function Lookup(d: Dict, key: string): Option<string> {
    if d == [] then None
    else if d[|d| - 1].0 == key then Some(d[|d| - 1].1)
    else Lookup(d[..|d| - 1], key)
  }

  /**
   * `d[key] = value`: an existing key keeps its place and gets the new value,
   * a new key goes at the end.
   */
  function Put(d: Dict, key: string, value: string): (r: Dict)
    ensures |r| == if key in Keys(d) then |d| else |d| + 1
  {
    if key in Keys(d) then
      seq(|d|, i requires 0 <= i < |d| => if d[i].0 == key then (key, value) else d[i])
    else d + [(key, value)]
  }

  /** The lookup of a key finds the value of the entry holding it, when keys are distinct. */
  lemma {:induction false} LookupDistinct(d: Dict, i: nat)
    requires i < |d| && Distinct(Keys(d))
    ensures Lookup(d, d[i].0) == Some(d[i].1)
  {
    var front := d[..|d| - 1];
    if i < |d| - 1 {
      assert Keys(d)[i] != Keys(d)[|d| - 1];
      assert Keys(front) == Keys(d)[..|d| - 1];
      LookupDistinct(front, i);
    }
  }

  /** A key that is not there is not found. */
  lemma {:induction false} LookupAbsent(d: Dict, key: string)
    requires key !in Keys(d)
    ensures Lookup(d, key) == None
  {
    if d != [] {
      assert Keys(d)[|d| - 1] == d[|d| - 1].0;
      assert Keys(d[..|d| - 1]) == Keys(d)[..|d| - 1];
      LookupAbsent(d[..|d| - 1], key);
    }
  }

  /**
   * After `d[key] = value` the keys are the old ones, in the same order, plus
   * `key` at the end if it is new; they stay distinct.
   */
  lemma PutKeys(d: Dict, key: string, value: string)
    requires Distinct(Keys(d))
    ensures var r := Put(d, key, value);
      && Keys(r) == (if key in Keys(d) then Keys(d) else Keys(d) + [key])
      && Distinct(Keys(r))
      && (forall k :: k in Keys(r) <==> k in Keys(d) || k == key)
  {
    var r := Put(d, key, value);
    if key in Keys(d) {
      assert Keys(r) == Keys(d);
    } else {
      assert Keys(r) == Keys(d) + [key];
    }
  }

  /** After `d[key] = value` the key maps to the value and every other key keeps its value. */
  lemma PutLookup(d: Dict, key: string, value: string)
    requires Distinct(Keys(d))
    ensures Lookup(Put(d, key, value), key) == Some(value)
    ensures forall k :: k != key ==> Lookup(Put(d, key, value), k) == Lookup(d, k)
  {
    var r := Put(d, key, value);
    PutKeys(d, key, value);
    if key !in Keys(d) {
      assert r[..|r| - 1] == d;
    }
    forall k | k in Keys(r)
      ensures Lookup(r, k) == if k == key then Some(value) else Lookup(d, k)
    {
      var i :| 0 <= i < |r| && Keys(r)[i] == k;
      LookupDistinct(r, i);
      if k != key {
        LookupDistinct(d, i);
      }
    }
    forall k | k !in Keys(r)
      ensures k != key && Lookup(r, k) == Lookup(d, k)
    {
      LookupAbsent(r, k);
      LookupAbsent(d, k);
    }
  }

  /** The dictionary the loop builds from a list of paths. */
  function ReadAll(store: string -> ReadOutcome, paths: seq<string>): Dict {
    if paths == [] then []
    else
      var last := paths[|paths| - 1];
      Put(ReadAll(store, paths[..|paths| - 1]), last, Shown(store(last)))
  }

  /** No path gets two entries. */
  lemma {:induction false} ReadAllDistinct(store: string -> ReadOutcome, paths: seq<string>)
    ensures Distinct(Keys(ReadAll(store, paths)))
  {
    if paths != [] {
      var front, last := paths[..|paths| - 1], paths[|paths| - 1];
      ReadAllDistinct(store, front);
      PutKeys(ReadAll(store, front), last, Shown(store(last)));
    }
  }

  /** The dictionary has exactly one key per distinct path. */
  lemma {:induction false} ReadAllKeys(store: string -> ReadOutcome, paths: seq<string>)
    ensures Distinct(Keys(ReadAll(store, paths)))
    ensures forall k :: k in Keys(ReadAll(store, paths)) <==> k in paths
  {
    ReadAllDistinct(store, paths);
    if paths != [] {
      var front, last := paths[..|paths| - 1], paths[|paths| - 1];
      ReadAllKeys(store, front);
      PutKeys(ReadAll(store, front), last, Shown(store(last)));
      assert paths == front + [last];
    }
  }

  /**
   * Each path's value is what reading it gives; a path read twice just gets
   * the same value again.
   */
  lemma {:induction false} ReadAllLookup(store: string -> ReadOutcome, paths: seq<string>, p: string)
    requires p in paths
    ensures Lookup(ReadAll(store, paths), p) == Some(Shown(store(p)))
  {
    var front, last := paths[..|paths| - 1], paths[|paths| - 1];
    ReadAllDistinct(store, front);
    PutLookup(ReadAll(store, front), last, Shown(store(last)));
    if p != last {
      assert paths == front + [last];
      ReadAllLookup(store, front, p);
    }
  }

  /** With distinct paths the keys are the paths themselves, in the same order. */
  lemma {:induction false} ReadAllKeysInOrder(store: string -> ReadOutcome, paths: seq<string>)
    requires Distinct(paths)
    ensures Keys(ReadAll(store, paths)) == paths
  {
    if paths != [] {
      var front, last := paths[..|paths| - 1], paths[|paths| - 1];
      assert Distinct(front) by {
        forall i, j | 0 <= i < j < |front|
          ensures front[i] != front[j]
        {
          assert front[i] == paths[i] && front[j] == paths[j];
        }
      }
      ReadAllKeysInOrder(store, front);
      assert last !in front by {
        forall i | 0 <= i < |front|
          ensures front[i] != last
        {
          assert front[i] == paths[i];
        }
      }
      assert paths == front + [last];
    }
  }

  /** One entry per path, in the paths' order, holding what reading that path gives. */
  function Pairs(store: string -> ReadOutcome, paths: seq<string>): Dict {
    seq(|paths|, i requires 0 <= i < |paths| => (paths[i], Shown(store(paths[i]))))
  }

  /** With distinct paths the dictionary is one entry per path, in the paths' order. */
  lemma ReadAllOfDistinct(store: string -> ReadOutcome, paths: seq<string>)
    requires Distinct(paths)
    ensures ReadAll(store, paths) == Pairs(store, paths)
  {
    var d := ReadAll(store, paths);
    ReadAllKeysInOrder(store, paths);
    ReadAllDistinct(store, paths);
    assert |d| == |paths|;
    forall i | 0 <= i < |d|
      ensures d[i] == (paths[i], Shown(store(paths[i])))
    {
      assert d[i].0 == Keys(d)[i] == paths[i];
      LookupDistinct(d, i);
      ReadAllLookup(store, paths, paths[i]);
    }
  }

  /** A sequence in which every element occurs once has no repeats. */
  lemma DistinctByCount(s: seq<string>)
    requires forall x :: x in multiset(s) ==> multiset(s)[x] == 1
    ensures Distinct(s)
  {
    forall i, j | 0 <= i < j < |s|
      ensures s[i] != s[j]
    {
      var front, back := s[..j], s[j..];
      assert s == front + back;
      assert front[i] == s[i] && back[0] == s[j];
      assert multiset(s)[s[i]] == multiset(front)[s[i]] + multiset(back)[s[i]];
    }
  }

  /** A file that cannot be read is given the error text with its description. */
  lemma FailureRecorded(store: string -> ReadOutcome, paths: seq<string>, p: string)
    requires p in paths && store(p).Failure?
    ensures Lookup(ReadAll(store, paths), p) == Some("Error reading file: " + store(p).description)
  {
    ReadAllLookup(store, paths, p);
  }

  /** One more path puts its value into the dictionary built so far. */
  lemma ReadAllStep(store: string -> ReadOutcome, paths: seq<string>, i: nat)
    requires i < |paths|
    ensures ReadAll(store, paths[..i + 1]) == Put(ReadAll(store, paths[..i]), paths[i], Shown(store(paths[i])))
  {
    assert paths[..i + 1][..i] == paths[..i];
  }

  /**
   * `read_file_contents(root_dir, file_paths)`, with `store` standing for the
   * files below `root_dir`.
   */
  method ReadFileContents(store: string -> ReadOutcome, filePaths: seq<string>) returns (fileContents: Dict)
    ensures fileContents == ReadAll(store, filePaths)
  {
    fileContents := [];
    var i := 0;
    while i < |filePaths|
      invariant 0 <= i <= |filePaths|
      invariant fileContents == ReadAll(store, filePaths[..i])
    {
      var filePath := filePaths[i];
      var outcome := store(filePath);
      ReadAllStep(store, filePaths, i);
      match outcome {
        case Read(text) =>
          fileContents := Put(fileContents, filePath, text);
        case Failure(description) =>
          fileContents := Put(fileContents, filePath, "Error reading file: " + description);
      }
      i := i + 1;
    }
    assert filePaths[..i] == filePaths;
  }
}
