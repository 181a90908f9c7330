/**
 * The combined text handed to a language model, `full_output`: the prompt,
 * the tree, the list of collected paths and one block per file read, between
 * rules of twelve dashes, ending with a fixed closing sentence. Then the
 * whole flattening of one directory: tree, collection, reading and assembly
 * in the order the application runs them.
 */
module Output {
  import opened Text
  import opened FileTree
  import opened TreeRenderer
  import opened Collector
  import opened ContentReader

  /** The prompt then a blank line and the first rule. */
  function Opening(prompt: string): string {
    prompt + "\n\n" + "------------\n"
  }

  /** The tree, a rule, the heading of the list, then the paths one per line. */
  function FileSection(tree: string, ext: string, collected: seq<string>): string {
    tree + "\n------------\n" + "Files with extension " + ext + ":\n" + Join("\n", collected)
  }

  /** A rule, then the heading of the contents. */
  const ContentsHeading := "\n------------\n" + "Contents of files:\n"

  /** The closing rule and sentence. */
  const Trailer := "\n------------\nThis input is designed for providing code insights with an LLM.\n"

  /** `f"\n{file_path}:\n{content}\n"`. */
  function Block(path: string, content: string): string {
    "\n" + path + ":\n" + content + "\n"
  }

  /** The blocks of the dictionary's entries, in insertion order. */
  function Blocks(contents: Dict): string {
    if contents == [] then ""
    else
      var last := contents[|contents| - 1];
      Blocks(contents[..|contents| - 1]) + Block(last.0, last.1)
  }

  /** `full_output` once the loop over the dictionary has finished. */
  function FullOutput(prompt: string, tree: string, ext: string, collected: seq<string>, contents: Dict): string {
    Opening(prompt) + FileSection(tree, ext, collected) + ContentsHeading + Blocks(contents) + Trailer
  }

  lemma Assoc(a: string, b: string, c: string)
    ensures a + (b + c) == a + b + c
  {
  }

  lemma {:induction false} BlocksAppend(a: Dict, b: Dict)
    ensures Blocks(a + b) == Blocks(a) + Blocks(b)
    decreases |b|
  {
    if b == [] {
      assert a + b == a;
    } else {
      var c, front, last := a + b, b[..|b| - 1], b[|b| - 1];
      assert c[..|c| - 1] == a + front;
      assert c[|c| - 1] == last;
      BlocksAppend(a, front);
      Assoc(Blocks(a), Blocks(front), Block(last.0, last.1));
    }
  }

  /**
   * Every entry of the dictionary has its block in the output, after the
   * blocks of the entries before it and before those after it, with the
   * prompt, the tree and the path list in front and the closing sentence at
   * the end.
   */
  lemma BlockInOutput(prompt: string, tree: string, ext: string, collected: seq<string>, contents: Dict, i: nat)
    requires i < |contents|
    ensures FullOutput(prompt, tree, ext, collected, contents) ==
      Opening(prompt) + FileSection(tree, ext, collected) + ContentsHeading
      + Blocks(contents[..i]) + Block(contents[i].0, contents[i].1) + Blocks(contents[i + 1..])
      + Trailer
  {
    var before, entry, after := contents[..i], contents[i], contents[i + 1..];
    assert contents == before + [entry] + after;
    BlocksAppend(before + [entry], after);
    BlocksAppend(before, [entry]);
    assert [entry][..0] == [];
    var head := Opening(prompt) + FileSection(tree, ext, collected) + ContentsHeading;
    var b, e, a := Blocks(before), Block(entry.0, entry.1), Blocks(after);
    assert Blocks(contents) == b + e + a;
    assert head + (b + e + a) + Trailer == head + b + e + a + Trailer;
  }

  /** The path list reads back as the collected paths when no path holds a newline. */
  lemma FileListReadsBack(collected: seq<string>)
    requires |collected| >= 1
    requires forall i :: 0 <= i < |collected| ==> '\n' !in collected[i]
    ensures Split(Join("\n", collected), '\n') == collected
  {
    SplitJoinRoundTrip(collected, '\n');
  }

  /** The text built after the blocks of the first `i` entries. */
  lemma BlocksStep(acc: string, contents: Dict, i: nat)
    requires i < |contents|
    ensures acc + Blocks(contents[..i + 1]) == acc + Blocks(contents[..i]) + Block(contents[i].0, contents[i].1)
  {
    assert contents[..i + 1][..i] == contents[..i];
    Assoc(acc, Blocks(contents[..i]), Block(contents[i].0, contents[i].1));
  }

  /** The assembly of `full_output`, statement by statement. */
  method AssembleOutput(llmPrompt: string, treeStructure: string, fileExtension: string,
                        collectedFiles: seq<string>, fileContents: Dict) returns (fullOutput: string)
    ensures fullOutput == FullOutput(llmPrompt, treeStructure, fileExtension, collectedFiles, fileContents)
  {
    fullOutput := llmPrompt + "\n\n" + "------------\n";
    fullOutput := fullOutput + (treeStructure + "\n------------\n" + "Files with extension " + fileExtension + ":\n"
      + Join("\n", collectedFiles));
    fullOutput := fullOutput + ("\n------------\n" + "Contents of files:\n");
    var head := fullOutput;
    assert head == Opening(llmPrompt) + FileSection(treeStructure, fileExtension, collectedFiles) + ContentsHeading;
    var i := 0;
    while i < |fileContents|
      invariant 0 <= i <= |fileContents|
      invariant fullOutput == head + Blocks(fileContents[..i])
    {
      var (filePath, content) := fileContents[i];
      BlocksStep(head, fileContents, i);
      fullOutput := fullOutput + ("\n" + filePath + ":\n" + content + "\n");
      i := i + 1;
    }
    assert fileContents[..i] == fileContents;
    fullOutput := fullOutput + "\n------------\nThis input is designed for providing code insights with an LLM.\n";
  }

  /** An entry holding a path's text or error message sits in the dictionary. */
  lemma {:induction false} LookupFound(d: Dict, key: string, value: string)
    requires Lookup(d, key) == Some(value)
    ensures exists i :: 0 <= i < |d| && d[i] == (key, value)
  {
    var front := d[..|d| - 1];
    if d[|d| - 1].0 != key {
      LookupFound(front, key, value);
      var i :| 0 <= i < |front| && front[i] == (key, value);
      assert d[i] == front[i];
    } else {
      assert d[|d| - 1] == (key, value);
    }
  }

  /**
   * Every collected path appears in the output with what reading it gave:
   * its text, or the error message.
   */
  lemma CollectedFileInOutput(prompt: string, tree: string, ext: string, store: string -> ReadOutcome,
                              paths: seq<string>, p: string)
    requires p in paths
    ensures var d := ReadAll(store, paths);
      exists i :: 0 <= i < |d| && d[i] == (p, Shown(store(p))) &&
        FullOutput(prompt, tree, ext, paths, d) ==
          Opening(prompt) + FileSection(tree, ext, paths) + ContentsHeading
          + Blocks(d[..i]) + Block(p, Shown(store(p))) + Blocks(d[i + 1..]) + Trailer
  {
    var d := ReadAll(store, paths);
    ReadAllLookup(store, paths, p);
    LookupFound(d, p, Shown(store(p)));
    var i :| 0 <= i < |d| && d[i] == (p, Shown(store(p)));
    BlockInOutput(prompt, tree, ext, paths, d, i);
  }

  /** In a well-formed tree the collector never lists a path twice. */
  lemma CollectedDistinct(root: Listing, ext: string)
    requires WellFormed(root)
    ensures Distinct(Collected(Walk(root, []), ext))
  {
    var collected := Collected(Walk(root, []), ext);
    WalkMatches(root, [], ext);
    MatchingOnce(root, [], ext);
    DistinctByCount(collected);
  }

  /**
   * The zip branch of the application once the archive is extracted: the
   * tree at depth zero, the collection, the reading of the collected paths
   * and the assembly, in that order. In a well-formed tree the contents part
   * is one block per collected path, in the order they were collected.
   */
  method FlattenDirectory(root: Listing, o: Options, fileExtension: string, llmPrompt: string,
                          store: string -> ReadOutcome) returns (fullOutput: string)
    ensures var collected := Collected(Walk(root, []), fileExtension);
      fullOutput == FullOutput(llmPrompt, TreeText(root, o, 0), fileExtension, collected, ReadAll(store, collected))
    ensures var collected := Collected(Walk(root, []), fileExtension);
      WellFormed(root) ==>
        fullOutput == FullOutput(llmPrompt, TreeText(root, o, 0), fileExtension, collected, Pairs(store, collected))
  {
    var treeStructure := GenerateTreeStructure(root, o, 0);
    var collectedFiles := CollectFilesByType(root, fileExtension);
    var fileContents := ReadFileContents(store, collectedFiles);
    fullOutput := AssembleOutput(llmPrompt, treeStructure, fileExtension, collectedFiles, fileContents);
    if WellFormed(root) {
      CollectedDistinct(root, fileExtension);
      ReadAllOfDistinct(store, collectedFiles);
    }
  }
}
