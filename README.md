# repo2text-llm: the directory-flattening engine, in Dafny

repo2text-llm turns an uploaded, zipped repository into one text for a
language-model prompt. That text has five parts:

- the user's prompt
- an indented tree of the directory
- the list of files that have one extension
- the contents of those files
- a closing sentence

This project models the engine behind that text, in `app.py`:

- `generate_tree_structure`, the tree renderer: exclusion filters and head/tail
  truncation of long file lists.
- `collect_files_by_type`, the extension collector: a full `os.walk`, no filters.
- `read_file_contents`, the content reader: one dictionary entry per path,
  holding the text or an error message.
- the assembly of `full_output`.

It then proves what the tree looks like, what the collector finds and what the
output holds.

The filesystem is a value. A `Listing` is a directory's entries, in the
arbitrary order the operating system lists them, or `PermissionDenied`. A
`Node` is a directory holding a listing, a regular file, or an entry that is
neither. File reading is a function parameter `store` from path to
`ReadOutcome`, which is a text or a failure with its description.

The source works by updating strings, lists and a dictionary step by step, so
the operations are methods with loops. Each method is proved equal to a
specification function:

| method | specification function |
|---|---|
| `GenerateTreeStructure` | `TreeText` |
| `CollectFilesByType` | `Collected(Walk(...))` |
| `ReadFileContents` | `ReadAll` |
| `AssembleOutput` | `FullOutput` |

The lemmas state the promised properties of those functions.

Modules, in dependency order:

| file | module | models |
|---|---|---|
| `text.dfy` | `Text` | Python string helpers: `endswith`, code-point `<=` (the order `list.sort()` uses), `"    " * n`, `f"{n}"`, `"\n".join`. `Split` is not called by the application: it is the inverse `Output.FileListReadsBack` uses to read the path list back, and `Collector.PathSplits` uses to take a path apart |
| `filetree.dfy` | `FileTree` | the filesystem model, sorting a listing by name, the directory/file split |
| `renderer.dfy` | `TreeRenderer` | `generate_tree_structure` and its specification `RenderLines` |
| `file_windows.dfy` | `FileWindows` | what the file part of one level shows, short and long |
| `tree_shape.dfy` | `TreeShape` | whole-tree properties: depth, order, excluded and unreadable directories |
| `collector.dfy` | `Collector` | `os.walk` and `collect_files_by_type` |
| `reader.dfy` | `ContentReader` | the insertion-ordered `dict` and `read_file_contents` |
| `output.dfy` | `Output` | `full_output` and the whole zip branch, end to end |

Two points about how one level is laid out. The model follows the code in
both:

- The summary line counts `len(files) - 2 * file_limit` over all files, before
  the suffix filter. The head window is `files[:file_limit]` of the unfiltered
  list. It is not the first `file_limit` names that survive the filter, though
  the comment at app.py:34 speaks of printing the first `file_limit` files.
  `FileWindows.SkipCountBeforeExclusion` shows an input where the two readings
  differ. The model keeps the code's behaviour.
- The code sorts the whole listing and then splits it. This gives the same
  groups as splitting first and sorting each group:
  `FileTree.SortDirsCommute` proves it for the directories, and
  `FileTree.FilesSortedAlone` shows the file names are the one ascending
  arrangement of the listing's file names.

A real directory never holds two entries with the same name, and no name
contains `/`. `FileTree.WellFormed` states this for the whole tree. The
model's `Listing` does not build it in, so the lemmas that need it require it.

## Model

| member | source | states |
|---|---|---|
| `TreeRenderer.GenerateTreeStructure` | app.py:8-49 | The string built is exactly `TreeText(root)`: the lines `RenderLines` specifies, each formatted and joined. An unreadable directory gives `""`. |
| `TreeRenderer.AppendDirSection` | app.py:26-30 | The directory loop builds exactly the directory part `DirLines` of the sorted subdirectories. |
| `TreeRenderer.AppendDirEntry` | app.py:27-30 | One loop pass adds nothing for a directory in `exclude_dirs`. Otherwise it adds the directory's `name/` line and then its whole subtree one level deeper. |
| `TreeRenderer.DirLinesStep` | app.py:27-30 | The text of the directory part grows by exactly that entry, or by nothing for an excluded name. |
| `TreeRenderer.AppendFileSection` | app.py:33-44 | The file branch builds exactly `FileLines`. With more than `2*file_limit` files this is the kept names of the head slice, the summary line and the kept names of the tail slice. Otherwise it is every file no excluded suffix matches, in order. |
| `TreeRenderer.AppendFiles` | app.py:34-36 | A loop over names appends one `prefix + name + "\n"` per name no excluded suffix matches, in order. |
| `TreeRenderer.ShownFilesStep` | app.py:35-36 | One more name extends the text exactly when it is not excluded. |
| `TreeRenderer.ExcludedFileMeans` | app.py:35 | `any(item.endswith(ex) for ex in exclude_files)` holds exactly when some excluded suffix ends the name. |
| `TreeRenderer.FormatShape` | app.py:13 | Every line is `4*level` spaces, then `\|-- `, then its text, then one newline. |
| `TreeRenderer.SortedDirIsChild` | app.py:22 | Every directory the loop visits is a directory entry of the listing. |
| `Text.SpacesAreBlank` | app.py:13 | `"    " * level` is `4*level` spaces. |
| `Text.DecimalRoundTrip` | app.py:37 | The count in the summary line reads back as the count. |
| `Text.DecimalDigits` | app.py:37 | The count is written in decimal digits only. |
| `Text.LessEqTotal` | app.py:19 | Any two names are comparable, so sorting is well defined. |
| `Text.LessEqAntisymmetric` | app.py:19 | Two names that are each `<=` the other are equal. |
| `FileTree.SortByNameSpec` | app.py:19 | The sorted listing is in ascending name order and is a permutation of the listing. |
| `FileTree.GroupsSorted` | app.py:19-23 | `dirs` and `files` are each in ascending order. They hold exactly the listing's directories and file names, each as many times as the listing does. |
| `FileTree.SortDirsCommute` | app.py:19-22 | `dirs` of the sorted listing is the listing's directories sorted on their own: the stable sort keeps equal names in listing order either way. |
| `FileTree.AscendingUnique` | app.py:19 | Two ascending lists of the same names, each as often, are the same list. |
| `FileTree.FilesSortedAlone` | app.py:19-23 | Any ascending arrangement of the listing's file names equals `files`. |
| `FileWindows.ShortListing` | app.py:41-44 | With at most `2*file_limit` files, line i is the i-th non-excluded name, so each such name appears as often as it occurs, in order. A line for a name appears exactly when the name is a file and not excluded. There is no summary line. |
| `FileWindows.LongListing` | app.py:33-40 | With `file_limit >= 1` and more than `2*file_limit` files, the lines are: the kept names of `files[:k]`, the summary line with `len - 2k`, and the kept names of `files[-k:]`. The windows do not overlap. There are at most `2k+1` lines. |
| `FileWindows.SkipCountIgnoresExclusions` | app.py:37 | The summary line, and its count, are the same whatever `exclude_files` is. |
| `FileWindows.ZeroLimit` | app.py:33-39 | With `file_limit == 0` and a non-empty file list, the summary line counts every file, and then every kept file is shown anyway, because `files[-0:]` is the whole list. |
| `FileWindows.SkipCountBeforeExclusion` | app.py:33-39 | Five files with `.md` excluded and a limit of two: "1 more files skipped" is printed while only three names are shown. |
| `FileWindows.TenFiles` | app.py:33-39 | Ten files with a limit of two give the first two, a summary line counting six, and the last two. |
| `FileWindows.SixSkipped` | app.py:37 | That summary line reads `... (6 more files skipped)`. |
| `FileWindows.ShownFilesKept` | app.py:34-36 | A file loop writes exactly one line per kept name, in order. |
| `FileWindows.KeptMembers` | app.py:35 | A name survives the suffix filter exactly when it is in the list and no excluded suffix ends it. |
| `FileWindows.KeptCount` | app.py:35 | A kept name keeps all its occurrences. An excluded name keeps none. |
| `TreeShape.RenderDeeper` | app.py:13-30 | No line of a subtree is shallower than its level: the recursion renders children at `level + 1`. |
| `TreeShape.FileLinesFlat` | app.py:33-43 | Every file line of a level, the summary line included, is at that level. |
| `TreeShape.OwnLines` | app.py:19-43 | The lines at a listing's own depth are the `name/` lines of its non-excluded directories, in name order, then its file part. Directories come first and both groups are sorted. |
| `TreeShape.HeaderShown` | app.py:26-29 | A directory gets its header line exactly when it is an entry of the listing and its name is not in `exclude_dirs`. |
| `TreeShape.ShownDirNamesAscending` | app.py:26-28 | Skipping excluded directories keeps the rest in name order. |
| `TreeShape.ExcludedDirsVanish` | app.py:26-28 | The tree of a listing equals the tree of that listing with every excluded directory removed. |
| `TreeShape.ExcludedContentsIgnored` | app.py:27-30 | Whatever an excluded directory holds, the tree is unchanged: nothing beneath it is rendered. |
| `TreeShape.UnreadableRendersNothing` | app.py:46-47 | An unreadable directory renders `""`. An empty one renders no lines when `file_limit >= 0`. |
| `TreeShape.UnreadableLikeEmpty` | app.py:15-47 | With `file_limit >= 0`, making a directory unreadable renders exactly as making it empty. Its line stays and its siblings are untouched. |
| `Collector.CollectFilesByType` | app.py:52-59 | The two nested loops return exactly `Collected(Walk(root, []))`. |
| `Collector.WalkMatches` | app.py:52-59 | As a multiset, the walk collects exactly the matching non-directory entries below readable directories, each at its relative path. |
| `Collector.CollectedMembers` | app.py:52-59 | A path is collected exactly when a matching entry sits at that path. |
| `Collector.CollectedEndWith` | app.py:56-58 | Every collected path ends with the requested extension. |
| `Collector.PathEndsWith` | app.py:57 | A relative path ends with whatever its file name ends with. |
| `Collector.PathSplits` | app.py:57 | A path built from components without `/` splits back into those components. |
| `Collector.MatchingOnce` | app.py:52-59 | In a well-formed tree every path to collect is counted once, and its components start with its directory's. |
| `Collector.CollectsUnderExcludedDir` | app.py:52-59 | The collector takes no exclusions: `.git/x.jl` is collected. |
| `Collector.ExcludedDirNotRendered` | app.py:26-28 | With `.git` excluded, the tree of that same directory is empty. |
| `ContentReader.ReadFileContents` | app.py:62-71 | The loop builds exactly `ReadAll(store, paths)`. |
| `ContentReader.PutKeys` | app.py:68 | Assigning a key keeps the old keys in their order and appends a new key. The keys stay distinct. |
| `ContentReader.PutLookup` | app.py:68 | After assigning a key, that key maps to the value and every other key is unchanged. |
| `ContentReader.ReadAllDistinct` | app.py:62-71 | No path gets two entries. |
| `ContentReader.ReadAllKeys` | app.py:62-71 | The keys are exactly the paths read. |
| `ContentReader.ReadAllLookup` | app.py:64-70 | Each path maps to its text, or to the error message when reading fails. |
| `ContentReader.ReadAllKeysInOrder` | app.py:62-71 | With distinct paths, the keys are the paths in the same order. |
| `ContentReader.ReadAllOfDistinct` | app.py:62-71 | With distinct paths the dictionary is one entry per path, in the paths' order, each holding what reading that path gives. |
| `ContentReader.DistinctByCount` | app.py:62-71 | A list in which every element occurs once has no repeats. |
| `ContentReader.FailureRecorded` | app.py:69-70 | A failed read is stored as `Error reading file: ` followed by its description. |
| `Output.AssembleOutput` | app.py:141-146 | The statements build exactly `FullOutput`: the prompt, a rule, the tree, a rule, the path list, a rule, one block per entry in insertion order, and the closing sentence. |
| `Output.BlockInOutput` | app.py:143-145 | Each entry's block `"\n" + path + ":\n" + content + "\n"` sits in the output between the blocks before it and those after it. |
| `Output.FileListReadsBack` | app.py:142 | Splitting the path list at newlines gives the collected paths back, when none contains a newline. |
| `Output.CollectedFileInOutput` | app.py:132-146 | Every collected path appears in the output as a block holding its text or its error message. |
| `Output.CollectedDistinct` | app.py:54-58 | In a well-formed tree the collector never lists a path twice. |
| `Output.FlattenDirectory` | app.py:121-146 | The zip branch's output equals `FullOutput` of the prompt, the tree at depth 0, the collected paths and the dictionary read from them. In a well-formed tree the contents part is one block per collected path, in collection order, holding that file's text or its error message. |

## Left out

- The Streamlit user interface (app.py:81-139): widgets, defaults, headings
  and on-screen display. The slider limits `file_limit` to 1..10. The model
  accepts any integer and states each window lemma's own bound on it.
- Zip handling (app.py:74-78) and the fixed extraction directory. The model
  starts from the extracted tree.
- Download and clipboard buttons (app.py:149-164).
- The non-zip upload branch (app.py:166-169).
- Real filesystem behaviour. `os.listdir`, `os.path.isdir`/`isfile` and
  `os.walk` are replaced by the `Listing`/`Node` value.
  - Symbolic links are not modelled. `os.path.isdir` follows them and
    `os.walk` does not descend into them.
  - The only listing error modelled is `PermissionDenied`. In the renderer
    any other error propagates, because app.py:46 catches `PermissionError`
    only. `os.walk` ignores every listing error (app.py:54, default
    `onerror`), as `Walk` does for `PermissionDenied`.
- Python's entry order. `os.listdir` and `os.walk` order is whatever the
  `Entries` sequence holds. The collector's contents are stated as a multiset
  (`Collector.WalkMatches`).
- `os.path.relpath` normalisation, and the `relative_to` argument. Its only
  call passes `root_dir` (app.py:127). Paths are the components below the root
  joined with `/`.
- UTF-8 decoding and exception texts. `store` gives each path's outcome and
  the failure's description as a string.
- `exclude_files or []`: the model's filter lists are plain sequences, and
  `None` is the empty one.
- Trees that are not `WellFormed`: a listing that holds two entries with one
  name, or a name containing `/`. No real filesystem produces them. For them
  the model still gives the output over `ReadAll`, but does not say that each
  collected path gets exactly one block.
