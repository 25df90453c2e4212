# Git object graph visualiser, modelled in Dafny

The visualiser is two Python scripts that read a repository's `.git`
directory and write a Graphviz DOT file:

- `main.py` reads HEAD and follows a `ref:` line one level. It takes the
  tree id from the commit's first line. It then draws the commit, one edge
  per entry of its tree listing, and recursively the subgraph of every
  entry whose mode is the word `tree`, each level indented four spaces
  deeper. Everything is wrapped in `graph git {` … `}`.
- `main2.py` (class `GitVisualizer`) reads objects with every NUL removed.
  Its tree listings keep only three-field lines and treat a missing object
  as an empty tree. Its history graph draws one node per line of the
  `git log` output, then one unlabelled edge per pair of consecutive commits.

The model works on text that has already been decompressed and decoded.
The repository is a value `Repo(objects, files, dirs)`:

- `objects` maps each loose-object path to its text;
- `files` maps HEAD and branch-ref paths to their text;
- `dirs` holds the directories, such as `.git` and `.git/objects/ab`.

A Python exception that escapes becomes `Err(...)` of a `Result`:

- `FileNotFoundError` becomes `NotFound(path)`;
- the `ValueError` that `open` raises for a path holding a NUL character becomes `BadPath(path)`;
- `IsADirectoryError`, raised when a path names a directory, becomes `IsADirectory(path)`;
- an out-of-range field index becomes `IndexError`;
- running out of fuel becomes `RecursionLimit`, standing in for Python's `RecursionError`.

Modules:

- `Text` (text.dfy) holds the Python string operations the scripts use. These are `split` with a
  one-character separator and its inverse `join`, slices, `startswith`,
  `strip` (with the exact `str.isspace` character set) and `replace('\x00', '')`.
- `Store` (store.dfy) holds errors, results, the repository, tree entries,
  opening a file, and the loose-object path.
- `Dot` (dot.dfy) holds DOT statements, their one-line rendering, the envelope,
  and how the rendered text splits back into lines.
- `TreeGraph` (tree_graph.dfy) models `main.py`. Its pure parts are functions. Its list-building
  loop and its string-accumulating recursive builder are methods, proved
  equal to the specification functions `TreeEntries`, `Graph`/`Children` and `GraphFile`.
- `TreeShape` (tree_shape.dfy) holds what the recursive graph looks like level by level, and how
  fuel relates to the unbounded recursion.
- `GitVisualizer` (git_visualizer.dfy) models `main2.py`. Its two loops are methods, proved
  equal to `TreeEntries` and `HistoryFile`.

## Behaviour worth noting

- HEAD resolution has no fallback to a default-branch ref. A missing HEAD
  is `Err(NotFound(".git/HEAD"))` (main.py:22-33).
- A HEAD of `ref:` with nothing after it names `.git/` itself. Opening that
  directory fails with `IsADirectoryError` (main.py:28-29).
- `main2.py` turns only a missing tree object into an empty listing
  (main2.py:20). An id of exactly two characters names the directory
  `.git/objects/<id>/`; when that directory exists, the error escapes.
- `main2.py` unpacks a kept line as mode, name, hash. So the name is field
  1 and the hash is field 2 (main2.py:32). `main.py` reads the hash from
  field 1 and the name from the last field. `GitVisualizer.ListingVariantsDisagree`
  states the difference.
- Empty `git log` output is not an empty history: splitting `""` gives
  `[""]`, so one node with the empty id is drawn (main2.py:44).
- The tree decoder in `main2.py` is never called by its history graph. It is
  modelled on its own.
- `main.py` does not strip the `commit <size>` header and its NUL that git
  puts in front of a loose commit's text. On such a commit the second token
  of the first line is `<size>`, the NUL and `tree`, and opening the tree
  path built from it fails with `ValueError` (main.py:17-18, main.py:37-38).
  `TreeGraph.LooseCommitHeader` and `TreeGraph.LooseCommitUnreadable` state this.

## Model

| member | source | states |
|---|---|---|
| Store.ObjectPath | main.py:15 | the path of object `h` starts with `.git/objects/` and is one character longer than the prefix plus `h` |
| Store.ObjectPathParts | main.py:37 | in the path, a `/` follows `h[:2]`, and the directory part plus the file part give back `h` |
| Store.ObjectPathInjective | main2.py:17 | two ids with the same object path are equal |
| Store.ObjectPathNul | main.py:15 | an object path holds a NUL exactly when the id does |
| Store.Open | main.py:6-11 | a path holding a NUL is BadPath whatever is there; otherwise a directory path is IsADirectory; otherwise a missing file is NotFound and a present one yields its text |
| Text.Split | main.py:17 | Python `split(sep)`: one more piece than separators, and no piece contains the separator |
| Text.JoinOfSplit | main.py:40 | joining the pieces of `split` with the separator restores the text |
| Text.SplitOfJoin | main2.py:44 | splitting a join of separator-free pieces returns the pieces |
| Text.SplitAtFirstSeparator | main.py:17 | the first piece is the text before the first separator, and the rest splits independently |
| Text.Trim | main.py:25 | `strip()` leaves no whitespace at either end and never lengthens the text |
| Text.TrimStartPadded | main.py:25 | `lstrip()` removes leading whitespace up to a character that is not whitespace, and nothing else |
| Text.TrimPadded | main.py:30 | stripping a trimmed text followed by whitespace gives that text back |
| Text.TakeDrop | main.py:15 | `h[:n] + h[n:] == h` for every `n` |
| Text.StripNul | main2.py:14 | after removing NULs, no NUL is left and the text is no longer |
| Text.StripNulIdentity | main2.py:14 | the text is unchanged exactly when it had no NUL |
| Text.StripNulIdempotent | main2.py:14 | removing NULs twice is the same as once |
| Text.StripNulKeepsOthers | main2.py:14 | every other character occurs as often as before |
| Text.StripNulConcat | main2.py:14 | NULs are removed piecewise, so the kept characters stay in order |
| TreeGraph.HeaderTree | main.py:17-18 | the tree id is an error exactly when the first line has no space (IndexError), and otherwise is a token with no space or line break |
| TreeGraph.HeaderTreeOfHeader | main.py:14-19 | a text starting `<keyword> <id>`, the id followed by a space, a line break or nothing, yields `<id>` whatever the keyword; the first token is not checked to be `tree` |
| TreeGraph.CommitTree | main.py:14-19 | for the commit's object path: an id holding a NUL gives BadPath, a directory gives IsADirectory, a missing object gives NotFound; a tree id read has no space or line break |
| TreeGraph.LooseCommitHeader | main.py:17-18 | on a text `commit <size>\0tree <id>\n...` the tree id read is `<size>\0tree` |
| TreeGraph.LooseCommitUnreadable | main.py:53-54 | the graph of such a commit fails with BadPath of the tree path built from `<size>\0tree` |
| TreeGraph.LineEntry | main.py:43-44 | a listing line is IndexError exactly when it has no space; otherwise no field of its entry holds a space |
| TreeGraph.LineEntryText | main.py:43-44 | the line starts with the entry's mode and hash one space apart and ends with its name |
| TreeGraph.ParseListingSucceeds | main.py:40-45 | the listing parses exactly when every non-empty line has a space; otherwise the failure is IndexError |
| TreeGraph.ParseListingEntries | main.py:40-45 | one entry per non-empty line, in line order: mode is field 0, hash field 1, name the last field |
| TreeGraph.TwoFieldLine | main.py:43-44 | on a two-field line the name equals the hash |
| TreeGraph.ParseListingSingleLine | main.py:40-44 | the hashes and names of a listing's entries contain no line break |
| TreeGraph.TreeEntries | main.py:36-46 | for the tree's object path: an id holding a NUL gives BadPath, a directory gives IsADirectory, a missing object gives NotFound; once the object is read, the only failure is IndexError |
| TreeGraph.GetTreeEntries | main.py:36-46 | the appending loop returns the specified entry list, or the failure to read or parse it |
| TreeGraph.LatestCommitHash | main.py:22-33 | a HEAD that is a directory is IsADirectory and a missing HEAD is NotFound(".git/HEAD"); a resolved id has no surrounding whitespace |
| TreeGraph.HeadSymbolic | main.py:26-30 | a HEAD `ref: <target>` plus trailing whitespace resolves to the stripped content of `.git/<target>`, or to the failure of opening that path |
| TreeGraph.HeadEmptyTarget | main.py:26-29 | a HEAD of `ref:` and whitespace alone fails with IsADirectory(".git/") when `.git` is a directory |
| TreeGraph.HeadDirect | main.py:24-33 | a HEAD holding an id that does not start with `ref:`, with any whitespace before and after it, resolves to that id |
| TreeGraph.Graph | main.py:49-61 | without fuel the graph is RecursionLimit; a graph built starts with the commit's node at its depth |
| TreeGraph.EntryStmts | main.py:57-59 | an entry contributes its edge first; only a `tree` entry, whose subgraph is built, can fail |
| TreeGraph.Children | main.py:56-59 | the entry loop yields at least one statement per entry, the first being the first entry's edge |
| TreeGraph.GraphStep | main.py:50-61 | once the commit and its tree are read, the text is the node line followed by the entry loop's text, or the loop's failure |
| TreeGraph.GenerateDotGraph | main.py:49-61 | the recursive string builder returns the rendering of the specified graph, failure for failure |
| TreeGraph.AppendEntries | main.py:56-59 | the entry loop returns the rendering of one edge per entry, each followed by its subgraph when its mode is `tree` |
| TreeGraph.AppendEntry | main.py:57-59 | one loop iteration appends the edge line and, exactly when the mode is `tree`, the rendered subgraph one level deeper, or passes on its failure |
| TreeGraph.GraphFile | main.py:64-73 | the file is produced exactly when HEAD resolves and the latest commit's graph is built; a HEAD failure is passed on |
| TreeGraph.GenerateGraphFile | main.py:64-73 | `main`'s output is `graph git {` + the latest commit's graph + `}` |
| TreeShape.GraphShape | main.py:49-61 | the graph of `h` at depth `d` starts with `h`'s node; nothing is above level `d`; level `d` holds exactly that node and one edge per entry in order; level `d+1` holds exactly the nodes of the `tree` entries |
| TreeShape.ChildrenShape | main.py:56-59 | the entry loop emits the level-`d` edges in entry order, and one level down exactly the nodes of the `tree` entries |
| TreeShape.ChildrenFlat | main.py:56-58 | without `tree` entries the loop emits exactly one edge per entry |
| TreeShape.GraphFlat | main.py:49-58 | with no `tree` entries the graph is the node plus N edges: 1 + N statements |
| TreeShape.GraphFuel | main.py:59 | more fuel never changes a result that did not hit the recursion bound |
| TreeShape.ChildrenFuel | main.py:56-59 | the same for the entry loop |
| TreeShape.EntriesSingleLine | main.py:40-44 | no mode, hash or name of a listed entry holds a line break |
| TreeShape.GraphSingleLine | main.py:50-57 | every statement is one line when the starting id has no line break |
| TreeShape.GraphFileLines | main.py:70-73 | the file splits into `graph git {`, one line per statement in order (the first being the commit's node), `}`, and nothing after the last line break |
| Dot.Indent | main.py:50 | the indent at depth `d` is exactly `4d` spaces |
| Dot.Line | main.py:50-57 | a statement's line holds no line break when none of its ids and labels does |
| Dot.LineShape | main.py:50-57 | a statement's line starts with its `4d`-space indent and ends with `"];`; a node line is 14 characters plus the indent, the id and its first seven characters; an edge line is 20 characters plus the indent, both ends and the label |
| Dot.Envelope | main.py:71-73 | the file is `graph git {` and a line break, then the body unchanged, then `}` and a line break: 14 characters more than the body |
| Dot.RenderedLines | main.py:57 | rendered statements split back into exactly their lines, in order |
| Dot.EnvelopeLines | main.py:71-73 | an enveloped fragment splits into the opening line, the statements' lines and the closing brace |
| GitVisualizer.ObjectContent | main2.py:10-14 | a path holding a NUL is BadPath; otherwise a directory is IsADirectory and a missing object NotFound; a read object has no NUL and is no longer than the stored text |
| GitVisualizer.ObjectContentStripped | main2.py:14 | the content read is already NUL-free, and every other character is counted as in the stored text |
| GitVisualizer.Kept | main2.py:29-31 | a line is kept exactly when it holds two spaces |
| GitVisualizer.LineEntry | main2.py:32-33 | mode, name and hash joined by single spaces give the kept line back, and none of them holds a space |
| GitVisualizer.ParseListing | main2.py:26-33 | no more entries than lines |
| GitVisualizer.ParseListingEntries | main2.py:26-33 | one entry per three-field line, in line order: mode field 0, name field 1, hash field 2 |
| GitVisualizer.EmptyLineNotKept | main2.py:27-28 | the empty line is never kept anyway |
| GitVisualizer.TreeEntries | main2.py:16-35 | the listing fails exactly when the id holds a NUL (BadPath) or its object path names a directory (IsADirectory); the script catches only the missing file |
| GitVisualizer.ShortIdDirectory | main2.py:17-22 | a two-character id whose directory `.git/objects/<id>` exists fails with IsADirectory instead of listing nothing |
| GitVisualizer.MissingTreeEmpty | main2.py:18-22 | a tree object that is neither a file nor a directory lists no entries instead of failing |
| GitVisualizer.GetTreeEntries | main2.py:16-35 | the filtering loop returns the specified entry list, or the uncaught BadPath or IsADirectory |
| GitVisualizer.ListingVariantsDisagree | main2.py:32 | on a three-field line main.py's entry is main2.py's with name and hash swapped |
| GitVisualizer.AllCommits | main2.py:37-44 | one commit per line break plus one, none containing a line break, joining back to the log text |
| GitVisualizer.EmptyLog | main2.py:44 | empty log output is the one-element list `[""]` |
| GitVisualizer.CommitNodes | main2.py:57-58 | one node per commit, at its position |
| GitVisualizer.ChainEdges | main2.py:60-63 | `max(0, n-1)` edges; edge `j` joins commit `j` to commit `j+1` |
| GitVisualizer.HistoryShape | main2.py:55-65 | `n` nodes in commit order come first, then `max(0, n-1)` consecutive-pair edges with empty labels |
| GitVisualizer.ShortHistory | main2.py:60-63 | zero or one commit draws no edge |
| GitVisualizer.GenerateDotGraphForAllCommits | main2.py:46-65 | the two accumulating loops produce the specified history file |
| GitVisualizer.HistoryFile | main2.py:55-65 | the file splits into `graph git {`, the node lines, the edge lines, `}` and nothing after: 2n + 2 lines |

## Left out

- zlib decompression and UTF-8 decoding (main.py:10-11, main2.py:13-14) are foreign code. The stored text is taken as already decoded, so a decoding failure is not modelled.
- File reads are map lookups. Writing `git_graph.dot` and `git_graph_all_commits.dot` is replaced by returning the text.
- Text-mode newline translation on the HEAD and ref reads is not modelled.
- The `git log` subprocess (main2.py:43) is replaced by its output text, passed as a parameter.
- `os.path.join` is modelled as joining with `/`. Its treatment of absolute or empty components is not modelled.
- The `print` notices (main2.py:21, main2.py:70), the `__main__` entry points and the unused `hashlib` import are left out.
- TreeGraph.GenerateDotGraph: recursion depth is bounded by a fuel parameter. Python's actual recursion limit and cycles in the object store show up only as `Err(RecursionLimit)`. `TreeShape.GraphFuel` states that no other result depends on the bound.
- `Store.Open`: a path that runs through a regular file (`NotADirectoryError`) and unreadable files (`PermissionError`) are reported as NotFound. The repository records files and directories but no permissions.
- `GitVisualizer.GetTreeEntries`: only a missing object is caught, and the BadPath and IsADirectory errors escape. Decompression and decoding errors, which the script also lets escape, are not modelled because decoding is not modelled.
