/**
 * main.py: draw the latest commit and everything reachable from its tree.
 * The commit object's first line names its tree; each tree listing line
 * `<mode> <hash> <name>` becomes an edge, and an entry whose mode is the
 * word `tree` is walked again as if it were a commit, one nesting level
 * deeper. HEAD is read once, following a `ref:` line one level.
 */
module TreeGraph {
  import opened Text
  import opened Store
  import opened Dot

  const HeadPath: string := ".git/HEAD"
  const GitDir: string := ".git/"
  const SymbolicPrefix: string := "ref:"

  /**
   * The parse step of `get_commit_info`: the second space-separated token
   * of the first line. The first token is not checked to be `tree`; a first
   * line without a space has no second token.
   */
  function HeaderTree(content: string): (r: Result<string>)
    ensures r.Err? <==> ' ' !in Split(content, '\n')[0]
    ensures r.Err? ==> r.error == IndexError
    ensures r.Ok? ==> ' ' !in r.value && '\n' !in r.value
  {
    var first := Split(content, '\n')[0];
    var tokens := Split(first, ' ');
    CountAbsent(first, ' ');
    SplitKeepsAbsence(first, ' ', '\n');
    if |tokens| < 2 then Err(IndexError) else Ok(tokens[1])
  }

  /**
   * `get_commit_info`: the tree id named by the commit object `commitHash`.
   * Reading the object fails first, for an id holding a NUL or a missing
   * object; a tree id read never holds a space or a line break.
   */
  function CommitTree(repo: Repo, commitHash: string): (r: Result<string>)
    ensures '\0' in commitHash ==> r == Err(BadPath(ObjectPath(commitHash)))
    ensures '\0' !in commitHash && IsDirectory(repo.dirs, ObjectPath(commitHash)) ==>
              r == Err(IsADirectory(ObjectPath(commitHash)))
    ensures ('\0' !in commitHash && !IsDirectory(repo.dirs, ObjectPath(commitHash)) &&
             ObjectPath(commitHash) !in repo.objects) ==> r == Err(NotFound(ObjectPath(commitHash)))
    ensures r.Ok? ==> ' ' !in r.value && '\n' !in r.value
  {
    ObjectPathNul(commitHash);
    match Open(repo.objects, repo.dirs, ObjectPath(commitHash))
    case Err(e) => Err(e)
    case Ok(content) => HeaderTree(content)
  }

  /**
   * A commit text starting `<keyword> <id>` yields `<id>` whatever the
   * keyword is, as long as the id is followed by a space, a line break or
   * nothing; what comes after that does not matter.
   */
  lemma HeaderTreeOfHeader(keyword: string, id: string, tail: string)
    requires ' ' !in keyword && '\n' !in keyword
    requires ' ' !in id && '\n' !in id
    requires tail == [] || tail[0] == ' ' || tail[0] == '\n'
    ensures HeaderTree(keyword + [' '] + id + tail) == Ok(id)
  {
    var u := Split(tail, '\n')[0];
    assert u == [] || u[0] == ' ' by {
      if tail != [] && tail[0] == ' ' {
        assert u == [' '] + Split(tail[1..], '\n')[0];
      }
    }
    var first := Split(keyword + [' '] + id + tail, '\n')[0];
    FirstPieceOfConcat(keyword + [' '] + id, '\n', tail);
    assert first == keyword + [' '] + (id + u);
    SplitAtFirstSeparator(keyword, ' ', id + u);
    FirstPieceOfConcat(id, ' ', u);
    assert Split(u, ' ')[0] == [] by {
      if u != [] {
        assert Split(u, ' ') == [""] + Split(u[1..], ' ');
      }
    }
    assert Split(first, ' ')[1] == Split(id + u, ' ')[0] == id;
  }

  /**
   * One line of a tree listing as `get_tree_entries` in main.py reads it:
   * mode is field 0, hash field 1 and name the last field, with no check
   * on the number of fields; a line with one field has no field 1.
   */
  function LineEntry(line: string): (r: Result<Entry>)
    ensures r.Err? <==> ' ' !in line
    ensures r.Err? ==> r.error == IndexError
    ensures r.Ok? ==> ' ' !in r.value.mode && ' ' !in r.value.hash && ' ' !in r.value.name
  {
    var f := Split(line, ' ');
    CountAbsent(line, ' ');
    if |f| < 2 then Err(IndexError) else Ok(Entry(f[0], f[|f| - 1], f[1]))
  }

  /** The line of an entry starts with its mode and hash, one space apart, and ends with its name. */
  lemma LineEntryText(line: string)
    requires LineEntry(line).Ok?
    ensures var e := LineEntry(line).value;
            StartsWith(line, e.mode + [' '] + e.hash) && EndsWith(line, e.name)
  {
    var f := Split(line, ' ');
    JoinOfSplit(line, ' ');
    JoinStartsWithTwo(f, ' ');
    JoinEndsWithLast(f, ' ');
  }

  /** `Ok(pre + xs)` for `Ok(xs)`; an error is passed on. */
  function Prepend<T>(pre: seq<T>, r: Result<seq<T>>): Result<seq<T>>
  {
    match r
    case Ok(xs) => Ok(pre + xs)
    case Err(e) => Err(e)
  }

  lemma PrependNothing<T>(r: Result<seq<T>>)
    ensures Prepend([], r) == r
  {
    if r.Ok? {
      assert [] + r.value == r.value;
    }
  }

  lemma PrependTwice<T>(a: seq<T>, b: seq<T>, r: Result<seq<T>>)
    ensures Prepend(a, Prepend(b, r)) == Prepend(a + b, r)
  {
    if r.Ok? {
      assert a + (b + r.value) == a + b + r.value;
    }
  }

  /** The loop of `get_tree_entries` over the listing's lines, empty lines skipped. */
  function ParseListing(lines: seq<string>): Result<seq<Entry>>
  {
    if lines == [] then Ok([])
    else if lines[0] == "" then ParseListing(lines[1..])
    else
      match LineEntry(lines[0])
      case Err(e) => Err(e)
      case Ok(entry) => Prepend([entry], ParseListing(lines[1..]))
  }

  /**
   * `get_tree_entries` in main.py: an id holding a NUL and a missing tree
   * object are errors, and so is a listing line without a space.
   */
  function TreeEntries(repo: Repo, treeHash: string): (r: Result<seq<Entry>>)
    ensures '\0' in treeHash ==> r == Err(BadPath(ObjectPath(treeHash)))
    ensures '\0' !in treeHash && IsDirectory(repo.dirs, ObjectPath(treeHash)) ==>
              r == Err(IsADirectory(ObjectPath(treeHash)))
    ensures ('\0' !in treeHash && !IsDirectory(repo.dirs, ObjectPath(treeHash)) &&
             ObjectPath(treeHash) !in repo.objects) ==> r == Err(NotFound(ObjectPath(treeHash)))
    ensures ('\0' !in treeHash && !IsDirectory(repo.dirs, ObjectPath(treeHash)) &&
             ObjectPath(treeHash) in repo.objects && r.Err?) ==> r.error == IndexError
  {
    ObjectPathNul(treeHash);
    match Open(repo.objects, repo.dirs, ObjectPath(treeHash))
    case Err(e) => Err(e)
    case Ok(content) =>
      ParseListingSucceeds(Split(content, '\n'));
      ParseListing(Split(content, '\n'))
  }

  /** The non-empty lines, in order. */
  function NonEmpty(lines: seq<string>): (ne: seq<string>)
    ensures |ne| <= |lines|
    ensures forall k :: 0 <= k < |ne| ==> ne[k] != ""
  {
    if lines == [] then []
    else (if lines[0] == "" then [] else [lines[0]]) + NonEmpty(lines[1..])
  }

  /** `e` is what main.py builds from `line`: mode field 0, hash field 1, name the last field. */
  predicate EntryOfLine(line: string, e: Entry)
  {
    var f := Split(line, ' ');
    |f| >= 2 && e.mode == f[0] && e.hash == f[1] && e.name == f[|f| - 1]
  }

  /** The listing parses exactly when every non-empty line has a space in it. */
  lemma {:induction false} ParseListingSucceeds(lines: seq<string>)
    ensures ParseListing(lines).Ok? <==> forall i :: 0 <= i < |lines| ==> lines[i] == "" || ' ' in lines[i]
    ensures ParseListing(lines).Err? ==> ParseListing(lines).error == IndexError
  {
    if lines != [] {
      ParseListingSucceeds(lines[1..]);
      CountAbsent(lines[0], ' ');
      assert forall i :: 1 <= i < |lines| ==> lines[i] == lines[1..][i - 1];
    }
  }

  /** One entry per non-empty line, in line order, each built from its line's fields. */
  lemma {:induction false} ParseListingEntries(lines: seq<string>)
    requires ParseListing(lines).Ok?
    ensures var es := ParseListing(lines).value;
            var ne := NonEmpty(lines);
            |es| == |ne| && forall k :: 0 <= k < |es| ==> EntryOfLine(ne[k], es[k])
  {
    if lines != [] {
      ParseListingEntries(lines[1..]);
      var es := ParseListing(lines).value;
      var rest := ParseListing(lines[1..]).value;
      if lines[0] != "" {
        assert es == [LineEntry(lines[0]).value] + rest;
        assert NonEmpty(lines) == [lines[0]] + NonEmpty(lines[1..]);
        forall k | 1 <= k < |es|
          ensures EntryOfLine(NonEmpty(lines)[k], es[k])
        {
          assert es[k] == rest[k - 1];
        }
      } else {
        assert NonEmpty(lines) == NonEmpty(lines[1..]);
      }
    }
  }

  /** A two-field line names its entry after its hash. */
  lemma TwoFieldLine(line: string)
    requires |Split(line, ' ')| == 2
    ensures LineEntry(line).Ok? && LineEntry(line).value.name == LineEntry(line).value.hash
  {
  }

  /** The fields of a listing's entries come from single lines. */
  lemma {:induction false} ParseListingSingleLine(lines: seq<string>)
    requires forall i :: 0 <= i < |lines| ==> '\n' !in lines[i]
    requires ParseListing(lines).Ok?
    ensures forall k :: 0 <= k < |ParseListing(lines).value| ==>
              '\n' !in ParseListing(lines).value[k].mode &&
              '\n' !in ParseListing(lines).value[k].hash && '\n' !in ParseListing(lines).value[k].name
  {
    if lines != [] {
      ParseListingSingleLine(lines[1..]);
      SplitKeepsAbsence(lines[0], ' ', '\n');
    }
  }

  /** The loop of `get_tree_entries` in main.py, appending one entry per non-empty line. */
  method GetTreeEntries(repo: Repo, treeHash: string) returns (r: Result<seq<Entry>>)
    ensures r == TreeEntries(repo, treeHash)
  {
    var path := ObjectPath(treeHash);
    var content := Open(repo.objects, repo.dirs, path);
    if content.Err? {
      return Err(content.error);
    }
    var lines := Split(content.value, '\n');
    var entries: seq<Entry> := [];
    var i := 0;
    assert lines[i..] == lines;
    PrependNothing(ParseListing(lines));
    while i < |lines|
      invariant 0 <= i <= |lines|
      invariant ParseListing(lines) == Prepend(entries, ParseListing(lines[i..]))
    {
      assert lines[i..][1..] == lines[i + 1..];
      var line := lines[i];
      if line == "" {
        i := i + 1;
        continue;
      }
      var info := Split(line, ' ');
      if |info| < 2 {
        return Err(IndexError);
      }
      var entry := Entry(info[0], info[|info| - 1], info[1]);
      PrependTwice(entries, [entry], ParseListing(lines[i + 1..]));
      entries := entries + [entry];
      i := i + 1;
    }
    assert lines[i..] == [];
    assert entries + [] == entries;
    return Ok(entries);
  }

  /**
   * `get_latest_commit_hash`: the stripped HEAD text, or, when it starts
   * with `ref:`, the stripped text of `.git/` followed by everything after
   * its fifth character. The referenced file is not followed any further.
   */
  function LatestCommitHash(repo: Repo): (r: Result<string>)
    ensures IsDirectory(repo.dirs, HeadPath) ==> r == Err(IsADirectory(HeadPath))
    ensures !IsDirectory(repo.dirs, HeadPath) && HeadPath !in repo.files ==> r == Err(NotFound(HeadPath))
    ensures r.Ok? ==> Trimmed(r.value)
  {
    match Open(repo.files, repo.dirs, HeadPath)
    case Err(e) => Err(e)
    case Ok(head) =>
      var ref := Trim(head);
      if StartsWith(ref, SymbolicPrefix) then
        match Open(repo.files, repo.dirs, GitDir + Drop(ref, 5))
        case Err(e) => Err(e)
        case Ok(target) => Ok(Trim(target))
      else Ok(ref)
  }

  lemma SymbolicLiteral(target: string)
    ensures StartsWith("ref: " + target, SymbolicPrefix)
    ensures Drop("ref: " + target, 5) == target
    ensures !IsSpace(("ref: " + target)[0])
  {
  }

  /**
   * A HEAD of the form `ref: <target>` plus trailing whitespace resolves to
   * the stripped content of `.git/<target>`, whatever that content is, or
   * to the failure of reading that file. An empty target names `.git/`.
   */
  lemma HeadSymbolic(repo: Repo, target: string, w: string)
    requires HeadPath in repo.files && !IsDirectory(repo.dirs, HeadPath)
    requires repo.files[HeadPath] == "ref: " + target + w
    requires Trimmed(target)
    requires forall i :: 0 <= i < |w| ==> IsSpace(w[i])
    ensures var read := Open(repo.files, repo.dirs, GitDir + target);
            LatestCommitHash(repo) == if read.Ok? then Ok(Trim(read.value)) else read
  {
    if target == [] {
      var ref := "ref:";
      assert "ref: " + target + w == ref + ([' '] + w);
      TrimPadded(ref, [' '] + w);
      assert StartsWith(ref, SymbolicPrefix) && Drop(ref, 5) == target;
    } else {
      SymbolicLiteral(target);
      TrimPadded("ref: " + target, w);
    }
  }

  /**
   * A HEAD of `ref:` and whitespace alone names `.git/` itself, and opening
   * that directory fails.
   */
  lemma HeadEmptyTarget(repo: Repo, w: string)
    requires HeadPath in repo.files && !IsDirectory(repo.dirs, HeadPath)
    requires repo.files[HeadPath] == SymbolicPrefix + w
    requires forall i :: 0 <= i < |w| ==> IsSpace(w[i])
    requires ".git" in repo.dirs
    ensures LatestCommitHash(repo) == Err(IsADirectory(GitDir))
  {
    var head := repo.files[HeadPath];
    assert Open(repo.files, repo.dirs, HeadPath) == Ok(head);
    TrimPadded(SymbolicPrefix, w);
    assert Drop(SymbolicPrefix, 5) == [];
    assert GitDir + [] == GitDir;
    assert IsDirectory(repo.dirs, GitDir) by {
      assert GitDir[..|GitDir| - 1] == ".git";
    }
  }

  /**
   * A HEAD holding an id that does not start with `ref:`, with any
   * whitespace around it, resolves to that id.
   */
  lemma HeadDirect(repo: Repo, w1: string, id: string, w2: string)
    requires HeadPath in repo.files && !IsDirectory(repo.dirs, HeadPath)
    requires repo.files[HeadPath] == w1 + id + w2
    requires Trimmed(id) && !StartsWith(id, SymbolicPrefix)
    requires forall i :: 0 <= i < |w1| ==> IsSpace(w1[i])
    requires forall i :: 0 <= i < |w2| ==> IsSpace(w2[i])
    ensures LatestCommitHash(repo) == Ok(id)
  {
    assert w1 + id + w2 == w1 + (id + w2);
    if id == [] {
      assert w1 + (id + w2) == w1 + w2;
      TrimStartBlank(w1 + w2);
    } else {
      TrimStartPadded(w1, id + w2);
      TrimEndPadded(id, w2);
    }
  }

  /**
   * `generate_dot_graph(commit_hash, depth)` as statements: the node of
   * `commitHash`, then for each entry of its tree the edge to the entry
   * and, for an entry of mode `tree`, that entry's own graph one level
   * deeper. `fuel` bounds the nesting; running out stands for Python's
   * recursion limit.
   */
  function Graph(repo: Repo, commitHash: string, depth: nat, fuel: nat): (r: Result<seq<Stmt>>)
    ensures fuel == 0 ==> r == Err(RecursionLimit)
    ensures r.Ok? ==> |r.value| >= 1 && r.value[0] == Node(depth, commitHash)
    decreases fuel, 0
  {
    if fuel == 0 then Err(RecursionLimit)
    else
      match CommitTree(repo, commitHash)
      case Err(e) => Err(e)
      case Ok(tree) =>
        match TreeEntries(repo, tree)
        case Err(e) => Err(e)
        case Ok(entries) => Prepend([Node(depth, commitHash)], Children(repo, commitHash, entries, depth, fuel - 1))
  }

  /**
   * What one entry contributes, in the order the loop body appends it: the
   * edge to the entry and, when its mode is `tree`, the entry's own graph
   * one level deeper.
   */
  function EntryStmts(repo: Repo, commitHash: string, e: Entry, depth: nat, fuel: nat): (r: Result<seq<Stmt>>)
    ensures r.Ok? ==> |r.value| >= 1 && r.value[0] == EntryEdge(commitHash, e, depth)
    ensures r.Err? ==> e.mode == "tree"
    decreases fuel, 1
  {
    var edge := EntryEdge(commitHash, e, depth);
    if e.mode == "tree" then Prepend([edge], Graph(repo, e.hash, depth + 1, fuel)) else Ok([edge])
  }

  /** The `for entry in entries` loop of `generate_dot_graph`. */
  function Children(repo: Repo, commitHash: string, entries: seq<Entry>, depth: nat, fuel: nat): (r: Result<seq<Stmt>>)
    ensures r.Ok? ==> |r.value| >= |entries|
    ensures r.Ok? && entries != [] ==> r.value[0] == EntryEdge(commitHash, entries[0], depth)
    decreases fuel, 2, |entries|
  {
    if entries == [] then Ok([])
    else
      match EntryStmts(repo, commitHash, entries[0], depth, fuel)
      case Err(err) => Err(err)
      case Ok(stmts) => Prepend(stmts, Children(repo, commitHash, entries[1..], depth, fuel))
  }

  /** A graph fragment as text. */
  function Rendered(g: Result<seq<Stmt>>): Result<string>
  {
    match g
    case Ok(ss) => Ok(RenderAll(ss))
    case Err(e) => Err(e)
  }

  /** The edge line drawn from `commitHash` to an entry. */
  function EntryEdge(commitHash: string, e: Entry, depth: nat): Stmt
  {
    Edge(depth, commitHash, e.hash, e.name)
  }

  /** One step of the entry loop over an entry whose statements were built. */
  lemma ChildrenStep(repo: Repo, commitHash: string, entries: seq<Entry>, i: nat, depth: nat, fuel: nat,
                     done: seq<Stmt>, dot: string, part: string)
    requires i < |entries|
    requires EntryStmts(repo, commitHash, entries[i], depth, fuel).Ok?
    requires Children(repo, commitHash, entries, depth, fuel) ==
               Prepend(done, Children(repo, commitHash, entries[i..], depth, fuel))
    requires dot == RenderAll(done)
    requires Ok(part) == Rendered(EntryStmts(repo, commitHash, entries[i], depth, fuel))
    ensures var more := EntryStmts(repo, commitHash, entries[i], depth, fuel).value;
            Children(repo, commitHash, entries, depth, fuel) ==
              Prepend(done + more, Children(repo, commitHash, entries[i + 1..], depth, fuel)) &&
            dot + part == RenderAll(done + more)
  {
    var more := EntryStmts(repo, commitHash, entries[i], depth, fuel).value;
    assert entries[i..][1..] == entries[i + 1..];
    PrependTwice(done, more, Children(repo, commitHash, entries[i + 1..], depth, fuel));
    RenderAllConcat(done, more);
  }

  /** The entry loop stops at the first entry whose statements failed, with that failure. */
  lemma ChildrenFails(repo: Repo, commitHash: string, entries: seq<Entry>, i: nat, depth: nat, fuel: nat,
                      done: seq<Stmt>)
    requires i < |entries|
    requires EntryStmts(repo, commitHash, entries[i], depth, fuel).Err?
    requires Children(repo, commitHash, entries, depth, fuel) ==
               Prepend(done, Children(repo, commitHash, entries[i..], depth, fuel))
    ensures Children(repo, commitHash, entries, depth, fuel) ==
              Err(EntryStmts(repo, commitHash, entries[i], depth, fuel).error)
  {
  }

  /**
   * `generate_dot_graph`: the node line, then the edge lines of the
   * commit's tree entries with the subgraphs of its `tree` entries.
   */
  method GenerateDotGraph(repo: Repo, commitHash: string, depth: nat, fuel: nat) returns (r: Result<string>)
    ensures r == Rendered(Graph(repo, commitHash, depth, fuel))
    decreases fuel, 0
  {
    if fuel == 0 {
      return Err(RecursionLimit);
    }
    var node := Node(depth, commitHash);
    var dot := Render(node);
    var tree := CommitTree(repo, commitHash);
    if tree.Err? {
      assert Graph(repo, commitHash, depth, fuel) == Err(tree.error);
      return Err(tree.error);
    }
    var listed := GetTreeEntries(repo, tree.value);
    if listed.Err? {
      assert Graph(repo, commitHash, depth, fuel) == Err(listed.error);
      return Err(listed.error);
    }
    var edges := AppendEntries(repo, commitHash, listed.value, depth, fuel - 1);
    if edges.Err? {
      GraphStep(repo, commitHash, depth, fuel, listed.value);
      return Err(edges.error);
    }
    GraphStep(repo, commitHash, depth, fuel, listed.value);
    return Ok(dot + edges.value);
  }

  /** One call of the graph builder: the node line in front of the rendered entry loop, or the loop's failure. */
  lemma GraphStep(repo: Repo, commitHash: string, depth: nat, fuel: nat, entries: seq<Entry>)
    requires fuel > 0
    requires CommitTree(repo, commitHash).Ok?
    requires TreeEntries(repo, CommitTree(repo, commitHash).value) == Ok(entries)
    ensures var rest := Rendered(Children(repo, commitHash, entries, depth, fuel - 1));
            Rendered(Graph(repo, commitHash, depth, fuel)) ==
              if rest.Ok? then Ok(Render(Node(depth, commitHash)) + rest.value) else rest
  {
    var node := Node(depth, commitHash);
    var children := Children(repo, commitHash, entries, depth, fuel - 1);
    assert Graph(repo, commitHash, depth, fuel) == Prepend([node], children);
    if children.Ok? {
      RenderAllSingle(node);
      RenderAllConcat([node], children.value);
    }
  }

  /**
   * The body of the `for entry in entries` loop of `generate_dot_graph`:
   * the edge line, then the entry's subgraph when its mode is `tree`.
   */
  method AppendEntry(repo: Repo, commitHash: string, e: Entry, depth: nat, fuel: nat) returns (r: Result<string>)
    ensures r == Rendered(EntryStmts(repo, commitHash, e, depth, fuel))
    decreases fuel, 1
  {
    var edge := EntryEdge(commitHash, e, depth);
    var dot := Render(edge);
    RenderAllSingle(edge);
    if e.mode == "tree" {
      var sub := GenerateDotGraph(repo, e.hash, depth + 1, fuel);
      if sub.Err? {
        return Err(sub.error);
      }
      RenderAllConcat([edge], Graph(repo, e.hash, depth + 1, fuel).value);
      dot := dot + sub.value;
    }
    return Ok(dot);
  }

  /** The `for entry in entries` loop of `generate_dot_graph`. */
  method AppendEntries(repo: Repo, commitHash: string, entries: seq<Entry>, depth: nat, fuel: nat)
    returns (r: Result<string>)
    ensures r == Rendered(Children(repo, commitHash, entries, depth, fuel))
    decreases fuel, 2
  {
    ghost var done: seq<Stmt> := [];
    var dot := "";
    assert entries[0..] == entries;
    PrependNothing(Children(repo, commitHash, entries, depth, fuel));
    var i := 0;
    while i < |entries|
      invariant 0 <= i <= |entries|
      invariant dot == RenderAll(done)
      invariant Children(repo, commitHash, entries, depth, fuel) ==
                  Prepend(done, Children(repo, commitHash, entries[i..], depth, fuel))
    {
      var part := AppendEntry(repo, commitHash, entries[i], depth, fuel);
      if part.Err? {
        ChildrenFails(repo, commitHash, entries, i, depth, fuel, done);
        return Err(part.error);
      }
      ChildrenStep(repo, commitHash, entries, i, depth, fuel, done, dot, part.value);
      dot := dot + part.value;
      done := done + EntryStmts(repo, commitHash, entries[i], depth, fuel).value;
      i := i + 1;
    }
    assert entries[i..] == [];
    assert done + [] == done;
    return Ok(dot);
  }

  /** `main`: the recursive graph of the latest commit in the DOT envelope. */
  function GraphFile(repo: Repo, fuel: nat): (r: Result<string>)
    ensures r.Ok? <==> LatestCommitHash(repo).Ok? && Graph(repo, LatestCommitHash(repo).value, 0, fuel).Ok?
    ensures LatestCommitHash(repo).Err? ==> r == Err(LatestCommitHash(repo).error)
  {
    match LatestCommitHash(repo)
    case Err(e) => Err(e)
    case Ok(head) =>
      match Rendered(Graph(repo, head, 0, fuel))
      case Err(e) => Err(e)
      case Ok(body) => Ok(Envelope(body))
  }

  /**
   * A commit kept the way git keeps loose objects starts with the header
   * `commit <size>` and a NUL in front of its `tree <id>` line. The second
   * token of the first line is then `<size>`, the NUL and `tree`, not the
   * tree id.
   */
  lemma LooseCommitHeader(size: string, id: string, rest: string)
    requires ' ' !in size && '\n' !in size
    ensures HeaderTree("commit " + size + "\0tree " + id + "\n" + rest) == Ok(size + "\0tree")
  {
    var token, tail := size + "\0tree", " " + id + "\n" + rest;
    assert "commit " + size + "\0tree " + id + "\n" + rest == "commit" + [' '] + token + tail;
    HeaderTreeOfHeader("commit", token, tail);
  }

  /**
   * On such a commit the graph fails at once: the tree is looked up under a
   * path holding the header's NUL, which `open` refuses.
   */
  lemma LooseCommitUnreadable(repo: Repo, commitHash: string, size: string, id: string, rest: string,
                              depth: nat, fuel: nat)
    requires '\0' !in commitHash && !IsDirectory(repo.dirs, ObjectPath(commitHash))
    requires ObjectPath(commitHash) in repo.objects
    requires repo.objects[ObjectPath(commitHash)] == "commit " + size + "\0tree " + id + "\n" + rest
    requires ' ' !in size && '\n' !in size
    requires fuel > 0
    ensures Graph(repo, commitHash, depth, fuel) == Err(BadPath(ObjectPath(size + "\0tree")))
  {
    LooseCommitHeader(size, id, rest);
    assert (size + "\0tree")[|size|] == '\0';
  }

  /** `main`, returning the text it writes to `git_graph.dot`. */
  method GenerateGraphFile(repo: Repo, fuel: nat) returns (r: Result<string>)
    ensures r == GraphFile(repo, fuel)
  {
    var head := LatestCommitHash(repo);
    if head.Err? {
      return Err(head.error);
    }
    var body := GenerateDotGraph(repo, head.value, 0, fuel);
    if body.Err? {
      return Err(body.error);
    }
    return Ok(Envelope(body.value));
  }
}
