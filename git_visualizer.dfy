/**
 * main2.py, the `GitVisualizer` class: its objects are read with every NUL
 * character removed, its tree listings keep only three-field lines (mode,
 * name, hash in that order) and treat a missing object as an empty tree,
 * and its history graph draws one node per commit of the `git log` output
 * followed by an edge between each pair of consecutive commits. The class
 * holds no fields, so its methods are modelled as module members.
 */
module GitVisualizer {
  import opened Text
  import opened Store
  import opened Dot
  import TreeGraph

  /**
   * `get_object_content`: the object's text with every NUL removed. The read
   * fails as `open` does, on a path holding a NUL, on a directory or on a
   * missing file.
   */
  function ObjectContent(repo: Repo, path: string): (r: Result<string>)
    ensures '\0' in path <==> r == Err(BadPath(path))
    ensures '\0' !in path ==> (IsDirectory(repo.dirs, path) <==> r == Err(IsADirectory(path)))
    ensures '\0' !in path && !IsDirectory(repo.dirs, path) ==>
              (path !in repo.objects <==> r == Err(NotFound(path)))
    ensures r.Ok? ==> path in repo.objects && '\0' !in r.value && |r.value| <= |repo.objects[path]|
  {
    match Open(repo.objects, repo.dirs, path)
    case Err(e) => Err(e)
    case Ok(text) => Ok(StripNul(text))
  }

  /** Reading an object twice over strips nothing more, and every other character is kept. */
  lemma ObjectContentStripped(repo: Repo, path: string, c: char)
    requires '\0' !in path && !IsDirectory(repo.dirs, path) && path in repo.objects && c != '\0'
    ensures StripNul(ObjectContent(repo, path).value) == ObjectContent(repo, path).value
    ensures Count(ObjectContent(repo, path).value, c) == Count(repo.objects[path], c)
  {
    StripNulIdempotent(repo.objects[path]);
    StripNulKeepsOthers(repo.objects[path], c);
  }

  /** A listing line is kept exactly when it has three space-separated fields. */
  predicate Kept(line: string)
    ensures Kept(line) <==> Count(line, ' ') == 2
  {
    |Split(line, ' ')| == 3
  }

  /** The entry of a kept line: mode field 0, name field 1, hash field 2. */
  function LineEntry(line: string): (e: Entry)
    requires Kept(line)
    ensures e.mode + [' '] + e.name + [' '] + e.hash == line
    ensures ' ' !in e.mode && ' ' !in e.name && ' ' !in e.hash
  {
    var f := Split(line, ' ');
    JoinOfSplit(line, ' ');
    assert Join(f[1..], ' ') == f[1] + [' '] + f[2];
    ConcatAssoc(f[0] + [' '], f[1], [' '] + f[2]);
    Entry(f[0], f[1], f[2])
  }

  /** The filtering loop of `get_tree_entries` in main2.py. */
  function ParseListing(lines: seq<string>): (es: seq<Entry>)
    ensures |es| <= |lines|
  {
    if lines == [] then []
    else if lines[0] == "" || !Kept(lines[0]) then ParseListing(lines[1..])
    else [LineEntry(lines[0])] + ParseListing(lines[1..])
  }

  /**
   * `get_tree_entries` in main2.py: a missing tree object lists no entries,
   * while the errors `open` raises for an id holding a NUL or for a path
   * naming a directory are not caught.
   */
  function TreeEntries(repo: Repo, treeHash: string): (r: Result<seq<Entry>>)
    ensures r.Err? <==> '\0' in treeHash || IsDirectory(repo.dirs, ObjectPath(treeHash))
    ensures '\0' in treeHash ==> r == Err(BadPath(ObjectPath(treeHash)))
    ensures '\0' !in treeHash && IsDirectory(repo.dirs, ObjectPath(treeHash)) ==>
              r == Err(IsADirectory(ObjectPath(treeHash)))
  {
    ObjectPathNul(treeHash);
    match ObjectContent(repo, ObjectPath(treeHash))
    case Err(NotFound(_)) => Ok([])
    case Err(e) => Err(e)
    case Ok(content) => Ok(ParseListing(Split(content, '\n')))
  }

  /** The kept lines, in order. */
  function KeptLines(lines: seq<string>): (kl: seq<string>)
    ensures forall k :: 0 <= k < |kl| ==> Kept(kl[k])
  {
    if lines == [] then []
    else (if Kept(lines[0]) then [lines[0]] else []) + KeptLines(lines[1..])
  }

  /** The empty line has one field, so the explicit empty-line test never decides anything. */
  lemma EmptyLineNotKept()
    ensures !Kept("")
  {
  }

  /**
   * One entry per kept line, in line order, each with mode, name and hash
   * taken from fields 0, 1 and 2.
   */
  lemma {:induction false} ParseListingEntries(lines: seq<string>)
    ensures var es := ParseListing(lines);
            var kl := KeptLines(lines);
            |es| == |kl| && forall k :: 0 <= k < |es| ==> es[k] == LineEntry(kl[k])
  {
    if lines != [] {
      ParseListingEntries(lines[1..]);
      var es := ParseListing(lines);
      var rest := ParseListing(lines[1..]);
      EmptyLineNotKept();
      if Kept(lines[0]) {
        assert es == [LineEntry(lines[0])] + rest;
        assert KeptLines(lines) == [lines[0]] + KeptLines(lines[1..]);
        forall k | 1 <= k < |es|
          ensures es[k] == LineEntry(KeptLines(lines)[k])
        {
          assert es[k] == rest[k - 1];
        }
      } else {
        assert KeptLines(lines) == KeptLines(lines[1..]);
      }
    }
  }

  /** A tree object that is neither a file nor a directory lists no entries instead of failing. */
  lemma MissingTreeEmpty(repo: Repo, treeHash: string)
    requires '\0' !in treeHash && !IsDirectory(repo.dirs, ObjectPath(treeHash))
    requires ObjectPath(treeHash) !in repo.objects
    ensures TreeEntries(repo, treeHash) == Ok([])
  {
  }

  /**
   * A two-character id names the directory `.git/objects/<id>/` itself; when
   * that directory exists, opening it fails and the error is not caught.
   */
  lemma ShortIdDirectory(repo: Repo, treeHash: string)
    requires |treeHash| == 2 && '\0' !in treeHash
    requires ObjectsDir + treeHash in repo.dirs
    ensures TreeEntries(repo, treeHash) == Err(IsADirectory(ObjectPath(treeHash)))
  {
    var path := ObjectPath(treeHash);
    assert Take(treeHash, 2) == treeHash && Drop(treeHash, 2) == [];
    assert path == ObjectsDir + treeHash + "/";
    assert path[..|path| - 1] == ObjectsDir + treeHash;
  }

  /** `get_tree_entries` in main2.py, appending one entry per kept line. */
  method GetTreeEntries(repo: Repo, treeHash: string) returns (r: Result<seq<Entry>>)
    ensures r == TreeEntries(repo, treeHash)
  {
    var path := ObjectPath(treeHash);
    var content := ObjectContent(repo, path);
    if content.Err? {
      if content.error.NotFound? {
        return Ok([]);
      }
      return Err(content.error);
    }
    var lines := Split(content.value, '\n');
    var entries: seq<Entry> := [];
    var i := 0;
    assert lines[i..] == lines;
    while i < |lines|
      invariant 0 <= i <= |lines|
      invariant ParseListing(lines) == entries + ParseListing(lines[i..])
    {
      assert lines[i..][1..] == lines[i + 1..];
      var line := lines[i];
      i := i + 1;
      if line == "" {
        continue;
      }
      var info := Split(line, ' ');
      if |info| != 3 {
        continue;
      }
      var entry := Entry(info[0], info[1], info[2]);
      entries := entries + [entry];
    }
    assert lines[i..] == [];
    assert entries + [] == entries;
    return Ok(entries);
  }

  /** `get_all_commits`: the lines of the log output, one commit id per line. */
  function AllCommits(logOutput: string): (cs: seq<string>)
    ensures |cs| == Count(logOutput, '\n') + 1
    ensures forall i :: 0 <= i < |cs| ==> '\n' !in cs[i]
    ensures Join(cs, '\n') == logOutput
  {
    JoinOfSplit(logOutput, '\n');
    Split(logOutput, '\n')
  }

  /** Empty log output is one empty commit id, not an empty list. */
  lemma EmptyLog()
    ensures AllCommits("") == [""]
  {
  }

  /** One node per commit, at level 1, in order. */
  function CommitNodes(cs: seq<string>): (ns: seq<Stmt>)
    ensures |ns| == |cs|
    ensures forall i :: 0 <= i < |cs| ==> ns[i] == Node(1, cs[i])
  {
    if cs == [] then [] else [Node(1, cs[0])] + CommitNodes(cs[1..])
  }

  /** One unlabelled edge per pair of consecutive commits, at level 1, in order. */
  function ChainEdges(cs: seq<string>): (es: seq<Stmt>)
    ensures |es| == if |cs| == 0 then 0 else |cs| - 1
    ensures forall j :: 0 <= j < |cs| - 1 ==> es[j] == Edge(1, cs[j], cs[j + 1], "")
  {
    if |cs| < 2 then [] else [Edge(1, cs[0], cs[1], "")] + ChainEdges(cs[1..])
  }

  /** The statements of the history graph: all nodes, then all edges. */
  function History(cs: seq<string>): seq<Stmt>
  {
    CommitNodes(cs) + ChainEdges(cs)
  }

  /**
   * The text `generate_dot_graph_for_all_commits` writes for the log output:
   * `graph git {`, every commit's node line in log order, every edge line in
   * log order, `}`, and nothing after the final line break, so 2n + 2 lines
   * for n commits.
   */
  function HistoryFile(logOutput: string): (r: string)
    ensures var cs := AllCommits(logOutput);
            Split(r, '\n') == [OpenLine] + (Lines(History(cs)) + [CloseLine, ""]) &&
            |Split(r, '\n')| == 2 * |cs| + 2
  {
    HistoryLines(AllCommits(logOutput));
    Envelope(RenderAll(History(AllCommits(logOutput))))
  }

  /**
   * The history graph of `n` commits has `n` node statements, commit `i`'s
   * node at position `i`, followed by `max(0, n - 1)` edges, edge `j`
   * joining commit `j` to commit `j + 1` with an empty label.
   */
  lemma HistoryShape(cs: seq<string>)
    ensures var ss := History(cs);
            |ss| == |cs| + (if |cs| == 0 then 0 else |cs| - 1) &&
            (forall i :: 0 <= i < |cs| ==> ss[i] == Node(1, cs[i])) &&
            (forall j :: 0 <= j < |ss| - |cs| ==> ss[|cs| + j] == Edge(1, cs[j], cs[j + 1], ""))
  {
  }

  /** Fewer than two commits draw no edge. */
  lemma ShortHistory(cs: seq<string>)
    requires |cs| < 2
    ensures History(cs) == CommitNodes(cs) && |History(cs)| == |cs|
  {
    assert CommitNodes(cs) + [] == CommitNodes(cs);
  }

  lemma CommitNodesSnoc(cs: seq<string>, i: nat)
    requires i < |cs|
    ensures CommitNodes(cs[..i + 1]) == CommitNodes(cs[..i]) + [Node(1, cs[i])]
  {
  }

  lemma ChainEdgesSnoc(cs: seq<string>, i: nat)
    requires i + 1 < |cs|
    ensures ChainEdges(cs[..i + 2]) == ChainEdges(cs[..i + 1]) + [Edge(1, cs[i], cs[i + 1], "")]
  {
    var longer, shorter := ChainEdges(cs[..i + 2]), ChainEdges(cs[..i + 1]);
    assert |longer| == |shorter| + 1;
    forall j | 0 <= j < |longer|
      ensures longer[j] == (shorter + [Edge(1, cs[i], cs[i + 1], "")])[j]
    {
      if j < |shorter| {
        assert longer[j] == Edge(1, cs[j], cs[j + 1], "");
      }
    }
  }

  /** Text for the statements so far, extended by the line of one more. */
  lemma RenderSnoc(head: string, dot: string, ss: seq<Stmt>, st: Stmt)
    requires dot == head + RenderAll(ss)
    ensures dot + Render(st) == head + RenderAll(ss + [st])
  {
    RenderAllConcat(ss, [st]);
    RenderAllSingle(st);
    ConcatAssoc(head, RenderAll(ss), Render(st));
  }

  /** The opening line, the body and the closing line, written one after the other. */
  lemma EnvelopeParts(opening: string, body: string, closing: string)
    requires opening == OpenLine + "\n" && closing == CloseLine + "\n"
    ensures opening + body + closing == Envelope(body)
  {
    ConcatAssoc(OpenLine + "\n", body, CloseLine + "\n");
  }

  /** The opening line, the node lines, the edge lines and the closing line make up the history file. */
  lemma HistoryAssembled(cs: seq<string>, opening: string, nodes: string, dot: string, closing: string)
    requires opening == OpenLine + "\n" && closing == CloseLine + "\n"
    requires nodes == opening + RenderAll(CommitNodes(cs))
    requires dot == nodes + RenderAll(ChainEdges(cs))
    ensures dot + closing == Envelope(RenderAll(History(cs)))
  {
    RenderAllConcat(CommitNodes(cs), ChainEdges(cs));
    ConcatAssoc(opening, RenderAll(CommitNodes(cs)), RenderAll(ChainEdges(cs)));
    EnvelopeParts(opening, RenderAll(History(cs)), closing);
  }

  /**
   * `generate_dot_graph_for_all_commits`, returning the text it writes:
   * the opening line, a node line per commit, an edge line per consecutive
   * pair, and the closing line.
   */
  method GenerateDotGraphForAllCommits(logOutput: string) returns (dot: string)
    ensures dot == HistoryFile(logOutput)
  {
    var commits := AllCommits(logOutput);
    var opening := OpenLine + "\n";
    dot := opening;
    var i := 0;
    assert commits[..0] == [];
    while i < |commits|
      invariant 0 <= i <= |commits|
      invariant dot == opening + RenderAll(CommitNodes(commits[..i]))
    {
      CommitNodesSnoc(commits, i);
      RenderSnoc(opening, dot, CommitNodes(commits[..i]), Node(1, commits[i]));
      dot := dot + Render(Node(1, commits[i]));
      i := i + 1;
    }
    assert commits[..i] == commits;
    ghost var nodes := dot;
    var j := 0;
    assert commits[..1] == [commits[0]];
    assert nodes == nodes + RenderAll(ChainEdges(commits[..j + 1]));
    while j < |commits| - 1
      invariant 0 <= j <= |commits| - 1
      invariant dot == nodes + RenderAll(ChainEdges(commits[..j + 1]))
    {
      ChainEdgesSnoc(commits, j);
      RenderSnoc(nodes, dot, ChainEdges(commits[..j + 1]), Edge(1, commits[j], commits[j + 1], ""));
      dot := dot + Render(Edge(1, commits[j], commits[j + 1], ""));
      j := j + 1;
    }
    assert commits[..j + 1] == commits;
    var closing := CloseLine + "\n";
    HistoryAssembled(commits, opening, nodes, dot, closing);
    dot := dot + closing;
  }

  /** The lines of an enveloped history of one or more single-line commits. */
  lemma HistoryLines(cs: seq<string>)
    requires |cs| >= 1
    requires forall i :: 0 <= i < |cs| ==> '\n' !in cs[i]
    ensures var ss := History(cs);
            Split(Envelope(RenderAll(ss)), '\n') == [OpenLine] + (Lines(ss) + [CloseLine, ""]) &&
            |Split(Envelope(RenderAll(ss)), '\n')| == 2 * |cs| + 2
  {
    var ss := History(cs);
    HistoryShape(cs);
    forall i | 0 <= i < |ss|
      ensures SingleLine(ss[i])
    {
      if i >= |cs| {
        assert ss[i] == Edge(1, cs[i - |cs|], cs[i - |cs| + 1], "");
      }
    }
    EnvelopeLines(ss);
  }

  /**
   * On a line with exactly three fields the two scripts agree on the mode
   * and disagree on the rest: main.py takes field 1 as the hash and the
   * last field as the name, main2.py the other way round.
   */
  lemma ListingVariantsDisagree(line: string)
    requires Kept(line)
    ensures TreeGraph.LineEntry(line) ==
              Ok(Entry(LineEntry(line).mode, LineEntry(line).hash, LineEntry(line).name))
  {
  }
}
