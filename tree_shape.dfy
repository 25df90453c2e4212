/**
 * What the statements `generate_dot_graph` emits look like: one node at
 * the commit's own level, one edge per tree entry at that level in entry
 * order, and one level deeper exactly the nodes of the `tree` entries.
 * Also how the fuel bound relates to the unbounded recursion.
 */
module TreeShape {
  import opened Text
  import opened Store
  import opened Dot
  import opened TreeGraph

  /** The node statements at nesting level `d`, in order. */
  function NodesAt(ss: seq<Stmt>, d: nat): seq<Stmt>
  {
    if ss == [] then []
    else (if ss[0].Node? && ss[0].level == d then [ss[0]] else []) + NodesAt(ss[1..], d)
  }

  /** The edge statements at nesting level `d`, in order. */
  function EdgesAt(ss: seq<Stmt>, d: nat): seq<Stmt>
  {
    if ss == [] then []
    else (if ss[0].Edge? && ss[0].level == d then [ss[0]] else []) + EdgesAt(ss[1..], d)
  }

  /** Every statement is at level `d` or deeper. */
  predicate Deeper(ss: seq<Stmt>, d: nat)
  {
    forall i :: 0 <= i < |ss| ==> ss[i].level >= d
  }

  /** One edge from `commitHash` per entry, in entry order. */
  function EdgesOf(commitHash: string, es: seq<Entry>, d: nat): (r: seq<Stmt>)
    ensures |r| == |es|
  {
    if es == [] then [] else [EntryEdge(commitHash, es[0], d)] + EdgesOf(commitHash, es[1..], d)
  }

  /** The node of each `tree` entry at level `d`, in entry order. */
  function Subtrees(es: seq<Entry>, d: nat): seq<Stmt>
  {
    if es == [] then []
    else (if es[0].mode == "tree" then [Node(d, es[0].hash)] else []) + Subtrees(es[1..], d)
  }

  /** No entry is of mode `tree`. */
  predicate NoTrees(es: seq<Entry>)
  {
    forall k :: 0 <= k < |es| ==> es[k].mode != "tree"
  }

  lemma {:induction false} NodesAtConcat(a: seq<Stmt>, b: seq<Stmt>, d: nat)
    ensures NodesAt(a + b, d) == NodesAt(a, d) + NodesAt(b, d)
  {
    if a == [] {
      assert a + b == b;
    } else {
      assert (a + b)[1..] == a[1..] + b;
      NodesAtConcat(a[1..], b, d);
    }
  }

  lemma {:induction false} EdgesAtConcat(a: seq<Stmt>, b: seq<Stmt>, d: nat)
    ensures EdgesAt(a + b, d) == EdgesAt(a, d) + EdgesAt(b, d)
  {
    if a == [] {
      assert a + b == b;
    } else {
      assert (a + b)[1..] == a[1..] + b;
      EdgesAtConcat(a[1..], b, d);
    }
  }

  /** Statements strictly deeper than `d` contribute nothing at level `d`. */
  lemma {:induction false} DeeperInvisible(ss: seq<Stmt>, d: nat)
    requires Deeper(ss, d + 1)
    ensures NodesAt(ss, d) == [] && EdgesAt(ss, d) == []
  {
    if ss != [] {
      DeeperInvisible(ss[1..], d);
    }
  }

  /** An edge at level `d` is the one edge and no node there, and nothing a level deeper. */
  lemma EdgeLevels(edge: Stmt, d: nat)
    requires edge.Edge? && edge.level == d
    ensures NodesAt([edge], d) == [] && EdgesAt([edge], d) == [edge] && NodesAt([edge], d + 1) == []
  {
  }

  lemma DeeperConcat(a: seq<Stmt>, b: seq<Stmt>, d: nat)
    requires Deeper(a, d) && Deeper(b, d)
    ensures Deeper(a + b, d)
  {
    forall i | 0 <= i < |a + b|
      ensures (a + b)[i].level >= d
    {
      if i >= |a| {
        assert (a + b)[i] == b[i - |a|];
      }
    }
  }

  /**
   * One step of the entry loop level by level: an edge at level `d`, a
   * subgraph strictly below it, and the rest of the loop's statements.
   */
  lemma StepShape(edge: Stmt, stmts: seq<Stmt>, rest: seq<Stmt>, d: nat)
    requires edge.Edge? && edge.level == d
    requires Deeper(stmts, d + 1) && Deeper(rest, d) && NodesAt(rest, d) == []
    ensures var cs := [edge] + stmts + rest;
            Deeper(cs, d) && NodesAt(cs, d) == [] &&
            EdgesAt(cs, d) == [edge] + EdgesAt(rest, d) &&
            NodesAt(cs, d + 1) == NodesAt(stmts, d + 1) + NodesAt(rest, d + 1)
  {
    var head := [edge] + stmts;
    EdgeLevels(edge, d);
    DeeperInvisible(stmts, d);
    NodesAtConcat(head, rest, d);
    NodesAtConcat([edge], stmts, d);
    NodesAtConcat(head, rest, d + 1);
    NodesAtConcat([edge], stmts, d + 1);
    EdgesAtConcat(head, rest, d);
    EdgesAtConcat([edge], stmts, d);
    assert Deeper([edge], d);
    assert Deeper(stmts, d);
    DeeperConcat([edge], stmts, d);
    DeeperConcat(head, rest, d);
  }

  /**
   * The graph of `commitHash` at depth `d` opens with that commit's node,
   * nests nothing above level `d`, holds exactly one node at level `d`, one
   * edge per tree entry at level `d` in entry order, and at level `d + 1`
   * exactly the nodes of the `tree` entries: recursion happens for those
   * entries and no others.
   */
  lemma {:induction false} GraphShape(repo: Repo, commitHash: string, d: nat, fuel: nat)
    requires Graph(repo, commitHash, d, fuel).Ok?
    ensures CommitTree(repo, commitHash).Ok?
    ensures TreeEntries(repo, CommitTree(repo, commitHash).value).Ok?
    ensures var ss := Graph(repo, commitHash, d, fuel).value;
            var es := TreeEntries(repo, CommitTree(repo, commitHash).value).value;
            |ss| > 0 && ss[0] == Node(d, commitHash) && Deeper(ss, d) &&
            NodesAt(ss, d) == [Node(d, commitHash)] &&
            EdgesAt(ss, d) == EdgesOf(commitHash, es, d) &&
            NodesAt(ss, d + 1) == Subtrees(es, d + 1)
    decreases fuel, 0
  {
    var tree := CommitTree(repo, commitHash);
    assert tree.Ok? && TreeEntries(repo, tree.value).Ok?;
    var es := TreeEntries(repo, tree.value).value;
    var node := Node(d, commitHash);
    var cs := Children(repo, commitHash, es, d, fuel - 1).value;
    assert Graph(repo, commitHash, d, fuel).value == [node] + cs;
    ChildrenShape(repo, commitHash, es, d, fuel - 1);
    NodeShape(node, cs, d);
  }

  /** A node at level `d` in front of the entry loop's statements, level by level. */
  lemma NodeShape(node: Stmt, cs: seq<Stmt>, d: nat)
    requires node.Node? && node.level == d
    requires Deeper(cs, d) && NodesAt(cs, d) == []
    ensures var ss := [node] + cs;
            Deeper(ss, d) && NodesAt(ss, d) == [node] && EdgesAt(ss, d) == EdgesAt(cs, d) &&
            NodesAt(ss, d + 1) == NodesAt(cs, d + 1)
  {
    NodesAtConcat([node], cs, d);
    NodesAtConcat([node], cs, d + 1);
    EdgesAtConcat([node], cs, d);
    assert Deeper([node], d);
    DeeperConcat([node], cs, d);
  }

  /** The entry loop's statements: the level-`d` edges, and the subgraphs of the `tree` entries. */
  lemma {:induction false} ChildrenShape(repo: Repo, commitHash: string, es: seq<Entry>, d: nat, fuel: nat)
    requires Children(repo, commitHash, es, d, fuel).Ok?
    ensures var cs := Children(repo, commitHash, es, d, fuel).value;
            Deeper(cs, d) && NodesAt(cs, d) == [] &&
            EdgesAt(cs, d) == EdgesOf(commitHash, es, d) &&
            NodesAt(cs, d + 1) == Subtrees(es, d + 1)
    decreases fuel, 2, |es|
  {
    if es != [] {
      var e := es[0];
      var edge := EntryEdge(commitHash, e, d);
      var rest := Children(repo, commitHash, es[1..], d, fuel).value;
      ChildrenShape(repo, commitHash, es[1..], d, fuel);
      var stmts: seq<Stmt> := if e.mode == "tree" then Graph(repo, e.hash, d + 1, fuel).value else [];
      if e.mode == "tree" {
        GraphShape(repo, e.hash, d + 1, fuel);
      } else {
        assert [edge] + [] == [edge];
      }
      assert EntryStmts(repo, commitHash, e, d, fuel).value == [edge] + stmts;
      assert Children(repo, commitHash, es, d, fuel).value == [edge] + stmts + rest;
      StepShape(edge, stmts, rest, d);
    }
  }

  /** Without `tree` entries the entry loop is exactly one edge per entry. */
  lemma {:induction false} ChildrenFlat(repo: Repo, commitHash: string, es: seq<Entry>, d: nat, fuel: nat)
    requires NoTrees(es)
    ensures Children(repo, commitHash, es, d, fuel) == Ok(EdgesOf(commitHash, es, d))
    decreases |es|
  {
    if es != [] {
      ChildrenFlat(repo, commitHash, es[1..], d, fuel);
      assert [EntryEdge(commitHash, es[0], d)] + [] == [EntryEdge(commitHash, es[0], d)];
    }
  }

  /**
   * A commit whose tree has no `tree` entries gives its node and then one
   * edge per entry: 1 + N statements, whatever fuel is left.
   */
  lemma GraphFlat(repo: Repo, commitHash: string, d: nat, fuel: nat)
    requires fuel > 0
    requires CommitTree(repo, commitHash).Ok?
    requires TreeEntries(repo, CommitTree(repo, commitHash).value).Ok?
    requires NoTrees(TreeEntries(repo, CommitTree(repo, commitHash).value).value)
    ensures var es := TreeEntries(repo, CommitTree(repo, commitHash).value).value;
            Graph(repo, commitHash, d, fuel) == Ok([Node(d, commitHash)] + EdgesOf(commitHash, es, d)) &&
            |Graph(repo, commitHash, d, fuel).value| == 1 + |es|
  {
    var es := TreeEntries(repo, CommitTree(repo, commitHash).value).value;
    ChildrenFlat(repo, commitHash, es, d, fuel - 1);
  }

  /** The outcome did not hit the recursion bound. */
  predicate Settled<T>(r: Result<T>)
  {
    r.Ok? || r.error != RecursionLimit
  }

  /**
   * More fuel never changes an outcome that did not hit the bound, so a
   * fuelled result that is a graph or an ordinary error is the one the
   * unbounded recursion produces.
   */
  lemma {:induction false} GraphFuel(repo: Repo, commitHash: string, d: nat, fuel: nat, more: nat)
    requires Settled(Graph(repo, commitHash, d, fuel))
    requires more >= fuel
    ensures Graph(repo, commitHash, d, more) == Graph(repo, commitHash, d, fuel)
    decreases fuel, 0
  {
    var tree := CommitTree(repo, commitHash);
    if tree.Ok? && TreeEntries(repo, tree.value).Ok? {
      ChildrenFuel(repo, commitHash, TreeEntries(repo, tree.value).value, d, fuel - 1, more - 1);
    }
  }

  lemma {:induction false} ChildrenFuel(repo: Repo, commitHash: string, es: seq<Entry>, d: nat, fuel: nat, more: nat)
    requires Settled(Children(repo, commitHash, es, d, fuel))
    requires more >= fuel
    ensures Children(repo, commitHash, es, d, more) == Children(repo, commitHash, es, d, fuel)
    decreases fuel, 2, |es|
  {
    if es != [] {
      var e := es[0];
      assert Settled(EntryStmts(repo, commitHash, e, d, fuel));
      if e.mode == "tree" {
        GraphFuel(repo, e.hash, d + 1, fuel, more);
      }
      if EntryStmts(repo, commitHash, e, d, fuel).Ok? {
        ChildrenFuel(repo, commitHash, es[1..], d, fuel, more);
      }
    }
  }

  /** The entries of a listing come from single lines, so none of their fields holds a line break. */
  lemma EntriesSingleLine(repo: Repo, treeHash: string)
    requires TreeEntries(repo, treeHash).Ok?
    ensures var es := TreeEntries(repo, treeHash).value;
            forall k :: 0 <= k < |es| ==> '\n' !in es[k].mode && '\n' !in es[k].hash && '\n' !in es[k].name
  {
    var lines := Split(repo.objects[ObjectPath(treeHash)], '\n');
    ParseListingSingleLine(lines);
  }

  /** Every statement of a graph is a single line when the starting id is. */
  lemma {:induction false} GraphSingleLine(repo: Repo, commitHash: string, d: nat, fuel: nat)
    requires '\n' !in commitHash
    requires Graph(repo, commitHash, d, fuel).Ok?
    ensures var ss := Graph(repo, commitHash, d, fuel).value;
            forall i :: 0 <= i < |ss| ==> SingleLine(ss[i])
    decreases fuel, 0
  {
    var tree := CommitTree(repo, commitHash);
    assert tree.Ok? && TreeEntries(repo, tree.value).Ok?;
    var es := TreeEntries(repo, tree.value).value;
    var cs := Children(repo, commitHash, es, d, fuel - 1).value;
    assert Graph(repo, commitHash, d, fuel).value == [Node(d, commitHash)] + cs;
    EntriesSingleLine(repo, tree.value);
    ChildrenSingleLine(repo, commitHash, es, d, fuel - 1);
  }

  lemma {:induction false} ChildrenSingleLine(repo: Repo, commitHash: string, es: seq<Entry>, d: nat, fuel: nat)
    requires '\n' !in commitHash
    requires forall k :: 0 <= k < |es| ==> '\n' !in es[k].hash && '\n' !in es[k].name
    requires Children(repo, commitHash, es, d, fuel).Ok?
    ensures var cs := Children(repo, commitHash, es, d, fuel).value;
            forall i :: 0 <= i < |cs| ==> SingleLine(cs[i])
    decreases fuel, 2, |es|
  {
    if es != [] {
      var e := es[0];
      if e.mode == "tree" {
        GraphSingleLine(repo, e.hash, d + 1, fuel);
      }
      ChildrenSingleLine(repo, commitHash, es[1..], d, fuel);
    }
  }

  /**
   * The file `main` writes is the line `graph git {`, one line per
   * statement of the latest commit's graph in order (the first being that
   * commit's node at depth 0), the closing `}`, and nothing after the
   * final line break.
   */
  lemma GraphFileLines(repo: Repo, fuel: nat)
    requires LatestCommitHash(repo).Ok? && '\n' !in LatestCommitHash(repo).value
    requires GraphFile(repo, fuel).Ok?
    ensures var head := LatestCommitHash(repo).value;
            Graph(repo, head, 0, fuel).Ok? &&
            var ss := Graph(repo, head, 0, fuel).value;
            Split(GraphFile(repo, fuel).value, '\n') == [OpenLine] + (Lines(ss) + [CloseLine, ""]) &&
            |ss| > 0 && Lines(ss)[0] == Line(Node(0, head))
  {
    var head := LatestCommitHash(repo).value;
    GraphSingleLine(repo, head, 0, fuel);
    GraphShape(repo, head, 0, fuel);
    EnvelopeLines(Graph(repo, head, 0, fuel).value);
  }
}
