/**
 * The Mermaid dependency diagrams: node identifiers, the priority order and
 * node cap of the TypeScript diagram, label shortening, the two diagram
 * builders, the dotted module name of a Python file, and the filters that
 * decide which TypeScript imports become edges.
 *
 * Python sets are modelled twice over: the builders of the graph return
 * Dafny `set`s, and the diagram builders take a `seq` without repeats whose
 * order is the set's (unspecified) iteration order.
 */
module Diagram {
  import opened Wrappers
  import opened Strings
  import opened Seqs
  import opened Ordering

  // ---------------------------------------------------------------------------
  // Node identifiers
  // ---------------------------------------------------------------------------

  /** The characters `[A-Za-z0-9_]` a Mermaid identifier may use. */
  predicate IsIdChar(c: char)
  {
    ('a' <= c <= 'z') || ('A' <= c <= 'Z') || ('0' <= c <= '9') || c == '_'
  }

  const MaxIdLength: nat := 60

  /** `re.sub(r"[^a-zA-Z0-9_]", "_", name)`: every other character becomes `_`. */
  function Sanitize(name: string): (r: string)
    ensures |r| == |name|
    ensures forall i :: 0 <= i < |name| ==> r[i] == if IsIdChar(name[i]) then name[i] else '_'
  {
    if name == [] then []
    else [if IsIdChar(name[0]) then name[0] else '_'] + Sanitize(name[1..])
  }

  /**
   * `node_id`: an identifier of at most 60 safe characters that keeps every
   * safe character of the name in place.
   */
  function NodeId(name: string): (r: string)
    ensures |r| == if |name| <= MaxIdLength then |name| else MaxIdLength
    ensures forall i :: 0 <= i < |r| ==> IsIdChar(r[i])
    ensures forall i :: 0 <= i < |r| && IsIdChar(name[i]) ==> r[i] == name[i]
  {
    var safe := Sanitize(name);
    if |safe| <= MaxIdLength then safe else safe[..MaxIdLength]
  }

  /** An identifier is its own identifier. */
  lemma NodeIdIdempotent(name: string)
    ensures NodeId(NodeId(name)) == NodeId(name)
  {
    var id := NodeId(name);
    assert Sanitize(id) == id;
  }

  /** Different names can share an identifier: `a-b` and `a.b` are both drawn as `a_b`. */
  lemma NodeIdCollides()
    ensures NodeId("a-b") == NodeId("a.b") == "a_b"
  {
    assert Sanitize("a-b") == "a_b";
    assert Sanitize("a.b") == "a_b";
  }

  // ---------------------------------------------------------------------------
  // Priority order and the node cap of the TypeScript diagram
  // ---------------------------------------------------------------------------

  /** `priority_score`: lower is drawn first. */
  function PriorityScore(path: string): int
  {
    if StartsWith(path, "app/") then 0
    else if StartsWith(path, "lib/") then 1
    else if StartsWith(path, "src/") then 2
    else if StartsWith(path, "components/") then 3
    else 10
  }

  lemma StartsWithHead(s: string, prefix: string)
    requires prefix != [] && StartsWith(s, prefix)
    ensures s != [] && s[0] == prefix[0]
  {
    assert s[..|prefix|][0] == s[0];
  }

  /**
   * The four folder prefixes exclude one another, so each score names its
   * folder outright, whatever the order of the tests.
   */
  lemma PriorityScoreSpec(path: string)
    ensures PriorityScore(path) == 0 <==> StartsWith(path, "app/")
    ensures PriorityScore(path) == 1 <==> StartsWith(path, "lib/")
    ensures PriorityScore(path) == 2 <==> StartsWith(path, "src/")
    ensures PriorityScore(path) == 3 <==> StartsWith(path, "components/")
    ensures PriorityScore(path) == 10 <==>
              !StartsWith(path, "app/") && !StartsWith(path, "lib/")
              && !StartsWith(path, "src/") && !StartsWith(path, "components/")
  {
    if StartsWith(path, "app/") { StartsWithHead(path, "app/"); }
    if StartsWith(path, "lib/") { StartsWithHead(path, "lib/"); }
    if StartsWith(path, "src/") { StartsWithHead(path, "src/"); }
    if StartsWith(path, "components/") { StartsWithHead(path, "components/"); }
  }

  /** `key=lambda n: (priority_score(n), n)`: by score, then by name. */
  predicate NodeLe(a: string, b: string)
  {
    if PriorityScore(a) != PriorityScore(b) then PriorityScore(a) < PriorityScore(b)
    else StrLe(a, b)
  }

  lemma NodeLeIsTotalOrder()
    ensures TotalPreorder(NodeLe) && Antisymmetric(NodeLe)
  {
    StrLeIsTotalOrder();
  }

  /** Sorting by priority keeps the nodes, each once, in priority order. */
  lemma NodeSort(nodes: seq<string>)
    requires NoDup(nodes)
    ensures SortedBy(SortBy(nodes, NodeLe), NodeLe) && NoDup(SortBy(nodes, NodeLe))
    ensures forall n :: n in SortBy(nodes, NodeLe) <==> n in nodes
  {
    assert SortedBy(SortBy(nodes, NodeLe), NodeLe) by {
      NodeLeIsTotalOrder();
      SortBySorted(nodes, NodeLe);
    }
    SortByElements(nodes, NodeLe);
    PermutationKeepsNoDup(nodes, SortBy(nodes, NodeLe));
  }

  /** Two distinct nodes are never tied in the priority order. */
  lemma NodeLeStrict(a: string, b: string)
    requires a != b && NodeLe(a, b)
    ensures !NodeLe(b, a)
  {
    assert Antisymmetric(NodeLe) by {
      NodeLeIsTotalOrder();
    }
  }

  /** Python's `s[:k]`: a negative `k` drops that many elements from the end. */
  function PyTake<T>(s: seq<T>, k: int): (r: seq<T>)
    ensures 0 <= k ==> |r| == if k < |s| then k else |s|
    ensures k < 0 ==> |r| == if |s| + k < 0 then 0 else |s| + k
    ensures r == s[..|r|]
  {
    if 0 <= k then (if k < |s| then s[..k] else s)
    else if |s| + k <= 0 then []
    else s[..|s| + k]
  }

  /** `set(sorted_nodes[:max_nodes])`, in sorted order. */
  function KeptNodes(nodes: seq<string>, maxNodes: int): seq<string>
  {
    PyTake(SortBy(nodes, NodeLe), maxNodes)
  }

  /**
   * The cap keeps `min(max_nodes, |nodes|)` distinct nodes, all from the
   * input, and every kept node precedes every dropped one in the priority
   * order.
   */
  lemma KeptNodesSpec(nodes: seq<string>, maxNodes: int)
    requires NoDup(nodes)
    ensures NoDup(KeptNodes(nodes, maxNodes))
    ensures 0 <= maxNodes ==>
              |KeptNodes(nodes, maxNodes)| == if maxNodes < |nodes| then maxNodes else |nodes|
    ensures forall n :: n in KeptNodes(nodes, maxNodes) ==> n in nodes
    ensures forall a, b :: a in KeptNodes(nodes, maxNodes) && b in nodes && b !in KeptNodes(nodes, maxNodes)
              ==> NodeLe(a, b) && !NodeLe(b, a)
  {
    var sorted := SortBy(nodes, NodeLe);
    NodeSort(nodes);
    var kept := KeptNodes(nodes, maxNodes);
    assert kept == sorted[..|kept|];
    forall a, b | a in kept && b in nodes && b !in kept ensures NodeLe(a, b) && !NodeLe(b, a) {
      var i :| 0 <= i < |kept| && kept[i] == a;
      var j :| 0 <= j < |sorted| && sorted[j] == b;
      assert j >= |kept|;
      assert a == sorted[i] && i < j;
      NodeLeStrict(a, b);
    }
  }

  /** With the default cap of 40, a graph of at most 40 nodes is drawn whole. */
  lemma SmallGraphKeepsAll(nodes: seq<string>)
    requires NoDup(nodes) && |nodes| <= 40
    ensures forall n :: n in KeptNodes(nodes, 40) <==> n in nodes
  {
    SortByElements(nodes, NodeLe);
  }

  // ---------------------------------------------------------------------------
  // Diagram text
  // ---------------------------------------------------------------------------

  const MermaidOpen := "```mermaid"
  const GraphHeader := "graph TD"
  const MermaidClose := "```"

  /** The display name: one over 40 characters becomes `...` and its last 37. */
  function Label(name: string): (r: string)
    ensures |r| <= 40
    ensures |name| <= 40 ==> r == name
    ensures |name| > 40 ==> |r| == 40 && StartsWith(r, "...") && EndsWith(name, r[3..])
  {
    if |name| > 40 then "..." + name[|name| - 37..] else name
  }

  function NodeLine(id: string, display: string): string
  {
    "  " + id + "[\"" + display + "\"]"
  }

  function EdgeLine(a: string, b: string): string
  {
    "  " + NodeId(a) + " --> " + NodeId(b)
  }

  /** A node line of the TypeScript diagram: the label shortened. */
  function TsNodeLine(n: string): string
  {
    NodeLine(NodeId(n), Label(n))
  }

  /** A node line of the Python diagram: the name as it is. */
  function PyNodeLine(n: string): string
  {
    NodeLine(NodeId(n), n)
  }

  function ArrowLine(e: (string, string)): string
  {
    EdgeLine(e.0, e.1)
  }

  // ---------------------------------------------------------------------------
  // The TypeScript diagram
  // ---------------------------------------------------------------------------

  /** `{(a, b) for a, b in edges if a in keep and b in keep}`. */
  function EdgesWithin(edges: seq<(string, string)>, keep: seq<string>): (r: seq<(string, string)>)
    ensures forall e :: e in r <==> e in edges && e.0 in keep && e.1 in keep
    ensures NoDup(edges) ==> NoDup(r)
  {
    if edges == [] then []
    else
      var init, e := edges[..|edges| - 1], edges[|edges| - 1];
      assert edges == init + [e];
      var r := EdgesWithin(init, keep);
      if e.0 in keep && e.1 in keep then r + [e] else r
  }

  /** The kept nodes, by name. */
  function ShownNodes(nodes: seq<string>, maxNodes: int): seq<string>
  {
    SortBy(KeptNodes(nodes, maxNodes), StrLe)
  }

  /** The edges between kept nodes, in sorted order. */
  function DrawnTsEdges(nodes: seq<string>, edges: seq<(string, string)>, maxNodes: int): seq<(string, string)>
  {
    SortBy(EdgesWithin(edges, KeptNodes(nodes, maxNodes)), PairLe)
  }

  /** A Mermaid block: the fence and header, the node lines, the arrow lines, the closing fence. */
  function MermaidLines(nodeLines: seq<string>, arrowLines: seq<string>): seq<string>
  {
    [MermaidOpen, GraphHeader] + nodeLines + arrowLines + [MermaidClose]
  }

  /** Where each part of a Mermaid block sits. */
  lemma MermaidLinesLayout(nodeLines: seq<string>, arrowLines: seq<string>)
    ensures |MermaidLines(nodeLines, arrowLines)| == 3 + |nodeLines| + |arrowLines|
    ensures MermaidLines(nodeLines, arrowLines)[0] == MermaidOpen
    ensures MermaidLines(nodeLines, arrowLines)[1] == GraphHeader
    ensures MermaidLines(nodeLines, arrowLines)[|MermaidLines(nodeLines, arrowLines)| - 1] == MermaidClose
    ensures forall i :: 0 <= i < |nodeLines| ==> MermaidLines(nodeLines, arrowLines)[2 + i] == nodeLines[i]
    ensures forall j :: 0 <= j < |arrowLines| ==>
              MermaidLines(nodeLines, arrowLines)[2 + |nodeLines| + j] == arrowLines[j]
  {
    ConcatParts([MermaidOpen, GraphHeader], nodeLines, arrowLines, [MermaidClose]);
  }

  function TsDiagramLines(nodes: seq<string>, edges: seq<(string, string)>, maxNodes: int): seq<string>
  {
    MermaidLines(Map(ShownNodes(nodes, maxNodes), TsNodeLine), Map(DrawnTsEdges(nodes, edges, maxNodes), ArrowLine))
  }

  /** The node loop of `mermaid_from_ts_edges`: a line per node, long names shortened. */
  method AppendTsNodeLines(lines0: seq<string>, shown: seq<string>) returns (lines: seq<string>)
    ensures lines == lines0 + Map(shown, TsNodeLine)
  {
    lines := lines0;
    for i := 0 to |shown|
      invariant lines == lines0 + Map(shown[..i], TsNodeLine)
    {
      var display := shown[i];
      if |display| > 40 {
        display := "..." + display[|display| - 37..];
      }
      assert display == Label(shown[i]);
      var line := NodeLine(NodeId(shown[i]), display);
      assert line == TsNodeLine(shown[i]);
      MapSnoc(shown, TsNodeLine, i);
      ConcatAssoc(lines0, Map(shown[..i], TsNodeLine), [line]);
      lines := lines + [line];
    }
    assert shown[..|shown|] == shown;
  }

  /** The edge loop of `mermaid_from_ts_edges`: an arrow for each edge whose ends are kept. */
  method AppendTsArrows(lines0: seq<string>, drawn: seq<(string, string)>, keep: seq<string>)
    returns (lines: seq<string>)
    requires forall e :: e in drawn ==> e.0 in keep && e.1 in keep
    ensures lines == lines0 + Map(drawn, ArrowLine)
  {
    lines := lines0;
    for j := 0 to |drawn|
      invariant lines == lines0 + Map(drawn[..j], ArrowLine)
    {
      var (a, b) := drawn[j];
      MapSnoc(drawn, ArrowLine, j);
      if a in keep && b in keep {
        lines := lines + [EdgeLine(a, b)];
      }
    }
    assert drawn[..|drawn|] == drawn;
  }

  /** `mermaid_from_ts_edges`. */
  method MermaidFromTsEdges(nodes: seq<string>, edges: seq<(string, string)>, maxNodes: int)
    returns (out: string)
    ensures out == Join("\n", TsDiagramLines(nodes, edges, maxNodes))
  {
    var priorityNodes := KeptNodes(nodes, maxNodes);
    var filtered := EdgesWithin(edges, priorityNodes);
    var lines := [MermaidOpen, GraphHeader];
    var shown := SortBy(priorityNodes, StrLe);
    lines := AppendTsNodeLines(lines, shown);
    var drawn := SortBy(filtered, PairLe);
    SortByElements(filtered, PairLe);
    lines := AppendTsArrows(lines, drawn, priorityNodes);
    lines := lines + [MermaidClose];
    out := Join("\n", lines);
  }

  /** The TypeScript diagram shows the kept nodes, each once, in name order. */
  lemma TsDiagramNodes(nodes: seq<string>, maxNodes: int)
    requires NoDup(nodes)
    ensures SortedBy(ShownNodes(nodes, maxNodes), StrLe) && NoDup(ShownNodes(nodes, maxNodes))
    ensures forall n :: n in ShownNodes(nodes, maxNodes) <==> n in KeptNodes(nodes, maxNodes)
  {
    var kept := KeptNodes(nodes, maxNodes);
    KeptNodesSpec(nodes, maxNodes);
    StrSort(kept);
    PermutationKeepsNoDup(kept, SortBy(kept, StrLe));
  }

  /**
   * The TypeScript diagram draws exactly the input edges whose both ends were
   * kept, each once, in sorted order.
   */
  lemma TsDiagramEdges(nodes: seq<string>, edges: seq<(string, string)>, maxNodes: int)
    requires NoDup(edges)
    ensures SortedBy(DrawnTsEdges(nodes, edges, maxNodes), PairLe) && NoDup(DrawnTsEdges(nodes, edges, maxNodes))
    ensures forall e :: e in DrawnTsEdges(nodes, edges, maxNodes) <==>
              e in edges && e.0 in KeptNodes(nodes, maxNodes) && e.1 in KeptNodes(nodes, maxNodes)
  {
    var within := EdgesWithin(edges, KeptNodes(nodes, maxNodes));
    PairSort(within);
    PermutationKeepsNoDup(within, SortBy(within, PairLe));
  }

  // ---------------------------------------------------------------------------
  // The Python diagram
  // ---------------------------------------------------------------------------

  /** Node `n` stands for the imported module `b`: it is `b` or a module inside it. */
  predicate Matches(n: string, b: string)
  {
    StartsWith(n, b + ".") || n == b
  }

  /** The first node, in iteration order, that stands for `b`. */
  function FirstMatch(nodes: seq<string>, b: string): (r: Option<string>)
    ensures r.Some? ==> r.value in nodes && Matches(r.value, b)
    ensures r.None? <==> forall i :: 0 <= i < |nodes| ==> !Matches(nodes[i], b)
  {
    if nodes == [] then None
    else if Matches(nodes[0], b) then Some(nodes[0])
    else
      var r := FirstMatch(nodes[1..], b);
      assert forall i :: 1 <= i < |nodes| ==> nodes[i] == nodes[1..][i - 1];
      r
  }

  /** The arrow drawn for one import `e`: none, or its source and the node found for its target. */
  function ArrowFor(e: (string, string), nodes: seq<string>): seq<(string, string)>
  {
    match FirstMatch(nodes, e.1)
    case Some(t) => if t != "" && e.0 in nodes && t in nodes then [(e.0, t)] else []
    case None => []
  }

  /** The arrows drawn for `edges`, in their order. */
  function DrawnEdges(edges: seq<(string, string)>, nodes: seq<string>): seq<(string, string)>
  {
    if edges == [] then []
    else DrawnEdges(edges[..|edges| - 1], nodes) + ArrowFor(edges[|edges| - 1], nodes)
  }

  lemma DrawnEdgesSnoc(edges: seq<(string, string)>, nodes: seq<string>, j: nat)
    requires j < |edges|
    ensures DrawnEdges(edges[..j + 1], nodes) == DrawnEdges(edges[..j], nodes) + ArrowFor(edges[j], nodes)
  {
    assert edges[..j + 1][..j] == edges[..j];
  }

  function PyDiagramLines(nodes: seq<string>, edges: seq<(string, string)>): seq<string>
  {
    MermaidLines(Map(SortBy(nodes, StrLe), PyNodeLine), Map(DrawnEdges(SortBy(edges, PairLe), nodes), ArrowLine))
  }

  /** The node loop of `mermaid_from_edges`: a line per node, names as they are. */
  method AppendPyNodeLines(lines0: seq<string>, sortedNodes: seq<string>) returns (lines: seq<string>)
    ensures lines == lines0 + Map(sortedNodes, PyNodeLine)
  {
    lines := lines0;
    for i := 0 to |sortedNodes|
      invariant lines == lines0 + Map(sortedNodes[..i], PyNodeLine)
    {
      MapSnoc(sortedNodes, PyNodeLine, i);
      lines := lines + [NodeLine(NodeId(sortedNodes[i]), sortedNodes[i])];
    }
    assert sortedNodes[..|sortedNodes|] == sortedNodes;
  }

  /** The search of `mermaid_from_edges` for the first node standing for `b`. */
  method FindTarget(nodes: seq<string>, b: string) returns (target: Option<string>)
    ensures target == FirstMatch(nodes, b)
  {
    target := None;
    var k := 0;
    while k < |nodes|
      invariant 0 <= k <= |nodes| && target == None
      invariant FirstMatch(nodes, b) == FirstMatch(nodes[k..], b)
      decreases |nodes| - k
    {
      if Matches(nodes[k], b) {
        target := Some(nodes[k]);
        break;
      }
      assert nodes[k..][1..] == nodes[k + 1..];
      k := k + 1;
    }
  }

  /** One pass of the edge loop of `mermaid_from_edges`: search for the target, then draw. */
  method AppendArrowFor(lines0: seq<string>, e: (string, string), nodes: seq<string>)
    returns (lines: seq<string>)
    ensures lines == lines0 + Map(ArrowFor(e, nodes), ArrowLine)
  {
    var (a, b) := e;
    var target := FindTarget(nodes, b);
    lines := lines0;
    if target.Some? && target.value != "" && a in nodes && target.value in nodes {
      lines := lines + [EdgeLine(a, target.value)];
    }
  }

  /** The edge loop of `mermaid_from_edges`. */
  method AppendPyArrows(lines0: seq<string>, sortedEdges: seq<(string, string)>, nodes: seq<string>)
    returns (lines: seq<string>)
    ensures lines == lines0 + Map(DrawnEdges(sortedEdges, nodes), ArrowLine)
  {
    lines := lines0;
    for j := 0 to |sortedEdges|
      invariant lines == lines0 + Map(DrawnEdges(sortedEdges[..j], nodes), ArrowLine)
    {
      ghost var before := Map(DrawnEdges(sortedEdges[..j], nodes), ArrowLine);
      ghost var step := Map(ArrowFor(sortedEdges[j], nodes), ArrowLine);
      DrawnEdgesSnoc(sortedEdges, nodes, j);
      MapAppend(DrawnEdges(sortedEdges[..j], nodes), ArrowFor(sortedEdges[j], nodes), ArrowLine);
      lines := AppendArrowFor(lines, sortedEdges[j], nodes);
      ConcatAssoc(lines0, before, step);
    }
    assert sortedEdges[..|sortedEdges|] == sortedEdges;
  }

  /** `mermaid_from_edges`. */
  method MermaidFromEdges(nodes: seq<string>, edges: seq<(string, string)>) returns (out: string)
    ensures out == Join("\n", PyDiagramLines(nodes, edges))
  {
    var lines := [MermaidOpen, GraphHeader];
    var sortedNodes := SortBy(nodes, StrLe);
    lines := AppendPyNodeLines(lines, sortedNodes);
    var sortedEdges := SortBy(edges, PairLe);
    lines := AppendPyArrows(lines, sortedEdges, nodes);
    lines := lines + [MermaidClose];
    out := Join("\n", lines);
  }

  /**
   * Every arrow of the Python diagram joins two nodes, comes from an import
   * `(a, b)` of the input and points at a node that stands for `b`.
   */
  lemma {:induction false} DrawnEdgesSound(edges: seq<(string, string)>, nodes: seq<string>)
    ensures |DrawnEdges(edges, nodes)| <= |edges|
    ensures forall k :: 0 <= k < |DrawnEdges(edges, nodes)| ==>
              && DrawnEdges(edges, nodes)[k].0 in nodes
              && DrawnEdges(edges, nodes)[k].1 in nodes
              && exists i :: 0 <= i < |edges| && edges[i].0 == DrawnEdges(edges, nodes)[k].0
                                               && Matches(DrawnEdges(edges, nodes)[k].1, edges[i].1)
  {
    if edges != [] {
      var init := edges[..|edges| - 1];
      DrawnEdgesSound(init, nodes);
      assert forall i :: 0 <= i < |init| ==> init[i] == edges[i];
    }
  }

  /**
   * Every import `(a, b)` whose source is a node and whose non-empty target
   * names some node gets an arrow from `a` to a node standing for `b`.
   */
  lemma {:induction false} DrawnEdgesComplete(edges: seq<(string, string)>, nodes: seq<string>, i: nat)
    requires i < |edges| && edges[i].0 in nodes && edges[i].1 != ""
    requires exists n :: n in nodes && Matches(n, edges[i].1)
    ensures exists k :: 0 <= k < |DrawnEdges(edges, nodes)|
              && DrawnEdges(edges, nodes)[k].0 == edges[i].0
              && Matches(DrawnEdges(edges, nodes)[k].1, edges[i].1)
  {
    var init := edges[..|edges| - 1];
    var rest := DrawnEdges(init, nodes);
    if i < |edges| - 1 {
      assert init[i] == edges[i];
      DrawnEdgesComplete(init, nodes, i);
      var k :| 0 <= k < |rest| && rest[k].0 == edges[i].0 && Matches(rest[k].1, edges[i].1);
      assert DrawnEdges(edges, nodes)[k] == rest[k];
    } else {
      var e := edges[i];
      var n :| n in nodes && Matches(n, e.1);
      var t := FirstMatch(nodes, e.1).value;
      assert t != "" by {
        assert StartsWith(t, e.1 + ".") || t == e.1;
      }
      assert DrawnEdges(edges, nodes) == rest + [(e.0, t)];
      assert DrawnEdges(edges, nodes)[|rest|] == (e.0, t);
    }
  }

  // ---------------------------------------------------------------------------
  // Module names of Python files
  // ---------------------------------------------------------------------------

  /**
   * `rel_module_from_path` on the path already made relative: separators
   * become dots and a trailing `.py` is dropped.
   */
  function RelModuleFromPath(rel: string): (m: string)
    ensures '/' !in m && '\\' !in m
    ensures |m| == if EndsWith(NormSlashes(rel), ".py") then |rel| - 3 else |rel|
    ensures forall i :: 0 <= i < |m| ==> m[i] == if rel[i] == '/' || rel[i] == '\\' then '.' else rel[i]
  {
    var unix := NormSlashes(rel);
    var stem := if EndsWith(unix, ".py") then unix[..|unix| - 3] else unix;
    ReplaceChar(stem, '/', '.');
    Replace(stem, "/", ".")
  }

  /** Paths that differ only in the kind of separator name the same module. */
  lemma ModuleIgnoresSeparatorKind(a: string, b: string)
    requires |a| == |b|
    requires forall i :: 0 <= i < |a| ==> a[i] == b[i] || (a[i] in "/\\" && b[i] in "/\\")
    ensures RelModuleFromPath(a) == RelModuleFromPath(b)
  {
    assert NormSlashes(a) == NormSlashes(b);
  }

  // ---------------------------------------------------------------------------
  // The TypeScript dependency graph
  // ---------------------------------------------------------------------------

  /** `parse_ts_imports` keeps a captured path only when it starts with `./` or `../`. */
  predicate IsRelativeImport(p: string)
  {
    StartsWith(p, "./") || StartsWith(p, "../")
  }

  /** A resolved target is kept only when it is non-empty and does not climb out with `..`. */
  predicate IsInternal(target: string)
  {
    target != "" && !StartsWith(target, "..")
  }

  /**
   * A collected TypeScript file: its path relative to the repository and the
   * paths its import statements name, or `None` when it could not be read.
   */
  datatype TsSource = TsSource(rel: string, imports: Option<seq<string>>)

  function RelativeImports(captured: seq<string>): set<string>
  {
    set p | p in captured && IsRelativeImport(p)
  }

  /** `parse_ts_imports`, the regular expression's captures given. */
  method ParseTsImports(captured: seq<string>) returns (imports: set<string>)
    ensures imports == RelativeImports(captured)
    ensures forall p :: p in imports ==> |p| >= 2 && p[0] == '.'
  {
    imports := {};
    for i := 0 to |captured|
      invariant imports == RelativeImports(captured[..i])
    {
      var path := captured[i];
      TakeSnoc(captured, i);
      if path != "" && (StartsWith(path, "./") || StartsWith(path, "../")) {
        imports := imports + {path};
      }
    }
    assert captured[..|captured|] == captured;
  }

  function Targets(src: string, imports: set<string>, resolve: (string, string) -> string): set<string>
  {
    set p | p in imports && IsInternal(resolve(p, src)) :: resolve(p, src)
  }

  function InternalEdges(src: string, imports: set<string>, resolve: (string, string) -> string)
    : set<(string, string)>
  {
    set p | p in imports && IsInternal(resolve(p, src)) :: (src, resolve(p, src))
  }

  function FileNodes(f: TsSource, resolve: (string, string) -> string): set<string>
  {
    match f.imports
    case None => {}
    case Some(captured) => {f.rel} + Targets(f.rel, RelativeImports(captured), resolve)
  }

  function FileEdges(f: TsSource, resolve: (string, string) -> string): set<(string, string)>
  {
    match f.imports
    case None => {}
    case Some(captured) => InternalEdges(f.rel, RelativeImports(captured), resolve)
  }

  function TsNodes(files: seq<TsSource>, resolve: (string, string) -> string): set<string>
  {
    if files == [] then {}
    else TsNodes(files[..|files| - 1], resolve) + FileNodes(files[|files| - 1], resolve)
  }

  function TsEdges(files: seq<TsSource>, resolve: (string, string) -> string): set<(string, string)>
  {
    if files == [] then {}
    else TsEdges(files[..|files| - 1], resolve) + FileEdges(files[|files| - 1], resolve)
  }

  /** The inner loop of `build_ts_dependency_edges` over one file's imports. */
  method AddFileEdges(src: string, imported: set<string>, resolve: (string, string) -> string,
                      nodes0: set<string>, edges0: set<(string, string)>)
    returns (nodes: set<string>, edges: set<(string, string)>)
    ensures nodes == nodes0 + Targets(src, imported, resolve)
    ensures edges == edges0 + InternalEdges(src, imported, resolve)
  {
    nodes, edges := nodes0, edges0;
    var pending := imported;
    ghost var done: set<string> := {};
    while pending != {}
      invariant pending + done == imported && pending !! done
      invariant nodes == nodes0 + Targets(src, done, resolve)
      invariant edges == edges0 + InternalEdges(src, done, resolve)
      decreases pending
    {
      var imp :| imp in pending;
      var resolved := resolve(imp, src);
      if resolved != "" && !StartsWith(resolved, "..") {
        edges := edges + {(src, resolved)};
        nodes := nodes + {resolved};
      }
      pending := pending - {imp};
      done := done + {imp};
    }
  }

  /** `build_ts_dependency_edges` over the collected files. */
  method BuildTsDependencyEdges(files: seq<TsSource>, resolve: (string, string) -> string)
    returns (nodes: set<string>, edges: set<(string, string)>)
    ensures nodes == TsNodes(files, resolve) && edges == TsEdges(files, resolve)
  {
    nodes, edges := {}, {};
    for k := 0 to |files|
      invariant nodes == TsNodes(files[..k], resolve) && edges == TsEdges(files[..k], resolve)
    {
      TakeSnoc(files, k);
      assert files[..k + 1][..k] == files[..k];
      var f := files[k];
      match f.imports {
        case None =>
        case Some(captured) =>
          nodes := nodes + {f.rel};
          var imported := ParseTsImports(captured);
          nodes, edges := AddFileEdges(f.rel, imported, resolve, nodes, edges);
      }
    }
    assert files[..|files|] == files;
  }

  /**
   * The graph is closed: every edge starts at a readable file, ends at an
   * internal target, and both ends are nodes; every readable file is a node.
   */
  lemma {:induction false} TsGraphClosed(files: seq<TsSource>, resolve: (string, string) -> string)
    ensures forall e :: e in TsEdges(files, resolve) ==>
              e.0 in TsNodes(files, resolve) && e.1 in TsNodes(files, resolve) && IsInternal(e.1)
    ensures forall k :: 0 <= k < |files| && files[k].imports.Some? ==> files[k].rel in TsNodes(files, resolve)
    ensures forall e :: e in TsEdges(files, resolve) ==>
              exists k :: 0 <= k < |files| && files[k].imports.Some? && files[k].rel == e.0
  {
    if files != [] {
      var init := files[..|files| - 1];
      TsGraphClosed(init, resolve);
      assert forall k :: 0 <= k < |init| ==> init[k] == files[k];
    }
  }
}
