/**
  The multi-drawing merge: every drawing file of a directory is built into
  a property graph, and the graphs are merged into one in path order. The
  first drawing's graph is the base; the nodes of every later drawing are
  appended to the collection of their type, each tagged with the file name
  it came from, and its edges are appended as they are.

  Reading a file and building its graph is the `build` parameter.
 */
module Merge {
  import opened Wrappers
  import opened Seqs
  import opened Status
  import StringOrder
  import opened Graph

  /** Builds the graph of the drawing at a path (`GraphBuilder::BuildFromFile`). */
  type Builder = string -> Result<PropertyGraph, Error>

  /** The string property a merged node records its drawing under. */
  const SourceDrawing := "source_drawing"

  /** `std::filesystem::path::filename`: what follows the last '/'. */
  function FileName(path: string): (r: string)
    ensures '/' !in r && |r| <= |path| && r == path[|path| - |r|..]
    ensures |r| == |path| || path[|path| - |r| - 1] == '/'
    decreases |path|
  {
    if path == [] || path[|path| - 1] == '/' then []
    else FileName(path[..|path| - 1]) + [path[|path| - 1]]
  }

  /** A copy of `n` with its source drawing recorded. */
  function Tagged(n: Node, name: string): (t: Node)
    ensures SourceDrawing in t.stringProps && t.stringProps[SourceDrawing] == name
    ensures t.id == n.id && t.ntype == n.ntype && t.numericProps == n.numericProps && t.intProps == n.intProps
    ensures forall k :: k != SourceDrawing ==> (k in t.stringProps <==> k in n.stringProps)
    ensures forall k :: k != SourceDrawing && k in n.stringProps ==> t.stringProps[k] == n.stringProps[k]
  {
    Node(n.id, n.ntype, n.stringProps[SourceDrawing := name], n.numericProps, n.intProps)
  }

  function TagAll(ns: seq<Node>, name: string): (r: seq<Node>)
    ensures |r| == |ns| && forall i :: 0 <= i < |ns| ==> r[i] == Tagged(ns[i], name)
  {
    seq(|ns|, i requires 0 <= i < |ns| => Tagged(ns[i], name))
  }

  /**
    The node loop of one merge: for every type of the added graph, its
    nodes, tagged, after the combined collection of that type (created
    when missing), whose count is then set. Types are independent, so the
    order the map is walked in does not matter.
   */
  function MergeNodes(m: map<string, NodeCollection>, add: map<string, NodeCollection>, name: string): (r: map<string, NodeCollection>)
    ensures r.Keys == m.Keys + add.Keys
    ensures forall t :: t in add ==> r[t].count == |r[t].nodes|
    ensures forall t :: t in m && t !in add ==> r[t] == m[t]
  {
    map t | t in m.Keys + add.Keys ::
      if t in add then NodeCollection(NodesIn(m, t) + TagAll(add[t].nodes, name), |NodesIn(m, t) + TagAll(add[t].nodes, name)|)
      else m[t]
  }

  /** Every type's combined list is the old list followed by the added nodes, tagged, and counts stay in step. */
  lemma MergeNodesSpec(m: map<string, NodeCollection>, add: map<string, NodeCollection>, name: string, t: string)
    ensures NodesIn(MergeNodes(m, add, name), t) == NodesIn(m, t) + TagAll(NodesIn(add, t), name)
    ensures Counted(m) ==> Counted(MergeNodes(m, add, name))
  {
  }

  /** Merges one more drawing's graph into the combined one. */
  function MergeOne(acc: PropertyGraph, g: PropertyGraph, name: string): PropertyGraph {
    PropertyGraph(acc.schema, acc.metadata, MergeNodes(acc.nodesByType, g.nodesByType, name), acc.edges + g.edges, acc.stats)
  }

  /** The combined graph after one more file: merged when it builds, unchanged when it does not. */
  function MergeFile(acc: PropertyGraph, file: string, build: Builder): PropertyGraph {
    if build(file).Ok? then MergeOne(acc, build(file).value, FileName(file)) else acc
  }

  /** The merge loop over the later files: a file whose graph fails to build is skipped. */
  function MergeRest(acc: PropertyGraph, files: seq<string>, build: Builder): PropertyGraph
    decreases |files|
  {
    if files == [] then acc else MergeRest(MergeFile(acc, files[0], build), files[1..], build)
  }

  /** The nodes of type `t` one later file contributes, tagged with its name. */
  function FileNodes(file: string, build: Builder, t: string): seq<Node> {
    if build(file).Ok? then TagAll(NodesIn(build(file).value.nodesByType, t), FileName(file)) else []
  }

  /** The nodes of type `t` the later files contribute, tagged, in file order. */
  function LaterNodes(files: seq<string>, build: Builder, t: string): seq<Node>
    decreases |files|
  {
    if files == [] then [] else FileNodes(files[0], build, t) + LaterNodes(files[1..], build, t)
  }

  /** The edges the later files contribute, in file order. */
  function LaterEdges(files: seq<string>, build: Builder): seq<Edge>
    decreases |files|
  {
    if files == [] then []
    else (if build(files[0]).Ok? then build(files[0]).value.edges else []) + LaterEdges(files[1..], build)
  }

  /** `i` indexes a node recording the name of a file of `files` that built. */
  predicate TaggedFromSome(ns: seq<Node>, i: nat, files: seq<string>, build: Builder) {
    i < |ns| && SourceDrawing in ns[i].stringProps
    && exists j :: 0 <= j < |files| && build(files[j]).Ok? && ns[i].stringProps[SourceDrawing] == FileName(files[j])
  }

  /** A name drawn from the files after the first is drawn from the files. */
  lemma TaggedFromTail(ns: seq<Node>, i: nat, files: seq<string>, build: Builder)
    requires files != [] && TaggedFromSome(ns, i, files[1..], build)
    ensures TaggedFromSome(ns, i, files, build)
  {
    var j :| 0 <= j < |files[1..]| && build(files[1..][j]).Ok? && ns[i].stringProps[SourceDrawing] == FileName(files[1..][j]);
    assert files[1..][j] == files[j + 1];
  }

  /** The first file's nodes carry its name. */
  lemma FirstFileTagged(files: seq<string>, build: Builder, t: string, i: nat)
    requires files != [] && i < |FileNodes(files[0], build, t)|
    ensures TaggedFromSome(FileNodes(files[0], build, t), i, files, build)
  {
    var tag := FileName(files[0]);
    assert FileNodes(files[0], build, t)[i] == Tagged(NodesIn(build(files[0]).value.nodesByType, t)[i], tag);
  }

  /** Tagging is a property of the node alone, whatever sits before or after it. */
  lemma TaggedWithin(head: seq<Node>, rest: seq<Node>, i: nat, files: seq<string>, build: Builder)
    requires if i < |head| then TaggedFromSome(head, i, files, build) else TaggedFromSome(rest, i - |head|, files, build)
    ensures TaggedFromSome(head + rest, i, files, build)
  {
    assert (head + rest)[i] == if i < |head| then head[i] else rest[i - |head|];
  }

  /** Every node a later file contributes carries the name of a later file that built. */
  lemma {:induction false} LaterNodesTagged(files: seq<string>, build: Builder, t: string, i: nat)
    requires i < |LaterNodes(files, build, t)|
    ensures TaggedFromSome(LaterNodes(files, build, t), i, files, build)
    decreases |files|
  {
    var head := FileNodes(files[0], build, t);
    var rest := LaterNodes(files[1..], build, t);
    assert LaterNodes(files, build, t) == head + rest;
    if i < |head| {
      FirstFileTagged(files, build, t, i);
    } else {
      LaterNodesTagged(files[1..], build, t, i - |head|);
      TaggedFromTail(rest, i - |head|, files, build);
    }
    TaggedWithin(head, rest, i, files, build);
  }

  /** Each type's list after the loop is the base list followed by the later files' tagged nodes. */
  lemma {:induction false} MergeRestNodes(acc: PropertyGraph, files: seq<string>, build: Builder, t: string)
    ensures NodesIn(MergeRest(acc, files, build).nodesByType, t) == NodesIn(acc.nodesByType, t) + LaterNodes(files, build, t)
    decreases |files|
  {
    if files != [] {
      var next := MergeFile(acc, files[0], build);
      if build(files[0]).Ok? {
        MergeNodesSpec(acc.nodesByType, build(files[0]).value.nodesByType, FileName(files[0]), t);
      }
      assert NodesIn(next.nodesByType, t) == NodesIn(acc.nodesByType, t) + FileNodes(files[0], build, t);
      MergeRestNodes(next, files[1..], build, t);
      AppendAssoc(NodesIn(acc.nodesByType, t), FileNodes(files[0], build, t), LaterNodes(files[1..], build, t));
    }
  }

  /** The edges after the loop are the base edges followed by every later file's edges, verbatim. */
  lemma {:induction false} MergeRestEdges(acc: PropertyGraph, files: seq<string>, build: Builder)
    ensures MergeRest(acc, files, build).edges == acc.edges + LaterEdges(files, build)
    decreases |files|
  {
    if files != [] {
      var next := MergeFile(acc, files[0], build);
      var own := if build(files[0]).Ok? then build(files[0]).value.edges else [];
      assert next.edges == acc.edges + own;
      MergeRestEdges(next, files[1..], build);
      AppendAssoc(acc.edges, own, LaterEdges(files[1..], build));
    }
  }

  /** The loop keeps every count in step and leaves schema, metadata and statistics alone. */
  lemma {:induction false} MergeRestKeeps(acc: PropertyGraph, files: seq<string>, build: Builder)
    ensures Counted(acc.nodesByType) ==> Counted(MergeRest(acc, files, build).nodesByType)
    ensures MergeRest(acc, files, build).schema == acc.schema
    ensures MergeRest(acc, files, build).metadata == acc.metadata
    ensures MergeRest(acc, files, build).stats == acc.stats
    decreases |files|
  {
    if files != [] {
      if build(files[0]).Ok? && Counted(acc.nodesByType) {
        MergeNodesSpec(acc.nodesByType, build(files[0]).value.nodesByType, FileName(files[0]), "");
      }
      MergeRestKeeps(MergeFile(acc, files[0], build), files[1..], build);
    }
  }

  /** A file that fails to build changes nothing: merging goes on as if it were not there. */
  lemma {:induction false} FailedFileSkipped(acc: PropertyGraph, before: seq<string>, bad: string, after: seq<string>, build: Builder)
    requires build(bad).Err?
    ensures MergeRest(acc, before + [bad] + after, build) == MergeRest(acc, before + after, build)
    decreases |before|
  {
    if before == [] {
      assert before + [bad] + after == [bad] + after;
      assert ([bad] + after)[0] == bad && ([bad] + after)[1..] == after;
      assert before + after == after;
    } else {
      assert (before + [bad] + after)[0] == before[0] && (before + [bad] + after)[1..] == before[1..] + [bad] + after;
      assert (before + after)[0] == before[0] && (before + after)[1..] == before[1..] + after;
      FailedFileSkipped(MergeFile(acc, before[0], build), before[1..], bad, after, build);
    }
  }

  /** The final statistics pass: node counts recomputed, `edges_per_type` left as the base graph had it. */
  function Restat(g: PropertyGraph): (r: PropertyGraph)
    ensures r.nodesByType == g.nodesByType && r.edges == g.edges
    ensures r.stats.nodeCount == TotalNodes(g.nodesByType) && r.stats.edgeCount == |g.edges|
    ensures forall t :: t in g.nodesByType ==> t in r.stats.nodesPerType && r.stats.nodesPerType[t] == |g.nodesByType[t].nodes|
    ensures r.stats.edgesPerType == g.stats.edgesPerType
  {
    var perType := map t | t in g.stats.nodesPerType.Keys + g.nodesByType.Keys ::
      if t in g.nodesByType then |g.nodesByType[t].nodes| else g.stats.nodesPerType[t];
    PropertyGraph(g.schema, g.metadata, g.nodesByType, g.edges,
                  Stats(TotalNodes(g.nodesByType), |g.edges|, perType, g.stats.edgesPerType))
  }

  /** How a run ends: no drawing found, the first drawing failed, or the combined graph. */
  datatype Outcome = NoFiles | FirstFailed(error: Error) | Merged(graph: PropertyGraph)

  /** The drawing paths in the order the tool processes them: sorted. */
  function Ordered(paths: set<string>): (files: seq<string>)
    ensures |files| == |paths| && forall p :: p in paths <==> p in files
  {
    StringOrder.SortSet(paths)
  }

  /** The merge as the tool does it, over the drawing paths found in the directory. */
  function MergeDrawings(paths: set<string>, build: Builder): (r: Outcome)
    ensures paths == {} <==> r.NoFiles?
  {
    if paths == {} then NoFiles
    else
      var files := Ordered(paths);
      match build(files[0])
      case Err(e) => FirstFailed(e)
      case Ok(base) => Merged(Restat(MergeRest(base, files[1..], build)))
  }

  /**
    The combined graph of a run: the first path in sorted order is the base;
    if it fails the run aborts; otherwise every type's nodes are the base
    nodes, untouched, followed by the later drawings' tagged nodes, and the
    edges are the base edges followed by the later ones.
   */
  lemma MergeDrawingsSpec(paths: set<string>, build: Builder, t: string)
    requires paths != {}
    ensures build(Ordered(paths)[0]).Err? ==> MergeDrawings(paths, build) == FirstFailed(build(Ordered(paths)[0]).error)
    ensures build(Ordered(paths)[0]).Ok? ==>
              && MergeDrawings(paths, build).Merged?
              && NodesIn(MergeDrawings(paths, build).graph.nodesByType, t)
                 == NodesIn(build(Ordered(paths)[0]).value.nodesByType, t) + LaterNodes(Ordered(paths)[1..], build, t)
              && MergeDrawings(paths, build).graph.edges
                 == build(Ordered(paths)[0]).value.edges + LaterEdges(Ordered(paths)[1..], build)
              && MergeDrawings(paths, build).graph.stats.edgeCount == |MergeDrawings(paths, build).graph.edges|
              && MergeDrawings(paths, build).graph.stats.nodeCount == TotalNodes(MergeDrawings(paths, build).graph.nodesByType)
              && MergeDrawings(paths, build).graph.stats.edgesPerType == build(Ordered(paths)[0]).value.stats.edgesPerType
              && (Counted(build(Ordered(paths)[0]).value.nodesByType) ==> Counted(MergeDrawings(paths, build).graph.nodesByType))
  {
    var files := Ordered(paths);
    if build(files[0]).Ok? {
      var base := build(files[0]).value;
      MergeRestNodes(base, files[1..], build, t);
      MergeRestEdges(base, files[1..], build);
      MergeRestKeeps(base, files[1..], build);
    }
  }

  /** The first drawing is the least path: every other path sorts after it. */
  lemma FirstIsLeast(paths: set<string>)
    requires paths != {}
    ensures Ordered(paths)[0] in paths
    ensures forall p :: p in paths ==> StringOrder.Le(Ordered(paths)[0], p)
  {
    var files := Ordered(paths);
    forall p | p in paths ensures StringOrder.Le(files[0], p) {
      var i :| 0 <= i < |files| && files[i] == p;
      if i == 0 {
        StringOrder.LeReflexive(p);
      }
    }
  }

  // ---------------------------------------------------------------------
  // Two oversights of the merge, and the merge as intended
  // ---------------------------------------------------------------------

  /**
    As written, `edges_per_type` keeps the first graph's figure: once a
    later drawing adds an edge, the REFERENCES count no longer matches the
    edge count the same pass recomputes.
   */
  lemma StaleEdgeCounts(paths: set<string>, build: Builder)
    requires paths != {} && build(Ordered(paths)[0]).Ok?
    requires build(Ordered(paths)[0]).value.stats.edgesPerType == map["REFERENCES" := |build(Ordered(paths)[0]).value.edges|]
    requires LaterEdges(Ordered(paths)[1..], build) != []
    ensures MergeDrawings(paths, build).Merged?
    ensures MergeDrawings(paths, build).graph.stats.edgesPerType == build(Ordered(paths)[0]).value.stats.edgesPerType
    ensures MergeDrawings(paths, build).graph.stats.edgesPerType["REFERENCES"]
          < MergeDrawings(paths, build).graph.stats.edgeCount
  {
    MergeDrawingsSpec(paths, build, "");
  }

  /** An entity's node holds only its three fixed properties and `gc_` names, so no source drawing. */
  lemma EntityNodeUntagged(e: DxfParser.Entity, num: NumberReader)
    ensures SourceDrawing !in EntityNode(e, num).stringProps
  {
    EntityNodeKeys(e, num, SourceDrawing);
    forall j | 0 <= j < |e.data| ensures GcKey(e.data[j].code) != SourceDrawing {
      GcKeyNotSource(e.data[j].code);
    }
  }

  /** A `gc_` name is never the source drawing's name. */
  lemma GcKeyNotSource(code: int)
    ensures GcKey(code) != SourceDrawing
  {
    assert GcKey(code)[0] == 'g';
  }

  /** No node `Build` creates records a source drawing. */
  lemma BuiltNodesUntagged(f: DxfParser.DxfFile, num: NumberReader, t: string, i: nat)
    requires i < |NodesIn(Build(f, num).value.nodesByType, t)|
    ensures SourceDrawing !in NodesIn(Build(f, num).value.nodesByType, t)[i].stringProps
  {
    BuildNodesIn(f, num, t);
    BuiltListUntagged(f, num, t, NodesIn(Build(f, num).value.nodesByType, t), i);
  }

  /** The node lists `Build` produces carry no source drawing. */
  lemma BuiltListUntagged(f: DxfParser.DxfFile, num: NumberReader, t: string, ns: seq<Node>, i: nat)
    requires ns == if t == "Entity" then EntityNodes(f.entities, num)
                   else if t == "Block" then BlockNodes(f.blocks)
                   else []
    requires i < |ns|
    ensures SourceDrawing !in ns[i].stringProps
  {
    if t == "Entity" {
      EntityNodesUntagged(f.entities, num);
    } else {
      assert ns[i] == BlockNode(f.blocks[i]);
    }
  }

  lemma EntityNodesUntagged(es: seq<DxfParser.Entity>, num: NumberReader)
    ensures forall j :: 0 <= j < |es| ==> SourceDrawing !in EntityNodes(es, num)[j].stringProps
  {
    forall j | 0 <= j < |es| ensures SourceDrawing !in EntityNodes(es, num)[j].stringProps {
      EntityNodeUntagged(es[j], num);
    }
  }

  /**
    As written, the first drawing's nodes never record where they came
    from: a node of the base graph without a source drawing is still
    without one in the combined graph.
   */
  lemma BaseNodesUntagged(paths: set<string>, build: Builder, t: string, i: nat)
    requires paths != {} && build(Ordered(paths)[0]).Ok?
    requires i < |NodesIn(build(Ordered(paths)[0]).value.nodesByType, t)|
    requires SourceDrawing !in NodesIn(build(Ordered(paths)[0]).value.nodesByType, t)[i].stringProps
    ensures MergeDrawings(paths, build).Merged?
    ensures i < |NodesIn(MergeDrawings(paths, build).graph.nodesByType, t)|
    ensures SourceDrawing !in NodesIn(MergeDrawings(paths, build).graph.nodesByType, t)[i].stringProps
  {
    MergeDrawingsSpec(paths, build, t);
  }

  /** The number of edges of type `t`. */
  function CountEdges(edges: seq<Edge>, t: string): (n: nat)
    ensures n <= |edges|
    ensures (forall i :: 0 <= i < |edges| ==> edges[i].etype == t) ==> n == |edges|
    ensures n == 0 <==> forall i :: 0 <= i < |edges| ==> edges[i].etype != t
    decreases |edges|
  {
    if edges == [] then 0
    else
      assert forall i :: 1 <= i < |edges| ==> edges[i] == edges[1..][i - 1];
      (if edges[0].etype == t then 1 else 0) + CountEdges(edges[1..], t)
  }

  /** The edge types present. */
  function EdgeTypesOf(edges: seq<Edge>): set<string> {
    set i | 0 <= i < |edges| :: edges[i].etype
  }

  /** The intended final pass: node and edge statistics both recomputed from the combined graph. */
  function RestatFixed(g: PropertyGraph): (r: PropertyGraph)
    ensures r.nodesByType == g.nodesByType && r.edges == g.edges
    ensures r.stats.nodeCount == TotalNodes(g.nodesByType) && r.stats.edgeCount == |g.edges|
    ensures forall t :: t in g.nodesByType ==> t in r.stats.nodesPerType && r.stats.nodesPerType[t] == |g.nodesByType[t].nodes|
    ensures forall t :: t in r.stats.edgesPerType <==> exists i :: 0 <= i < |g.edges| && g.edges[i].etype == t
    ensures forall t :: t in r.stats.edgesPerType ==> r.stats.edgesPerType[t] == CountEdges(g.edges, t)
  {
    var r := Restat(g);
    PropertyGraph(r.schema, r.metadata, r.nodesByType, r.edges,
                  Stats(r.stats.nodeCount, r.stats.edgeCount, r.stats.nodesPerType,
                        map t | t in EdgeTypesOf(g.edges) :: CountEdges(g.edges, t)))
  }

  /** Every node of a graph tagged with one drawing's name. */
  function TagGraph(g: PropertyGraph, name: string): (r: PropertyGraph)
    ensures forall t :: NodesIn(r.nodesByType, t) == TagAll(NodesIn(g.nodesByType, t), name)
    ensures Counted(g.nodesByType) ==> Counted(r.nodesByType)
    ensures r.edges == g.edges && r.stats == g.stats
  {
    PropertyGraph(g.schema, g.metadata,
                  map t | t in g.nodesByType :: NodeCollection(TagAll(g.nodesByType[t].nodes, name), g.nodesByType[t].count),
                  g.edges, g.stats)
  }

  /** The merge as intended: the base graph's nodes are tagged too, and every statistic is recomputed. */
  function MergeDrawingsFixed(paths: set<string>, build: Builder): (r: Outcome)
    ensures paths == {} <==> r.NoFiles?
  {
    if paths == {} then NoFiles
    else
      var files := Ordered(paths);
      match build(files[0])
      case Err(e) => FirstFailed(e)
      case Ok(base) => Merged(RestatFixed(MergeRest(TagGraph(base, FileName(files[0])), files[1..], build)))
  }

  /** With the fix, every node of the combined graph records a drawing that was merged. */
  lemma FixedAllTagged(paths: set<string>, build: Builder, t: string, i: nat)
    requires MergeDrawingsFixed(paths, build).Merged?
    requires i < |NodesIn(MergeDrawingsFixed(paths, build).graph.nodesByType, t)|
    ensures TaggedFromSome(NodesIn(MergeDrawingsFixed(paths, build).graph.nodesByType, t), i, Ordered(paths), build)
  {
    var files := Ordered(paths);
    var base := TagGraph(build(files[0]).value, FileName(files[0]));
    MergeRestNodes(base, files[1..], build, t);
    var ns := NodesIn(MergeDrawingsFixed(paths, build).graph.nodesByType, t);
    var k := |NodesIn(base.nodesByType, t)|;
    if i < k {
      assert ns[i] == TagAll(NodesIn(build(files[0]).value.nodesByType, t), FileName(files[0]))[i];
      assert TaggedFromSome(ns, i, files, build) by {
        assert build(files[0]).Ok? && ns[i].stringProps[SourceDrawing] == FileName(files[0]);
      }
    } else {
      LaterNodesTagged(files[1..], build, t, i - k);
      assert ns[i] == LaterNodes(files[1..], build, t)[i - k];
      var j :| 0 <= j < |files[1..]| && build(files[1..][j]).Ok?
               && ns[i].stringProps[SourceDrawing] == FileName(files[1..][j]);
      assert files[1..][j] == files[j + 1];
    }
  }

  /** With the fix, the edge statistics count the combined edges: all of them when every edge is a REFERENCES edge. */
  lemma FixedEdgeCounts(paths: set<string>, build: Builder)
    requires MergeDrawingsFixed(paths, build).Merged?
    requires MergeDrawingsFixed(paths, build).graph.edges != []
    requires forall i :: 0 <= i < |MergeDrawingsFixed(paths, build).graph.edges| ==>
               MergeDrawingsFixed(paths, build).graph.edges[i].etype == "REFERENCES"
    ensures "REFERENCES" in MergeDrawingsFixed(paths, build).graph.stats.edgesPerType
    ensures MergeDrawingsFixed(paths, build).graph.stats.edgesPerType["REFERENCES"]
         == MergeDrawingsFixed(paths, build).graph.stats.edgeCount
  {
    assert MergeDrawingsFixed(paths, build).graph.edges[0].etype == "REFERENCES";
  }
}
