/**
  The property-graph builder: one Entity node per top-level entity, one
  Block node per block, a REFERENCES edge per INSERT that names a block, the
  drawing's metadata and the statistics recomputed at the end.

  `std::stod` is not modelled: a `NumberReader` parameter says whether a
  value reads as a number and which one.
 */
module Graph {
  import opened Wrappers
  import opened Status
  import opened Text
  import StringOrder
  import opened DxfParser
  import opened GraphSchema

  /** `std::stod`: `Some(x)` when the text reads as the number `x`, `None` where it throws. */
  type NumberReader = string -> Option<real>

  datatype Node = Node(
    id: string,
    ntype: string,
    stringProps: map<string, string>,
    numericProps: map<string, real>,
    intProps: map<string, int>)

  /** The nodes of one type, with the count field the builder keeps in step. */
  datatype NodeCollection = NodeCollection(nodes: seq<Node>, count: int)

  datatype Edge = Edge(id: string, etype: string, source: string, target: string, props: map<string, string>)

  datatype Stats = Stats(
    nodeCount: int,
    edgeCount: int,
    nodesPerType: map<string, int>,
    edgesPerType: map<string, int>)

  const EmptyStats := Stats(0, 0, map[], map[])

  datatype PropertyGraph = PropertyGraph(
    schema: Schema,
    metadata: map<string, string>,
    nodesByType: map<string, NodeCollection>,
    edges: seq<Edge>,
    stats: Stats)

  /** The nodes of type `t`, empty when there is no such collection. */
  function NodesOf(g: PropertyGraph, t: string): seq<Node> {
    NodesIn(g.nodesByType, t)
  }

  function NodesIn(m: map<string, NodeCollection>, t: string): seq<Node> {
    if t in m then m[t].nodes else []
  }

  /** Every collection's count matches its node list. */
  predicate Counted(m: map<string, NodeCollection>) {
    forall t :: t in m ==> m[t].count == |m[t].nodes|
  }

  // ---------------------------------------------------------------------
  // String interning
  // ---------------------------------------------------------------------

  /** The intern pool, keyed by content; a value is the view stored at first insertion. */
  type Pool = map<string, string>

  datatype Interned = Interned(pool: Pool, view: string)

  /** `InternString`: inserts only when the content is new, and returns the stored view. */
  function InternString(pool: Pool, s: string): (r: Interned)
    ensures s in r.pool && r.view == r.pool[s]
    ensures s in pool ==> r.pool == pool
    ensures s !in pool ==> r.pool == pool[s := s]
    ensures r.pool.Keys == pool.Keys + {s}
  {
    if s in pool then Interned(pool, pool[s]) else Interned(pool[s := s], s)
  }

  /** Every stored view has the content of its key. */
  predicate ContentKeyed(pool: Pool) {
    forall k :: k in pool ==> pool[k] == k
  }

  /** Interning never overwrites, so the view returned always has the content asked for. */
  lemma InternKeepsContent(pool: Pool, s: string)
    requires ContentKeyed(pool)
    ensures InternString(pool, s).view == s
    ensures ContentKeyed(InternString(pool, s).pool)
    ensures forall k :: k in pool ==> InternString(pool, s).pool[k] == pool[k]
  {
  }

  /** Interning the same content twice returns the first view and leaves the pool as it was. */
  lemma InternTwice(pool: Pool, s: string)
    ensures InternString(InternString(pool, s).pool, s) == InternString(pool, s)
  {
  }

  // ---------------------------------------------------------------------
  // Group-code properties
  // ---------------------------------------------------------------------

  /** The property name a group code is stored under. */
  function GcKey(code: int): string {
    "gc_" + IntToString(code)
  }

  /** Distinct 32-bit codes are stored under distinct names. */
  lemma GcKeyInjective(a: int, b: int)
    requires INT32_MIN <= a <= INT32_MAX && INT32_MIN <= b <= INT32_MAX
    ensures GcKey(a) == GcKey(b) <==> a == b
  {
    if GcKey(a) == GcKey(b) {
      assert IntToString(a) == GcKey(a)[3..];
      assert IntToString(b) == GcKey(b)[3..];
      ParseIntToString(a);
      ParseIntToString(b);
    }
  }

  /** A pair that goes to the numeric map: a code in 10..59 whose value reads as a number. */
  predicate IsNumeric(p: Pair, num: NumberReader) {
    10 <= p.code <= 59 && num(p.value).Some?
  }

  /** The string and numeric property maps of a node under construction. */
  datatype Props = Props(strings: map<string, string>, numbers: map<string, real>)

  /** Stores one pair under its `gc_` name, in the map its code and value select. */
  function StorePair(acc: Props, p: Pair, num: NumberReader): Props {
    if IsNumeric(p, num) then Props(acc.strings, acc.numbers[GcKey(p.code) := num(p.value).value])
    else Props(acc.strings[GcKey(p.code) := p.value], acc.numbers)
  }

  /** The pair loop of `AddEntity`: the entity's pairs stored in order, a later one overwriting an earlier one. */
  function StoreCodes(acc: Props, data: seq<Pair>, num: NumberReader): Props
    decreases |data|
  {
    if data == [] then acc else StorePair(StoreCodes(acc, data[..|data| - 1], num), data[|data| - 1], num)
  }

  /** Some pair of `data` is stored under `k` in the numeric map (`numeric`) or in the string map. */
  predicate StoresUnder(data: seq<Pair>, num: NumberReader, numeric: bool, k: string) {
    exists i :: 0 <= i < |data| && IsNumeric(data[i], num) == numeric && GcKey(data[i].code) == k
  }

  /** `i` is the last pair of `data` going to the same map under the same name as `data[i]`. */
  predicate IsLastStored(data: seq<Pair>, num: NumberReader, i: nat) {
    i < |data|
    && forall j :: i < j < |data| ==>
         IsNumeric(data[j], num) != IsNumeric(data[i], num) || GcKey(data[j].code) != GcKey(data[i].code)
  }

  /** The pairs of `data + [p]` stored under `k` are those of `data` and possibly `p`. */
  lemma StoresUnderSnoc(data: seq<Pair>, p: Pair, num: NumberReader, numeric: bool, k: string)
    ensures StoresUnder(data + [p], num, numeric, k)
        <==> StoresUnder(data, num, numeric, k) || (IsNumeric(p, num) == numeric && GcKey(p.code) == k)
  {
    var d := data + [p];
    if StoresUnder(d, num, numeric, k) && !(IsNumeric(p, num) == numeric && GcKey(p.code) == k) {
      var i :| 0 <= i < |d| && IsNumeric(d[i], num) == numeric && GcKey(d[i].code) == k;
      assert i < |data| && d[i] == data[i];
    }
    if StoresUnder(data, num, numeric, k) {
      var i :| 0 <= i < |data| && IsNumeric(data[i], num) == numeric && GcKey(data[i].code) == k;
      assert d[i] == data[i];
    }
    if IsNumeric(p, num) == numeric && GcKey(p.code) == k {
      assert d[|data|] == p;
    }
  }

  /** A name is in the numeric map after the loop exactly when it was before or some pair is stored there under it; otherwise it is untouched. */
  lemma {:induction false} StoreCodesNumberKey(acc: Props, data: seq<Pair>, num: NumberReader, k: string)
    ensures k in StoreCodes(acc, data, num).numbers <==> k in acc.numbers || StoresUnder(data, num, true, k)
    ensures !StoresUnder(data, num, true, k) && k in acc.numbers ==> StoreCodes(acc, data, num).numbers[k] == acc.numbers[k]
    decreases |data|
  {
    if data != [] {
      var init := data[..|data| - 1];
      StoreCodesNumberKey(acc, init, num, k);
      assert data == init + [data[|data| - 1]];
      StoresUnderSnoc(init, data[|data| - 1], num, true, k);
    }
  }

  /** A name is in the string map after the loop exactly when it was before or some pair is stored there under it; otherwise it is untouched. */
  lemma {:induction false} StoreCodesStringKey(acc: Props, data: seq<Pair>, num: NumberReader, k: string)
    ensures k in StoreCodes(acc, data, num).strings <==> k in acc.strings || StoresUnder(data, num, false, k)
    ensures !StoresUnder(data, num, false, k) && k in acc.strings ==> StoreCodes(acc, data, num).strings[k] == acc.strings[k]
    decreases |data|
  {
    if data != [] {
      var init := data[..|data| - 1];
      StoreCodesStringKey(acc, init, num, k);
      assert data == init + [data[|data| - 1]];
      StoresUnderSnoc(init, data[|data| - 1], num, false, k);
    }
  }

  /** A repeated code keeps the value of its last pair, in whichever map that pair went to. */
  lemma {:induction false} StoreCodesLast(acc: Props, data: seq<Pair>, num: NumberReader, i: nat)
    requires IsLastStored(data, num, i)
    ensures IsNumeric(data[i], num) ==>
              GcKey(data[i].code) in StoreCodes(acc, data, num).numbers
              && StoreCodes(acc, data, num).numbers[GcKey(data[i].code)] == num(data[i].value).value
    ensures !IsNumeric(data[i], num) ==>
              GcKey(data[i].code) in StoreCodes(acc, data, num).strings
              && StoreCodes(acc, data, num).strings[GcKey(data[i].code)] == data[i].value
    decreases |data|
  {
    var init := data[..|data| - 1];
    if i < |init| {
      assert forall j :: 0 <= j < |init| ==> init[j] == data[j];
      assert IsLastStored(init, num, i);
      StoreCodesLast(acc, init, num, i);
    }
  }

  // ---------------------------------------------------------------------
  // Nodes
  // ---------------------------------------------------------------------

  /** No group-code name collides with the three fixed entity properties. */
  lemma GcKeyNotFixed(code: int)
    ensures GcKey(code) != "handle" && GcKey(code) != "type" && GcKey(code) != "layer"
  {
    assert GcKey(code)[0] == 'g';
  }

  /** The node `AddEntity` appends, before its group codes are stored. */
  function EntityBase(e: Entity): Props {
    Props(map["handle" := e.handle, "type" := e.kind, "layer" := e.layer], map[])
  }

  /** The node `AddEntity` appends: id and handle from the entity, its type and layer, then every pair. */
  function EntityNode(e: Entity, num: NumberReader): (n: Node)
    ensures n.id == e.handle && n.ntype == "Entity" && n.intProps == map[]
  {
    var p := StoreCodes(EntityBase(e), e.data, num);
    Node(e.handle, "Entity", p.strings, p.numbers, map[])
  }

  /** No pair is stored under one of the three fixed names. */
  lemma NothingStoredUnderFixed(data: seq<Pair>, num: NumberReader, f: string)
    requires f == "handle" || f == "type" || f == "layer"
    ensures !StoresUnder(data, num, false, f)
  {
    forall i | 0 <= i < |data| ensures GcKey(data[i].code) != f {
      GcKeyNotFixed(data[i].code);
    }
  }

  /** An entity's node carries its handle, type and layer under the fixed names, whatever its pairs. */
  lemma EntityNodeFixed(e: Entity, num: NumberReader)
    ensures "handle" in EntityNode(e, num).stringProps && EntityNode(e, num).stringProps["handle"] == e.handle
    ensures "type" in EntityNode(e, num).stringProps && EntityNode(e, num).stringProps["type"] == e.kind
    ensures "layer" in EntityNode(e, num).stringProps && EntityNode(e, num).stringProps["layer"] == e.layer
  {
    NothingStoredUnderFixed(e.data, num, "handle");
    NothingStoredUnderFixed(e.data, num, "type");
    NothingStoredUnderFixed(e.data, num, "layer");
    StoreCodesStringKey(EntityBase(e), e.data, num, "handle");
    StoreCodesStringKey(EntityBase(e), e.data, num, "type");
    StoreCodesStringKey(EntityBase(e), e.data, num, "layer");
  }

  /** An entity's node has a property exactly for the fixed names and the `gc_` names its pairs are stored under. */
  lemma EntityNodeKeys(e: Entity, num: NumberReader, k: string)
    ensures k in EntityNode(e, num).stringProps <==> k == "handle" || k == "type" || k == "layer" || StoresUnder(e.data, num, false, k)
    ensures k in EntityNode(e, num).numericProps <==> StoresUnder(e.data, num, true, k)
  {
    StoreCodesStringKey(EntityBase(e), e.data, num, k);
    StoreCodesNumberKey(EntityBase(e), e.data, num, k);
  }

  /** Under each `gc_` name an entity's node holds the value of the last pair stored there. */
  lemma EntityNodeLast(e: Entity, num: NumberReader, i: nat)
    requires IsLastStored(e.data, num, i)
    ensures IsNumeric(e.data[i], num) ==>
              GcKey(e.data[i].code) in EntityNode(e, num).numericProps
              && EntityNode(e, num).numericProps[GcKey(e.data[i].code)] == num(e.data[i].value).value
    ensures !IsNumeric(e.data[i], num) ==>
              GcKey(e.data[i].code) in EntityNode(e, num).stringProps
              && EntityNode(e, num).stringProps[GcKey(e.data[i].code)] == e.data[i].value
  {
    StoreCodesLast(EntityBase(e), e.data, num, i);
  }

  /**
    The two maps are filled independently: a `gc_` name is in both exactly
    when some pair under it went to the string map and some pair under it
    went to the numeric map. A later readable value does not remove an
    earlier unreadable one, nor the other way round.
   */
  lemma EntityNodeBothMaps(e: Entity, num: NumberReader, k: string)
    ensures k in EntityNode(e, num).stringProps && k in EntityNode(e, num).numericProps
        <==> StoresUnder(e.data, num, false, k) && StoresUnder(e.data, num, true, k)
  {
    EntityNodeKeys(e, num, k);
    if StoresUnder(e.data, num, true, k) {
      var i :| 0 <= i < |e.data| && IsNumeric(e.data[i], num) && GcKey(e.data[i].code) == k;
      GcKeyNotFixed(e.data[i].code);
    }
  }

  /** Code 10 first unreadable, then readable: the node keeps "abc" as a string and 1.0 as a number under `gc_10`. */
  lemma EntityNodeSplitCode(num: NumberReader)
    requires num("abc") == None && num("1.0") == Some(1.0)
    ensures var n := EntityNode(Entity("LINE", "A", "0", [Pair(10, "abc"), Pair(10, "1.0")]), num);
      && GcKey(10) in n.stringProps && n.stringProps[GcKey(10)] == "abc"
      && GcKey(10) in n.numericProps && n.numericProps[GcKey(10)] == 1.0
  {
    var e := Entity("LINE", "A", "0", [Pair(10, "abc"), Pair(10, "1.0")]);
    assert IsLastStored(e.data, num, 0);
    EntityNodeLast(e, num, 0);
    EntityNodeLast(e, num, 1);
  }

  /** The placeholder every Block node carries for its content hash. */
  const HashPlaceholder := "HASH_PLACEHOLDER"

  /** The node `AddBlock` appends. */
  function BlockNode(b: Block): (n: Node)
    ensures n.id == "block_" + b.name && n.ntype == "Block" && n.numericProps == map[]
    ensures n.stringProps.Keys == {"name", "handle", "content_hash"}
    ensures n.stringProps["name"] == b.name && n.stringProps["handle"] == b.handle
    ensures n.stringProps["content_hash"] == HashPlaceholder
    ensures n.intProps == map["entity_count" := |b.entities|]
  {
    Node("block_" + b.name, "Block",
         map["name" := b.name, "handle" := b.handle, "content_hash" := HashPlaceholder],
         map[], map["entity_count" := |b.entities|])
  }

  /** Appends nodes to the collection of type `t`, creating it when absent, and sets its count. */
  function AppendNodes(m: map<string, NodeCollection>, t: string, ns: seq<Node>): (r: map<string, NodeCollection>)
    ensures ns != [] ==> r.Keys == m.Keys + {t} && r[t].count == |r[t].nodes|
    ensures ns != [] ==> r[t].nodes == (if t in m then m[t].nodes else []) + ns
    ensures forall u :: u in m && u != t ==> u in r && r[u] == m[u]
    ensures Counted(m) ==> Counted(r)
  {
    if ns == [] then m
    else
      var nodes := (if t in m then m[t].nodes else []) + ns;
      m[t := NodeCollection(nodes, |nodes|)]
  }

  /** Adding nodes one at a time is adding them all at once. */
  lemma AppendNodesSnoc(m: map<string, NodeCollection>, t: string, ns: seq<Node>, n: Node)
    ensures AppendNodes(AppendNodes(m, t, ns), t, [n]) == AppendNodes(m, t, ns + [n])
  {
    if ns == [] {
      assert ns + [n] == [n];
    } else {
      var nodes := (if t in m then m[t].nodes else []) + ns;
      assert nodes + [n] == (if t in m then m[t].nodes else []) + (ns + [n]);
    }
  }

  function WithNodes(g: PropertyGraph, t: string, ns: seq<Node>): PropertyGraph {
    PropertyGraph(g.schema, g.metadata, AppendNodes(g.nodesByType, t, ns), g.edges, g.stats)
  }

  /** `AddEntity`: appends the entity's node to the Entity collection. */
  function AddEntity(g: PropertyGraph, e: Entity, num: NumberReader): PropertyGraph {
    WithNodes(g, "Entity", [EntityNode(e, num)])
  }

  /** `AddBlock`: appends the block's node to the Block collection. */
  function AddBlock(g: PropertyGraph, b: Block): PropertyGraph {
    WithNodes(g, "Block", [BlockNode(b)])
  }

  /** The entity loop of `Build`, in order. */
  function AddEntities(g: PropertyGraph, es: seq<Entity>, num: NumberReader): PropertyGraph
    decreases |es|
  {
    if es == [] then g else AddEntity(AddEntities(g, es[..|es| - 1], num), es[|es| - 1], num)
  }

  /** The block loop of `Build`, in order. */
  function AddBlocks(g: PropertyGraph, bs: seq<Block>): PropertyGraph
    decreases |bs|
  {
    if bs == [] then g else AddBlock(AddBlocks(g, bs[..|bs| - 1]), bs[|bs| - 1])
  }

  /** One node per entity, in entity order. */
  function EntityNodes(es: seq<Entity>, num: NumberReader): (ns: seq<Node>)
    ensures |ns| == |es| && forall i :: 0 <= i < |es| ==> ns[i] == EntityNode(es[i], num)
  {
    seq(|es|, i requires 0 <= i < |es| => EntityNode(es[i], num))
  }

  /** One node per block, in block order. */
  function BlockNodes(bs: seq<Block>): (ns: seq<Node>)
    ensures |ns| == |bs| && forall i :: 0 <= i < |bs| ==> ns[i] == BlockNode(bs[i])
  {
    seq(|bs|, i requires 0 <= i < |bs| => BlockNode(bs[i]))
  }

  /** The entity loop appends exactly one node per entity, in order, to the Entity collection and touches nothing else. */
  lemma {:induction false} AddEntitiesAppends(g: PropertyGraph, es: seq<Entity>, num: NumberReader)
    ensures AddEntities(g, es, num) == WithNodes(g, "Entity", EntityNodes(es, num))
    decreases |es|
  {
    if es != [] {
      var init := es[..|es| - 1];
      AddEntitiesAppends(g, init, num);
      EntityNodesSnoc(es, num);
      AppendNodesSnoc(g.nodesByType, "Entity", EntityNodes(init, num), EntityNode(es[|es| - 1], num));
    }
  }

  lemma EntityNodesSnoc(es: seq<Entity>, num: NumberReader)
    requires es != []
    ensures EntityNodes(es, num) == EntityNodes(es[..|es| - 1], num) + [EntityNode(es[|es| - 1], num)]
  {
    var a := EntityNodes(es, num);
    var b := EntityNodes(es[..|es| - 1], num) + [EntityNode(es[|es| - 1], num)];
    assert |a| == |b|;
    forall j | 0 <= j < |a| ensures a[j] == b[j] {
      if j < |es| - 1 {
        assert es[..|es| - 1][j] == es[j];
      }
    }
  }

  lemma BlockNodesSnoc(bs: seq<Block>)
    requires bs != []
    ensures BlockNodes(bs) == BlockNodes(bs[..|bs| - 1]) + [BlockNode(bs[|bs| - 1])]
  {
    var a := BlockNodes(bs);
    var b := BlockNodes(bs[..|bs| - 1]) + [BlockNode(bs[|bs| - 1])];
    assert |a| == |b|;
    forall j | 0 <= j < |a| ensures a[j] == b[j] {
      if j < |bs| - 1 {
        assert bs[..|bs| - 1][j] == bs[j];
      }
    }
  }

  /** The block loop appends exactly one node per block, in order, to the Block collection and touches nothing else. */
  lemma {:induction false} AddBlocksAppends(g: PropertyGraph, bs: seq<Block>)
    ensures AddBlocks(g, bs) == WithNodes(g, "Block", BlockNodes(bs))
    decreases |bs|
  {
    if bs != [] {
      var init := bs[..|bs| - 1];
      AddBlocksAppends(g, init);
      BlockNodesSnoc(bs);
      AppendNodesSnoc(g.nodesByType, "Block", BlockNodes(init), BlockNode(bs[|bs| - 1]));
    }
  }

  // ---------------------------------------------------------------------
  // REFERENCES edges
  // ---------------------------------------------------------------------

  /** The block an INSERT names: its first code-2 value, when there is one and it is not empty. */
  predicate RefersToBlock(e: Entity) {
    e.kind == "INSERT" && GetString(e, 2).Ok? && GetString(e, 2).value != ""
  }

  /** The edge built for an INSERT entity naming block `name`. */
  function ReferenceEdge(e: Entity, name: string): (edge: Edge)
    ensures edge.etype == "REFERENCES" && edge.source == e.handle && edge.target == "block_" + name
    ensures edge.id == "edge_" + e.handle + "_ref_" + name && edge.props == map["block_name" := name]
  {
    Edge("edge_" + e.handle + "_ref_" + name, "REFERENCES", e.handle, "block_" + name, map["block_name" := name])
  }

  /** The REFERENCES loop of `Build`: one edge per INSERT naming a block, whether or not the block exists. */
  function ReferenceEdges(es: seq<Entity>): (r: seq<Edge>)
    ensures |r| <= |es|
    ensures forall k :: 0 <= k < |r| ==> exists i :: 0 <= i < |es| && RefersToBlock(es[i]) && r[k] == ReferenceEdge(es[i], GetString(es[i], 2).value)
    decreases |es|
  {
    if es == [] then []
    else
      var rest := ReferenceEdges(es[1..]);
      assert forall i :: 1 <= i < |es| ==> es[i] == es[1..][i - 1];
      if RefersToBlock(es[0]) then [ReferenceEdge(es[0], GetString(es[0], 2).value)] + rest else rest
  }

  /** The number of entities an edge is built for. */
  function CountReferring(es: seq<Entity>): nat
    decreases |es|
  {
    if es == [] then 0 else (if RefersToBlock(es[0]) then 1 else 0) + CountReferring(es[1..])
  }

  /** The edges of a concatenation are the edges of each part, in order. */
  lemma {:induction false} ReferenceEdgesAppend(a: seq<Entity>, b: seq<Entity>)
    ensures ReferenceEdges(a + b) == ReferenceEdges(a) + ReferenceEdges(b)
    ensures CountReferring(a + b) == CountReferring(a) + CountReferring(b)
    decreases |a|
  {
    if a == [] {
      assert a + b == b;
    } else {
      assert (a + b)[1..] == a[1..] + b;
      ReferenceEdgesAppend(a[1..], b);
    }
  }

  /** Exactly one edge per INSERT that names a block, and for no other entity. */
  lemma {:induction false} ReferenceEdgesCount(es: seq<Entity>)
    ensures |ReferenceEdges(es)| == CountReferring(es)
    ensures (forall i :: 0 <= i < |es| ==> !RefersToBlock(es[i])) <==> ReferenceEdges(es) == []
    decreases |es|
  {
    if es != [] {
      ReferenceEdgesCount(es[1..]);
      assert forall i :: 1 <= i < |es| ==> es[i] == es[1..][i - 1];
      if !RefersToBlock(es[0]) {
        assert (forall i :: 0 <= i < |es| ==> !RefersToBlock(es[i])) <==>
               (forall i :: 0 <= i < |es[1..]| ==> !RefersToBlock(es[1..][i]));
      }
    }
  }

  // ---------------------------------------------------------------------
  // Statistics
  // ---------------------------------------------------------------------

  /** The sum of the collection sizes over `keys`, taken in ascending key order. */
  function SumSizes(m: map<string, NodeCollection>, keys: set<string>): nat
    requires keys <= m.Keys
    decreases |keys|
  {
    if keys == {} then 0
    else
      var k := StringOrder.Least(keys);
      |m[k].nodes| + SumSizes(m, keys - {k})
  }

  /** The sum does not depend on the order of the collections: any one can be taken first. */
  lemma {:induction false} SumSizesTake(m: map<string, NodeCollection>, keys: set<string>, k: string)
    requires keys <= m.Keys && k in keys
    ensures SumSizes(m, keys) == |m[k].nodes| + SumSizes(m, keys - {k})
    decreases |keys|
  {
    var least := StringOrder.Least(keys);
    if k != least {
      SumSizesTake(m, keys - {least}, k);
      SumSizesTake(m, keys - {k}, least);
      assert keys - {least} - {k} == keys - {k} - {least};
    }
  }

  /** The sum is determined by the sizes of the collections it adds up. */
  lemma {:induction false} SumSizesSame(m: map<string, NodeCollection>, m': map<string, NodeCollection>, keys: set<string>)
    requires keys <= m.Keys && keys <= m'.Keys
    requires forall k :: k in keys ==> |m[k].nodes| == |m'[k].nodes|
    ensures SumSizes(m, keys) == SumSizes(m', keys)
    decreases |keys|
  {
    if keys != {} {
      SumSizesSame(m, m', keys - {StringOrder.Least(keys)});
    }
  }

  /** The node count `Build` computes: the sum of every collection's size. */
  function TotalNodes(m: map<string, NodeCollection>): nat {
    SumSizes(m, m.Keys)
  }

  /** The statistics of the final pass, with `edges_per_type` as given. */
  function RecountStats(m: map<string, NodeCollection>, edgeCount: int, edgesPerType: map<string, int>): (s: Stats)
    ensures s.nodesPerType.Keys == m.Keys
    ensures forall t :: t in m ==> s.nodesPerType[t] == |m[t].nodes|
    ensures s.edgeCount == edgeCount && s.edgesPerType == edgesPerType
  {
    Stats(TotalNodes(m), edgeCount, map t | t in m :: |m[t].nodes|, edgesPerType)
  }

  // ---------------------------------------------------------------------
  // Build
  // ---------------------------------------------------------------------

  /** `CreateSchema`: the DXF schema for the drawing's version, or an empty schema if that fails. */
  function CreateSchema(f: DxfFile): (s: Schema)
    ensures s == CreateDXFSchema(f.version).value
  {
    match CreateDXFSchema(f.version)
    case Ok(s) => s
    case Err(_) => EmptySchema
  }

  /** The metadata `Build` records: the version and the two counts in decimal. */
  function Metadata(f: DxfFile): (m: map<string, string>)
    ensures m.Keys == {"dxf_version", "entity_count", "block_count"}
    ensures m["dxf_version"] == f.version
    ensures Stoi(m["entity_count"]) == (if |f.entities| <= INT32_MAX then Some(|f.entities|) else None)
    ensures Stoi(m["block_count"]) == (if |f.blocks| <= INT32_MAX then Some(|f.blocks|) else None)
  {
    CountReadsBack(|f.entities|);
    CountReadsBack(|f.blocks|);
    map["dxf_version" := f.version, "entity_count" := IntToString(|f.entities|), "block_count" := IntToString(|f.blocks|)]
  }

  /** A count printed in decimal reads back through `std::stoi` exactly when it fits in 32 bits. */
  lemma CountReadsBack(n: nat)
    ensures Stoi(IntToString(n)) == (if n <= INT32_MAX then Some(n) else None)
  {
    if n <= INT32_MAX {
      StoiIntToString(n);
    } else {
      var s := IntToString(n);
      NatToStringDigits(n);
      assert TrimLeft(s, Ascii) == s by { assert !IsAsciiSpace(s[0]); }
      AllDigitsRun(s);
      assert s[..|s|] == s;
    }
  }

  /** `Build`: nodes for entities then blocks, REFERENCES edges, then the statistics; it never fails. */
  function Build(f: DxfFile, num: NumberReader): (r: Result<PropertyGraph, Error>)
    ensures r.Ok?
  {
    var g0 := PropertyGraph(CreateSchema(f), Metadata(f), map[], [], EmptyStats);
    var nodes := AddBlocks(AddEntities(g0, f.entities, num), f.blocks).nodesByType;
    var edges := ReferenceEdges(f.entities);
    Ok(PropertyGraph(g0.schema, g0.metadata, nodes, edges, RecountStats(nodes, |edges|, map["REFERENCES" := |edges|])))
  }

  /** `BuildFromFile`: parse, then build; a parse failure is returned as it is. */
  function BuildFromLines(lines: seq<string>, num: NumberReader): (r: Result<PropertyGraph, Error>)
    ensures Parse(lines).Err? ==> r == Err(Parse(lines).error)
    ensures Parse(lines).Ok? ==> r == Build(Parse(lines).value, num)
  {
    match Parse(lines)
    case Err(e) => Err(e)
    case Ok(f) => Build(f, num)
  }

  /** The collections `Build` ends with: the entity nodes appended to an empty map, then the block nodes. */
  lemma BuildNodesMap(f: DxfFile, num: NumberReader)
    ensures Build(f, num).value.nodesByType
         == AppendNodes(AppendNodes(map[], "Entity", EntityNodes(f.entities, num)), "Block", BlockNodes(f.blocks))
  {
    var g0 := PropertyGraph(CreateSchema(f), Metadata(f), map[], [], EmptyStats);
    AddEntitiesAppends(g0, f.entities, num);
    AddBlocksAppends(AddEntities(g0, f.entities, num), f.blocks);
  }

  /** An Entity collection holding `ens` and a Block collection holding `bns`, each present only when non-empty. */
  lemma TwoCollections(ens: seq<Node>, bns: seq<Node>)
    ensures var m := AppendNodes(AppendNodes(map[], "Entity", ens), "Block", bns);
      && Counted(m)
      && m.Keys == (if ens == [] then {} else {"Entity"}) + (if bns == [] then {} else {"Block"})
      && NodesIn(m, "Entity") == ens
      && NodesIn(m, "Block") == bns
  {
    var m1 := AppendNodes(map[], "Entity", ens);
    assert Counted(m1);
    assert m1.Keys == (if ens == [] then {} else {"Entity"});
  }

  /** `Build` creates an Entity collection only when there are entities and a Block collection only when there are blocks; each count matches its list. */
  lemma BuildCollections(f: DxfFile, num: NumberReader)
    ensures Counted(Build(f, num).value.nodesByType)
    ensures Build(f, num).value.nodesByType.Keys
         == (if f.entities == [] then {} else {"Entity"}) + (if f.blocks == [] then {} else {"Block"})
  {
    BuildNodesMap(f, num);
    TwoCollections(EntityNodes(f.entities, num), BlockNodes(f.blocks));
  }

  /**
    The nodes `Build` creates: one Entity node per top-level entity and one
    Block node per block, each in input order; entities nested in blocks
    never become nodes.
   */
  lemma BuildNodes(f: DxfFile, num: NumberReader)
    ensures NodesOf(Build(f, num).value, "Entity") == EntityNodes(f.entities, num)
    ensures NodesOf(Build(f, num).value, "Block") == BlockNodes(f.blocks)
  {
    BuildNodesMap(f, num);
    TwoCollections(EntityNodes(f.entities, num), BlockNodes(f.blocks));
  }

  /** A built graph's collections, type by type: entity nodes, block nodes, and nothing else. */
  lemma BuildNodesIn(f: DxfFile, num: NumberReader, t: string)
    ensures NodesIn(Build(f, num).value.nodesByType, t)
         == if t == "Entity" then EntityNodes(f.entities, num)
            else if t == "Block" then BlockNodes(f.blocks)
            else []
  {
    var m := Build(f, num).value.nodesByType;
    if t == "Entity" || t == "Block" {
      BuildNodes(f, num);
    } else {
      BuildCollections(f, num);
      assert t !in m;
    }
  }

  /** The schema, metadata and edges of a built graph, and the edge statistics. */
  lemma BuildSummary(f: DxfFile, num: NumberReader)
    ensures Build(f, num).value.schema == CreateDXFSchema(f.version).value
    ensures Build(f, num).value.metadata == Metadata(f)
    ensures Build(f, num).value.edges == ReferenceEdges(f.entities)
    ensures Build(f, num).value.stats.edgeCount == CountReferring(f.entities)
    ensures Build(f, num).value.stats.edgesPerType == map["REFERENCES" := CountReferring(f.entities)]
  {
    ReferenceEdgesCount(f.entities);
  }

  /** The node statistics of a built graph: one entry per collection, and the total |entities| + |blocks|. */
  lemma BuildNodeStats(f: DxfFile, num: NumberReader)
    ensures Build(f, num).value.stats.nodeCount == |f.entities| + |f.blocks|
    ensures Build(f, num).value.stats.nodesPerType.Keys == Build(f, num).value.nodesByType.Keys
    ensures forall t :: t in Build(f, num).value.nodesByType ==>
              Build(f, num).value.stats.nodesPerType[t] == |Build(f, num).value.nodesByType[t].nodes|
  {
    var m := Build(f, num).value.nodesByType;
    BuildNodesMap(f, num);
    TwoCollections(EntityNodes(f.entities, num), BlockNodes(f.blocks));
    TotalTwo(m, |f.entities|, |f.blocks|);
  }

  /** The total over an Entity and a Block collection of the given sizes, either one absent when empty. */
  lemma TotalTwo(m: map<string, NodeCollection>, e: nat, b: nat)
    requires m.Keys == (if e == 0 then {} else {"Entity"}) + (if b == 0 then {} else {"Block"})
    requires e > 0 ==> |m["Entity"].nodes| == e
    requires b > 0 ==> |m["Block"].nodes| == b
    ensures TotalNodes(m) == e + b
  {
    if e > 0 && b > 0 {
      SumSizesTake(m, m.Keys, "Entity");
      assert m.Keys - {"Entity"} == {"Block"};
      SumSizesTake(m, {"Block"}, "Block");
    } else if e > 0 {
      SumSizesTake(m, m.Keys, "Entity");
    } else if b > 0 {
      SumSizesTake(m, m.Keys, "Block");
    }
  }

  /** REFERENCES edges depend on the entities alone: an edge is kept even when no block of that name exists. */
  lemma EdgesIgnoreBlocks(f: DxfFile, bs: seq<Block>, num: NumberReader)
    ensures Build(DxfFile(f.version, f.entities, bs, f.entityByHandle, f.blockByName), num).value.edges
         == Build(f, num).value.edges
  {
  }
}
