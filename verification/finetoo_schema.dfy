/**
  The converter from the first scorer's entity graph to a Finetoo schema:
  node types, edge types and the list of operations the schema offers.

  Python iterates the properties of a type node out of a set, in an order
  the language leaves open; the model takes them in sorted order. Python's
  `str.capitalize` is modelled on ASCII letters only.
 */
module FinetooSchema {
  import opened Text
  import opened StringOrder
  import opened Statements
  import Consistency
  import Seqs

  datatype FinetooProperty = FinetooProperty(
    name: string, kind: string,
    unique: bool, comparable: bool, indexed: bool, aggregable: bool,
    entityIdentifier: bool, logicalRelation: bool, propertyAttribute: bool)

  datatype FinetooNode = FinetooNode(name: string, properties: seq<FinetooProperty>, description: string)

  datatype FinetooEdge = FinetooEdge(name: string, sourceType: string, targetType: string, properties: seq<FinetooProperty>, description: string)

  datatype Schema = Schema(nodes: seq<FinetooNode>, edges: seq<FinetooEdge>)

  /** A property with the given flags; the semantic extensions default to false. */
  function Prop(name: string, kind: string, unique: bool, comparable: bool, indexed: bool, aggregable: bool): FinetooProperty {
    FinetooProperty(name, kind, unique, comparable, indexed, aggregable, false, false, false)
  }

  /** Strictly ascending, as `sorted` leaves a set. */
  predicate Ascending(xs: seq<string>) {
    forall i, j :: 0 <= i < j < |xs| ==> Le(xs[i], xs[j]) && xs[i] != xs[j]
  }

  // ---------------------------------------------------------------------
  // Characters
  // ---------------------------------------------------------------------

  function UpperChar(c: char): char {
    if 'a' <= c <= 'z' then (c as int - 32) as char else c
  }

  function LowerChar(c: char): char {
    if 'A' <= c <= 'Z' then (c as int + 32) as char else c
  }

  /** `str.capitalize()`: the first letter upper-case, the rest lower-case. */
  function Capitalize(s: string): (r: string)
    ensures |r| == |s|
  {
    if s == [] then [] else [UpperChar(s[0])] + seq(|s| - 1, i requires 0 <= i < |s| - 1 => LowerChar(s[i + 1]))
  }

  /** `str.lower()`. */
  function Lower(s: string): (r: string)
    ensures |r| == |s|
  {
    seq(|s|, i requires 0 <= i < |s| => LowerChar(s[i]))
  }

  // ---------------------------------------------------------------------
  // Node types
  // ---------------------------------------------------------------------

  /** A property name recording the lack of the rest of the name. */
  predicate Negated(p: string) {
    |p| >= 4 && p[..4] == Consistency.NotPrefix
  }

  /** The boolean column of the Entity node standing for one entity property. */
  function Column(p: string): FinetooProperty {
    if Negated(p) then
      FinetooProperty("lacks_" + p[4..], "boolean", false, true, false, false, false, false, true)
    else
      FinetooProperty("has_" + p, "boolean", false, true, false, true, false, false, true)
  }

  /** The entity property a column name stands for. */
  function ColumnProperty(name: string): string {
    if |name| >= 6 && name[..6] == "lacks_" then Consistency.NotPrefix + name[6..]
    else if |name| >= 4 && name[..4] == "has_" then name[4..]
    else name
  }

  /** Column names decode back to the property: distinct properties get distinct columns. */
  lemma ColumnRoundTrip(p: string)
    ensures ColumnProperty(Column(p).name) == p
    ensures Column(p).aggregable <==> !Negated(p)
  {
    var name := Column(p).name;
    if Negated(p) {
      assert name[..6] == "lacks_";
      assert name[6..] == p[4..];
      assert p == p[..4] + p[4..];
    } else {
      assert name[..4] == "has_";
      assert name[4..] == p;
      assert name[0] == 'h';
      assert !(|name| >= 6 && name[..6] == "lacks_") by {
        assert |name| >= 6 ==> name[..6][0] == name[0];
      }
    }
  }

  const NameProperty: FinetooProperty := FinetooProperty("name", "string", true, true, true, false, true, false, false)
  const TypeProperty: FinetooProperty := Prop("type", "string", false, true, true, false)

  /** The Entity node over a list of entity properties. */
  function EntityNode(props: seq<string>): FinetooNode {
    FinetooNode("Entity", [NameProperty, TypeProperty] + seq(|props|, i requires 0 <= i < |props| => Column(props[i])),
                "Base entity type representing concepts in the knowledge graph")
  }

  /** The node of an entity that is also some entity's type, with its own non-negated properties as string columns. */
  function TypeNode(name: string, owned: seq<string>): FinetooNode {
    FinetooNode(Capitalize(name),
                [FinetooProperty("name", "string", true, false, false, false, true, false, false)]
                + seq(|owned|, i requires 0 <= i < |owned| => FinetooProperty(owned[i], "string", false, true, false, false, false, false, true)),
                "Specialized type: " + name)
  }

  /** Every property of every entity. */
  function AllProperties(g: Consistency.EntityGraph): set<string> {
    set e, p | e in g && p in g[e].properties :: p
  }

  /** The objects of the `is` statements. */
  function IsObjects(stmts: seq<LogicalStatement>): set<string> {
    set i | 0 <= i < |stmts| && stmts[i].relation == Is :: stmts[i].obj
  }

  /** An entity's properties that do not record a lack. */
  function Owned(e: Consistency.LogicalEntity): set<string> {
    set p | p in e.properties && !Negated(p)
  }

  /** One node per listed type that is an entity, in list order. */
  function TypeNodes(g: Consistency.EntityGraph, types: seq<string>): seq<FinetooNode>
    decreases |types|
  {
    if types == [] then []
    else
      var t := types[0];
      (if t in g then [TypeNode(t, SortSet(Owned(g[t])))] else []) + TypeNodes(g, types[1..])
  }

  /** `_generate_nodes`. */
  function GenerateNodes(g: Consistency.EntityGraph, stmts: seq<LogicalStatement>): seq<FinetooNode> {
    [EntityNode(SortSet(AllProperties(g)))] + TypeNodes(g, SortSet(IsObjects(stmts)))
  }

  /** The Entity node opens with `name` (unique, comparable, indexed) and `type` (comparable, indexed). */
  lemma EntityFixedColumns(props: seq<string>)
    ensures var n := EntityNode(props);
      && n.name == "Entity"
      && n.properties[0].name == "name" && n.properties[0].unique && n.properties[0].comparable && n.properties[0].indexed
      && n.properties[1].name == "type" && !n.properties[1].unique && n.properties[1].comparable && n.properties[1].indexed
  {
  }

  /** After those, the Entity node has a column for exactly the listed properties. */
  lemma EntityColumnMembers(props: seq<string>, p: string)
    ensures p in props <==> Column(p) in EntityNode(props).properties
  {
    var ps := EntityNode(props).properties;
    if p in props {
      var k :| 0 <= k < |props| && props[k] == p;
      assert ps[k + 2] == Column(p);
    }
    if Column(p) in ps {
      var k :| 0 <= k < |ps| && ps[k] == Column(p);
      assert ps[k].kind == "boolean";
      assert k >= 2;
      assert ps[k] == Column(props[k - 2]);
      ColumnRoundTrip(p);
      ColumnRoundTrip(props[k - 2]);
    }
  }

  /** The columns follow the sorted order of the properties they stand for. */
  lemma EntityColumnOrder(props: seq<string>)
    requires Ascending(props)
    ensures var ps := EntityNode(props).properties;
      forall i, j :: 2 <= i < j < |ps| ==> Le(ColumnProperty(ps[i].name), ColumnProperty(ps[j].name))
  {
    var ps := EntityNode(props).properties;
    forall i, j | 2 <= i < j < |ps|
      ensures Le(ColumnProperty(ps[i].name), ColumnProperty(ps[j].name))
    {
      assert ps[i] == Column(props[i - 2]) && ps[j] == Column(props[j - 2]);
      ColumnRoundTrip(props[i - 2]);
      ColumnRoundTrip(props[j - 2]);
    }
  }

  function TypeDescription(t: string): string {
    "Specialized type: " + t
  }

  lemma TypeDescriptionInjective(t: string, u: string)
    requires TypeDescription(t) == TypeDescription(u)
    ensures t == u
  {
    var pre := "Specialized type: ";
    assert t == TypeDescription(t)[|pre|..];
    assert u == TypeDescription(u)[|pre|..];
  }

  /** Each type node stands for a listed type that is an entity, and is named by the capitalised type. */
  lemma {:induction false} TypeNodeSound(g: Consistency.EntityGraph, types: seq<string>, n: FinetooNode)
    requires n in TypeNodes(g, types)
    ensures exists t :: t in types && t in g && n.name == Capitalize(t) && n.description == TypeDescription(t)
    decreases |types|
  {
    var t0 := types[0];
    var rest := TypeNodes(g, types[1..]);
    if n in rest {
      TypeNodeSound(g, types[1..], n);
      assert forall t :: t in types[1..] ==> t in types;
    } else {
      assert t0 in g;
      assert n == TypeNode(t0, SortSet(Owned(g[t0])));
      assert n.name == Capitalize(t0) && n.description == TypeDescription(t0);
    }
  }

  /** Each listed type that is an entity gets a type node. */
  lemma {:induction false} TypeNodeComplete(g: Consistency.EntityGraph, types: seq<string>, t: string)
    requires t in types && t in g
    ensures exists n :: n in TypeNodes(g, types) && n.name == Capitalize(t) && n.description == TypeDescription(t)
    decreases |types|
  {
    var t0 := types[0];
    var rest := TypeNodes(g, types[1..]);
    if t == t0 {
      var n := TypeNode(t0, SortSet(Owned(g[t0])));
      assert n in TypeNodes(g, types);
      assert n.name == Capitalize(t) && n.description == TypeDescription(t);
    } else {
      TypeNodeComplete(g, types[1..], t);
      var n :| n in rest && n.name == Capitalize(t) && n.description == TypeDescription(t);
      assert n in TypeNodes(g, types);
    }
  }

  /** When every listed type is an entity, the type nodes stand for exactly the listed types. */
  lemma TypedExactly(g: Consistency.EntityGraph, types: seq<string>, t: string)
    requires forall u :: u in types ==> u in g
    ensures t in types <==> exists n :: n in TypeNodes(g, types) && n.name == Capitalize(t) && n.description == TypeDescription(t)
  {
    var tn := TypeNodes(g, types);
    if t in types {
      TypeNodeComplete(g, types, t);
    }
    if exists n :: n in tn && n.name == Capitalize(t) && n.description == TypeDescription(t) {
      var n :| n in tn && n.name == Capitalize(t) && n.description == TypeDescription(t);
      TypeNodeSound(g, types, n);
      var u :| u in types && u in g && n.name == Capitalize(u) && n.description == TypeDescription(u);
      TypeDescriptionInjective(t, u);
    }
  }

  /** Every `is` object is an entity of the statements' graph. */
  lemma IsObjectsNamed(stmts: seq<LogicalStatement>, t: string)
    requires t in IsObjects(stmts)
    ensures t in Consistency.BuildEntityGraph(stmts)
  {
    var i :| 0 <= i < |stmts| && stmts[i].relation == Is && stmts[i].obj == t;
    assert Consistency.Named(stmts, t);
    Consistency.BuildKeys(stmts, t);
  }

  /** `_generate_nodes` on the statements' own graph: the Entity node, then a node for exactly the `is` objects. */
  lemma EveryIsObjectTyped(stmts: seq<LogicalStatement>, t: string)
    ensures var r := GenerateNodes(Consistency.BuildEntityGraph(stmts), stmts);
      && r[0].name == "Entity"
      && (t in IsObjects(stmts) <==> exists n :: n in r[1..] && n.name == Capitalize(t) && n.description == TypeDescription(t))
  {
    var g := Consistency.BuildEntityGraph(stmts);
    var types := SortSet(IsObjects(stmts));
    assert GenerateNodes(g, stmts)[1..] == TypeNodes(g, types);
    forall u | u in types ensures u in g {
      IsObjectsNamed(stmts, u);
    }
    TypedExactly(g, types, t);
  }

  // ---------------------------------------------------------------------
  // Edge types
  // ---------------------------------------------------------------------

  const IsAEdge: FinetooEdge :=
    FinetooEdge("IS_A", "Entity", "Entity", [Prop("confidence", "float", false, true, false, true)], "Taxonomic/type relationship")
  const IsNotEdge: FinetooEdge :=
    FinetooEdge("IS_NOT", "Entity", "Entity", [Prop("confidence", "float", false, true, false, false)], "Negative type relationship")
  const HasPropertyEdge: FinetooEdge :=
    FinetooEdge("HAS_PROPERTY", "Entity", "Property", [Prop("value", "string", false, true, false, false)], "Entity has a specific property")

  /** Every relation key of every entity. */
  function RelationKinds(g: Consistency.EntityGraph): set<string> {
    set e, k | e in g && k in g[e].relations :: k
  }

  /** The loop over the relation keys: "is" gives IS_A, "is_not" gives IS_NOT, any other key nothing. */
  function EdgesFor(keys: seq<string>): seq<FinetooEdge>
    decreases |keys|
  {
    if keys == [] then []
    else
      (if keys[0] == "is" then [IsAEdge] else if keys[0] == "is_not" then [IsNotEdge] else []) + EdgesFor(keys[1..])
  }

  /** `_generate_edges`. */
  function GenerateEdges(g: Consistency.EntityGraph): seq<FinetooEdge> {
    EdgesFor(SortSet(RelationKinds(g))) + [HasPropertyEdge]
  }

  lemma IsBeforeIsNot()
    ensures Le("is", "is_not") && "is" != "is_not"
  {
  }

  /** Over ascending keys, IS_A comes exactly when "is" is a key, then IS_NOT exactly when "is_not" is. */
  lemma {:induction false} EdgesForAscending(keys: seq<string>)
    requires Ascending(keys)
    ensures EdgesFor(keys) == (if "is" in keys then [IsAEdge] else []) + (if "is_not" in keys then [IsNotEdge] else [])
    decreases |keys|
  {
    if keys != [] {
      var rest := keys[1..];
      assert Ascending(rest) by {
        forall i, j | 0 <= i < j < |rest| ensures Le(rest[i], rest[j]) && rest[i] != rest[j] {
          assert rest[i] == keys[i + 1] && rest[j] == keys[j + 1];
        }
      }
      EdgesForAscending(rest);
      assert forall x :: x in rest ==> Le(keys[0], x) && keys[0] != x by {
        forall x | x in rest ensures Le(keys[0], x) && keys[0] != x {
          var j :| 0 <= j < |rest| && rest[j] == x;
          assert keys[j + 1] == x;
        }
      }
      if keys[0] == "is_not" && "is" in rest {
        IsBeforeIsNot();
        LeAntisymmetric("is", "is_not");
      }
      assert keys == [keys[0]] + rest;
    }
  }

  /**
    The edge types: IS_A exactly when some statement is an `is`, IS_NOT
    exactly when some statement is an `is not`, IS_A before IS_NOT, and
    HAS_PROPERTY always, last.
   */
  lemma EdgesOfStatements(stmts: seq<LogicalStatement>)
    ensures var r := GenerateEdges(Consistency.BuildEntityGraph(stmts));
      && r[|r| - 1] == HasPropertyEdge
      && r == (if exists i :: 0 <= i < |stmts| && stmts[i].relation == Is then [IsAEdge] else [])
            + (if exists i :: 0 <= i < |stmts| && stmts[i].relation == IsNot then [IsNotEdge] else [])
            + [HasPropertyEdge]
  {
    var g := Consistency.BuildEntityGraph(stmts);
    var keys := SortSet(RelationKinds(g));
    EdgesForAscending(keys);
    KindOfStatements(stmts, "is", Is);
    KindOfStatements(stmts, "is_not", IsNot);
  }

  /** A relation key is present in the graph exactly when some statement uses its relation. */
  lemma KindOfStatements(stmts: seq<LogicalStatement>, key: string, rel: Rel)
    requires (key == "is" && rel == Is) || (key == "is_not" && rel == IsNot)
    ensures key in RelationKinds(Consistency.BuildEntityGraph(stmts)) <==> exists i :: 0 <= i < |stmts| && stmts[i].relation == rel
  {
    var g := Consistency.BuildEntityGraph(stmts);
    if key in RelationKinds(g) {
      var e :| e in g && key in g[e].relations;
      Consistency.BuildRelationKeys(stmts, e, key);
      assert key in Consistency.KeysIn(g, e);
    }
    if exists i :: 0 <= i < |stmts| && stmts[i].relation == rel {
      var i :| 0 <= i < |stmts| && stmts[i].relation == rel;
      var e := stmts[i].subject;
      assert Consistency.Uses(stmts, e, rel);
      Consistency.BuildRelationKeys(stmts, e, key);
      assert key in Consistency.KeysIn(g, e);
    }
  }

  // ---------------------------------------------------------------------
  // Operations
  // ---------------------------------------------------------------------

  datatype Operation =
    | MatchOp(nodeType: string, property: string, description: string)
    | FilterOp(nodeType: string, property: string, operators: seq<string>, description: string)
    | TraverseOp(edgeType: string, source: string, target: string, description: string)
    | AggregateOp(nodeType: string, properties: seq<string>, functions: seq<string>, description: string)

  /** The two per-property groups: MATCH on unique properties, FILTER on comparable ones. */
  datatype PerProperty = ByUnique | ByComparable

  predicate Selects(g: PerProperty, p: FinetooProperty) {
    if g == ByUnique then p.unique else p.comparable
  }

  function OpFor(g: PerProperty, node: string, p: string): Operation {
    if g == ByUnique then MatchOp(node, p, "Find " + node + " by " + p)
    else FilterOp(node, p, ["EQUALS", "NOT_EQUALS"], "Filter " + node + " by " + p)
  }

  function PropertyOps(g: PerProperty, node: string, ps: seq<FinetooProperty>): (r: seq<Operation>)
    ensures forall op :: op in r <==> exists p :: p in ps && Selects(g, p) && op == OpFor(g, node, p.name)
    decreases |ps|
  {
    if ps == [] then []
    else
      var rest := PropertyOps(g, node, ps[1..]);
      assert forall p :: p in ps <==> p == ps[0] || p in ps[1..];
      (if Selects(g, ps[0]) then [OpFor(g, node, ps[0].name)] else []) + rest
  }

  /** One group over every node, in node order. */
  function GroupOps(g: PerProperty, nodes: seq<FinetooNode>): (r: seq<Operation>)
    ensures forall op :: op in r <==> exists n, p :: n in nodes && p in n.properties && Selects(g, p) && op == OpFor(g, n.name, p.name)
    decreases |nodes|
  {
    if nodes == [] then []
    else
      var rest := GroupOps(g, nodes[1..]);
      assert forall n :: n in nodes <==> n == nodes[0] || n in nodes[1..];
      PropertyOps(g, nodes[0].name, nodes[0].properties) + rest
  }

  function TraverseOps(edges: seq<FinetooEdge>): (r: seq<Operation>)
    ensures |r| == |edges| && forall k :: 0 <= k < |r| ==> r[k].TraverseOp? && r[k].edgeType == edges[k].name
  {
    seq(|edges|, i requires 0 <= i < |edges| =>
      TraverseOp(edges[i].name, edges[i].sourceType, edges[i].targetType,
                 "Traverse " + edges[i].name + " from " + edges[i].sourceType + " to " + edges[i].targetType))
  }

  /** The names of a node's aggregable properties, in order. */
  function AggregableNames(ps: seq<FinetooProperty>): (r: seq<string>)
    ensures forall x :: x in r <==> exists p :: p in ps && p.aggregable && p.name == x
    decreases |ps|
  {
    if ps == [] then []
    else
      var rest := AggregableNames(ps[1..]);
      assert forall p :: p in ps <==> p == ps[0] || p in ps[1..];
      (if ps[0].aggregable then [ps[0].name] else []) + rest
  }

  function AggregateOf(n: FinetooNode): Operation {
    AggregateOp(n.name, AggregableNames(n.properties), ["COUNT", "GROUP_BY"], "Aggregate " + n.name + " data")
  }

  /** One AGGREGATE per node with an aggregable property, in node order. */
  function AggregateOps(nodes: seq<FinetooNode>): (r: seq<Operation>)
    ensures forall op :: op in r <==> exists n :: n in nodes && AggregableNames(n.properties) != [] && op == AggregateOf(n)
    decreases |nodes|
  {
    if nodes == [] then []
    else
      var rest := AggregateOps(nodes[1..]);
      assert forall n :: n in nodes <==> n == nodes[0] || n in nodes[1..];
      (if AggregableNames(nodes[0].properties) != [] then [AggregateOf(nodes[0])] else []) + rest
  }

  /** Appending a property appends its operation, if it has one: one operation per selected property, in order. */
  lemma {:induction false} PropertyOpsSnoc(g: PerProperty, node: string, ps: seq<FinetooProperty>, p: FinetooProperty)
    ensures PropertyOps(g, node, ps + [p]) == PropertyOps(g, node, ps) + (if Selects(g, p) then [OpFor(g, node, p.name)] else [])
    decreases |ps|
  {
    var last := if Selects(g, p) then [OpFor(g, node, p.name)] else [];
    if ps == [] {
      assert [p][1..] == [];
      assert PropertyOps(g, node, [p]) == last + PropertyOps(g, node, []);
    } else {
      var q := ps + [p];
      var first := if Selects(g, ps[0]) then [OpFor(g, node, ps[0].name)] else [];
      assert q[0] == ps[0] && q[1..] == ps[1..] + [p];
      assert PropertyOps(g, node, q) == first + PropertyOps(g, node, ps[1..] + [p]);
      PropertyOpsSnoc(g, node, ps[1..], p);
      assert PropertyOps(g, node, ps) == first + PropertyOps(g, node, ps[1..]);
      Seqs.AppendAssoc(first, PropertyOps(g, node, ps[1..]), last);
    }
  }

  /** Appending a node appends its property operations: the group lists the nodes' operations in node order. */
  lemma {:induction false} GroupOpsSnoc(g: PerProperty, nodes: seq<FinetooNode>, n: FinetooNode)
    ensures GroupOps(g, nodes + [n]) == GroupOps(g, nodes) + PropertyOps(g, n.name, n.properties)
    decreases |nodes|
  {
    if nodes == [] {
      assert [n][1..] == [];
    } else {
      assert (nodes + [n])[1..] == nodes[1..] + [n];
      GroupOpsSnoc(g, nodes[1..], n);
    }
  }

  /** Appending a property appends its name exactly when it is aggregable. */
  lemma {:induction false} AggregableNamesSnoc(ps: seq<FinetooProperty>, p: FinetooProperty)
    ensures AggregableNames(ps + [p]) == AggregableNames(ps) + (if p.aggregable then [p.name] else [])
    decreases |ps|
  {
    if ps == [] {
      assert [p][1..] == [];
    } else {
      assert (ps + [p])[1..] == ps[1..] + [p];
      AggregableNamesSnoc(ps[1..], p);
    }
  }

  /** Appending a node appends its AGGREGATE exactly when it has an aggregable property. */
  lemma {:induction false} AggregateOpsSnoc(nodes: seq<FinetooNode>, n: FinetooNode)
    ensures AggregateOps(nodes + [n]) == AggregateOps(nodes) + (if AggregableNames(n.properties) != [] then [AggregateOf(n)] else [])
    decreases |nodes|
  {
    if nodes == [] {
      assert [n][1..] == [];
    } else {
      assert (nodes + [n])[1..] == nodes[1..] + [n];
      AggregateOpsSnoc(nodes[1..], n);
    }
  }

  /** `generate_operations`. */
  function GenerateOperations(s: Schema): seq<Operation> {
    GroupOps(ByUnique, s.nodes) + GroupOps(ByComparable, s.nodes) + TraverseOps(s.edges) + AggregateOps(s.nodes)
  }

  /** The position of an operation's group. */
  function Rank(op: Operation): nat {
    match op
    case MatchOp(_, _, _) => 0
    case FilterOp(_, _, _, _) => 1
    case TraverseOp(_, _, _, _) => 2
    case AggregateOp(_, _, _, _) => 3
  }

  predicate AllRanked(ops: seq<Operation>, c: nat) {
    forall op :: op in ops ==> Rank(op) == c
  }

  predicate RankSorted(ops: seq<Operation>) {
    forall i, j :: 0 <= i < j < |ops| ==> Rank(ops[i]) <= Rank(ops[j])
  }

  lemma GroupRanks(s: Schema)
    ensures AllRanked(GroupOps(ByUnique, s.nodes), 0) && AllRanked(GroupOps(ByComparable, s.nodes), 1)
    ensures AllRanked(TraverseOps(s.edges), 2) && AllRanked(AggregateOps(s.nodes), 3)
  {
  }

  /** Four groups of ranks 0, 1, 2 and 3, one after the other, are in rank order. */
  lemma RankedGroups(m: seq<Operation>, f: seq<Operation>, t: seq<Operation>, a: seq<Operation>)
    requires AllRanked(m, 0) && AllRanked(f, 1) && AllRanked(t, 2) && AllRanked(a, 3)
    ensures RankSorted(m + f + t + a)
  {
    var r := m + f + t + a;
    forall i, j | 0 <= i < j < |r| ensures Rank(r[i]) <= Rank(r[j]) {
      assert r[i] in m || r[i] in f || r[i] in t || r[i] in a;
      assert r[j] in m || r[j] in f || r[j] in t || r[j] in a;
      if j < |m| {
        assert r[i] == m[i] && r[j] == m[j];
      } else if i >= |m| + |f| + |t| {
        assert r[i] == a[i - |m| - |f| - |t|] && r[j] == a[j - |m| - |f| - |t|];
      } else if i >= |m| && j < |m| + |f| {
        assert r[i] == f[i - |m|] && r[j] == f[j - |m|];
      } else if i >= |m| + |f| && j < |m| + |f| + |t| {
        assert r[i] == t[i - |m| - |f|] && r[j] == t[j - |m| - |f|];
      } else if i < |m| {
        assert r[i] == m[i];
      } else if i < |m| + |f| {
        assert r[i] == f[i - |m|];
        assert j >= |m| + |f|;
      } else {
        assert r[i] == t[i - |m| - |f|];
        assert j >= |m| + |f| + |t|;
        assert r[j] == a[j - |m| - |f| - |t|];
      }
    }
  }

  /** The operations run MATCH, FILTER, TRAVERSE, AGGREGATE, one group after the other, with one TRAVERSE per edge type, in edge order. */
  lemma OperationGroups(s: Schema)
    ensures var r := GenerateOperations(s);
      var lo := |GroupOps(ByUnique, s.nodes)| + |GroupOps(ByComparable, s.nodes)|;
      && RankSorted(r)
      && lo + |s.edges| <= |r|
      && forall k :: 0 <= k < |s.edges| ==> r[lo + k].TraverseOp? && r[lo + k].edgeType == s.edges[k].name
  {
    GroupRanks(s);
    RankedGroups(GroupOps(ByUnique, s.nodes), GroupOps(ByComparable, s.nodes), TraverseOps(s.edges), AggregateOps(s.nodes));
  }

  /** MATCH offers exactly the unique properties and FILTER exactly the comparable ones, each with its node type. */
  lemma PropertyOperations(s: Schema, g: PerProperty, node: string, name: string)
    ensures OpFor(g, node, name) in GenerateOperations(s) <==>
      exists n, p :: n in s.nodes && p in n.properties && Selects(g, p) && n.name == node && p.name == name
  {
    GroupRanks(s);
    var op := OpFor(g, node, name);
    var grp := GroupOps(g, s.nodes);
    if op in GenerateOperations(s) {
      assert op in grp;
      var n, p :| n in s.nodes && p in n.properties && Selects(g, p) && op == OpFor(g, n.name, p.name);
      OpForInjective(g, node, name, n.name, p.name);
    }
  }

  /** The operation determines its node type and property. */
  lemma OpForInjective(g: PerProperty, node: string, p: string, node': string, p': string)
    requires OpFor(g, node, p) == OpFor(g, node', p')
    ensures node == node' && p == p'
  {
  }

  /** AGGREGATE appears exactly for the nodes that have an aggregable property, and lists exactly those properties. */
  lemma AggregateOperations(s: Schema, n: FinetooNode, x: string)
    requires n in s.nodes
    ensures AggregateOf(n) in GenerateOperations(s) <==> exists p :: p in n.properties && p.aggregable
    ensures x in AggregateOf(n).properties <==> exists p :: p in n.properties && p.aggregable && p.name == x
  {
    GroupRanks(s);
    var a := AggregateOps(s.nodes);
    if exists p :: p in n.properties && p.aggregable {
      var p :| p in n.properties && p.aggregable;
      assert p.name in AggregableNames(n.properties);
      assert AggregateOf(n) in a;
    }
    if AggregateOf(n) in GenerateOperations(s) {
      assert AggregateOf(n) in a;
      var m :| m in s.nodes && AggregableNames(m.properties) != [] && AggregateOf(n) == AggregateOf(m);
      assert AggregableNames(n.properties)[0] in AggregableNames(n.properties);
    }
  }
}
