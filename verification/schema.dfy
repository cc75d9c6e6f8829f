/**
  The schema registry: the fixed schema of a DXF property graph, the four
  flag queries over a node type's properties, the list of edge-type names,
  and the validator that reports the first problem it finds.
 */
module GraphSchema {
  import opened Wrappers
  import opened Status

  datatype PropType = StringType | DoubleType

  /** A declared property with its four operational flags. */
  datatype Property = Property(name: string, ptype: PropType, unique: bool, indexed: bool, comparable: bool, aggregable: bool)

  datatype NodeType = NodeType(name: string, properties: seq<Property>)

  datatype EdgeType = EdgeType(name: string, sourceType: string, targetType: string)

  datatype Schema = Schema(
    sourceFormat: string,
    formatVersion: string,
    schemaVersion: string,
    nodeTypes: seq<NodeType>,
    edgeTypes: seq<EdgeType>)

  /** A default-constructed schema: every field empty. */
  const EmptySchema := Schema("", "", "", [], [])

  /** The four flags the `Find*Properties` queries select on. */
  datatype Flag = Unique | Indexed | Comparable | Aggregable

  predicate HasFlag(p: Property, f: Flag) {
    match f
    case Unique => p.unique
    case Indexed => p.indexed
    case Comparable => p.comparable
    case Aggregable => p.aggregable
  }

  // ---------------------------------------------------------------------
  // The DXF schema
  // ---------------------------------------------------------------------

  function StringProp(name: string, unique: bool, indexed: bool, comparable: bool): Property {
    Property(name, StringType, unique, indexed, comparable, false)
  }

  const EntityType := NodeType("Entity", [
    StringProp("handle", true, true, false),
    StringProp("type", false, true, false),
    StringProp("layer", false, true, false),
    Property("x", DoubleType, false, false, true, true),
    Property("y", DoubleType, false, false, true, true)])

  const BlockType := NodeType("Block", [
    StringProp("name", true, true, false),
    StringProp("content_hash", false, false, true)])

  const LayerType := NodeType("Layer", [StringProp("name", true, true, false)])

  const DxfEdgeTypes := [
    EdgeType("BELONGS_TO", "Entity", "Layer"),
    EdgeType("CONTAINS", "Block", "Entity"),
    EdgeType("REFERENCES", "Entity", "Block")]

  /** `CreateDXFSchema`: never fails; the version is stored as given. */
  function CreateDXFSchema(version: string): (r: Result<Schema, Error>)
    ensures r.Ok?
    ensures r.value.sourceFormat == "DXF" && r.value.formatVersion == version && r.value.schemaVersion == "1.0.0"
    ensures |r.value.nodeTypes| == 3 && |r.value.edgeTypes| == 3
    ensures r.value.nodeTypes[0].name == "Entity" && r.value.nodeTypes[1].name == "Block" && r.value.nodeTypes[2].name == "Layer"
  {
    Ok(Schema("DXF", version, "1.0.0", [EntityType, BlockType, LayerType], DxfEdgeTypes))
  }

  // ---------------------------------------------------------------------
  // Flag queries
  // ---------------------------------------------------------------------

  /** `i` is the first node type of `nts` called `name`. */
  predicate IsFirstNamed(nts: seq<NodeType>, name: string, i: nat) {
    i < |nts| && nts[i].name == name && forall j :: 0 <= j < i ==> nts[j].name != name
  }

  /** The first node type with the given name, as the queries' `break` finds it. */
  function FirstNodeType(nts: seq<NodeType>, name: string): (r: Option<NodeType>)
    ensures r.None? <==> forall i :: 0 <= i < |nts| ==> nts[i].name != name
    ensures r.Some? ==> exists i: nat :: IsFirstNamed(nts, name, i) && r.value == nts[i]
    decreases |nts|
  {
    if nts == [] then None
    else if nts[0].name == name then
      assert IsFirstNamed(nts, name, 0);
      Some(nts[0])
    else
      var r := FirstNodeType(nts[1..], name);
      if r.Some? then
        var i: nat :| IsFirstNamed(nts[1..], name, i) && r.value == nts[1..][i];
        assert IsFirstNamed(nts, name, i + 1);
        r
      else
        assert forall i :: 1 <= i < |nts| ==> nts[i] == nts[1..][i - 1];
        r
  }

  /** The names of the properties carrying `f`, in declaration order. */
  function Flagged(props: seq<Property>, f: Flag): (r: seq<string>)
    ensures |r| <= |props|
    ensures forall x :: x in r <==> exists i :: 0 <= i < |props| && HasFlag(props[i], f) && props[i].name == x
    decreases |props|
  {
    if props == [] then []
    else
      var rest := Flagged(props[1..], f);
      assert forall i :: 1 <= i < |props| ==> props[i] == props[1..][i - 1];
      if HasFlag(props[0], f) then [props[0].name] + rest else rest
  }

  /** Filtering a concatenation filters each part, keeping their order. */
  lemma {:induction false} FlaggedAppend(a: seq<Property>, b: seq<Property>, f: Flag)
    ensures Flagged(a + b, f) == Flagged(a, f) + Flagged(b, f)
    decreases |a|
  {
    if a == [] {
      assert a + b == b;
    } else {
      assert (a + b)[1..] == a[1..] + b;
      FlaggedAppend(a[1..], b, f);
    }
  }

  /** `Find*Properties(schema, node_type)`: flagged names of the first node type so named; none for an unknown type. */
  function FindProperties(s: Schema, nodeType: string, f: Flag): (r: seq<string>)
    ensures (forall i :: 0 <= i < |s.nodeTypes| ==> s.nodeTypes[i].name != nodeType) ==> r == []
    ensures forall i: nat :: IsFirstNamed(s.nodeTypes, nodeType, i) ==> r == Flagged(s.nodeTypes[i].properties, f)
  {
    match FirstNodeType(s.nodeTypes, nodeType)
    case None => []
    case Some(nt) => Flagged(nt.properties, f)
  }

  function FindUniqueProperties(s: Schema, nodeType: string): seq<string> { FindProperties(s, nodeType, Unique) }
  function FindIndexedProperties(s: Schema, nodeType: string): seq<string> { FindProperties(s, nodeType, Indexed) }
  function FindComparableProperties(s: Schema, nodeType: string): seq<string> { FindProperties(s, nodeType, Comparable) }
  function FindAggregableProperties(s: Schema, nodeType: string): seq<string> { FindProperties(s, nodeType, Aggregable) }

  /** The flag queries over the DXF schema's Entity type. */
  lemma DxfEntityFlags(v: string)
    ensures FindUniqueProperties(CreateDXFSchema(v).value, "Entity") == ["handle"]
    ensures FindIndexedProperties(CreateDXFSchema(v).value, "Entity") == ["handle", "type", "layer"]
    ensures FindComparableProperties(CreateDXFSchema(v).value, "Entity") == ["x", "y"]
    ensures FindAggregableProperties(CreateDXFSchema(v).value, "Entity") == ["x", "y"]
  {
    assert IsFirstNamed(CreateDXFSchema(v).value.nodeTypes, "Entity", 0);
  }

  /** The flag queries over the DXF schema's Block type. */
  lemma DxfBlockFlags(v: string)
    ensures FindUniqueProperties(CreateDXFSchema(v).value, "Block") == ["name"]
    ensures FindComparableProperties(CreateDXFSchema(v).value, "Block") == ["content_hash"]
    ensures FindAggregableProperties(CreateDXFSchema(v).value, "Block") == []
  {
    assert IsFirstNamed(CreateDXFSchema(v).value.nodeTypes, "Block", 1);
  }

  /** The flag queries over the DXF schema's Layer type. */
  lemma DxfLayerFlags(v: string)
    ensures FindUniqueProperties(CreateDXFSchema(v).value, "Layer") == ["name"]
    ensures FindIndexedProperties(CreateDXFSchema(v).value, "Layer") == ["name"]
  {
    assert IsFirstNamed(CreateDXFSchema(v).value.nodeTypes, "Layer", 2);
  }

  /** A node type the DXF schema does not declare has no flagged properties. */
  lemma DxfUnknownType(v: string, t: string, f: Flag)
    requires t != "Entity" && t != "Block" && t != "Layer"
    ensures FindProperties(CreateDXFSchema(v).value, t, f) == []
  {
  }

  /** `GetTraversableEdgeTypes`: every edge-type name, in order, none filtered out. */
  function EdgeTypeNames(s: Schema): (r: seq<string>)
    ensures |r| == |s.edgeTypes|
    ensures forall i :: 0 <= i < |r| ==> r[i] == s.edgeTypes[i].name
  {
    seq(|s.edgeTypes|, i requires 0 <= i < |s.edgeTypes| => s.edgeTypes[i].name)
  }

  lemma DxfEdgeTypeNames(v: string)
    ensures EdgeTypeNames(CreateDXFSchema(v).value) == ["BELONGS_TO", "CONTAINS", "REFERENCES"]
  {
  }

  // ---------------------------------------------------------------------
  // Validation
  // ---------------------------------------------------------------------

  function NodeTypeNames(nts: seq<NodeType>): set<string> {
    set i | 0 <= i < |nts| :: nts[i].name
  }

  /** The first problem among the edge types, checking each edge's source before its target. */
  function FirstBadEdge(es: seq<EdgeType>, names: set<string>): (r: Option<Error>)
    ensures r.None? <==> forall i :: 0 <= i < |es| ==> es[i].sourceType in names && es[i].targetType in names
    ensures r.Some? ==> r.value.code == InvalidArgument
    decreases |es|
  {
    if es == [] then None
    else if es[0].sourceType !in names then
      Some(Error(InvalidArgument, "Edge type '" + es[0].name + "' references unknown source type '" + es[0].sourceType + "'"))
    else if es[0].targetType !in names then
      Some(Error(InvalidArgument, "Edge type '" + es[0].name + "' references unknown target type '" + es[0].targetType + "'"))
    else
      assert forall i :: 1 <= i < |es| ==> es[i] == es[1..][i - 1];
      FirstBadEdge(es[1..], names)
  }

  /** `ValidateSchema`: OK exactly when there is a node type, a source format, and every edge names declared types. */
  function ValidateSchema(s: Schema): (r: Result<(), Error>)
    ensures r.Ok? <==> && |s.nodeTypes| > 0 && s.sourceFormat != ""
                       && forall i :: 0 <= i < |s.edgeTypes| ==>
                            s.edgeTypes[i].sourceType in NodeTypeNames(s.nodeTypes)
                            && s.edgeTypes[i].targetType in NodeTypeNames(s.nodeTypes)
    ensures r.Err? ==> r.error.code == InvalidArgument
    ensures |s.nodeTypes| == 0 ==> r == Err(Error(InvalidArgument, "Schema must have at least one node type"))
    ensures |s.nodeTypes| > 0 && s.sourceFormat == "" ==> r == Err(Error(InvalidArgument, "Schema must specify source_format"))
  {
    if |s.nodeTypes| == 0 then Err(Error(InvalidArgument, "Schema must have at least one node type"))
    else if s.sourceFormat == "" then Err(Error(InvalidArgument, "Schema must specify source_format"))
    else match FirstBadEdge(s.edgeTypes, NodeTypeNames(s.nodeTypes))
      case Some(e) => Err(e)
      case None => Ok(())
  }

  /** Only the first bad edge is reported: edges before it are fine, and its source is checked before its target. */
  lemma ValidateReportsFirstEdge(s: Schema, k: nat)
    requires |s.nodeTypes| > 0 && s.sourceFormat != "" && k < |s.edgeTypes|
    requires forall i :: 0 <= i < k ==> (s.edgeTypes[i].sourceType in NodeTypeNames(s.nodeTypes)
                                         && s.edgeTypes[i].targetType in NodeTypeNames(s.nodeTypes))
    requires s.edgeTypes[k].sourceType !in NodeTypeNames(s.nodeTypes) || s.edgeTypes[k].targetType !in NodeTypeNames(s.nodeTypes)
    ensures ValidateSchema(s) == Err(FirstBadEdge([s.edgeTypes[k]], NodeTypeNames(s.nodeTypes)).value)
  {
    FirstBadEdgeAt(s.edgeTypes, NodeTypeNames(s.nodeTypes), k);
  }

  lemma {:induction false} FirstBadEdgeAt(es: seq<EdgeType>, names: set<string>, k: nat)
    requires k < |es|
    requires forall i :: 0 <= i < k ==> es[i].sourceType in names && es[i].targetType in names
    requires es[k].sourceType !in names || es[k].targetType !in names
    ensures FirstBadEdge(es, names) == FirstBadEdge([es[k]], names)
    decreases k
  {
    if k > 0 {
      assert forall i :: 0 <= i < k - 1 ==> es[1..][i] == es[i + 1];
      FirstBadEdgeAt(es[1..], names, k - 1);
    }
  }

  /** The DXF schema is valid, whatever its version string. */
  lemma DxfSchemaValid(v: string)
    ensures ValidateSchema(CreateDXFSchema(v).value) == Ok(())
  {
    var s := CreateDXFSchema(v).value;
    assert "Entity" in NodeTypeNames(s.nodeTypes) by { assert s.nodeTypes[0].name == "Entity"; }
    assert "Block" in NodeTypeNames(s.nodeTypes) by { assert s.nodeTypes[1].name == "Block"; }
    assert "Layer" in NodeTypeNames(s.nodeTypes) by { assert s.nodeTypes[2].name == "Layer"; }
  }
}
