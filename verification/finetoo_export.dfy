/**
  Serialising a Finetoo schema. The protobuf text format is modelled line
  by line; the JSON form is `json.dumps` of the schema's dictionary and is
  taken as an argument. The two numbers of the protobuf header are printed
  with Python's float formatting, which the model also takes as arguments.
 */
module FinetooExport {
  import opened Wrappers
  import opened Text
  import opened FinetooSchema

  /** `export_schema`: the two supported formats, anything else an error naming the format. */
  function ExportSchema(s: Schema, format: string, json: string, score: string, obstruction: string): (r: Result<string, string>)
    ensures r.Ok? <==> format == "json" || format == "protobuf"
    ensures format == "json" ==> r == Ok(json)
    ensures format == "protobuf" ==> r == Ok(ExportProtobuf(s, score, obstruction))
    ensures r.Err? ==> r.error == "Unsupported format: " + format
  {
    if format == "json" then Ok(json)
    else if format == "protobuf" then Ok(ExportProtobuf(s, score, obstruction))
    else Err("Unsupported format: " + format)
  }

  // ---------------------------------------------------------------------
  // Fields
  // ---------------------------------------------------------------------

  /** `type_map.get(kind, 'string')`. */
  function ProtoType(kind: string): (r: string)
    ensures r == "string" || r == "bool" || r == "float" || r == "int32"
    ensures r == "bool" <==> kind == "boolean"
    ensures r == "int32" <==> kind == "int"
    ensures r == "float" <==> kind == "float"
  {
    if kind == "boolean" then "bool"
    else if kind == "float" then "float"
    else if kind == "int" then "int32"
    else "string"
  }

  /** The semantic comments, in the order a field lists them. */
  function FlagName(k: nat): string
    requires k < 4
  {
    if k == 0 then "unique" else if k == 1 then "comparable" else if k == 2 then "indexed" else "aggregable"
  }

  lemma FlagNameFacts(k: nat)
    requires k < 4
    ensures FlagName(k) == "unique" <==> k == 0
    ensures FlagName(k) == "comparable" <==> k == 1
    ensures FlagName(k) == "indexed" <==> k == 2
    ensures FlagName(k) == "aggregable" <==> k == 3
    ensures '\n' !in FlagName(k)
  {
    if k == 0 {
    } else if k == 1 {
    } else if k == 2 {
    } else {
    }
  }

  /** Whether a property carries the `k`-th semantic flag. */
  predicate Has(p: FinetooProperty, k: nat) {
    if k == 0 then p.unique else if k == 1 then p.comparable else if k == 2 then p.indexed else p.aggregable
  }

  /** The positions, from the `k`-th on, of the flags a property carries, in increasing order. */
  function FlagIndices(p: FinetooProperty, k: nat): (r: seq<nat>)
    requires k <= 4
    ensures forall i :: 0 <= i < |r| ==> k <= r[i] < 4 && Has(p, r[i])
    ensures forall j :: k <= j < 4 && Has(p, j) ==> j in r
    ensures forall i, j :: 0 <= i < j < |r| ==> r[i] < r[j]
    decreases 4 - k
  {
    if k == 4 then []
    else (if Has(p, k) then [k] else []) + FlagIndices(p, k + 1)
  }

  /** The semantic comments of a node property, in the order unique, comparable, indexed, aggregable. */
  function Flags(p: FinetooProperty): (r: seq<string>)
    ensures |r| <= 4
  {
    var ix := FlagIndices(p, 0);
    seq(|ix|, i requires 0 <= i < |ix| => FlagName(ix[i]))
  }

  lemma FlagNameInjective(a: nat, b: nat)
    requires a < 4 && b < 4 && FlagName(a) == FlagName(b)
    ensures a == b
  {
    FlagNameFacts(a);
    FlagNameFacts(b);
  }

  /** Every flag the property carries gets its comment. */
  lemma FlagPresent(p: FinetooProperty, j: nat)
    requires j < 4 && Has(p, j)
    ensures FlagName(j) in Flags(p)
  {
    var ix := FlagIndices(p, 0);
    var i :| 0 <= i < |ix| && ix[i] == j;
    assert Flags(p)[i] == FlagName(j);
  }

  /** Every comment stands for a flag the property carries. */
  lemma FlagSound(p: FinetooProperty, j: nat)
    requires j < 4 && FlagName(j) in Flags(p)
    ensures Has(p, j)
  {
    var ix := FlagIndices(p, 0);
    var r := Flags(p);
    var i :| 0 <= i < |r| && r[i] == FlagName(j);
    assert r[i] == FlagName(ix[i]);
    FlagNameInjective(j, ix[i]);
  }

  /** A flag's comment is listed exactly when the property carries the flag. */
  lemma FlagListed(p: FinetooProperty, j: nat)
    requires j < 4
    ensures FlagName(j) in Flags(p) <==> Has(p, j)
  {
    if Has(p, j) {
      FlagPresent(p, j);
    }
    if FlagName(j) in Flags(p) {
      FlagSound(p, j);
    }
  }

  /** Each comment stands for a flag the property carries, and every flag it carries gets its comment. */
  lemma FlagsExactly(p: FinetooProperty)
    ensures "unique" in Flags(p) <==> p.unique
    ensures "comparable" in Flags(p) <==> p.comparable
    ensures "indexed" in Flags(p) <==> p.indexed
    ensures "aggregable" in Flags(p) <==> p.aggregable
  {
    FlagListed(p, 0);
    FlagListed(p, 1);
    FlagListed(p, 2);
    FlagListed(p, 3);
  }

  /** No comment spans lines. */
  lemma FlagsClear(p: FinetooProperty)
    ensures forall k :: 0 <= k < |Flags(p)| ==> '\n' !in Flags(p)[k]
  {
    var ix := FlagIndices(p, 0);
    forall k | 0 <= k < |Flags(p)| ensures '\n' !in Flags(p)[k] {
      assert Flags(p)[k] == FlagName(ix[k]);
      FlagNameFacts(ix[k]);
    }
  }

  datatype Field = Field(protoType: string, name: string, number: nat, comments: seq<string>)

  /** Field numbers run 1, 2, 3, … without gaps: each positive and used once, as protobuf requires. */
  predicate Numbered(fs: seq<Field>) {
    forall k :: 0 <= k < |fs| ==> fs[k].number == k + 1
  }

  /** The fields of a node message: one per property, numbered from 1, carrying its comments. */
  function NodeFields(n: FinetooNode): (r: seq<Field>)
    ensures Numbered(r) && |r| == |n.properties|
    ensures forall k :: 0 <= k < |r| ==> r[k].name == n.properties[k].name && r[k].comments == Flags(n.properties[k])
  {
    var ps := n.properties;
    seq(|ps|, i requires 0 <= i < |ps| => Field(ProtoType(ps[i].kind), ps[i].name, i + 1, Flags(ps[i])))
  }

  /** The fields of an edge message: the source and target type names as 1 and 2, then the properties from 3, without comments. */
  function EdgeFields(e: FinetooEdge): (r: seq<Field>)
    ensures Numbered(r) && |r| == |e.properties| + 2
    ensures r[0].name == "source_" + Lower(e.sourceType) && r[1].name == "target_" + Lower(e.targetType)
    ensures forall k :: 0 <= k < |e.properties| ==> r[k + 2].name == e.properties[k].name
    ensures forall k :: 0 <= k < |r| ==> r[k].comments == []
  {
    var ps := e.properties;
    [Field("string", "source_" + Lower(e.sourceType), 1, []), Field("string", "target_" + Lower(e.targetType), 2, [])]
    + seq(|ps|, i requires 0 <= i < |ps| => Field(ProtoType(ps[i].kind), ps[i].name, i + 3, []))
  }

  // ---------------------------------------------------------------------
  // Lines
  // ---------------------------------------------------------------------

  function FieldLine(f: Field): string {
    "  " + f.protoType + " " + f.name + " = " + NatToString(f.number) + ";"
    + (if f.comments == [] then "" else "  // " + Join(f.comments, ", "))
  }

  function FieldLines(fs: seq<Field>): (r: seq<string>)
    ensures |r| == |fs|
  {
    seq(|fs|, i requires 0 <= i < |fs| => FieldLine(fs[i]))
  }

  function NodeLines(n: FinetooNode): seq<string> {
    ["message " + n.name + " {"]
    + (if n.description != "" then ["  // " + n.description] else [])
    + FieldLines(NodeFields(n))
    + ["}", ""]
  }

  function EdgeLines(e: FinetooEdge): seq<string> {
    ["message " + e.name + " {", "  // " + e.description] + FieldLines(EdgeFields(e)) + ["}", ""]
  }

  const Banner: string := "// Auto-generated Finetoo Schema from thoughts"

  function HeaderLines(score: string, obstruction: string): seq<string> {
    [Banner,
     "// Consistency Score: " + score + "%",
     "// Cohomological Obstruction: " + obstruction,
     ""]
  }

  function NodesLines(nodes: seq<FinetooNode>): seq<string>
    decreases |nodes|
  {
    if nodes == [] then [] else NodeLines(nodes[0]) + NodesLines(nodes[1..])
  }

  function EdgesLines(edges: seq<FinetooEdge>): seq<string>
    decreases |edges|
  {
    if edges == [] then [] else EdgeLines(edges[0]) + EdgesLines(edges[1..])
  }

  function ProtobufLines(s: Schema, score: string, obstruction: string): seq<string> {
    HeaderLines(score, obstruction) + NodesLines(s.nodes) + EdgesLines(s.edges)
  }

  /** `_export_protobuf`. */
  function ExportProtobuf(s: Schema, score: string, obstruction: string): string {
    Join(ProtobufLines(s, score, obstruction), "\n")
  }

  // ---------------------------------------------------------------------
  // The exported text splits back into its lines
  // ---------------------------------------------------------------------

  predicate Clear(lines: seq<string>) {
    forall k :: 0 <= k < |lines| ==> '\n' !in lines[k]
  }

  predicate PropertiesClear(ps: seq<FinetooProperty>) {
    forall k :: 0 <= k < |ps| ==> '\n' !in ps[k].name
  }

  /** No name or description of the schema spans lines. */
  predicate SingleLine(s: Schema) {
    && (forall k :: 0 <= k < |s.nodes| ==>
          '\n' !in s.nodes[k].name && '\n' !in s.nodes[k].description && PropertiesClear(s.nodes[k].properties))
    && (forall k :: 0 <= k < |s.edges| ==>
          && '\n' !in s.edges[k].name && '\n' !in s.edges[k].description
          && '\n' !in s.edges[k].sourceType && '\n' !in s.edges[k].targetType
          && PropertiesClear(s.edges[k].properties))
  }

  lemma LowerClear(t: string)
    requires '\n' !in t
    ensures '\n' !in Lower(t)
  {
    var l := Lower(t);
    forall k | 0 <= k < |l| ensures l[k] != '\n' {
      assert l[k] == LowerChar(t[k]);
    }
  }

  lemma NumberClear(n: nat)
    ensures '\n' !in NatToString(n)
  {
    NatToStringDigits(n);
    var d := NatToString(n);
    forall k | 0 <= k < |d| ensures d[k] != '\n' {
      assert IsDigit(d[k]);
    }
  }

  lemma ProtoTypeClear(kind: string)
    ensures '\n' !in ProtoType(kind)
  {
  }

  lemma FieldLineClear(f: Field)
    requires '\n' !in f.protoType && '\n' !in f.name
    requires forall k :: 0 <= k < |f.comments| ==> '\n' !in f.comments[k]
    ensures '\n' !in FieldLine(f)
  {
    NumberClear(f.number);
    JoinFree(f.comments, ", ", '\n');
  }

  lemma NodeLinesClear(n: FinetooNode)
    requires '\n' !in n.name && '\n' !in n.description && PropertiesClear(n.properties)
    ensures Clear(NodeLines(n))
  {
    var fs := NodeFields(n);
    var ls := FieldLines(fs);
    forall k | 0 <= k < |fs| ensures '\n' !in ls[k] {
      var p := n.properties[k];
      assert fs[k] == Field(ProtoType(p.kind), p.name, k + 1, Flags(p));
      assert '\n' !in p.name;
      ProtoTypeClear(p.kind);
      FlagsClear(p);
      FieldLineClear(fs[k]);
    }
  }

  lemma EdgeLinesClear(e: FinetooEdge)
    requires '\n' !in e.name && '\n' !in e.description && '\n' !in e.sourceType && '\n' !in e.targetType
    requires PropertiesClear(e.properties)
    ensures Clear(EdgeLines(e))
  {
    var fs := EdgeFields(e);
    var ls := FieldLines(fs);
    LowerClear(e.sourceType);
    LowerClear(e.targetType);
    forall k | 0 <= k < |fs| ensures '\n' !in ls[k] {
      if k >= 2 {
        var p := e.properties[k - 2];
        assert fs[k] == Field(ProtoType(p.kind), p.name, k + 1, []);
        assert '\n' !in p.name;
        ProtoTypeClear(p.kind);
      }
      FieldLineClear(fs[k]);
    }
  }

  lemma ClearAppend(a: seq<string>, b: seq<string>)
    requires Clear(a) && Clear(b)
    ensures Clear(a + b)
  {
    forall k | 0 <= k < |a + b| ensures '\n' !in (a + b)[k] {
      if k >= |a| {
        assert (a + b)[k] == b[k - |a|];
      }
    }
  }

  lemma {:induction false} NodesLinesClear(nodes: seq<FinetooNode>)
    requires forall k :: 0 <= k < |nodes| ==>
      '\n' !in nodes[k].name && '\n' !in nodes[k].description && PropertiesClear(nodes[k].properties)
    ensures Clear(NodesLines(nodes))
    decreases |nodes|
  {
    if nodes != [] {
      NodeLinesClear(nodes[0]);
      NodesLinesClear(nodes[1..]);
      ClearAppend(NodeLines(nodes[0]), NodesLines(nodes[1..]));
    }
  }

  lemma {:induction false} EdgesLinesClear(edges: seq<FinetooEdge>)
    requires forall k :: 0 <= k < |edges| ==>
      && '\n' !in edges[k].name && '\n' !in edges[k].description
      && '\n' !in edges[k].sourceType && '\n' !in edges[k].targetType
      && PropertiesClear(edges[k].properties)
    ensures Clear(EdgesLines(edges))
    decreases |edges|
  {
    if edges != [] {
      EdgeLinesClear(edges[0]);
      EdgesLinesClear(edges[1..]);
      ClearAppend(EdgeLines(edges[0]), EdgesLines(edges[1..]));
    }
  }

  /** The banner is one line. */
  lemma BannerClear()
    ensures '\n' !in Banner
  {
    var a, b, c := "// Auto-generated ", "Finetoo Schema ", "from thoughts";
    assert Banner == a + b + c;
    assert '\n' !in a && '\n' !in b && '\n' !in c;
  }

  /** The header lines hold no newline when the two numbers do not. */
  lemma HeaderClear(score: string, obstruction: string)
    requires '\n' !in score && '\n' !in obstruction
    ensures Clear(HeaderLines(score, obstruction))
  {
    BannerClear();
    assert '\n' !in "// Consistency Score: " && '\n' !in "%" && '\n' !in "// Cohomological Obstruction: ";
  }

  /**
    Reading the protobuf text line by line gives back exactly the header,
    then each node message, then each edge message, when no name or
    description spans lines.
   */
  lemma ExportedLines(s: Schema, score: string, obstruction: string)
    requires SingleLine(s) && '\n' !in score && '\n' !in obstruction
    ensures Split(ExportProtobuf(s, score, obstruction), "\n") == ProtobufLines(s, score, obstruction)
  {
    NodesLinesClear(s.nodes);
    EdgesLinesClear(s.edges);
    var h := HeaderLines(score, obstruction);
    var lines := ProtobufLines(s, score, obstruction);
    HeaderClear(score, obstruction);
    ClearAppend(h, NodesLines(s.nodes));
    ClearAppend(h + NodesLines(s.nodes), EdgesLines(s.edges));
    assert lines == h + NodesLines(s.nodes) + EdgesLines(s.edges);
    SplitJoin(lines, '\n');
  }
}
