/**
  The query service: a natural-language question becomes a prompt that lists
  the graph's schema, the language model's reply is cut out of its markdown
  fences and read as an operation plan, the plan's operations run one after
  another, and the last result is laid out as a bill-of-materials table.

  Strings are C++ byte strings: one `char` per byte, so the UTF-8 arrow and
  box-drawing glyphs are written as their three bytes each.
 */
module Query {
  import opened Wrappers
  import opened Status
  import opened Text
  import GraphSchema
  import Graph
  import opened Operations
  import Bom

  // ---------------------------------------------------------------------
  // The prompt
  // ---------------------------------------------------------------------

  /**
    The fixed wording of the prompt: the text before the node types, the
    operation guide between the edge types and the user's query (it ends by
    opening a quote), and the text after the query (it asks for bare JSON
    and does not close that quote).
   */
  datatype Wording = Wording(preamble: string, guide: string, closing: string)

  /** The wording the service sends. */
  const ServiceWording: Wording := Wording(
    "You are an operation composer for engineering document analysis using a property graph database.\n"
      + "\n"
      + "AVAILABLE SCHEMA:\n"
      + "\n"
      + "Node Types:\n",
    // the guide
    "\n"
      + "AVAILABLE OPERATIONS (discovered from schema metadata):\n"
      + "\n"
      + "1. FILTER - Select nodes by criteria\n"
      + "   {\n"
      + "     \"type\": \"FILTER\",\n"
      + "     \"target_type\": \"Entity\",\n"
      + "     \"property_name\": \"type\",\n"
      + "     \"parameters\": {\"operator\": \"EQUALS\", \"value\": \"INSERT\"}\n"
      + "   }\n"
      + "   Example: Find all INSERT entities (each INSERT is a part instance in the drawing)\n"
      + "\n"
      + "2. TRAVERSE - Follow edges to find connected nodes\n"
      + "   {\n"
      + "     \"type\": \"TRAVERSE\",\n"
      + "     \"parameters\": {\"edge_type\": \"REFERENCES\", \"start_node_ids\": \"comma-separated-ids\"}\n"
      + "   }\n"
      + "   Example: Follow REFERENCES edges from INSERT entities to find which Block each references\n"
      + "\n"
      + "3. AGGREGATE - Count/sum/group nodes\n"
      + "   {\n"
      + "     \"type\": \"AGGREGATE\",\n"
      + "     \"target_type\": \"Entity\",\n"
      + "     \"property_name\": \"gc_2\",\n"
      + "     \"parameters\": {\"function\": \"COUNT\", \"group_by\": \"gc_2\"}\n"
      + "   }\n"
      + "   Example: Count INSERT entities grouped by gc_2 (which contains the block name they reference)\n"
      + "\n"
      + "IMPORTANT FOR BOM GENERATION:\n"
      + "- Each INSERT entity represents ONE instance of a part in the drawing\n"
      + "- The block name is stored in the INSERT entity's property \"gc_2\" (group code 2 in DXF)\n"
      + "- To get part quantities, you must AGGREGATE the INSERT entities (instances), NOT the Block definitions\n"
      + "- Block definitions are just templates - there's only 1 of each\n"
      + "- INSERT instances can appear many times - these are the actual parts used\n"
      + "\n"
      + "USER QUERY: \"",
    // the closing
    "\n"
      + "\n"
      + "Compose an operation plan to answer this query. Return ONLY valid JSON (no markdown, no code blocks):\n"
      + "\n"
      + "{\n"
      + "  \"query\": \"the original query\",\n"
      + "  \"reasoning\": \"brief explanation of your approach\",\n"
      + "  \"operations\": [\n"
      + "    {operation objects as shown above}\n"
      + "  ]\n"
      + "}\n")

  const EdgeHeading: string := "\nEdge Types:\n"

  /** `→` (U+2192) in UTF-8, between two spaces. */
  const Arrow: string := " \U{E2}\U{86}\U{92} "

  /** A property as the prompt lists it: its name, then its flags in a fixed order, then `, `. */
  function PropLabel(p: GraphSchema.Property): string {
    p.name
    + (if p.unique then " (unique)" else "")
    + (if p.indexed then " (indexed)" else "")
    + (if p.comparable then " (comparable)" else "")
    + (if p.aggregable then " (aggregable)" else "")
    + ", "
  }

  function NodeLine(nt: GraphSchema.NodeType): string {
    "- " + nt.name + ": properties [" + Concat(seq(|nt.properties|, i requires 0 <= i < |nt.properties| => PropLabel(nt.properties[i]))) + "]\n"
  }

  function EdgeLine(et: GraphSchema.EdgeType): string {
    "- " + et.name + ": " + et.sourceType + Arrow + et.targetType + "\n"
  }

  function NodeLines(nts: seq<GraphSchema.NodeType>): seq<string> {
    seq(|nts|, i requires 0 <= i < |nts| => NodeLine(nts[i]))
  }

  function EdgeLines(ets: seq<GraphSchema.EdgeType>): seq<string> {
    seq(|ets|, i requires 0 <= i < |ets| => EdgeLine(ets[i]))
  }

  /** Everything of the prompt that comes before the user's query. */
  function PromptHead(schema: GraphSchema.Schema, w: Wording): string {
    w.preamble + Concat(NodeLines(schema.nodeTypes)) + EdgeHeading + Concat(EdgeLines(schema.edgeTypes)) + w.guide
  }

  /** The prompt in wording `w`: the schema's node and edge types in schema order, the guide, then the query quoted. */
  function Prompt(query: string, schema: GraphSchema.Schema, w: Wording): (r: string)
    ensures |r| == |PromptHead(schema, w)| + |query| + |w.closing|
    ensures r[..|PromptHead(schema, w)|] == PromptHead(schema, w)
    ensures r[|PromptHead(schema, w)|..|PromptHead(schema, w)| + |query|] == query
  {
    PromptHead(schema, w) + query + w.closing
  }

  /** `BuildPrompt`. */
  function BuildPrompt(query: string, schema: GraphSchema.Schema): string {
    Prompt(query, schema, ServiceWording)
  }

  /** The query can be read back out of the prompt, so different questions give different prompts. */
  lemma PromptDeterminesQuery(q1: string, q2: string, schema: GraphSchema.Schema, w: Wording)
    requires Prompt(q1, schema, w) == Prompt(q2, schema, w)
    ensures q1 == q2
  {
  }

  /** The line of the `i`-th node type stands in the prompt right after the preamble and the lines before it. */
  lemma NodeLineInPrompt(query: string, schema: GraphSchema.Schema, w: Wording, i: nat)
    requires i < |schema.nodeTypes|
    ensures OccursAt(Prompt(query, schema, w), NodeLine(schema.nodeTypes[i]),
                     |w.preamble| + |Concat(NodeLines(schema.nodeTypes)[..i])|)
  {
    var ls := NodeLines(schema.nodeTypes);
    ConcatSplitAt(ls, i);
    var tail := EdgeHeading + Concat(EdgeLines(schema.edgeTypes)) + w.guide + query + w.closing;
    assert Prompt(query, schema, w) == w.preamble + Concat(ls) + tail;
    Regroup(w.preamble, Concat(ls[..i]), ls[i], Concat(ls[i + 1..]), tail);
    InfixAt(w.preamble + Concat(ls[..i]), ls[i], Concat(ls[i + 1..]) + tail);
  }

  /** The line of the `i`-th edge type stands in the prompt after the node section, the heading and the edge lines before it. */
  lemma EdgeLineInPrompt(query: string, schema: GraphSchema.Schema, w: Wording, i: nat)
    requires i < |schema.edgeTypes|
    ensures OccursAt(Prompt(query, schema, w), EdgeLine(schema.edgeTypes[i]),
                     |w.preamble| + |Concat(NodeLines(schema.nodeTypes))| + |EdgeHeading| + |Concat(EdgeLines(schema.edgeTypes)[..i])|)
  {
    var ls := EdgeLines(schema.edgeTypes);
    ConcatSplitAt(ls, i);
    var head := w.preamble + Concat(NodeLines(schema.nodeTypes)) + EdgeHeading;
    var tail := w.guide + query + w.closing;
    assert Prompt(query, schema, w) == head + Concat(ls) + tail;
    Regroup(head, Concat(ls[..i]), ls[i], Concat(ls[i + 1..]), tail);
    InfixAt(head + Concat(ls[..i]), ls[i], Concat(ls[i + 1..]) + tail);
  }

  lemma Regroup(a: string, b: string, c: string, d: string, e: string)
    ensures a + (b + c + d) + e == (a + b) + c + (d + e)
  {
  }

  lemma InfixAt(a: string, b: string, c: string)
    ensures OccursAt(a + b + c, b, |a|)
  {
    assert (a + b + c)[|a|..|a| + |b|] == b;
  }

  // ---------------------------------------------------------------------
  // Cutting the plan out of the reply
  // ---------------------------------------------------------------------

  const JsonFence: string := "```json"
  const Fence: string := "```"

  /**
    Drops everything up to and including the first "```json" fence, or when
    there is none the first "```" fence; then cuts at the next "```".
   */
  function Unfence(s: string): string {
    var t :=
      match Find(s, JsonFence)
      case Some(i) => s[i + |JsonFence|..]
      case None =>
        match Find(s, Fence)
        case Some(i) => s[i + |Fence|..]
        case None => s;
    match Find(t, Fence)
    case Some(j) => t[..j]
    case None => t
  }

  predicate AllJsonBlank(s: string) {
    forall k :: 0 <= k < |s| ==> IsJsonSpace(s[k])
  }

  /** Trims JSON whitespace from both ends; a reply that is nothing but whitespace is left as it is. */
  function TrimReply(s: string): string {
    if AllJsonBlank(s) then s else Strip(s, Json)
  }

  function StripFences(s: string): string {
    TrimReply(Unfence(s))
  }

  /** What `TrimReply` keeps: the input itself when it is all blank, else a slice with blanks cut off and non-blank ends. */
  lemma TrimReplyShape(s: string)
    ensures AllJsonBlank(s) ==> TrimReply(s) == s
    ensures !AllJsonBlank(s) ==> var r := TrimReply(s);
      && r != []
      && (exists i: nat :: IsTrimmedSlice(s, r, i, Json))
      && !IsJsonSpace(r[0]) && !IsJsonSpace(r[|r| - 1])
  {
    if !AllJsonBlank(s) {
      StripSlice(s, Json);
      var r := Strip(s, Json);
      var i: nat :| IsTrimmedSlice(s, r, i, Json);
      var k :| 0 <= k < |s| && !IsJsonSpace(s[k]);
    }
  }

  lemma TrimReplyIdempotent(s: string)
    ensures TrimReply(TrimReply(s)) == TrimReply(s)
  {
    TrimReplyShape(s);
    if !AllJsonBlank(s) {
      var r := TrimReply(s);
      assert !AllJsonBlank(r) by { assert !IsJsonSpace(r[0]); }
      StripKeeps(r, Json);
    }
  }

  /** Where "```json" starts, "```" starts too. */
  lemma JsonFenceIsFence(s: string, k: nat)
    requires OccursAt(s, JsonFence, k)
    ensures OccursAt(s, Fence, k)
  {
    assert s[k..k + 3] == s[k..k + 7][..3];
  }

  /** A reply without fences is only trimmed. */
  lemma NoFenceOnlyTrims(s: string)
    requires !Contains(s, Fence)
    ensures StripFences(s) == TrimReply(s)
  {
    if Find(s, JsonFence).Some? {
      JsonFenceIsFence(s, Find(s, JsonFence).value);
      assert false;
    }
  }

  /**
    A plan in a "```json" block comes out as the block's body, trimmed,
    whatever precedes the fence (so long as it holds no "```json" itself)
    and whatever follows the closing fence.
   */
  lemma JsonFenceRoundTrip(p: string, x: string, y: string)
    requires !Contains(p, JsonFence)
    requires !Contains(x, Fence) && (x == [] || x[|x| - 1] != '`')
    ensures StripFences(p + JsonFence + x + Fence + y) == TrimReply(x)
  {
    var s := p + JsonFence + x + Fence + y;
    FirstJsonFence(p, x + Fence + y);
    assert s == p + JsonFence + (x + Fence + y);
    assert s[|p| + |JsonFence|..] == x + Fence + y;
    FirstFence(x, y);
    assert Unfence(s) == (x + Fence + y)[..|x|] == x;
  }

  /** With no "```json" in `p`, the first "```json" of `p + "```json" + rest` is the one after `p`. */
  lemma FirstJsonFence(p: string, rest: string)
    requires !Contains(p, JsonFence)
    ensures Find(p + JsonFence + rest, JsonFence) == Some(|p|)
  {
    var s := p + JsonFence + rest;
    assert OccursAt(s, JsonFence, |p|) by { assert s[|p|..|p| + 7] == JsonFence; }
    forall k | 0 <= k < |p| ensures !OccursAt(s, JsonFence, k) {
      if OccursAt(s, JsonFence, k) {
        if k + 7 <= |p| {
          assert p[k..k + 7] == s[k..k + 7];
          ContainsAt(p, JsonFence, k);
        } else {
          NoJsonFenceStraddles(p, rest, k);
        }
      }
    }
    FindIsFirst(s, JsonFence, |p|);
  }

  /** The first "```" of `x + "```" + y` is the one after `x` when `x` holds none and does not end in a backtick. */
  lemma FirstFence(x: string, y: string)
    requires !Contains(x, Fence) && (x == [] || x[|x| - 1] != '`')
    ensures Find(x + Fence + y, Fence) == Some(|x|)
  {
    var s := x + Fence + y;
    assert OccursAt(s, Fence, |x|) by { assert s[|x|..|x| + 3] == Fence; }
    forall k | 0 <= k < |x| ensures !OccursAt(s, Fence, k) {
      if OccursAt(s, Fence, k) {
        if k + 3 <= |x| {
          assert x[k..k + 3] == s[k..k + 3];
          ContainsAt(x, Fence, k);
        } else {
          NoFenceStraddles(x, y, k);
        }
      }
    }
    FindIsFirst(s, Fence, |x|);
  }

  /** A plan in a bare "```" block, in a reply with no "```json" anywhere, comes out as the block's body, trimmed. */
  lemma FenceRoundTrip(p: string, x: string, y: string)
    requires !Contains(p + Fence + x + Fence + y, JsonFence)
    requires !Contains(p, Fence) && (p == [] || p[|p| - 1] != '`')
    requires !Contains(x, Fence) && (x == [] || x[|x| - 1] != '`')
    ensures StripFences(p + Fence + x + Fence + y) == TrimReply(x)
  {
    var s := p + Fence + x + Fence + y;
    assert Find(s, JsonFence).None?;
    assert s == p + Fence + (x + Fence + y);
    FirstFence(p, x + Fence + y);
    assert s[|p| + |Fence|..] == x + Fence + y;
    FirstFence(x, y);
    assert Unfence(s) == (x + Fence + y)[..|x|] == x;
  }

  /** A "```json" starting inside `p` cannot run on into the fence after it: one of `json` would fall on a backtick. */
  lemma NoJsonFenceStraddles(p: string, rest: string, k: nat)
    requires k < |p| < k + 7
    ensures !OccursAt(p + JsonFence + rest, JsonFence, k)
  {
    var s := p + JsonFence + rest;
    if k + 3 >= |p| {
      assert s[k..k + 7][3] == s[k + 3] == '`';
    } else {
      assert s[k..k + 7][|p| - k] == s[|p|] == '`';
    }
  }

  /** A "```" starting inside `x` and running on into the fence after it would need `x` to end in a backtick. */
  lemma NoFenceStraddles(x: string, y: string, k: nat)
    requires k < |x| < k + 3 && x[|x| - 1] != '`'
    ensures !OccursAt(x + Fence + y, Fence, k)
  {
    var s := x + Fence + y;
    assert s[k..k + 3][|x| - 1 - k] == s[|x| - 1] == x[|x| - 1];
  }

  /** An occurrence with none before it is what `Find` returns. */
  lemma FindIsFirst(s: string, pat: string, i: nat)
    requires OccursAt(s, pat, i)
    requires forall k :: 0 <= k < i ==> !OccursAt(s, pat, k)
    ensures Find(s, pat) == Some(i)
  {
    var r := FindFrom(s, pat, 0);
    assert r.Some? && r.value <= i;
  }

  // ---------------------------------------------------------------------
  // Reading the plan out of the JSON document
  // ---------------------------------------------------------------------

  /**
    A JSON document as the JSON library holds it. An object is the list of
    its members in the library's iteration order (by key for the library's
    default object type).
   */
  datatype Json =
    | JNull
    | JBool(b: bool)
    | JNumber(n: real)
    | JString(str: string)
    | JArray(items: seq<Json>)
    | JObject(members: seq<(string, Json)>)

  /**
    Why reading the plan out of a well-formed JSON document fails: indexing
    something that is not an object, reading something that is not a string
    as one, or indexing a read-only object at a key it lacks.
   */
  datatype Fault = NotAnObject | NotAString | MissingKey(key: string)

  /** The value of the first member named `k`. */
  function Lookup(ms: seq<(string, Json)>, k: string): (r: Option<Json>)
    ensures r.Some? <==> exists i :: 0 <= i < |ms| && ms[i].0 == k
    ensures r.Some? ==> exists i :: 0 <= i < |ms| && ms[i] == (k, r.value)
  {
    if ms == [] then None
    else if ms[0].0 == k then Some(ms[0].1)
    else
      var r := Lookup(ms[1..], k);
      assert forall i :: 1 <= i < |ms| ==> ms[i] == ms[1..][i - 1];
      r
  }

  /** Indexing a mutable document: a missing member reads as null, and so does any key of null. */
  function Field(j: Json, k: string): (r: Result<Json, Fault>)
    ensures r.Err? <==> !j.JObject? && !j.JNull?
  {
    match j
    case JObject(ms) => Ok(match Lookup(ms, k) case Some(v) => v case None => JNull)
    case JNull => Ok(JNull)
    case _ => Err(NotAnObject)
  }

  /** Indexing a read-only document: the member must be there. */
  function ConstField(j: Json, k: string): (r: Result<Json, Fault>)
    ensures r.Ok? <==> j.JObject? && Lookup(j.members, k).Some?
  {
    match j
    case JObject(ms) => (match Lookup(ms, k) case Some(v) => Ok(v) case None => Err(MissingKey(k)))
    case _ => Err(NotAnObject)
  }

  function AsString(j: Json): (r: Result<string, Fault>)
    ensures r.Ok? <==> j.JString?
    ensures r.Ok? ==> r.value == j.str
  {
    match j
    case JString(t) => Ok(t)
    case _ => Err(NotAString)
  }

  /**
    The key/value pairs the library's `items()` walks: an object's members,
    an array's elements under their decimal indices, nothing for null, and
    any other value once under the empty key.
   */
  function Items(j: Json): (r: seq<(string, Json)>)
    ensures j.JObject? ==> r == j.members
    ensures j.JArray? ==> |r| == |j.items| && forall i :: 0 <= i < |r| ==> r[i] == (NatToString(i), j.items[i])
    ensures j.JNull? ==> r == []
    ensures !j.JObject? && !j.JArray? && !j.JNull? ==> r == [("", j)]
  {
    match j
    case JObject(ms) => ms
    case JArray(xs) => seq(|xs|, i requires 0 <= i < |xs| => (NatToString(i), xs[i]))
    case JNull => []
    case _ => [("", j)]
  }

  /** What a range-for over a document visits: the values of `Items`. */
  function Elements(j: Json): (r: seq<Json>)
    ensures |r| == |Items(j)| && forall i :: 0 <= i < |r| ==> r[i] == Items(j)[i].1
  {
    seq(|Items(j)|, i requires 0 <= i < |Items(j)| => Items(j)[i].1)
  }

  /** Copies string-valued pairs into `acc` in order, a later key overwriting an earlier one. */
  function Collect(ps: seq<(string, Json)>, acc: map<string, string>): (r: Result<map<string, string>, Fault>)
    ensures r.Ok? <==> forall i :: 0 <= i < |ps| ==> ps[i].1.JString?
    ensures r.Ok? ==> r.value.Keys == acc.Keys + set i | 0 <= i < |ps| :: ps[i].0
    decreases |ps|
  {
    if ps == [] then Ok(acc)
    else
      match ps[0].1
      case JString(v) =>
        var r := Collect(ps[1..], acc[ps[0].0 := v]);
        assert forall i :: 1 <= i < |ps| ==> ps[i] == ps[1..][i - 1];
        assert r.Ok? ==> (set i | 0 <= i < |ps| :: ps[i].0) == {ps[0].0} + set i | 0 <= i < |ps[1..]| :: ps[1..][i].0;
        r
      case _ => Err(NotAString)
  }

  /** A key that no later pair repeats keeps the value its pair gives it. */
  lemma {:induction false} CollectLastWins(ps: seq<(string, Json)>, acc: map<string, string>, i: nat)
    requires Collect(ps, acc).Ok? && i < |ps|
    requires forall j :: i < j < |ps| ==> ps[j].0 != ps[i].0
    ensures ps[i].1.JString? && Collect(ps, acc).value[ps[i].0] == ps[i].1.str
    decreases |ps|
  {
    var acc' := acc[ps[0].0 := ps[0].1.str];
    if i == 0 {
      CollectKeeps(ps[1..], acc', ps[0].0);
    } else {
      CollectLastWins(ps[1..], acc', i - 1);
    }
  }

  /** A key no pair mentions keeps the value it has in the accumulator. */
  lemma {:induction false} CollectKeeps(ps: seq<(string, Json)>, acc: map<string, string>, k: string)
    requires Collect(ps, acc).Ok? && k in acc
    requires forall j :: 0 <= j < |ps| ==> ps[j].0 != k
    ensures Collect(ps, acc).value[k] == acc[k]
    decreases |ps|
  {
    if ps != [] {
      CollectKeeps(ps[1..], acc[ps[0].0 := ps[0].1.str], k);
    }
  }

  /** The `parameters` member: every value it walks must be a string. */
  function Parameters(j: Json): Result<map<string, string>, Fault> {
    Collect(Items(j), map[])
  }

  /** An operation's `type` name as the plan reader maps it: four names are recognised, any other stays unset. */
  function MapType(name: string): (t: OpType)
    ensures t.Unset? || t.Known?
  {
    if name == "FILTER" then Known(Filter)
    else if name == "TRAVERSE" then Known(Traverse)
    else if name == "AGGREGATE" then Known(Aggregate)
    else if name == "MATCH" then Known(Match)
    else Unset
  }

  /** The enum name of each kind. */
  function KindName(k: Kind): string {
    match k
    case Match => "MATCH"
    case Filter => "FILTER"
    case Compare => "COMPARE"
    case Traverse => "TRAVERSE"
    case Aggregate => "AGGREGATE"
    case GroupBy => "GROUP_BY"
    case Project => "PROJECT"
    case Join => "JOIN"
  }

  /** The kinds the plan reader can produce. */
  predicate Readable(k: Kind) {
    k == Filter || k == Traverse || k == Aggregate || k == Match
  }

  /** `MapType` inverts `KindName` on the four readable kinds and recognises no other name. */
  lemma MapTypeInvertsKindName(name: string, k: Kind)
    ensures MapType(name) == Known(k) <==> Readable(k) && name == KindName(k)
  {
  }

  /** Reading one element of `operations`: it must be an object with a string `type`; the optional members must be strings, or string-valued for `parameters`. */
  function ReadOperation(j: Json): (r: Result<Operation, Fault>)
    ensures r.Ok? ==> j.JObject? && Lookup(j.members, "type").Some? && Lookup(j.members, "type").value.JString?
    ensures r.Ok? ==> r.value.optype == MapType(Lookup(j.members, "type").value.str)
    ensures r.Ok? ==> (r.value.targetType == "" <==> Lookup(j.members, "target_type") in {None, Some(JString(""))})
  {
    match ConstField(j, "type")
    case Err(f) => Err(f)
    case Ok(t) =>
      match AsString(t)
      case Err(f) => Err(f)
      case Ok(name) =>
        match OptionalString(j.members, "target_type")
        case Err(f) => Err(f)
        case Ok(target) =>
          match OptionalString(j.members, "property_name")
          case Err(f) => Err(f)
          case Ok(property) =>
            match (match Lookup(j.members, "parameters") case Some(v) => Parameters(v) case None => Ok(map[]))
            case Err(f) => Err(f)
            case Ok(params) => Ok(Operation(MapType(name), target, property, params))
  }

  /** An optional string member: empty when absent, a fault when present and not a string. */
  function OptionalString(ms: seq<(string, Json)>, k: string): (r: Result<string, Fault>)
    ensures Lookup(ms, k).None? ==> r == Ok("")
    ensures Lookup(ms, k).Some? ==> r == AsString(Lookup(ms, k).value)
  {
    match Lookup(ms, k)
    case Some(v) => AsString(v)
    case None => Ok("")
  }

  /** Reads each element in turn; the first fault ends the reading. */
  function ReadOperations(js: seq<Json>): (r: Result<seq<Operation>, Fault>)
    ensures r.Ok? <==> forall i :: 0 <= i < |js| ==> ReadOperation(js[i]).Ok?
    ensures r.Ok? ==> |r.value| == |js| && forall i :: 0 <= i < |js| ==> r.value[i] == ReadOperation(js[i]).value
    decreases |js|
  {
    if js == [] then Ok([])
    else
      match ReadOperation(js[0])
      case Err(f) => Err(f)
      case Ok(op) =>
        assert forall i :: 1 <= i < |js| ==> js[i] == js[1..][i - 1];
        match ReadOperations(js[1..])
        case Err(f) => Err(f)
        case Ok(ops) => Ok([op] + ops)
  }

  /** Reads `query`, then `reasoning`, then each element of `operations` (a missing `operations` member reads as null, which has no elements). */
  function ReadPlan(j: Json): (r: Result<OperationPlan, Fault>)
    ensures r.Ok? ==> j.JObject?
  {
    match Field(j, "query")
    case Err(f) => Err(f)
    case Ok(q) =>
      match AsString(q)
      case Err(f) => Err(f)
      case Ok(query) =>
        match Field(j, "reasoning")
        case Err(f) => Err(f)
        case Ok(rj) =>
          match AsString(rj)
          case Err(f) => Err(f)
          case Ok(reasoning) =>
            match Field(j, "operations")
            case Err(f) => Err(f)
            case Ok(oj) =>
              match ReadOperations(Elements(oj))
              case Err(f) => Err(f)
              case Ok(ops) => Ok(OperationPlan(query, reasoning, ops))
  }

  /** What `ReadPlan` needs and gives: an object with string `query` and `reasoning`, and the operations it reads. */
  lemma ReadPlanSpec(j: Json)
    ensures ReadPlan(j).Ok? <==>
      && j.JObject?
      && Lookup(j.members, "query").Some? && Lookup(j.members, "query").value.JString?
      && Lookup(j.members, "reasoning").Some? && Lookup(j.members, "reasoning").value.JString?
      && ReadOperations(Elements(Field(j, "operations").value)).Ok?
    ensures ReadPlan(j).Ok? ==>
      && ReadPlan(j).value.query == Lookup(j.members, "query").value.str
      && ReadPlan(j).value.reasoning == Lookup(j.members, "reasoning").value.str
      && ReadPlan(j).value.operations == ReadOperations(Elements(Field(j, "operations").value)).value
  {
  }

  /** A plan without an `operations` member reads as a plan with no operations. */
  lemma NoOperationsMember(j: Json)
    requires ReadPlan(j).Ok? && Lookup(j.members, "operations").None?
    ensures ReadPlan(j).value.operations == []
  {
  }

  /** The message a failed parse carries: the library's description, then the reply as received. */
  function ParseFailure(what: string, response: string): Error {
    Error(InvalidArgument, "Failed to parse operation plan: " + what + "\nLLM Response: " + response)
  }

  /**
    `ParseOperationPlan`: strip the fences, parse the rest as JSON with
    `decode` (which gives the parser's description on failure), and read the
    plan out of the document; `describe` gives the JSON library's
    description of a fault.
   */
  function ParseOperationPlan(response: string, decode: string -> Result<Json, string>, describe: Fault -> string): (r: Result<OperationPlan, Error>)
    ensures r.Ok? <==> decode(StripFences(response)).Ok? && ReadPlan(decode(StripFences(response)).value).Ok?
    ensures r.Ok? ==> r.value == ReadPlan(decode(StripFences(response)).value).value
    ensures r.Err? ==> r.error.code == InvalidArgument
  {
    match decode(StripFences(response))
    case Err(what) => Err(ParseFailure(what, response))
    case Ok(j) =>
      match ReadPlan(j)
      case Err(f) => Err(ParseFailure(describe(f), response))
      case Ok(plan) => Ok(plan)
  }

  /** A failed parse's message starts with its fixed prefix and ends with the whole reply. */
  lemma ParseFailureQuotesReply(response: string, decode: string -> Result<Json, string>, describe: Fault -> string)
    requires ParseOperationPlan(response, decode, describe).Err?
    ensures var m := ParseOperationPlan(response, decode, describe).error.message;
      var prefix := "Failed to parse operation plan: ";
      var suffix := "\nLLM Response: " + response;
      && |m| >= |prefix| + |suffix|
      && m[..|prefix|] == prefix
      && m[|m| - |suffix|..] == suffix
  {
    match decode(StripFences(response))
    case Err(what) => FailureMessage(what, response);
    case Ok(j) => FailureMessage(describe(ReadPlan(j).error), response);
  }

  lemma FailureMessage(what: string, response: string)
    ensures var m := ParseFailure(what, response).message;
      var prefix := "Failed to parse operation plan: ";
      var suffix := "\nLLM Response: " + response;
      && |m| >= |prefix| + |suffix|
      && m[..|prefix|] == prefix
      && m[|m| - |suffix|..] == suffix
  {
    var prefix := "Failed to parse operation plan: ";
    var suffix := "\nLLM Response: " + response;
    var m := ParseFailure(what, response).message;
    assert m == prefix + what + suffix;
  }

  /** Every operation a parsed plan holds is unset or of one of the four readable kinds. */
  lemma ParsedKindsReadable(response: string, decode: string -> Result<Json, string>, describe: Fault -> string, i: nat)
    requires ParseOperationPlan(response, decode, describe).Ok?
    requires i < |ParseOperationPlan(response, decode, describe).value.operations|
    ensures var t := ParseOperationPlan(response, decode, describe).value.operations[i].optype;
      t.Unset? || (t.Known? && Readable(t.kind))
  {
    var j := decode(StripFences(response)).value;
    ReadPlanSpec(j);
    var js := Elements(Field(j, "operations").value);
    var op := ReadOperation(js[i]).value;
    MapTypeInvertsKindName(Lookup(js[i].members, "type").value.str, if op.optype.Known? then op.optype.kind else Match);
  }

  /** A reply fenced as "```json" parses as its fenced body would on its own. */
  lemma FencedReplyParsesAsBody(p: string, x: string, y: string, decode: string -> Result<Json, string>, describe: Fault -> string)
    requires !Contains(p, JsonFence)
    requires !Contains(x, Fence) && (x == [] || x[|x| - 1] != '`')
    ensures var fenced := ParseOperationPlan(p + JsonFence + x + Fence + y, decode, describe);
      var bare := ParseOperationPlan(x, decode, describe);
      && (fenced.Ok? <==> bare.Ok?)
      && (fenced.Ok? ==> fenced.value == bare.value)
  {
    JsonFenceRoundTrip(p, x, y);
    NoFenceOnlyTrims(x);
  }

  // ---------------------------------------------------------------------
  // The bill-of-materials table
  // ---------------------------------------------------------------------

  /** `═` (U+2550) and `─` (U+2500) in UTF-8. */
  const DoubleBar: string := "\U{E2}\U{95}\U{90}"
  const SingleBar: string := "\U{E2}\U{94}\U{80}"

  /** `n` copies of a three-byte glyph side by side. */
  function Rule(glyph: string, n: nat): (r: string)
    requires |glyph| == 3
    ensures |r| == 3 * n
    ensures forall i :: 0 <= i < |r| ==> r[i] in glyph
  {
    seq(3 * n, i requires 0 <= i < 3 * n => glyph[i % 3])
  }

  /** The `k`-th glyph of a rule is `glyph`. */
  lemma RuleGlyph(glyph: string, n: nat, k: nat)
    requires |glyph| == 3 && k < n
    ensures Rule(glyph, n)[3 * k..3 * k + 3] == glyph
  {
    var r := Rule(glyph, n);
    assert r[3 * k] == glyph[0] && r[3 * k + 1] == glyph[1] && r[3 * k + 2] == glyph[2];
  }

  const Title: string := "\nBill of Materials:\n"
  const HeavyLine: string := Rule(DoubleBar, 60) + "\n"
  const LightLine: string := Rule(SingleBar, 60) + "\n"
  const Header: string := "Block Name" + Repeat(' ', 30) + "| Quantity\n"
  const NoResults: string := "No results\n"

  /** The name cell: exactly 40 characters, a longer name cut to 37 and marked with `...`, a shorter one padded with spaces. */
  function PadName(name: string): (r: string)
    ensures |r| == 40
  {
    if |name| > 40 then name[..37] + "..." else name + Repeat(' ', 40 - |name|)
  }

  function Row(name: string, count: string): string {
    PadName(name) + "| " + count + "\n"
  }

  /** Each row's `|` stands in the header's `|` column, and the count can be read back from between `| ` and the newline. */
  lemma RowLayout(name: string, count: string)
    ensures Header[40] == '|'
    ensures var r := Row(name, count);
      && |r| == 43 + |count|
      && r[40] == '|' && r[|r| - 1] == '\n'
      && r[42..|r| - 1] == count
  {
    var r := Row(name, count);
    assert r == PadName(name) + ("| " + count + "\n");
  }

  /** A name of at most 40 characters that does not end in a blank comes back from its cell when the padding is trimmed. */
  lemma PadNameTrims(name: string)
    requires |name| <= 40 && (name == [] || !IsAsciiSpace(name[|name| - 1]))
    ensures TrimRight(PadName(name), Ascii) == name
  {
    TrimPadding(name, 40 - |name|);
  }

  lemma {:induction false} TrimPadding(name: string, n: nat)
    requires name == [] || !IsAsciiSpace(name[|name| - 1])
    ensures TrimRight(name + Repeat(' ', n), Ascii) == name
    decreases n
  {
    var s := name + Repeat(' ', n);
    if n > 0 {
      assert s[..|s| - 1] == name + Repeat(' ', n - 1);
      TrimPadding(name, n - 1);
    } else {
      assert s == name;
    }
  }

  /** A longer name keeps its first 37 characters in the cell. */
  lemma PadNameTruncates(name: string)
    requires |name| > 40
    ensures PadName(name)[..37] == name[..37] && PadName(name)[37..] == "..."
  {
  }

  function Rows(values: map<string, string>, keys: seq<string>): seq<string>
    requires Bom.Lists(keys, values)
  {
    seq(|keys|, i requires 0 <= i < |keys| => Row(keys[i], values[keys[i]]))
  }

  /**
    `FormatBOM`: the title and a double rule; then either `No results` or the
    header, a single rule, one row per part in the order `keys` walks the
    map, and a closing double rule.
   */
  function FormatBOM(values: map<string, string>, keys: seq<string>): (r: string)
    requires Bom.Lists(keys, values)
    ensures |Title| + |HeavyLine| <= |r| && r[..|Title| + |HeavyLine|] == Title + HeavyLine
  {
    if |values| == 0 then Title + HeavyLine + NoResults
    else Title + HeavyLine + Header + LightLine + Concat(Rows(values, keys)) + HeavyLine
  }

  /** The table's frame up to the first row. */
  const TableTop: string := Title + HeavyLine + Header + LightLine

  /** Every part of a non-empty result has its row in the table, and rows follow the order of `keys`. */
  lemma FormatBOMRow(values: map<string, string>, keys: seq<string>, i: nat)
    requires Bom.Lists(keys, values) && i < |keys|
    ensures OccursAt(FormatBOM(values, keys), Row(keys[i], values[keys[i]]), |TableTop| + |Concat(Rows(values, keys)[..i])|)
  {
    var rs := Rows(values, keys);
    assert keys[i] in keys;
    ConcatSplitAt(rs, i);
    assert |values| > 0;
    assert FormatBOM(values, keys) == TableTop + Concat(rs) + HeavyLine;
    Regroup(TableTop, Concat(rs[..i]), rs[i], Concat(rs[i + 1..]), HeavyLine);
    InfixAt(TableTop + Concat(rs[..i]), rs[i], Concat(rs[i + 1..]) + HeavyLine);
  }

  /** An empty result has no header and no rows: the frame says `No results`. */
  lemma FormatBOMEmpty(values: map<string, string>)
    requires |values| == 0
    ensures FormatBOM(values, []) == Title + HeavyLine + NoResults
    ensures !Contains(FormatBOM(values, []), "Block Name")
  {
    var r := FormatBOM(values, []);
    forall k | 0 <= k ensures !OccursAt(r, "Block Name", k) {
      NoHeaderAt(k);
    }
  }

  /** The empty table's only `B` is the one of `Bill`, which `i` follows. */
  lemma NoHeaderAt(k: nat)
    ensures !OccursAt(Title + HeavyLine + NoResults, "Block Name", k)
  {
    var r := Title + HeavyLine + NoResults;
    if k + 10 <= |r| {
      assert r[k..k + 10][0] == r[k] && r[k..k + 10][1] == r[k + 1];
      if k == 1 {
        assert r[k + 1] == 'i';
      } else if k < |Title| {
        assert r[k] == Title[k];
      } else if k < |Title| + |HeavyLine| - 1 {
        assert r[k] == Rule(DoubleBar, 60)[k - |Title|];
      } else {
        assert r[k] == (HeavyLine + NoResults)[k - |Title|];
      }
    }
  }

  // ---------------------------------------------------------------------
  // Answering a query
  // ---------------------------------------------------------------------

  /** Runs `ops` in order with `exec`; the first failure ends the run, otherwise the last result stands. */
  function RunOps(exec: (Executor, Operation) -> Step, ex: Executor, ops: seq<Operation>, last: OperationResult): (r: Result<OperationResult, Error>)
    ensures ops == [] ==> r == Ok(last)
    ensures ops != [] && exec(ex, ops[0]).outcome.Err? ==> r == Err(exec(ex, ops[0]).outcome.error)
    decreases |ops|
  {
    if ops == [] then Ok(last)
    else
      var step := exec(ex, ops[0]);
      match step.outcome
      case Err(e) => Err(e)
      case Ok(res) => RunOps(exec, step.after, ops[1..], res)
  }

  /** The executor after `ops` have run one after another with `exec`. */
  function After(exec: (Executor, Operation) -> Step, ex: Executor, ops: seq<Operation>): Executor
    decreases |ops|
  {
    if ops == [] then ex else After(exec, exec(ex, ops[0]).after, ops[1..])
  }

  /** A run that succeeds ends with the result its last operation gives where the ones before it left the executor. */
  lemma {:induction false} RunOpsLast(exec: (Executor, Operation) -> Step, ex: Executor, ops: seq<Operation>, last: OperationResult)
    requires RunOps(exec, ex, ops, last).Ok? && ops != []
    ensures exec(After(exec, ex, ops[..|ops| - 1]), ops[|ops| - 1]).outcome == RunOps(exec, ex, ops, last)
    decreases |ops|
  {
    var step := exec(ex, ops[0]);
    if |ops| == 1 {
      assert ops[..|ops| - 1] == [];
    } else {
      var rest := ops[1..];
      RunOpsLast(exec, step.after, rest, step.outcome.value);
      assert ops[..|ops| - 1][1..] == rest[..|rest| - 1];
      assert ops[|ops| - 1] == rest[|rest| - 1];
    }
  }

  datatype QueryResponse = QueryResponse(
    success: bool,
    errorMessage: string,
    plan: Option<OperationPlan>,
    result: Option<OperationResult>,
    answer: string)

  const Failed: QueryResponse := QueryResponse(false, "", None, None, "")

  /**
    What `ProcessQuery` does once the prompt is built: send it to the
    language model `llm`, read the reply as a plan, run the plan's
    operations against the graph and lay the last result out as a table.
    Each stage's failure ends the query with that stage's message.
   */
  function AnswerPrompt(prompt: string, graph: Graph.PropertyGraph, llm: string -> Result<string, string>,
                        decode: string -> Result<Json, string>, describe: Fault -> string): (r: QueryResponse)
    ensures llm(prompt).Err? ==> r == Failed.(errorMessage := llm(prompt).error)
    ensures r.success ==> r.errorMessage == "" && r.plan.Some? && r.result.Some?
  {
    match llm(prompt)
    case Err(m) => Failed.(errorMessage := m)
    case Ok(reply) =>
      match ParseOperationPlan(reply, decode, describe)
      case Err(e) => Failed.(errorMessage := e.message)
      case Ok(plan) =>
        match RunOps(Execute, Executor(graph), plan.operations, EmptyResult)
        case Err(e) => Failed.(errorMessage := e.message, plan := Some(plan))
        case Ok(fr) =>
          QueryResponse(true, "", Some(plan), Some(fr), FormatBOM(fr.values, Bom.Parts(fr.values)))
  }

  /** `ProcessQuery`: the prompt is built from the query and the graph's schema, then answered. */
  function ProcessQuery(query: string, graph: Graph.PropertyGraph, llm: string -> Result<string, string>,
                        decode: string -> Result<Json, string>, describe: Fault -> string): QueryResponse
  {
    AnswerPrompt(BuildPrompt(query, graph.schema), graph, llm, decode, describe)
  }

  /**
    With every operation handler still a stub, a query succeeds exactly when
    the model answers and its plan parses with no operations, and the answer
    is then the empty table; a plan with operations fails with its first
    operation's message.
   */
  lemma AnswerOutcome(prompt: string, graph: Graph.PropertyGraph, llm: string -> Result<string, string>,
                      decode: string -> Result<Json, string>, describe: Fault -> string)
    ensures var r := AnswerPrompt(prompt, graph, llm, decode, describe);
      var reply := llm(prompt);
      var parsed := if reply.Ok? then ParseOperationPlan(reply.value, decode, describe) else Err(Error(InvalidArgument, ""));
      && (r.success <==> reply.Ok? && parsed.Ok? && parsed.value.operations == [])
      && (r.success ==> r.answer == Title + HeavyLine + NoResults && r.result == Some(EmptyResult))
      && (reply.Ok? && parsed.Err? ==> !r.success && r.errorMessage == parsed.error.message && r.plan.None?)
      && (reply.Ok? && parsed.Ok? && parsed.value.operations != [] ==>
            && r.plan == Some(parsed.value)
            && r.errorMessage == Execute(Executor(graph), parsed.value.operations[0]).outcome.error.message)
  {
    var reply := llm(prompt);
    if reply.Ok? {
      var parsed := ParseOperationPlan(reply.value, decode, describe);
      if parsed.Ok? && parsed.value.operations == [] {
        FormatBOMEmpty(EmptyResult.values);
      }
    }
  }
}
