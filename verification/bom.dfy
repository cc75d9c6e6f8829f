/**
  The bill of materials read off a property graph: one entry per counted
  part, with the drawings its inserts come from and the numeric properties
  of its block; the dimension records of a graph; and the character filter
  applied to text before it is written out.
 */
module Bom {
  import opened Wrappers
  import opened Text
  import StringOrder
  import opened Graph
  import Seqs

  // ---------------------------------------------------------------------
  // SanitizeString
  // ---------------------------------------------------------------------

  /** Printable ASCII: codes 32 to 126. */
  predicate Printable(c: char) {
    ' ' <= c <= '~'
  }

  /** What one character becomes: itself when printable, a space for a newline or tab, nothing otherwise. */
  function SanitizeChar(c: char): (r: string)
    ensures |r| <= 1 && (r == [c] <==> Printable(c))
    ensures (c == '\n' || c == '\t') ==> r == [' ']
    ensures !Printable(c) && c != '\n' && c != '\t' ==> r == []
  {
    if Printable(c) then [c] else if c == '\n' || c == '\t' then [' '] else []
  }

  /** `SanitizeString`: each character filtered in order. */
  function Sanitize(s: string): (r: string)
    ensures |r| <= |s|
    ensures forall i :: 0 <= i < |r| ==> Printable(r[i])
    decreases |s|
  {
    if s == [] then [] else Sanitize(s[..|s| - 1]) + SanitizeChar(s[|s| - 1])
  }

  /** Sanitising distributes over concatenation: every character is filtered on its own. */
  lemma {:induction false} SanitizeAppend(a: string, b: string)
    ensures Sanitize(a + b) == Sanitize(a) + Sanitize(b)
    decreases |b|
  {
    if b == [] {
      assert a + b == a;
    } else {
      var init := b[..|b| - 1];
      assert (a + b)[..|a + b| - 1] == a + init;
      assert (a + b)[|a + b| - 1] == b[|b| - 1];
      SanitizeAppend(a, init);
    }
  }

  /** A text is left unchanged exactly when every character of it is printable. */
  lemma SanitizeFixed(s: string)
    ensures Sanitize(s) == s <==> forall i :: 0 <= i < |s| ==> Printable(s[i])
  {
    if forall i :: 0 <= i < |s| ==> Printable(s[i]) {
      SanitizeKeeps(s);
    }
  }

  lemma {:induction false} SanitizeKeeps(s: string)
    requires forall i :: 0 <= i < |s| ==> Printable(s[i])
    ensures Sanitize(s) == s
    decreases |s|
  {
    if s != [] {
      var init, last := s[..|s| - 1], s[|s| - 1];
      assert forall i :: 0 <= i < |init| ==> init[i] == s[i];
      SanitizeKeeps(init);
      assert SanitizeChar(last) == [last];
      assert s == init + [last];
    }
  }

  /** Sanitising twice gives what sanitising once gives. */
  lemma SanitizeIdempotent(s: string)
    ensures Sanitize(Sanitize(s)) == Sanitize(s)
  {
    SanitizeFixed(Sanitize(s));
  }

  // ---------------------------------------------------------------------
  // Reading nodes
  // ---------------------------------------------------------------------

  /** A node's string property `k`, when it has one. */
  function Prop(n: Node, k: string): (r: Option<string>)
    ensures r.Some? <==> k in n.stringProps
    ensures r.Some? ==> r.value == n.stringProps[k]
  {
    if k in n.stringProps then Some(n.stringProps[k]) else None
  }

  /** A node's string property `k`, or the empty text when it has none. */
  function PropOrEmpty(n: Node, k: string): string {
    if k in n.stringProps then n.stringProps[k] else ""
  }

  // ---------------------------------------------------------------------
  // Source drawings of a part
  // ---------------------------------------------------------------------

  /** An INSERT of the block `part`. */
  predicate IsInsertOf(n: Node, part: string) {
    Prop(n, "type") == Some("INSERT") && Prop(n, "gc_2") == Some(part)
  }

  /** The drawing an entity node records, when it is an insert of `part` and records one. */
  function InsertDrawing(n: Node, part: string): (r: seq<string>)
    ensures |r| <= 1
  {
    if IsInsertOf(n, part) && "source_drawing" in n.stringProps then [n.stringProps["source_drawing"]] else []
  }

  /** The drawings the inserts of `part` record, in node order, repeats included. */
  function Drawings(ns: seq<Node>, part: string): seq<string>
    decreases |ns|
  {
    if ns == [] then [] else Drawings(ns[..|ns| - 1], part) + InsertDrawing(ns[|ns| - 1], part)
  }

  /** A drawing is listed exactly when some insert of `part` records it. */
  lemma {:induction false} DrawingsMembers(ns: seq<Node>, part: string, d: string)
    ensures d in Drawings(ns, part) <==>
              exists i :: 0 <= i < |ns| && IsInsertOf(ns[i], part) && Prop(ns[i], "source_drawing") == Some(d)
    decreases |ns|
  {
    if ns != [] {
      var init := ns[..|ns| - 1];
      DrawingsMembers(init, part, d);
      if exists i :: 0 <= i < |init| && IsInsertOf(init[i], part) && Prop(init[i], "source_drawing") == Some(d) {
        var i :| 0 <= i < |init| && IsInsertOf(init[i], part) && Prop(init[i], "source_drawing") == Some(d);
        assert ns[i] == init[i];
      }
      if exists i :: 0 <= i < |ns| && IsInsertOf(ns[i], part) && Prop(ns[i], "source_drawing") == Some(d) {
        var i :| 0 <= i < |ns| && IsInsertOf(ns[i], part) && Prop(ns[i], "source_drawing") == Some(d);
        if i < |init| {
          assert init[i] == ns[i];
        }
      }
    }
  }

  /** No two positions of `s` hold the same value. */
  predicate Distinct<T(==)>(s: seq<T>) {
    forall i, j :: 0 <= i < j < |s| ==> s[i] != s[j]
  }

  /** Each value of `s` once, kept where it first appears. */
  function Dedupe(s: seq<string>): (r: seq<string>)
    ensures forall x :: x in r <==> x in s
    ensures Distinct(r)
    decreases |s|
  {
    if s == [] then []
    else
      var r := Dedupe(s[..|s| - 1]);
      assert forall x :: x in s[..|s| - 1] ==> x in s;
      assert forall x :: x in s ==> x in s[..|s| - 1] || x == s[|s| - 1];
      if s[|s| - 1] in r then r else r + [s[|s| - 1]]
  }

  /** Where `x` first appears in `s`. */
  function FirstIndex(s: seq<string>, x: string): (i: nat)
    requires x in s
    ensures i < |s| && s[i] == x && x !in s[..i]
  {
    if s[0] == x then 0
    else
      var i := 1 + FirstIndex(s[1..], x);
      assert s[..i] == [s[0]] + s[1..][..i - 1];
      i
  }

  /** Appending to `s` does not move where a value of `s` first appears. */
  lemma FirstIndexSnoc(s: seq<string>, y: string, x: string)
    requires x in s
    ensures FirstIndex(s + [y], x) == FirstIndex(s, x)
  {
    var i := FirstIndex(s, x);
    assert (s + [y])[..i] == s[..i];
    FirstIndexUnique(s + [y], x, i);
  }

  /** The first place `x` appears is the one place before which it does not. */
  lemma FirstIndexUnique(s: seq<string>, x: string, i: nat)
    requires i < |s| && s[i] == x && x !in s[..i]
    ensures FirstIndex(s, x) == i
  {
    var j := FirstIndex(s, x);
    assert forall k :: 0 <= k < i ==> s[..i][k] == s[k];
    assert forall k :: 0 <= k < j ==> s[..j][k] == s[k];
  }

  /** The values `Dedupe` keeps come in the order in which they first appear. */
  lemma {:induction false} DedupeFirstSeen(s: seq<string>, a: nat, b: nat)
    requires a < b < |Dedupe(s)|
    ensures FirstIndex(s, Dedupe(s)[a]) < FirstIndex(s, Dedupe(s)[b])
    decreases |s|
  {
    var init := s[..|s| - 1];
    var x := s[|s| - 1];
    var r := Dedupe(init);
    assert s == init + [x];
    assert Dedupe(s)[a] in r;
    FirstIndexSnoc(init, x, Dedupe(s)[a]);
    if b < |r| {
      DedupeFirstSeen(init, a, b);
      FirstIndexSnoc(init, x, Dedupe(s)[b]);
    } else {
      assert Dedupe(s)[b] == x && x !in init;
      assert s[..|init|] == init;
    }
  }

  /** The `source_drawings` of part `part`: each drawing an insert of it records, once, in first-seen order. */
  function SourceDrawings(entities: seq<Node>, part: string): (r: seq<string>)
    ensures Distinct(r)
    ensures forall d :: d in r <==> d in Drawings(entities, part)
  {
    Dedupe(Drawings(entities, part))
  }

  // ---------------------------------------------------------------------
  // Properties of a part
  // ---------------------------------------------------------------------

  /** `std::to_string` on a double: the text a numeric property is written as. */
  type Formatter = real -> string

  /** The first block node named `part`, if any. */
  function FirstNamedBlock(blocks: seq<Node>, part: string): (r: Option<nat>)
    ensures r.None? <==> forall i :: 0 <= i < |blocks| ==> Prop(blocks[i], "name") != Some(part)
    ensures r.Some? ==> && r.value < |blocks|
                        && Prop(blocks[r.value], "name") == Some(part)
                        && forall i :: 0 <= i < r.value ==> Prop(blocks[i], "name") != Some(part)
    decreases |blocks|
  {
    if blocks == [] then None
    else if Prop(blocks[0], "name") == Some(part) then Some(0)
    else
      var rest := FirstNamedBlock(blocks[1..], part);
      assert forall i :: 1 <= i < |blocks| ==> blocks[i] == blocks[1..][i - 1];
      if rest.None? then None else Some(rest.value + 1)
  }

  /** Every numeric property of a node, formatted. */
  function Formatted(n: Node, fmt: Formatter): (r: map<string, string>)
    ensures r.Keys == n.numericProps.Keys
    ensures forall k :: k in r ==> r[k] == fmt(n.numericProps[k])
  {
    map k | k in n.numericProps :: fmt(n.numericProps[k])
  }

  /** The `properties` of part `part`: the numeric properties of the first block named after it, or none. */
  function BlockProperties(blocks: seq<Node>, part: string, fmt: Formatter): map<string, string> {
    var i := FirstNamedBlock(blocks, part);
    if i.Some? then Formatted(blocks[i.value], fmt) else map[]
  }

  // ---------------------------------------------------------------------
  // Entries, in order of quantity
  // ---------------------------------------------------------------------

  datatype BomEntry = BomEntry(partName: string, quantity: int, sourceDrawings: seq<string>, properties: map<string, string>)

  /** The entry of part `part` counted `quantity` times. */
  function EntryFor(part: string, quantity: int, g: PropertyGraph, fmt: Formatter): BomEntry {
    BomEntry(part, quantity, SourceDrawings(NodesIn(g.nodesByType, "Entity"), part),
             BlockProperties(NodesIn(g.nodesByType, "Block"), part, fmt))
  }

  /** The counts of the parts `keys` read with `parse`, in that order; `None` when one does not parse. */
  function Counts(keys: seq<string>, values: map<string, string>, parse: string -> Option<int>): (r: Option<seq<int>>)
    requires forall i :: 0 <= i < |keys| ==> keys[i] in values
    ensures r.None? <==> exists i :: 0 <= i < |keys| && parse(values[keys[i]]).None?
    ensures r.Some? ==> |r.value| == |keys|
    decreases |keys|
  {
    if keys == [] then Some([])
    else
      var q := parse(values[keys[0]]);
      var rest := Counts(keys[1..], values, parse);
      assert forall i :: 1 <= i < |keys| ==> keys[i] == keys[1..][i - 1];
      if q.None? || rest.None? then None else Some([q.value] + rest.value)
  }

  /** Position `i` of the counts holds the count of part `keys[i]`. */
  lemma {:induction false} CountsAt(keys: seq<string>, values: map<string, string>, parse: string -> Option<int>, i: nat)
    requires forall j :: 0 <= j < |keys| ==> keys[j] in values
    requires Counts(keys, values, parse).Some? && i < |keys|
    ensures Some(Counts(keys, values, parse).value[i]) == parse(values[keys[i]])
    decreases |keys|
  {
    if i > 0 {
      CountsAt(keys[1..], values, parse, i - 1);
    }
  }

  function Quantity(e: BomEntry): int {
    e.quantity
  }

  /** Non-increasing quantity. */
  predicate ByQuantity(s: seq<BomEntry>) {
    forall i, j :: 0 <= i < j < |s| ==> s[i].quantity >= s[j].quantity
  }

  /** `std::sort` by non-increasing quantity: a reordering of the entries. */
  function SortByQuantity(s: seq<BomEntry>): (r: seq<BomEntry>)
    ensures multiset(r) == multiset(s)
    ensures ByQuantity(r)
  {
    var r := Seqs.SortDescending(s, Quantity);
    assert forall i, j :: 0 <= i < j < |r| ==> Quantity(r[i]) >= Quantity(r[j]);
    r
  }

  /** `keys` lists every key of `values`, each once. */
  ghost predicate Lists(keys: seq<string>, values: map<string, string>) {
    |keys| == |values| && forall k :: k in values <==> k in keys
  }

  /**
    The shape of `ParseBOMFromResult`: the count of every part of `keys` read
    with `parse`, failing if one does not parse, then an entry per part built
    by `entry`, in non-increasing order of quantity.
   */
  function Rank(values: map<string, string>, keys: seq<string>, parse: string -> Option<int>,
                entry: (string, int) -> BomEntry): (r: Option<seq<BomEntry>>)
    requires Lists(keys, values)
    ensures r.Some? ==> ByQuantity(r.value) && |r.value| == |values|
  {
    var qs := Counts(keys, values, parse);
    if qs.None? then None
    else
      var es := seq(|keys|, i requires 0 <= i < |keys| => entry(keys[i], qs.value[i]));
      assert |multiset(es)| == |es|;
      Some(SortByQuantity(es))
  }

  /** Ranking fails exactly when the count of some part does not parse. */
  lemma RankFails(values: map<string, string>, keys: seq<string>, parse: string -> Option<int>, entry: (string, int) -> BomEntry)
    requires Lists(keys, values)
    ensures Rank(values, keys, parse, entry).None? <==> exists k :: k in values && parse(values[k]).None?
  {
    if exists k :: k in values && parse(values[k]).None? {
      var k :| k in values && parse(values[k]).None?;
      var j :| 0 <= j < |keys| && keys[j] == k;
    }
  }

  /** Every part has its entry among the ranked ones. */
  lemma RankHas(values: map<string, string>, keys: seq<string>, parse: string -> Option<int>, entry: (string, int) -> BomEntry, k: string)
    requires Lists(keys, values)
    requires Rank(values, keys, parse, entry).Some? && k in values
    ensures parse(values[k]).Some? && entry(k, parse(values[k]).value) in Rank(values, keys, parse, entry).value
  {
    var qs := Counts(keys, values, parse).value;
    var es := seq(|keys|, i requires 0 <= i < |keys| => entry(keys[i], qs[i]));
    var j :| 0 <= j < |keys| && keys[j] == k;
    CountsAt(keys, values, parse, j);
    assert es[j] in multiset(es);
  }

  /** Every ranked entry is the entry of some part, built from its parsed count. */
  lemma RankOnly(values: map<string, string>, keys: seq<string>, parse: string -> Option<int>, entry: (string, int) -> BomEntry, e: BomEntry)
      returns (k: string, q: int)
    requires Lists(keys, values)
    requires Rank(values, keys, parse, entry).Some? && e in Rank(values, keys, parse, entry).value
    ensures k in values && parse(values[k]) == Some(q) && e == entry(k, q)
  {
    var qs := Counts(keys, values, parse).value;
    var es := seq(|keys|, i requires 0 <= i < |keys| => entry(keys[i], qs[i]));
    assert e in multiset(Rank(values, keys, parse, entry).value);
    var j :| 0 <= j < |es| && es[j] == e;
    CountsAt(keys, values, parse, j);
    k, q := keys[j], qs[j];
  }

  /** The parts in the order they are visited: sorted. */
  function Parts(values: map<string, string>): (keys: seq<string>)
    ensures Lists(keys, values)
  {
    StringOrder.SortSet(values.Keys)
  }

  /**
    `ParseBOMFromResult`: an entry per counted part, in non-increasing order
    of quantity; `None` where `std::stoi` throws on some count. The parts are
    visited in sorted order, which fixes an order for entries of equal
    quantity; the source leaves that order open.
   */
  function ParseBom(values: map<string, string>, g: PropertyGraph, fmt: Formatter): (r: Option<seq<BomEntry>>)
    ensures r.Some? ==> ByQuantity(r.value)
    ensures r.Some? ==> |r.value| == |values|
  {
    Rank(values, Parts(values), Stoi, (part, q) => EntryFor(part, q, g, fmt))
  }

  /** The BOM fails exactly when the count of some part does not parse. */
  lemma ParseBomFails(values: map<string, string>, g: PropertyGraph, fmt: Formatter)
    ensures ParseBom(values, g, fmt).None? <==> exists k :: k in values && Stoi(values[k]).None?
  {
    RankFails(values, Parts(values), Stoi, (part, q) => EntryFor(part, q, g, fmt));
  }

  /** Every counted part has its entry in the BOM. */
  lemma ParseBomHasEntry(values: map<string, string>, g: PropertyGraph, fmt: Formatter, k: string)
    requires ParseBom(values, g, fmt).Some? && k in values
    ensures Stoi(values[k]).Some?
    ensures EntryFor(k, Stoi(values[k]).value, g, fmt) in ParseBom(values, g, fmt).value
  {
    RankHas(values, Parts(values), Stoi, (part, q) => EntryFor(part, q, g, fmt), k);
  }

  /** Every entry of the BOM is the entry of a counted part, with the quantity its count reads as. */
  lemma ParseBomOnlyEntries(values: map<string, string>, g: PropertyGraph, fmt: Formatter, e: BomEntry)
    requires ParseBom(values, g, fmt).Some? && e in ParseBom(values, g, fmt).value
    ensures e.partName in values && Stoi(values[e.partName]) == Some(e.quantity)
    ensures e == EntryFor(e.partName, e.quantity, g, fmt)
  {
    var k, q := RankOnly(values, Parts(values), Stoi, (part, q) => EntryFor(part, q, g, fmt), e);
  }

  // ---------------------------------------------------------------------
  // Dimensions
  // ---------------------------------------------------------------------

  datatype Dimension = Dimension(
    entityHandle: string,
    dimensionType: string,
    measurementValue: real,
    textOverride: string,
    layer: string,
    sourceDrawing: string)

  /** The name of a DIMENSION's kind, from its code-70 value. */
  function DimensionTypeName(code: int): (r: string)
    ensures r == "OTHER" <==> !(0 <= code <= 4)
  {
    if code == 0 then "LINEAR"
    else if code == 1 then "ALIGNED"
    else if code == 2 then "ANGULAR"
    else if code == 3 then "DIAMETER"
    else if code == 4 then "RADIUS"
    else "OTHER"
  }

  /** The five named kinds are told apart. */
  lemma DimensionTypesDistinct(a: int, b: int)
    requires 0 <= a <= 4 && 0 <= b <= 4
    ensures DimensionTypeName(a) == DimensionTypeName(b) <==> a == b
  {
  }

  predicate IsDimension(n: Node) {
    Prop(n, "type") == Some("DIMENSION")
  }

  /** The record of a DIMENSION node; `None` where `std::stoi` throws on its code-70 value. */
  function DimensionRecord(n: Node): (r: Option<Dimension>)
    ensures r.None? <==> "gc_70" in n.stringProps && Stoi(n.stringProps["gc_70"]).None?
    ensures r.Some? ==> && r.value.entityHandle == n.id
                        && ("gc_70" !in n.stringProps ==> r.value.dimensionType == "")
                        && ("gc_70" in n.stringProps ==> r.value.dimensionType == DimensionTypeName(Stoi(n.stringProps["gc_70"]).value))
                        && r.value.measurementValue == (if "gc_42" in n.numericProps then n.numericProps["gc_42"] else 0.0)
                        && r.value.textOverride == PropOrEmpty(n, "gc_1")
                        && r.value.layer == PropOrEmpty(n, "layer")
                        && r.value.sourceDrawing == PropOrEmpty(n, "source_drawing")
  {
    var kind: Option<string> :=
      if "gc_70" !in n.stringProps then Some("")
      else if Stoi(n.stringProps["gc_70"]).None? then None
      else Some(DimensionTypeName(Stoi(n.stringProps["gc_70"]).value));
    if kind.None? then None
    else
      Some(Dimension(n.id, kind.value,
                     if "gc_42" in n.numericProps then n.numericProps["gc_42"] else 0.0,
                     PropOrEmpty(n, "gc_1"), PropOrEmpty(n, "layer"), PropOrEmpty(n, "source_drawing")))
  }

  /** The record one node adds: none unless it is a DIMENSION. */
  function NodeDimensions(n: Node): Option<seq<Dimension>> {
    if !IsDimension(n) then Some([])
    else if DimensionRecord(n).None? then None
    else Some([DimensionRecord(n).value])
  }

  /** Both parts, joined, when both are there. */
  function Both(a: Option<seq<Dimension>>, b: Option<seq<Dimension>>): Option<seq<Dimension>> {
    if a.Some? && b.Some? then Some(a.value + b.value) else None
  }

  /** The records of the DIMENSION nodes among `ns`, in node order. */
  function DimensionsOf(ns: seq<Node>): (r: Option<seq<Dimension>>)
    ensures r.Some? ==> |r.value| <= |ns|
    decreases |ns|
  {
    if ns == [] then Some([]) else Both(DimensionsOf(ns[..|ns| - 1]), NodeDimensions(ns[|ns| - 1]))
  }

  /** `ExtractDimensions`: the records of the Entity collection's DIMENSION nodes; none without an Entity collection. */
  function ExtractDimensions(g: PropertyGraph): (r: Option<seq<Dimension>>)
    ensures "Entity" !in g.nodesByType ==> r == Some([])
  {
    DimensionsOf(NodesIn(g.nodesByType, "Entity"))
  }

  /** The records of two runs of nodes are the records of each, one after the other. */
  lemma {:induction false} DimensionsAppend(a: seq<Node>, b: seq<Node>)
    ensures DimensionsOf(a + b) == Both(DimensionsOf(a), DimensionsOf(b))
    decreases |b|
  {
    if b == [] {
      assert a + b == a;
      if DimensionsOf(a).Some? {
        assert DimensionsOf(a).value + [] == DimensionsOf(a).value;
      }
    } else {
      var init := b[..|b| - 1];
      var last := b[|b| - 1];
      assert (a + b)[..|a + b| - 1] == a + init;
      assert (a + b)[|a + b| - 1] == last;
      DimensionsAppend(a, init);
      if DimensionsOf(a).Some? && DimensionsOf(init).Some? && NodeDimensions(last).Some? {
        Seqs.AppendAssoc(DimensionsOf(a).value, DimensionsOf(init).value, NodeDimensions(last).value);
      }
    }
  }

  /** The number of DIMENSION nodes. */
  function CountDimensions(ns: seq<Node>): nat
    decreases |ns|
  {
    if ns == [] then 0 else CountDimensions(ns[..|ns| - 1]) + (if IsDimension(ns[|ns| - 1]) then 1 else 0)
  }

  /** A DIMENSION node whose code-70 value does not parse. */
  predicate BadDimension(n: Node) {
    IsDimension(n) && DimensionRecord(n).None?
  }

  /** The extraction fails exactly when a DIMENSION node's code-70 value does not parse. */
  lemma {:induction false} DimensionsFail(ns: seq<Node>)
    ensures DimensionsOf(ns).None? <==> exists i :: 0 <= i < |ns| && BadDimension(ns[i])
    decreases |ns|
  {
    if ns != [] {
      var init := ns[..|ns| - 1];
      DimensionsFail(init);
      assert forall i :: 0 <= i < |init| ==> ns[i] == init[i];
      assert DimensionsOf(ns).None? <==> DimensionsOf(init).None? || BadDimension(ns[|ns| - 1]);
    }
  }

  /** One record per DIMENSION node. */
  lemma {:induction false} DimensionsCount(ns: seq<Node>)
    requires DimensionsOf(ns).Some?
    ensures |DimensionsOf(ns).value| == CountDimensions(ns)
    decreases |ns|
  {
    if ns != [] {
      DimensionsCount(ns[..|ns| - 1]);
    }
  }

  /** Nodes that record no drawing give records without a source drawing. */
  lemma {:induction false} UntaggedDimensions(ns: seq<Node>)
    requires forall i :: 0 <= i < |ns| ==> "source_drawing" !in ns[i].stringProps
    requires DimensionsOf(ns).Some?
    ensures forall k :: 0 <= k < |DimensionsOf(ns).value| ==> DimensionsOf(ns).value[k].sourceDrawing == ""
    decreases |ns|
  {
    if ns != [] {
      var init := ns[..|ns| - 1];
      var n := ns[|ns| - 1];
      UntaggedDimensions(init);
      if IsDimension(n) {
        assert DimensionRecord(n).value.sourceDrawing == "";
      }
    }
  }

  /** Nodes that record no drawing give no source drawings for any part. */
  lemma {:induction false} UntaggedDrawings(ns: seq<Node>, part: string)
    requires forall i :: 0 <= i < |ns| ==> "source_drawing" !in ns[i].stringProps
    ensures Drawings(ns, part) == [] && SourceDrawings(ns, part) == []
    decreases |ns|
  {
    if ns != [] {
      UntaggedDrawings(ns[..|ns| - 1], part);
    }
  }
}
