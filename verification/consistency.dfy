/**
  The first scorer's entity graph and its three contradiction rules.

  Statements are folded, in order, into a map from entity names to
  entities. A subject always becomes an entity, and so does the object of an
  `is` or `is not` statement. `is` and `is not` objects are collected under
  the relation keys "is" and "is_not", and `has` and `lacks` objects become
  properties, a lacked property with the prefix "not_".

  The scorer reports contradictions as a list built by iterating Python sets,
  whose order the language leaves open; the model reports the contradictions
  as a set.
 */
module Consistency {
  import opened Text
  import opened Statements

  const NotPrefix: string := "not_"

  /** An entity: its properties, and for each relation key the entities it is related to. */
  datatype LogicalEntity = LogicalEntity(name: string, properties: set<string>, relations: map<string, set<string>>)

  type EntityGraph = map<string, LogicalEntity>

  /** The key under which an `is` or `is not` statement files its object. */
  function RelKey(r: Rel): string {
    if r == IsNot then "is_not" else "is"
  }

  /** Statements whose object names an entity rather than a property. */
  predicate Links(s: LogicalStatement) {
    s.relation == Is || s.relation == IsNot
  }

  /** The property a `has` or `lacks` statement records. */
  function PropertyOf(s: LogicalStatement): string {
    if s.relation == Lacks then NotPrefix + s.obj else s.obj
  }

  /** The entities `e` is related to under `key`; none when the key is absent. */
  function Targets(e: LogicalEntity, key: string): set<string> {
    if key in e.relations then e.relations[key] else {}
  }

  /** The graph with an entity for `name`, created empty when missing. */
  function Ensure(g: EntityGraph, name: string): EntityGraph {
    if name in g then g else g[name := LogicalEntity(name, {}, map[])]
  }

  /** One statement's effect on the graph (the body of the loop in `build_entity_graph`). */
  function AddStatement(g: EntityGraph, s: LogicalStatement): EntityGraph {
    var g1 := Ensure(g, s.subject);
    var g2 := if Links(s) then Ensure(g1, s.obj) else g1;
    var e := g2[s.subject];
    if Links(s) then
      var key := RelKey(s.relation);
      g2[s.subject := LogicalEntity(e.name, e.properties, e.relations[key := Targets(e, key) + {s.obj}])]
    else
      g2[s.subject := LogicalEntity(e.name, e.properties + {PropertyOf(s)}, e.relations)]
  }

  /** `build_entity_graph`: the statements folded in order into an empty graph. */
  function BuildEntityGraph(stmts: seq<LogicalStatement>): EntityGraph
    decreases |stmts|
  {
    if stmts == [] then map[] else AddStatement(BuildEntityGraph(stmts[..|stmts| - 1]), stmts[|stmts| - 1])
  }

  // ---------------------------------------------------------------------
  // The graph described by the statements alone
  // ---------------------------------------------------------------------

  /** Some statement names `k` as its subject or as the object of an `is` or `is not`. */
  predicate Named(stmts: seq<LogicalStatement>, k: string) {
    exists i :: 0 <= i < |stmts| && (stmts[i].subject == k || (Links(stmts[i]) && stmts[i].obj == k))
  }

  /** Some statement says `k <rel> o`. */
  predicate Says(stmts: seq<LogicalStatement>, k: string, rel: Rel, o: string) {
    exists i :: 0 <= i < |stmts| && stmts[i].subject == k && stmts[i].relation == rel && stmts[i].obj == o
  }

  /** Some statement about `k` uses the relation `rel`. */
  predicate Uses(stmts: seq<LogicalStatement>, k: string, rel: Rel) {
    exists i :: 0 <= i < |stmts| && stmts[i].subject == k && stmts[i].relation == rel
  }

  /** Some `has` or `lacks` statement about `k` records the property `p`. */
  predicate Holds(stmts: seq<LogicalStatement>, k: string, p: string) {
    exists i :: 0 <= i < |stmts| && stmts[i].subject == k && !Links(stmts[i]) && PropertyOf(stmts[i]) == p
  }

  /** What the graph knows of `k`, empty when `k` is not an entity. */
  function TargetsIn(g: EntityGraph, k: string, rel: Rel): set<string> {
    if k in g then Targets(g[k], RelKey(rel)) else {}
  }

  function KeysIn(g: EntityGraph, k: string): set<string> {
    if k in g then g[k].relations.Keys else {}
  }

  function PropertiesIn(g: EntityGraph, k: string): set<string> {
    if k in g then g[k].properties else {}
  }

  /** Every entity is filed under its own name. */
  predicate NamesAgree(g: EntityGraph) {
    forall k :: k in g ==> g[k].name == k
  }

  // ---------------------------------------------------------------------
  // One statement at a time
  // ---------------------------------------------------------------------

  lemma AddKeys(g: EntityGraph, s: LogicalStatement, k: string)
    ensures k in AddStatement(g, s) <==> k in g || k == s.subject || (Links(s) && k == s.obj)
  {
  }

  lemma AddNames(g: EntityGraph, s: LogicalStatement)
    requires NamesAgree(g)
    ensures NamesAgree(AddStatement(g, s))
  {
  }

  lemma AddTargets(g: EntityGraph, s: LogicalStatement, k: string, rel: Rel)
    requires rel == Is || rel == IsNot
    ensures TargetsIn(AddStatement(g, s), k, rel)
      == TargetsIn(g, k, rel) + (if s.subject == k && s.relation == rel then {s.obj} else {})
  {
    var g1 := Ensure(g, s.subject);
    var g2 := if Links(s) then Ensure(g1, s.obj) else g1;
    assert TargetsIn(g2, k, rel) == TargetsIn(g, k, rel);
  }

  lemma AddRelationKeys(g: EntityGraph, s: LogicalStatement, k: string)
    ensures KeysIn(AddStatement(g, s), k)
      == KeysIn(g, k) + (if s.subject == k && Links(s) then {RelKey(s.relation)} else {})
  {
    var g1 := Ensure(g, s.subject);
    var g2 := if Links(s) then Ensure(g1, s.obj) else g1;
    assert KeysIn(g2, k) == KeysIn(g, k);
  }

  lemma AddProperties(g: EntityGraph, s: LogicalStatement, k: string)
    ensures PropertiesIn(AddStatement(g, s), k)
      == PropertiesIn(g, k) + (if s.subject == k && !Links(s) then {PropertyOf(s)} else {})
  {
    var g1 := Ensure(g, s.subject);
    var g2 := if Links(s) then Ensure(g1, s.obj) else g1;
    assert PropertiesIn(g2, k) == PropertiesIn(g, k);
  }

  // ---------------------------------------------------------------------
  // The built graph is the described one
  // ---------------------------------------------------------------------

  /** The statements with the last one split off. */
  lemma Snoc(stmts: seq<LogicalStatement>, k: string, rel: Rel, o: string, p: string)
    requires stmts != []
    ensures var init, s := stmts[..|stmts| - 1], stmts[|stmts| - 1];
      && (Named(stmts, k) <==> Named(init, k) || s.subject == k || (Links(s) && s.obj == k))
      && (Says(stmts, k, rel, o) <==> Says(init, k, rel, o) || (s.subject == k && s.relation == rel && s.obj == o))
      && (Uses(stmts, k, rel) <==> Uses(init, k, rel) || (s.subject == k && s.relation == rel))
      && (Holds(stmts, k, p) <==> Holds(init, k, p) || (s.subject == k && !Links(s) && PropertyOf(s) == p))
  {
    var init := stmts[..|stmts| - 1];
    assert forall i :: 0 <= i < |init| ==> init[i] == stmts[i];
  }

  /** The entities are exactly the names the statements mention, each filed under its own name. */
  lemma {:induction false} BuildKeys(stmts: seq<LogicalStatement>, k: string)
    ensures k in BuildEntityGraph(stmts) <==> Named(stmts, k)
    ensures NamesAgree(BuildEntityGraph(stmts))
    decreases |stmts|
  {
    if stmts != [] {
      var init := stmts[..|stmts| - 1];
      BuildKeys(init, k);
      Snoc(stmts, k, Is, "", "");
      AddKeys(BuildEntityGraph(init), stmts[|stmts| - 1], k);
      AddNames(BuildEntityGraph(init), stmts[|stmts| - 1]);
    }
  }

  /** An entity's "is" (or "is_not") set holds exactly the objects of its `is` (or `is not`) statements. */
  lemma {:induction false} BuildTargets(stmts: seq<LogicalStatement>, k: string, rel: Rel, o: string)
    requires rel == Is || rel == IsNot
    ensures o in TargetsIn(BuildEntityGraph(stmts), k, rel) <==> Says(stmts, k, rel, o)
    decreases |stmts|
  {
    if stmts != [] {
      var init := stmts[..|stmts| - 1];
      BuildTargets(init, k, rel, o);
      Snoc(stmts, k, rel, o, "");
      AddTargets(BuildEntityGraph(init), stmts[|stmts| - 1], k, rel);
    }
  }

  /** The relation key "is" (or "is_not") is present exactly when some `is` (or `is not`) statement has the entity as subject, and no other key ever is. */
  lemma {:induction false} BuildRelationKeys(stmts: seq<LogicalStatement>, k: string, key: string)
    ensures key in KeysIn(BuildEntityGraph(stmts), k) <==> (key == "is" && Uses(stmts, k, Is)) || (key == "is_not" && Uses(stmts, k, IsNot))
    decreases |stmts|
  {
    if stmts != [] {
      var init := stmts[..|stmts| - 1];
      BuildRelationKeys(init, k, key);
      Snoc(stmts, k, Is, "", "");
      Snoc(stmts, k, IsNot, "", "");
      AddRelationKeys(BuildEntityGraph(init), stmts[|stmts| - 1], k);
    }
  }

  /** An entity's properties are the objects of its `has` statements and "not_" before the objects of its `lacks` statements. */
  lemma {:induction false} BuildProperties(stmts: seq<LogicalStatement>, k: string, p: string)
    ensures p in PropertiesIn(BuildEntityGraph(stmts), k) <==> Holds(stmts, k, p)
    decreases |stmts|
  {
    if stmts != [] {
      var init := stmts[..|stmts| - 1];
      BuildProperties(init, k, p);
      Snoc(stmts, k, Is, "", p);
      AddProperties(BuildEntityGraph(init), stmts[|stmts| - 1], k);
    }
  }

  // ---------------------------------------------------------------------
  // Contradictions
  // ---------------------------------------------------------------------

  /** A reported contradiction: `e is t` with `e is not t`; `e has p` with `e lacks p`; `e is b`, `b is c` with `e is not c`. */
  datatype Contradiction =
    | IsAndIsNot(entity: string, target: string)
    | HasAndLacks(entity: string, property: string)
    | Transitive(entity: string, middle: string, target: string)

  /** `detect_contradictions`: the three rules applied to every entity of the graph. */
  function Detect(g: EntityGraph): set<Contradiction> {
    (set e, t | e in g && t in Targets(g[e], "is") && t in Targets(g[e], "is_not") :: IsAndIsNot(e, t))
    + (set e, p | e in g && p in g[e].properties && NotPrefix + p in g[e].properties :: HasAndLacks(e, p))
    + (set e, b, c | e in g && b in Targets(g[e], "is") && b in g && c in Targets(g[b], "is") && c in Targets(g[e], "is_not")
         :: Transitive(e, b, c))
  }

  /** The pair of texts the scorer reports for a contradiction. */
  function Render(c: Contradiction): (string, string) {
    match c
    case IsAndIsNot(e, t) => (e + " is " + t, e + " is not " + t)
    case HasAndLacks(e, p) => (e + " has " + p, e + " lacks " + p)
    case Transitive(e, b, t) => (e + " is " + b + " and " + b + " is " + t, e + " is not " + t)
  }

  function DetectContradictions(g: EntityGraph): set<(string, string)> {
    set c | c in Detect(g) :: Render(c)
  }

  /** Membership in `Detect` case by case, over the graph's own sets. */
  lemma DetectMembers(g: EntityGraph, c: Contradiction)
    ensures c.IsAndIsNot? ==> (c in Detect(g) <==> c.target in TargetsIn(g, c.entity, Is) && c.target in TargetsIn(g, c.entity, IsNot))
    ensures c.HasAndLacks? ==> (c in Detect(g) <==> c.property in PropertiesIn(g, c.entity) && NotPrefix + c.property in PropertiesIn(g, c.entity))
    ensures c.Transitive? ==> (c in Detect(g) <==>
      c.middle in TargetsIn(g, c.entity, Is) && c.middle in g && c.target in TargetsIn(g, c.middle, Is) && c.target in TargetsIn(g, c.entity, IsNot))
  {
  }

  /** `e is t` and `e is not t` are reported together exactly when both statements were made. */
  lemma DetectsIsAndIsNot(stmts: seq<LogicalStatement>, e: string, t: string)
    ensures IsAndIsNot(e, t) in Detect(BuildEntityGraph(stmts)) <==> Says(stmts, e, Is, t) && Says(stmts, e, IsNot, t)
  {
    DetectMembers(BuildEntityGraph(stmts), IsAndIsNot(e, t));
    BuildTargets(stmts, e, Is, t);
    BuildTargets(stmts, e, IsNot, t);
  }

  /**
    `e has p` and `e lacks p` are reported together exactly when the
    statements record both `p` and "not_" + `p` for `e` — which a `has`
    statement whose object itself starts with "not_" also does.
   */
  lemma DetectsHasAndLacks(stmts: seq<LogicalStatement>, e: string, p: string)
    ensures HasAndLacks(e, p) in Detect(BuildEntityGraph(stmts)) <==> Holds(stmts, e, p) && Holds(stmts, e, NotPrefix + p)
  {
    DetectMembers(BuildEntityGraph(stmts), HasAndLacks(e, p));
    BuildProperties(stmts, e, p);
    BuildProperties(stmts, e, NotPrefix + p);
  }

  /** A transitivity violation is reported exactly for statements `e is b`, `b is c` and `e is not c`. */
  lemma DetectsTransitive(stmts: seq<LogicalStatement>, e: string, b: string, c: string)
    ensures Transitive(e, b, c) in Detect(BuildEntityGraph(stmts)) <==> Says(stmts, e, Is, b) && Says(stmts, b, Is, c) && Says(stmts, e, IsNot, c)
  {
    DetectMembers(BuildEntityGraph(stmts), Transitive(e, b, c));
    BuildTargets(stmts, e, Is, b);
    BuildTargets(stmts, b, Is, c);
    BuildTargets(stmts, e, IsNot, c);
    BuildKeys(stmts, b);
    if Says(stmts, e, Is, b) {
      var i :| 0 <= i < |stmts| && stmts[i].subject == e && stmts[i].relation == Is && stmts[i].obj == b;
      assert Named(stmts, b);
    }
  }

  /** `e lacks p` alone records a property other than `p`: a lone `lacks` is never a contradiction. */
  lemma LacksAloneIsConsistent(e: string, p: string, raw: string, id: real)
    ensures HasAndLacks(e, p) !in Detect(BuildEntityGraph([LogicalStatement(e, Lacks, p, raw, id)]))
  {
    var stmts := [LogicalStatement(e, Lacks, p, raw, id)];
    assert NotPrefix + p != p by {
      assert |NotPrefix + p| == |p| + 4;
    }
    DetectsHasAndLacks(stmts, e, p);
  }

  /** The texts of a direct contradiction as the scorer prints them. */
  lemma DirectContradictionReported(stmts: seq<LogicalStatement>, e: string, t: string)
    requires Says(stmts, e, Is, t) && Says(stmts, e, IsNot, t)
    ensures (e + " is " + t, e + " is not " + t) in DetectContradictions(BuildEntityGraph(stmts))
  {
    DetectsIsAndIsNot(stmts, e, t);
    assert Render(IsAndIsNot(e, t)) == (e + " is " + t, e + " is not " + t);
  }

  // ---------------------------------------------------------------------
  // Scoring text with no statements
  // ---------------------------------------------------------------------

  /** The result of `compute_consistency_score`. */
  datatype Report = Report(score: real, contradictions: seq<(string, string)>, analysis: string, residual: real)

  const NoStatementsReport: Report := Report(100.0, [], "No logical statements found.", 0.0)

  /**
    `compute_consistency_score`: text without statements scores 100 with no
    contradictions; anything else goes to `analyse`, which stands for the
    learner-based scoring.
   */
  function ComputeConsistencyScore(text: string, analyse: seq<LogicalStatement> -> Report): Report {
    var stmts := ParseStatements(text);
    if stmts == [] then NoStatementsReport else analyse(stmts)
  }

  /** A line that is blank or a comment once stripped. */
  predicate Silent(raw: string) {
    var line := Strip(raw, Python);
    line == [] || line[0] == '#'
  }

  lemma {:induction false} SilentLines(lines: seq<string>, idx: nat)
    requires forall k :: 0 <= k < |lines| ==> Silent(lines[k])
    ensures ParseLines(lines, idx) == []
    decreases |lines|
  {
    if lines != [] {
      SilentLines(lines[1..], idx + 1);
      SilentLine(lines[0], idx);
      assert ParseLines(lines, idx) == ParseRawLine(lines[0], idx) + ParseLines(lines[1..], idx + 1);
    }
  }

  /** Text whose every line is blank or a comment scores 100, with no contradictions and no residual. */
  lemma SilentTextScoresFull(text: string, analyse: seq<LogicalStatement> -> Report)
    requires forall k :: 0 <= k < |Split(Strip(text, Python), "\n")| ==> Silent(Split(Strip(text, Python), "\n")[k])
    ensures var r := ComputeConsistencyScore(text, analyse);
      r.score == 100.0 && r.contradictions == [] && r.residual == 0.0
  {
    SilentLines(Split(Strip(text, Python), "\n"), 0);
  }

  /** The empty text scores 100. */
  lemma EmptyTextScoresFull(analyse: seq<LogicalStatement> -> Report)
    ensures ComputeConsistencyScore("", analyse) == NoStatementsReport
  {
    assert Find("", "\n").None?;
    assert Split("", "\n") == [""];
    SilentLines([""], 0);
  }
}
