/**
  The second scorer's triple encoding and its pairwise contradiction check.

  A scorer instance keeps two registries across calls, entity names to ids
  and property names to ids. Each call registers the names its statements
  mention, then encodes every statement as a triple of ids. The registries
  persist, but the counters that number new names restart at 0 on every
  call (logical_consistency_scorer_v2.py:149-166), so a reused instance can
  give a new name an id an older name already has. `InternFrom` models the
  registration as written; `Intern` numbers new names from the registry's
  size, as intended. `Score` scores as written, `ScoreFixed` with the
  intended numbering, and the two agree on a fresh instance.
 */
module Triples {
  import opened Wrappers
  import opened Text
  import opened Statements
  import Consistency

  type Ids = map<string, nat>

  /** The name-to-id maps a scorer instance keeps between calls. */
  datatype Registry = Registry(entities: Ids, properties: Ids)

  const FreshRegistry: Registry := Registry(map[], map[])

  /** Ids are 0 .. n-1 for n names, each used once. */
  predicate Dense(m: Ids) {
    && (forall x :: x in m ==> m[x] < |m|)
    && (forall x, y :: x in m && y in m && m[x] == m[y] ==> x == y)
  }

  // ---------------------------------------------------------------------
  // Registration
  // ---------------------------------------------------------------------

  /** Registration as written: a name not yet present gets the counter, which starts wherever the caller says. */
  function InternFrom(m: Ids, xs: seq<string>, counter: nat): (r: Ids)
    ensures forall x :: x in r <==> x in m || x in xs
    ensures forall x :: x in m ==> r[x] == m[x]
    decreases |xs|
  {
    if xs == [] then m
    else if xs[0] in m then InternFrom(m, xs[1..], counter)
    else InternFrom(m[xs[0] := counter], xs[1..], counter + 1)
  }

  /** Registration numbering each new name after the names already present. */
  function Intern(m: Ids, xs: seq<string>): (r: Ids)
    ensures forall x :: x in r <==> x in m || x in xs
    ensures forall x :: x in m ==> r[x] == m[x]
    decreases |xs|
  {
    if xs == [] then m
    else if xs[0] in m then Intern(m, xs[1..])
    else Intern(m[xs[0] := |m|], xs[1..])
  }

  /** Started at the registry's size, the counter as written is the intended one. */
  lemma {:induction false} InternFromSize(m: Ids, xs: seq<string>)
    ensures InternFrom(m, xs, |m|) == Intern(m, xs)
    decreases |xs|
  {
    if xs != [] && xs[0] !in m {
      var m' := m[xs[0] := |m|];
      assert |m'| == |m| + 1;
      InternFromSize(m', xs[1..]);
    } else if xs != [] {
      InternFromSize(m, xs[1..]);
    }
  }

  /** The index of the first occurrence of `x`. */
  function First(xs: seq<string>, x: string): (k: nat)
    requires x in xs
    ensures k < |xs| && xs[k] == x && x !in xs[..k]
  {
    if xs[0] == x then 0 else 1 + First(xs[1..], x)
  }

  /** Giving a new name the next id keeps ids dense. */
  lemma DenseAdd(m: Ids, z: string)
    requires Dense(m) && z !in m
    ensures |m[z := |m|]| == |m| + 1 && Dense(m[z := |m|])
  {
    var m' := m[z := |m|];
    assert m'.Keys == m.Keys + {z};
    forall a, b | a in m' && b in m' && m'[a] == m'[b] ensures a == b {
      if a != z && b != z {
        assert m[a] == m[b];
      }
    }
  }

  /** Intended registration keeps ids dense and gives every new name an id past the old ones. */
  lemma {:induction false} InternDense(m: Ids, xs: seq<string>)
    requires Dense(m)
    ensures Dense(Intern(m, xs))
    ensures forall x :: x in xs && x !in m ==> Intern(m, xs)[x] >= |m|
    decreases |xs|
  {
    if xs != [] {
      var z := xs[0];
      if z !in m {
        DenseAdd(m, z);
        InternDense(m[z := |m|], xs[1..]);
      } else {
        InternDense(m, xs[1..]);
      }
    }
  }

  /** Intended registration numbers the new names in order of first occurrence. */
  lemma {:induction false} InternOrder(m: Ids, xs: seq<string>, x: string, y: string)
    requires Dense(m)
    requires x in xs && x !in m && y in xs && y !in m
    ensures Intern(m, xs)[x] < Intern(m, xs)[y] <==> First(xs, x) < First(xs, y)
    decreases |xs|
  {
    var z := xs[0];
    if z in m {
      assert x in xs[1..] && y in xs[1..];
      InternOrder(m, xs[1..], x, y);
    } else {
      var m' := m[z := |m|];
      DenseAdd(m, z);
      if x != z && y != z {
        assert x in xs[1..] && y in xs[1..];
        InternOrder(m', xs[1..], x, y);
      } else if x != z {
        assert x in xs[1..];
        InternDense(m', xs[1..]);
      } else if y != z {
        assert y in xs[1..];
        InternDense(m', xs[1..]);
      }
    }
  }

  /** The entity names a statement list mentions, in order: each subject, then the object of an `is` or `is not`. */
  function EntityMentions(stmts: seq<LogicalStatement>): (r: seq<string>)
    ensures forall i :: 0 <= i < |stmts| ==> stmts[i].subject in r
    ensures forall i :: 0 <= i < |stmts| && Consistency.Links(stmts[i]) ==> stmts[i].obj in r
    decreases |stmts|
  {
    if stmts == [] then []
    else
      var s := stmts[0];
      var rest := EntityMentions(stmts[1..]);
      assert forall i :: 1 <= i < |stmts| ==> stmts[i] == stmts[1..][i - 1];
      [s.subject] + (if Consistency.Links(s) then [s.obj] else []) + rest
  }

  /** The property names a statement list mentions, in order: the object of each `has` or `lacks`. */
  function PropertyMentions(stmts: seq<LogicalStatement>): (r: seq<string>)
    ensures forall i :: 0 <= i < |stmts| && !Consistency.Links(stmts[i]) ==> stmts[i].obj in r
    decreases |stmts|
  {
    if stmts == [] then []
    else
      var s := stmts[0];
      var rest := PropertyMentions(stmts[1..]);
      assert forall i :: 1 <= i < |stmts| ==> stmts[i] == stmts[1..][i - 1];
      (if Consistency.Links(s) then [] else [s.obj]) + rest
  }

  /** The registration pass as written: both counters restart at 0. */
  function Register(reg: Registry, stmts: seq<LogicalStatement>): Registry {
    Registry(InternFrom(reg.entities, EntityMentions(stmts), 0), InternFrom(reg.properties, PropertyMentions(stmts), 0))
  }

  /** The registration pass with new names numbered after the registered ones. */
  function RegisterFixed(reg: Registry, stmts: seq<LogicalStatement>): Registry {
    Registry(Intern(reg.entities, EntityMentions(stmts)), Intern(reg.properties, PropertyMentions(stmts)))
  }

  /** On a fresh instance the two registrations agree. */
  lemma FreshRegistersAlike(stmts: seq<LogicalStatement>)
    ensures Register(FreshRegistry, stmts) == RegisterFixed(FreshRegistry, stmts)
  {
    InternFromSize(map[], EntityMentions(stmts));
    InternFromSize(map[], PropertyMentions(stmts));
  }

  // ---------------------------------------------------------------------
  // Triples
  // ---------------------------------------------------------------------

  datatype LogicalTriple = LogicalTriple(entityId: nat, relationId: nat, targetId: nat, truthValue: real, sourceStmt: nat)

  /** The scorer's `relation_types` table. */
  function RelationId(r: Rel): nat {
    match r
    case Is => 0
    case IsNot => 1
    case Has => 2
    case Lacks => 3
  }

  function Truth(r: Rel): real {
    if r == Is || r == Has then 1.0 else -1.0
  }

  /** Statement `s`, numbered `k`, as a triple over registered names. */
  function TripleOf(reg: Registry, s: LogicalStatement, k: nat): LogicalTriple
    requires s.subject in reg.entities
    requires if Consistency.Links(s) then s.obj in reg.entities else s.obj in reg.properties
  {
    LogicalTriple(reg.entities[s.subject], RelationId(s.relation),
                  if Consistency.Links(s) then reg.entities[s.obj] else reg.properties[s.obj],
                  Truth(s.relation), k)
  }

  /** Every name the triples look up has been registered. */
  predicate Registered(reg: Registry, stmts: seq<LogicalStatement>) {
    && (forall i :: 0 <= i < |stmts| ==> stmts[i].subject in reg.entities)
    && (forall i :: 0 <= i < |stmts| && Consistency.Links(stmts[i]) ==> stmts[i].obj in reg.entities)
  }

  /** `properties.get(object, -1)`: a property the registry lacks has no id. */
  function PropertyId(reg: Registry, name: string): Option<nat> {
    if name in reg.properties then Some(reg.properties[name]) else None
  }

  /** The triple loop: statement `idx + k` becomes a triple, skipped when its property has no id. */
  function Encode(reg: Registry, stmts: seq<LogicalStatement>, idx: nat): seq<LogicalTriple>
    requires Registered(reg, stmts)
    decreases |stmts|
  {
    if stmts == [] then []
    else
      var s := stmts[0];
      var rest := Encode(reg, stmts[1..], idx + 1);
      var e := reg.entities[s.subject];
      if Consistency.Links(s) then
        [LogicalTriple(e, RelationId(s.relation), reg.entities[s.obj], Truth(s.relation), idx)] + rest
      else
        match PropertyId(reg, s.obj)
        case None => rest
        case Some(p) => [LogicalTriple(e, RelationId(s.relation), p, Truth(s.relation), idx)] + rest
  }

  lemma RegisterRegisters(reg: Registry, stmts: seq<LogicalStatement>)
    ensures Registered(Register(reg, stmts), stmts) && Registered(RegisterFixed(reg, stmts), stmts)
  {
  }

  /** `build_knowledge_structure` as written: the instance's new registry and the triples. */
  function BuildKnowledgeStructure(reg: Registry, stmts: seq<LogicalStatement>): (Registry, seq<LogicalTriple>) {
    var r := Register(reg, stmts);
    RegisterRegisters(reg, stmts);
    (r, Encode(r, stmts, 0))
  }

  /** `build_knowledge_structure` with the intended numbering. */
  function BuildKnowledgeFixed(reg: Registry, stmts: seq<LogicalStatement>): (Registry, seq<LogicalTriple>) {
    var r := RegisterFixed(reg, stmts);
    RegisterRegisters(reg, stmts);
    (r, Encode(r, stmts, 0))
  }

  /**
    Once the properties are registered no statement is skipped: triple `k`
    encodes statement `k`, with the relation's id and truth value and the
    registered ids of its names.
   */
  lemma {:induction false} EncodeAll(reg: Registry, stmts: seq<LogicalStatement>, idx: nat)
    requires Registered(reg, stmts)
    requires forall i :: 0 <= i < |stmts| && !Consistency.Links(stmts[i]) ==> stmts[i].obj in reg.properties
    ensures var ts := Encode(reg, stmts, idx);
      && |ts| == |stmts|
      && forall k :: 0 <= k < |ts| ==> ts[k] == TripleOf(reg, stmts[k], idx + k)
    decreases |stmts|
  {
    if stmts != [] {
      assert forall i :: 1 <= i < |stmts| ==> stmts[i] == stmts[1..][i - 1];
      EncodeAll(reg, stmts[1..], idx + 1);
    }
  }

  // ---------------------------------------------------------------------
  // Contradicting pairs
  // ---------------------------------------------------------------------

  /** Same entity and target, opposite truth, and relations `is`/`is not` or `has`/`lacks` in either order. */
  predicate Opposed(a: LogicalTriple, b: LogicalTriple) {
    && a.entityId == b.entityId && a.targetId == b.targetId && a.truthValue * b.truthValue < 0.0
    && ((a.relationId == 0 && b.relationId == 1) || (a.relationId == 1 && b.relationId == 0)
        || (a.relationId == 2 && b.relationId == 3) || (a.relationId == 3 && b.relationId == 2))
  }

  /** The inner loop: pairs `(i, j)` for `j` from `from` on. */
  function Row(ts: seq<LogicalTriple>, i: nat, from: nat): (r: seq<(nat, nat)>)
    requires i < from <= |ts|
    ensures forall k :: 0 <= k < |r| ==> r[k].0 == i && from <= r[k].1 < |ts| && Opposed(ts[i], ts[r[k].1])
    ensures forall j :: from <= j < |ts| && Opposed(ts[i], ts[j]) ==> (i, j) in r
    ensures forall a, b :: 0 <= a < b < |r| ==> r[a].1 < r[b].1
    decreases |ts| - from
  {
    if from == |ts| then []
    else (if Opposed(ts[i], ts[from]) then [(i, from)] else []) + Row(ts, i, from + 1)
  }

  /** `(i, j)` comes before `(i', j')` in the loops' order. */
  predicate Before(p: (nat, nat), q: (nat, nat)) {
    p.0 < q.0 || (p.0 == q.0 && p.1 < q.1)
  }

  /** The outer loop from `i` on. */
  function PairsFrom(ts: seq<LogicalTriple>, i: nat): (r: seq<(nat, nat)>)
    requires i <= |ts|
    ensures forall k :: 0 <= k < |r| ==> i <= r[k].0 < r[k].1 < |ts| && Opposed(ts[r[k].0], ts[r[k].1])
    ensures forall a, b :: i <= a < b < |ts| && Opposed(ts[a], ts[b]) ==> (a, b) in r
    ensures forall x, y :: 0 <= x < y < |r| ==> Before(r[x], r[y])
    decreases |ts| - i
  {
    if i == |ts| then []
    else if i + 1 == |ts| then []
    else Row(ts, i, i + 1) + PairsFrom(ts, i + 1)
  }

  /** `detect_contradictions_from_triples`: every opposed pair `(i, j)` with `i < j`, in loop order. */
  function DetectPairs(ts: seq<LogicalTriple>): (r: seq<(nat, nat)>)
    ensures forall p :: p in r <==> p.0 < p.1 < |ts| && Opposed(ts[p.0], ts[p.1])
    ensures forall x, y :: 0 <= x < y < |r| ==> Before(r[x], r[y])
  {
    PairsFrom(ts, 0)
  }

  /** Relations that contradict each other. */
  predicate Opposite(a: Rel, b: Rel) {
    (a == Is && b == IsNot) || (a == IsNot && b == Is) || (a == Has && b == Lacks) || (a == Lacks && b == Has)
  }

  /** Two statements' triples are opposed exactly when the statements contradict each other, given injective ids. */
  lemma OpposedStatements(reg: Registry, a: LogicalStatement, b: LogicalStatement, i: nat, j: nat)
    requires Dense(reg.entities) && Dense(reg.properties)
    requires a.subject in reg.entities && b.subject in reg.entities
    requires if Consistency.Links(a) then a.obj in reg.entities else a.obj in reg.properties
    requires if Consistency.Links(b) then b.obj in reg.entities else b.obj in reg.properties
    ensures Opposed(TripleOf(reg, a, i), TripleOf(reg, b, j)) <==>
      a.subject == b.subject && a.obj == b.obj && Opposite(a.relation, b.relation)
  {
  }

  /** The pair check over the triples of fully registered statements, with dense ids. */
  lemma PairsOfEncoding(r: Registry, stmts: seq<LogicalStatement>, i: nat, j: nat)
    requires Dense(r.entities) && Dense(r.properties) && Registered(r, stmts)
    requires forall k :: 0 <= k < |stmts| && !Consistency.Links(stmts[k]) ==> stmts[k].obj in r.properties
    ensures (i, j) in DetectPairs(Encode(r, stmts, 0)) <==>
      i < j < |stmts| && stmts[i].subject == stmts[j].subject && stmts[i].obj == stmts[j].obj
      && Opposite(stmts[i].relation, stmts[j].relation)
  {
    EncodeAll(r, stmts, 0);
    if i < j < |stmts| {
      OpposedStatements(r, stmts[i], stmts[j], i, j);
    }
  }

  /**
    With dense ids the check is about statements: a pair is reported
    exactly when two statements have the same subject and object and
    opposite relations.
   */
  lemma PairsAreOppositeStatements(reg: Registry, stmts: seq<LogicalStatement>, i: nat, j: nat)
    requires Dense(reg.entities) && Dense(reg.properties)
    ensures (i, j) in DetectPairs(BuildKnowledgeFixed(reg, stmts).1) <==>
      i < j < |stmts| && stmts[i].subject == stmts[j].subject && stmts[i].obj == stmts[j].obj
      && Opposite(stmts[i].relation, stmts[j].relation)
  {
    var r := RegisterFixed(reg, stmts);
    InternDense(reg.entities, EntityMentions(stmts));
    InternDense(reg.properties, PropertyMentions(stmts));
    assert BuildKnowledgeFixed(reg, stmts).1 == Encode(r, stmts, 0);
    PairsOfEncoding(r, stmts, i, j);
  }

  /** Registering into a fresh instance numbers names in order of first mention. */
  lemma FreshIdsFollowMentions(stmts: seq<LogicalStatement>, x: string, y: string)
    requires x in EntityMentions(stmts) && y in EntityMentions(stmts)
    ensures var ids := BuildKnowledgeStructure(FreshRegistry, stmts).0.entities;
      ids[x] < ids[y] <==> First(EntityMentions(stmts), x) < First(EntityMentions(stmts), y)
  {
    FreshRegistersAlike(stmts);
    InternOrder(map[], EntityMentions(stmts), x, y);
  }

  /** "A is B" on a fresh instance registers A as 0 and B as 1. */
  lemma FirstCallRegisters()
    ensures BuildKnowledgeStructure(FreshRegistry, [LogicalStatement("A", Is, "B", "A is B", 0.0)]).0
      == Registry(map["A" := 0, "B" := 1], map[])
  {
    var stmts := [LogicalStatement("A", Is, "B", "A is B", 0.0)];
    assert EntityMentions(stmts) == ["A", "B"] by {
      assert stmts[1..] == [];
    }
    assert PropertyMentions(stmts) == [] by {
      assert stmts[1..] == [];
    }
    assert ["A", "B"][1..] == ["B"];
    assert InternFrom(map[], ["A", "B"], 0) == InternFrom(map["A" := 0], ["B"], 1);
    assert InternFrom(map["A" := 0], ["B"], 1) == InternFrom(map["A" := 0, "B" := 1], [], 2);
  }

  /** As written, the first new subject of a call gets id 0, whatever already holds it. */
  lemma NewSubjectGetsZero(m: Ids, c: string, rest: seq<string>)
    requires c !in m
    ensures InternFrom(m, [c] + rest, 0)[c] == 0
  {
    assert ([c] + rest)[1..] == rest;
    assert InternFrom(m, [c] + rest, 0) == InternFrom(m[c := 0], rest, 1);
  }

  /**
    The counters as written, on a reused instance whose registry already
    gives `a` the id 0: for the statements "c is x" and "a is not x" with a
    new subject `c`, both subjects get the id 0, so the two statements are
    reported as contradicting each other although their subjects differ.
    The registry `FirstCallRegisters` leaves behind is such a registry.
   */
  lemma ReusedInstanceFalsePair(reg: Registry, a: string, c: string, x: string, r0: string, r1: string)
    requires a in reg.entities && reg.entities[a] == 0 && c !in reg.entities
    ensures var stmts := [LogicalStatement(c, Is, x, r0, 0.0), LogicalStatement(a, IsNot, x, r1, 1.0)];
      (0, 1) in DetectPairs(BuildKnowledgeStructure(reg, stmts).1) && stmts[0].subject != stmts[1].subject
  {
    var stmts := [LogicalStatement(c, Is, x, r0, 0.0), LogicalStatement(a, IsNot, x, r1, 1.0)];
    CollidingIds(reg, a, c, x, r0, r1);
    RegisterRegisters(reg, stmts);
    assert BuildKnowledgeStructure(reg, stmts).1 == Encode(Register(reg, stmts), stmts, 0);
    CollisionPairs(Register(reg, stmts), stmts);
  }

  /** The second call's registration as written: `c` and `a` both end up with the id 0. */
  lemma CollidingIds(reg: Registry, a: string, c: string, x: string, r0: string, r1: string)
    requires a in reg.entities && reg.entities[a] == 0 && c !in reg.entities
    ensures var w := Register(reg, [LogicalStatement(c, Is, x, r0, 0.0), LogicalStatement(a, IsNot, x, r1, 1.0)]);
      c in w.entities && a in w.entities && w.entities[c] == 0 && w.entities[a] == 0
  {
    var stmts := [LogicalStatement(c, Is, x, r0, 0.0), LogicalStatement(a, IsNot, x, r1, 1.0)];
    assert EntityMentions(stmts) == [c] + ([x] + [a, x]) by {
      assert stmts[1..][1..] == [];
      assert EntityMentions(stmts[1..]) == [a, x];
    }
    NewSubjectGetsZero(reg.entities, c, [x] + [a, x]);
  }

  /** Two registered statements `is` / `is not` on one object whose subjects share an id form a reported pair. */
  lemma CollisionPairs(w: Registry, stmts: seq<LogicalStatement>)
    requires |stmts| == 2 && Registered(w, stmts)
    requires stmts[0].relation == Is && stmts[1].relation == IsNot && stmts[0].obj == stmts[1].obj
    requires w.entities[stmts[0].subject] == w.entities[stmts[1].subject]
    ensures (0, 1) in DetectPairs(Encode(w, stmts, 0))
  {
    EncodeAll(w, stmts, 0);
    var ts := Encode(w, stmts, 0);
    assert ts[0] == TripleOf(w, stmts[0], 0) && ts[1] == TripleOf(w, stmts[1], 1);
    assert Opposed(ts[0], ts[1]);
  }

  /** With the intended numbering the same reused instance reports no pair for those statements. */
  lemma ReusedInstanceFixed()
    ensures var stmts := [LogicalStatement("C", Is, "X", "C is X", 0.0), LogicalStatement("A", IsNot, "X", "A is not X", 1.0)];
      (0, 1) !in DetectPairs(BuildKnowledgeFixed(Registry(map["A" := 0, "B" := 1], map[]), stmts).1)
  {
    var first := Registry(map["A" := 0, "B" := 1], map[]);
    var stmts := [LogicalStatement("C", Is, "X", "C is X", 0.0), LogicalStatement("A", IsNot, "X", "A is not X", 1.0)];
    assert Dense(first.entities) by {
      assert first.entities.Keys == {"A", "B"};
    }
    PairsAreOppositeStatements(first, stmts, 0, 1);
  }

  // ---------------------------------------------------------------------
  // Back to statements
  // ---------------------------------------------------------------------

  /** `relation.replace('_', ' ')`. */
  function Spaced(t: string): (r: string)
    ensures |r| == |t| && forall k :: 0 <= k < |t| ==> r[k] == (if t[k] == '_' then ' ' else t[k])
  {
    seq(|t|, k requires 0 <= k < |t| => if t[k] == '_' then ' ' else t[k])
  }

  /** How a statement is quoted in a reported contradiction. */
  function Describe(s: LogicalStatement): string {
    s.subject + " " + Spaced(RelName(s.relation)) + " " + s.obj
  }

  lemma DescribeIsNot(s: LogicalStatement)
    requires s.relation == IsNot
    ensures Describe(s) == s.subject + " is not " + s.obj
  {
    assert Spaced("is_not") == "is not";
  }

  /** The texts of the statements behind each pair, skipping a pair whose indices fall outside the lists. */
  function StatementPairs(stmts: seq<LogicalStatement>, ts: seq<LogicalTriple>, pairs: seq<(nat, nat)>): seq<(string, string)>
    decreases |pairs|
  {
    if pairs == [] then []
    else
      var (i, j) := pairs[0];
      var rest := StatementPairs(stmts, ts, pairs[1..]);
      if i < |ts| && j < |ts| && ts[i].sourceStmt < |stmts| && ts[j].sourceStmt < |stmts| then
        [(Describe(stmts[ts[i].sourceStmt]), Describe(stmts[ts[j].sourceStmt]))] + rest
      else rest
  }

  /** With one triple per statement, each reported pair is quoted as the two statements it names. */
  lemma {:induction false} StatementPairsQuote(stmts: seq<LogicalStatement>, ts: seq<LogicalTriple>, pairs: seq<(nat, nat)>)
    requires |ts| == |stmts| && forall k :: 0 <= k < |ts| ==> ts[k].sourceStmt == k
    requires forall k :: 0 <= k < |pairs| ==> pairs[k].0 < |ts| && pairs[k].1 < |ts|
    ensures var r := StatementPairs(stmts, ts, pairs);
      |r| == |pairs| && forall k :: 0 <= k < |r| ==> r[k] == (Describe(stmts[pairs[k].0]), Describe(stmts[pairs[k].1]))
    decreases |pairs|
  {
    if pairs != [] {
      StatementPairsQuote(stmts, ts, pairs[1..]);
    }
  }

  // ---------------------------------------------------------------------
  // Scoring
  // ---------------------------------------------------------------------

  /**
    The report once statements were found: `analyse` is handed the triples
    and the quoted contradictions and supplies the score, the analysis text
    and the residual; the contradictions reported are the quoted pairs
    themselves, on both the solver path and its fallback.
   */
  function Analysed(stmts: seq<LogicalStatement>, built: (Registry, seq<LogicalTriple>),
                    analyse: (seq<LogicalStatement>, seq<LogicalTriple>, seq<(string, string)>) -> Consistency.Report)
    : (Registry, Consistency.Report)
  {
    var ts := built.1;
    var quoted := StatementPairs(stmts, ts, DetectPairs(ts));
    var a := analyse(stmts, ts, quoted);
    (built.0, Consistency.Report(a.score, quoted, a.analysis, a.residual))
  }

  /**
    `compute_consistency_score` of the second scorer, as written: text
    without statements leaves the instance alone and scores 100; otherwise
    the statements are registered with the counters restarting at 0, and
    `analyse`, which stands for the learner-based scoring, gets the
    statements, the triples and the quoted contradictions.
   */
  function Score(reg: Registry, text: string, analyse: (seq<LogicalStatement>, seq<LogicalTriple>, seq<(string, string)>) -> Consistency.Report)
    : (r: (Registry, Consistency.Report))
    ensures ParseStatements(text) == [] ==> r.0 == reg && r.1.score == 100.0 && r.1.contradictions == []
    ensures ParseStatements(text) != [] ==>
      var ts := BuildKnowledgeStructure(reg, ParseStatements(text)).1;
      r.1.contradictions == StatementPairs(ParseStatements(text), ts, DetectPairs(ts))
    ensures forall x :: x in reg.entities ==> x in r.0.entities && r.0.entities[x] == reg.entities[x]
    ensures forall x :: x in reg.properties ==> x in r.0.properties && r.0.properties[x] == reg.properties[x]
    ensures Registered(r.0, ParseStatements(text))
  {
    var stmts := ParseStatements(text);
    if stmts == [] then (reg, Consistency.NoStatementsReport)
    else Analysed(stmts, BuildKnowledgeStructure(reg, stmts), analyse)
  }

  /** `compute_consistency_score` with new names numbered after the registered ones. */
  function ScoreFixed(reg: Registry, text: string, analyse: (seq<LogicalStatement>, seq<LogicalTriple>, seq<(string, string)>) -> Consistency.Report)
    : (r: (Registry, Consistency.Report))
    ensures ParseStatements(text) == [] ==> r.0 == reg && r.1.score == 100.0 && r.1.contradictions == []
    ensures ParseStatements(text) != [] ==>
      var ts := BuildKnowledgeFixed(reg, ParseStatements(text)).1;
      r.1.contradictions == StatementPairs(ParseStatements(text), ts, DetectPairs(ts))
    ensures Dense(reg.entities) && Dense(reg.properties) ==> Dense(r.0.entities) && Dense(r.0.properties)
    ensures Registered(r.0, ParseStatements(text))
  {
    var stmts := ParseStatements(text);
    if stmts == [] then (reg, Consistency.NoStatementsReport)
    else
      var built := BuildKnowledgeFixed(reg, stmts);
      assert Dense(reg.entities) && Dense(reg.properties) ==> Dense(built.0.entities) && Dense(built.0.properties) by {
        if Dense(reg.entities) && Dense(reg.properties) {
          InternDense(reg.entities, EntityMentions(stmts));
          InternDense(reg.properties, PropertyMentions(stmts));
        }
      }
      Analysed(stmts, built, analyse)
  }

  /** On a fresh instance the scorer as written and the corrected one agree, whatever the text. */
  lemma FreshScoresAlike(text: string, analyse: (seq<LogicalStatement>, seq<LogicalTriple>, seq<(string, string)>) -> Consistency.Report)
    ensures Score(FreshRegistry, text, analyse) == ScoreFixed(FreshRegistry, text, analyse)
  {
    FreshRegistersAlike(ParseStatements(text));
  }

  /** The empty text scores 100 with no contradictions and no residual, and registers nothing. */
  lemma EmptyTextScoresFull(reg: Registry, analyse: (seq<LogicalStatement>, seq<LogicalTriple>, seq<(string, string)>) -> Consistency.Report)
    ensures var (r, report) := Score(reg, "", analyse);
      r == reg && report.score == 100.0 && report.contradictions == [] && report.residual == 0.0
  {
    assert Find("", "\n").None?;
    assert Split("", "\n") == [""];
    Consistency.SilentLines([""], 0);
  }

  /**
    The reported texts: on an instance whose ids are dense, every quoted pair
    is two statements `i < j` with the same subject and object and opposite
    relations, in loop order.
   */
  lemma ReportedPairs(reg: Registry, stmts: seq<LogicalStatement>, k: nat)
    requires Dense(reg.entities) && Dense(reg.properties)
    requires k < |DetectPairs(BuildKnowledgeFixed(reg, stmts).1)|
    ensures var ts := BuildKnowledgeFixed(reg, stmts).1;
      var pairs := DetectPairs(ts);
      && |StatementPairs(stmts, ts, pairs)| == |pairs|
      && pairs[k].0 < pairs[k].1 < |stmts|
      && StatementPairs(stmts, ts, pairs)[k] == (Describe(stmts[pairs[k].0]), Describe(stmts[pairs[k].1]))
      && stmts[pairs[k].0].subject == stmts[pairs[k].1].subject && stmts[pairs[k].0].obj == stmts[pairs[k].1].obj
      && Opposite(stmts[pairs[k].0].relation, stmts[pairs[k].1].relation)
  {
    var r := RegisterFixed(reg, stmts);
    var ts := Encode(r, stmts, 0);
    EncodeAll(r, stmts, 0);
    var pairs := DetectPairs(ts);
    StatementPairsQuote(stmts, ts, pairs);
    assert pairs[k] in pairs;
    PairsAreOppositeStatements(reg, stmts, pairs[k].0, pairs[k].1);
  }

  /** On a fresh instance the scorer as written quotes exactly such pairs: `ReportedPairs` holds for the program's own numbering. */
  lemma FreshReportedPairs(stmts: seq<LogicalStatement>, k: nat)
    requires k < |DetectPairs(BuildKnowledgeStructure(FreshRegistry, stmts).1)|
    ensures var ts := BuildKnowledgeStructure(FreshRegistry, stmts).1;
      var pairs := DetectPairs(ts);
      && |StatementPairs(stmts, ts, pairs)| == |pairs|
      && pairs[k].0 < pairs[k].1 < |stmts|
      && StatementPairs(stmts, ts, pairs)[k] == (Describe(stmts[pairs[k].0]), Describe(stmts[pairs[k].1]))
      && stmts[pairs[k].0].subject == stmts[pairs[k].1].subject && stmts[pairs[k].0].obj == stmts[pairs[k].1].obj
      && Opposite(stmts[pairs[k].0].relation, stmts[pairs[k].1].relation)
  {
    FreshRegistersAlike(stmts);
    assert BuildKnowledgeStructure(FreshRegistry, stmts) == BuildKnowledgeFixed(FreshRegistry, stmts);
    ReportedPairs(FreshRegistry, stmts, k);
  }
}
