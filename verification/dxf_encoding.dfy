/**
  Writing pairs back as DXF lines, and what the parser makes of them.

  `Lines` is the inverse direction of `DxfParser.ReadPair`: a code as its
  decimal text, then the value. The lemmas below read encoded pairs, entities,
  blocks and whole documents back through the parser.
 */
module DxfEncoding {
  import opened Wrappers
  import opened Seqs
  import opened Status
  import opened Text
  import opened DxfParser

  /** A pair a writer can emit and read back unchanged: a 32-bit code and a value without outer ASCII whitespace. */
  predicate Canonical(p: Pair) {
    INT32_MIN <= p.code <= INT32_MAX && NoOuterSpace(p.value)
  }

  /** No ASCII whitespace at either end: exactly the strings `Strip` leaves unchanged. */
  predicate NoOuterSpace(s: string) {
    s == [] || (!IsAsciiSpace(s[0]) && !IsAsciiSpace(s[|s| - 1]))
  }

  /** The two lines of each pair, in order. */
  function Lines(ps: seq<Pair>): (r: seq<string>)
    ensures |r| == 2 * |ps|
    decreases |ps|
  {
    if ps == [] then [] else [IntToString(ps[0].code), ps[0].value] + Lines(ps[1..])
  }

  lemma {:induction false} LinesAppend(a: seq<Pair>, b: seq<Pair>)
    ensures Lines(a + b) == Lines(a) + Lines(b)
    decreases |a|
  {
    if a == [] {
      assert a + b == b;
    } else {
      assert (a + b)[1..] == a[1..] + b;
      LinesAppend(a[1..], b);
    }
  }

  lemma LinesOne(p: Pair, more: seq<string>)
    ensures Lines([p]) + more == [IntToString(p.code), p.value] + more
  {
    assert [p][1..] == [];
  }

  lemma IntToStringStripped(i: int)
    ensures Strip(IntToString(i), Ascii) == IntToString(i)
  {
    var s := IntToString(i);
    if i < 0 {
      NatToStringDigits(-i);
      assert s == "-" + NatToString(-i);
      assert s[|s| - 1] == NatToString(-i)[|NatToString(-i)| - 1];
    } else {
      NatToStringDigits(i);
    }
    StripKeeps(s, Ascii);
  }

  /** An encoded pair reads back as itself, and exactly its two lines are consumed. */
  lemma ReadPairLines(p: Pair, more: seq<string>, n: nat)
    requires Canonical(p)
    ensures ReadPair(Stream(Lines([p]) + more, n, true)) == Read(Ok(p), Stream(more, n + 2, true))
  {
    LinesOne(p, more);
    DecodeCanonical(p, n);
    assert ([IntToString(p.code), p.value] + more)[2..] == more;
  }

  lemma DecodeCanonical(p: Pair, n: nat)
    requires Canonical(p)
    ensures DecodePair(IntToString(p.code), p.value, n) == Ok(p)
  {
    IntToStringStripped(p.code);
    ParseIntToString(p.code);
    StripKeeps(p.value, Ascii);
  }

  /** A pair sequence, split after its first pair. */
  lemma LinesHead(ps: seq<Pair>, more: seq<string>)
    requires ps != []
    ensures Lines(ps) + more == Lines([ps[0]]) + (Lines(ps[1..]) + more)
  {
    assert [ps[0]] + ps[1..] == ps;
    LinesAppend([ps[0]], ps[1..]);
    AppendAssoc(Lines([ps[0]]), Lines(ps[1..]), more);
  }


  /** What may follow an entity's pairs: nothing at all, or a code-0 pair and then anything. */
  predicate Lookahead(stop: seq<Pair>, more: seq<string>) {
    (stop == [] && more == []) || (|stop| == 1 && stop[0].code == 0 && Canonical(stop[0]))
  }

  /** Pairs that may appear inside an entity: canonical and with a non-zero code. */
  predicate EntityPairs(ps: seq<Pair>) {
    forall k :: 0 <= k < |ps| ==> Canonical(ps[k]) && ps[k].code != 0
  }

  /**
    `ParseEntity` over encoded entity pairs: they all land in the entity, in
    order, and reading stops in front of the next code-0 pair, which is left
    unread, or at the end of input, which leaves the stream failed.
   */
  lemma ParseEntityLines(e: Entity, ps: seq<Pair>, stop: seq<Pair>, more: seq<string>, n: nat)
    requires EntityPairs(ps)
    requires Lookahead(stop, more)
    ensures ParseEntityFrom(Stream(Lines(ps) + (Lines(stop) + more), n, true), e)
            == (AddPairs(e, ps), EntityEnd(Lines(stop) + more, n + 2 * |ps|))
  {
    var after, m := Lines(stop) + more, n + 2 * |ps|;
    ParseEntityStops(AddPairs(e, ps), stop, more, m);
    ParseEntityOver(e, ps, after, n, EntityEnd(after, m));
  }

  /** Reading entity pairs stores them all and then does what reading the rest does. */
  lemma {:induction false} ParseEntityOver(e: Entity, ps: seq<Pair>, after: seq<string>, n: nat, end: Stream)
    requires EntityPairs(ps)
    requires ParseEntityFrom(Stream(after, n + 2 * |ps|, true), AddPairs(e, ps)) == (AddPairs(e, ps), end)
    ensures ParseEntityFrom(Stream(Lines(ps) + after, n, true), e) == (AddPairs(e, ps), end)
    decreases |ps|
  {
    if ps == [] {
      assert Lines(ps) + after == after;
    } else {
      EntityPairsTail(ps);
      assert AddPairs(e, ps) == AddPairs(AddPair(e, ps[0]), ps[1..]);
      assert n + 2 + 2 * |ps[1..]| == n + 2 * |ps|;
      ParseEntityOver(AddPair(e, ps[0]), ps[1..], after, n + 2, end);
      LinesHead(ps, after);
      ParseEntityStep(e, ps[0], Lines(ps[1..]) + after, n);
    }
  }

  /** Where `ParseEntity` leaves the stream: in front of the pushed-back pair, or failed at the end of input. */
  function EntityEnd(after: seq<string>, lineNo: nat): Stream {
    if after == [] then Stream([], lineNo, false) else Stream(after, lineNo + 2, true)
  }

  /** At a code-0 pair `ParseEntity` stops and pushes it back; at the end of input it stops with the stream failed. */
  lemma ParseEntityStops(e: Entity, stop: seq<Pair>, more: seq<string>, n: nat)
    requires Lookahead(stop, more)
    ensures ParseEntityFrom(Stream(Lines(stop) + more, n, true), e) == (e, EntityEnd(Lines(stop) + more, n))
  {
    if stop != [] {
      assert stop == [stop[0]];
      ReadPairLines(stop[0], more, n);
    }
  }

  /** A non-zero pair is stored and reading goes on after it. */
  lemma ParseEntityStep(e: Entity, p: Pair, tail: seq<string>, n: nat)
    requires Canonical(p) && p.code != 0
    ensures ParseEntityFrom(Stream(Lines([p]) + tail, n, true), e)
            == ParseEntityFrom(Stream(tail, n + 2, true), AddPair(e, p))
  {
    ReadPairLines(p, tail, n);
    ParseEntityPair(Stream(Lines([p]) + tail, n, true), Stream(tail, n + 2, true), p, e);
  }

  /** A pair with a non-zero code read inside an entity is added to it. */
  lemma ParseEntityPair(st: Stream, st1: Stream, p: Pair, e: Entity)
    requires st.good && ReadPair(st) == Read(Ok(p), st1) && p.code != 0
    ensures ParseEntityFrom(st, e) == ParseEntityFrom(st1, AddPair(e, p))
  {
  }

  lemma EntityPairsTail(ps: seq<Pair>)
    requires ps != [] && EntityPairs(ps)
    ensures EntityPairs(ps[1..])
  {
    forall k | 0 <= k < |ps[1..]| ensures Canonical(ps[1..][k]) && ps[1..][k].code != 0 {
      assert ps[1..][k] == ps[k + 1];
    }
  }

  /** `LastValue` read from the front: a later pair with the code overrides an earlier one. */
  lemma {:induction false} LastValueCons(p: Pair, ps: seq<Pair>, code: int, dflt: string)
    ensures LastValue([p] + ps, code, dflt) == LastValue(ps, code, if p.code == code then p.value else dflt)
    decreases |ps|
  {
    if ps != [] {
      var q := [p] + ps;
      assert q[..|q| - 1] == [p] + ps[..|ps| - 1];
      LastValueCons(p, ps[..|ps| - 1], code, dflt);
    } else {
      assert ([p] + ps)[..0] == [];
    }
  }

  /** The entity `ParseEntity` builds: all pairs in order, handle and layer from the last codes 5 and 8. */
  lemma {:induction false} AddPairsSpec(e: Entity, ps: seq<Pair>)
    ensures AddPairs(e, ps) ==
              Entity(e.kind, LastValue(ps, 5, e.handle), LastValue(ps, 8, e.layer), e.data + ps)
    decreases |ps|
  {
    if ps != [] {
      AddPairsSpec(AddPair(e, ps[0]), ps[1..]);
      LastValueCons(ps[0], ps[1..], 5, e.handle);
      LastValueCons(ps[0], ps[1..], 8, e.layer);
      assert [ps[0]] + ps[1..] == ps;
      assert e.data + [ps[0]] + ps[1..] == e.data + ps;
    }
  }

  // ---------------------------------------------------------------------
  // Entities
  // ---------------------------------------------------------------------

  /** An entity as pairs: its type under code 0, then its data. */
  function EncodeEntity(e: Entity): seq<Pair> {
    [Pair(0, e.kind)] + e.data
  }

  function EncodeEntities(es: seq<Entity>): seq<Pair>
    decreases |es|
  {
    if es == [] then [] else EncodeEntity(es[0]) + EncodeEntities(es[1..])
  }

  /**
    An entity the parser reads back unchanged: canonical pairs, data without
    code 0, a type other than the value that closes the enclosing section or
    block, and handle and layer as the last codes 5 and 8 give them.
   */
  predicate Readable(e: Entity, closer: string) {
    && Canonical(Pair(0, e.kind))
    && e.kind != closer
    && EntityPairs(e.data)
    && e.handle == LastValue(e.data, 5, "")
    && e.layer == LastValue(e.data, 8, "")
  }

  lemma ParseReadableEntity(e: Entity, closer: string, stop: seq<Pair>, more: seq<string>, n: nat)
    requires Readable(e, closer)
    requires Lookahead(stop, more)
    ensures ParseEntity(Stream(Lines(e.data) + (Lines(stop) + more), n, true), e.kind)
            == (e, EntityEnd(Lines(stop) + more, n + 2 * |e.data|))
  {
    ParseEntityLines(Entity(e.kind, "", "", []), e.data, stop, more, n);
    AddPairsSpec(Entity(e.kind, "", "", []), e.data);
    assert [] + e.data == e.data;
  }

  lemma ReadableTail(es: seq<Entity>, closer: string)
    requires es != [] && forall k :: 0 <= k < |es| ==> Readable(es[k], closer)
    ensures forall k :: 0 <= k < |es[1..]| ==> Readable(es[1..][k], closer)
  {
    forall k | 0 <= k < |es[1..]| ensures Readable(es[1..][k], closer) {
      assert es[1..][k] == es[k + 1];
    }
  }

  /** Encoded entities followed by a canonical code-0 pair start with a canonical code-0 pair. */
  lemma EncodedHead(es: seq<Entity>, closer: string, after: seq<Pair>)
    requires forall k :: 0 <= k < |es| ==> Readable(es[k], closer)
    requires after != [] && after[0].code == 0 && Canonical(after[0])
    ensures EncodeEntities(es) + after != []
    ensures (EncodeEntities(es) + after)[0].code == 0 && Canonical((EncodeEntities(es) + after)[0])
  {
    if es != [] {
      assert (EncodeEntities(es) + after)[0] == Pair(0, es[0].kind);
    }
  }

  /**
    One entity read off the front of encoded entities: the entity comes back
    and the stream stands at the encoding of whatever follows it.
   */
  lemma ParseFirstEntity(es: seq<Entity>, closer: string, after: seq<Pair>, more: seq<string>, n: nat)
    requires es != [] && forall k :: 0 <= k < |es| ==> Readable(es[k], closer)
    requires after != [] && after[0].code == 0 && Canonical(after[0])
    ensures var rest := Lines(EncodeEntities(es[1..]) + after) + more;
            ReadPair(Stream(Lines(EncodeEntities(es) + after) + more, n, true))
              == Read(Ok(Pair(0, es[0].kind)), Stream(Lines(es[0].data) + rest, n + 2, true))
            && ParseEntity(Stream(Lines(es[0].data) + rest, n + 2, true), es[0].kind).0 == es[0]
            && ParseEntity(Stream(Lines(es[0].data) + rest, n + 2, true), es[0].kind).1
               == Stream(rest, n + 2 * |es[0].data| + 4, true)
  {
    var e := es[0];
    var x := EncodeEntities(es[1..]) + after;
    var rest := Lines(x) + more;
    EntitiesLines(es, after, more);
    ReadPairLines(Pair(0, e.kind), Lines(e.data) + rest, n);
    ReadableTail(es, closer);
    EncodedHead(es[1..], closer, after);
    LinesHead(x, more);
    ParseReadableEntity(e, closer, [x[0]], Lines(x[1..]) + more, n + 2);
  }

  /** The lines of one entity followed by the rest, split at the entity's type line. */
  lemma EntitiesLines(es: seq<Entity>, after: seq<Pair>, more: seq<string>)
    requires es != []
    ensures Lines(EncodeEntities(es) + after) + more
            == Lines([Pair(0, es[0].kind)]) + (Lines(es[0].data) + (Lines(EncodeEntities(es[1..]) + after) + more))
  {
    var e := es[0];
    calc {
      EncodeEntities(es) + after;
      [Pair(0, e.kind)] + e.data + EncodeEntities(es[1..]) + after;
      [Pair(0, e.kind)] + (e.data + (EncodeEntities(es[1..]) + after));
    }
    LinesAppend([Pair(0, e.kind)], e.data + (EncodeEntities(es[1..]) + after));
    LinesAppend(e.data, EncodeEntities(es[1..]) + after);
  }

  /** A code-0 pair other than `0/ENDSEC` in the ENTITIES section starts an entity, which is appended. */
  lemma ParseEntitiesEntity(st: Stream, st1: Stream, kind: string, e: Entity, st2: Stream, ents: seq<Entity>)
    requires st.good && ReadPair(st) == Read(Ok(Pair(0, kind)), st1) && kind != "ENDSEC"
    requires ParseEntity(st1, kind) == (e, st2)
    ensures ParseEntities(st, ents) == ParseEntities(st2, ents + [e])
  {
  }

  /** `0/ENDSEC` closes the ENTITIES section. */
  lemma ParseEntitiesEndsec(st: Stream, st1: Stream, ents: seq<Entity>)
    requires st.good && ReadPair(st) == Read(Ok(Pair(0, "ENDSEC")), st1)
    ensures ParseEntities(st, ents) == Done(ents, st1)
  {
  }

  /** One encoded entity at the front of the ENTITIES section is read and appended. */
  lemma ParseEntitiesStep(es: seq<Entity>, ents: seq<Entity>, more: seq<string>, n: nat)
    requires es != [] && forall k :: 0 <= k < |es| ==> Readable(es[k], "ENDSEC")
    ensures ParseEntities(Stream(Lines(EncodeEntities(es) + [Pair(0, "ENDSEC")]) + more, n, true), ents)
            == ParseEntities(Stream(Lines(EncodeEntities(es[1..]) + [Pair(0, "ENDSEC")]) + more,
                                    n + 2 * |es[0].data| + 4, true), ents + [es[0]])
  {
    var rest := Lines(EncodeEntities(es[1..]) + [Pair(0, "ENDSEC")]) + more;
    ParseFirstEntity(es, "ENDSEC", [Pair(0, "ENDSEC")], more, n);
    ParseEntitiesEntity(Stream(Lines(EncodeEntities(es) + [Pair(0, "ENDSEC")]) + more, n, true),
                        Stream(Lines(es[0].data) + rest, n + 2, true), es[0].kind,
                        es[0], Stream(rest, n + 2 * |es[0].data| + 4, true), ents);
  }

  /**
    The line reached after reading encoded entities and the pair closing
    them from line `n`: two lines past the text per entity, because each
    entity's closing look-ahead is pushed back without its count.
   */
  function EntitiesEndLine(es: seq<Entity>, n: nat): nat {
    n + 2 * |EncodeEntities(es)| + 2 * |es| + 2
  }

  /** The first entity's share of the lines after encoded entities. */
  lemma EntitiesEndLineCons(es: seq<Entity>, n: nat)
    requires es != []
    ensures EntitiesEndLine(es, n) == EntitiesEndLine(es[1..], n + 2 * |es[0].data| + 4)
  {
    assert EncodeEntities(es) == EncodeEntity(es[0]) + EncodeEntities(es[1..]);
  }

  /** Reading the first entity reduces the round trip of encoded entities to the remaining ones. */
  lemma ParseEntitiesCons(es: seq<Entity>, ents: seq<Entity>, more: seq<string>, n: nat)
    requires es != [] && forall k :: 0 <= k < |es| ==> Readable(es[k], "ENDSEC")
    requires ParseEntities(Stream(Lines(EncodeEntities(es[1..]) + [Pair(0, "ENDSEC")]) + more,
                    n + 2 * |es[0].data| + 4, true), ents + [es[0]])
             == Done(ents + [es[0]] + es[1..], Stream(more, EntitiesEndLine(es[1..], n + 2 * |es[0].data| + 4), true))
    ensures ParseEntities(Stream(Lines(EncodeEntities(es) + [Pair(0, "ENDSEC")]) + more, n, true), ents)
            == Done(ents + es, Stream(more, EntitiesEndLine(es, n), true))
  {
    ParseEntitiesStep(es, ents, more, n);
    assert ents + [es[0]] + es[1..] == ents + es;
    assert EntitiesEndLine(es[1..], n + 2 * |es[0].data| + 4) == EntitiesEndLine(es, n) by {
      EntitiesEndLineCons(es, n);
    }
  }

  /** Encoded entities followed by `0/ENDSEC` read back as the same entities, in order, appended. */
  lemma {:induction false} ParseEntitiesLines(es: seq<Entity>, ents: seq<Entity>, more: seq<string>, n: nat)
    requires forall k :: 0 <= k < |es| ==> Readable(es[k], "ENDSEC")
    ensures ParseEntities(Stream(Lines(EncodeEntities(es) + [Pair(0, "ENDSEC")]) + more, n, true), ents)
            == Done(ents + es, Stream(more, EntitiesEndLine(es, n), true))
    decreases |es|
  {
    if es == [] {
      assert EncodeEntities(es) + [Pair(0, "ENDSEC")] == [Pair(0, "ENDSEC")];
      ReadPairLines(Pair(0, "ENDSEC"), more, n);
      ParseEntitiesEndsec(Stream(Lines([Pair(0, "ENDSEC")]) + more, n, true), Stream(more, n + 2, true), ents);
      assert ents + es == ents;
    } else {
      ReadableTail(es, "ENDSEC");
      ParseEntitiesLines(es[1..], ents + [es[0]], more, n + 2 * |es[0].data| + 4);
      ParseEntitiesCons(es, ents, more, n);
    }
  }

  /** The pairs of one block: `0/BLOCK`, then its tail. */
  function EncodeBlock(b: Block): seq<Pair> {
    [Pair(0, "BLOCK")] + BlockTail(b)
  }

  /** A block's pairs after `0/BLOCK`: name, handle, entities, `0/ENDBLK`. */
  function BlockTail(b: Block): seq<Pair> {
    [Pair(2, b.name), Pair(5, b.handle)] + EncodeEntities(b.entities) + [Pair(0, "ENDBLK")]
  }

  function EncodeBlocks(bs: seq<Block>): seq<Pair>
    decreases |bs|
  {
    if bs == [] then [] else EncodeBlock(bs[0]) + EncodeBlocks(bs[1..])
  }

  /** A block the parser reads back unchanged; its entities must not be typed ENDBLK. */
  predicate ReadableBlock(b: Block) {
    && Canonical(Pair(2, b.name))
    && Canonical(Pair(5, b.handle))
    && forall k :: 0 <= k < |b.entities| ==> Readable(b.entities[k], "ENDBLK")
  }

  /** Inside a block, a code-0 pair other than `0/ENDBLK` starts an entity, which is appended to the block. */
  lemma ParseBlockBodyEntity(st: Stream, st1: Stream, kind: string, e: Entity, st2: Stream, b: Block)
    requires st.good && ReadPair(st) == Read(Ok(Pair(0, kind)), st1) && kind != "ENDBLK"
    requires ParseEntity(st1, kind) == (e, st2)
    ensures ParseBlockBody(st, b) == ParseBlockBody(st2, Block(b.name, b.handle, b.entities + [e]))
  {
  }

  /** `0/ENDBLK` closes the block. */
  lemma ParseBlockBodyEnd(st: Stream, st1: Stream, b: Block)
    requires st.good && ReadPair(st) == Read(Ok(Pair(0, "ENDBLK")), st1)
    ensures ParseBlockBody(st, b) == Done(b, st1)
  {
  }

  /** One encoded entity at the front of a block body is read and appended to the block. */
  lemma ParseBlockEntitiesStep(b: Block, es: seq<Entity>, more: seq<string>, n: nat)
    requires es != [] && forall k :: 0 <= k < |es| ==> Readable(es[k], "ENDBLK")
    ensures ParseBlockBody(Stream(Lines(EncodeEntities(es) + [Pair(0, "ENDBLK")]) + more, n, true), b)
            == ParseBlockBody(Stream(Lines(EncodeEntities(es[1..]) + [Pair(0, "ENDBLK")]) + more,
                                     n + 2 * |es[0].data| + 4, true), Block(b.name, b.handle, b.entities + [es[0]]))
  {
    var rest := Lines(EncodeEntities(es[1..]) + [Pair(0, "ENDBLK")]) + more;
    ParseFirstEntity(es, "ENDBLK", [Pair(0, "ENDBLK")], more, n);
    ParseBlockBodyEntity(Stream(Lines(EncodeEntities(es) + [Pair(0, "ENDBLK")]) + more, n, true),
                         Stream(Lines(es[0].data) + rest, n + 2, true), es[0].kind,
                         es[0], Stream(rest, n + 2 * |es[0].data| + 4, true), b);
  }

  /** Reading the first entity of a block reduces the round trip of its entities to the remaining ones. */
  lemma ParseBlockEntitiesCons(b: Block, es: seq<Entity>, more: seq<string>, n: nat)
    requires es != [] && forall k :: 0 <= k < |es| ==> Readable(es[k], "ENDBLK")
    requires ParseBlockBody(Stream(Lines(EncodeEntities(es[1..]) + [Pair(0, "ENDBLK")]) + more,
                    n + 2 * |es[0].data| + 4, true),
                            Block(b.name, b.handle, b.entities + [es[0]]))
             == Done(Block(b.name, b.handle, b.entities + [es[0]] + es[1..]), Stream(more, EntitiesEndLine(es[1..], n + 2 * |es[0].data| + 4), true))
    ensures ParseBlockBody(Stream(Lines(EncodeEntities(es) + [Pair(0, "ENDBLK")]) + more, n, true), b)
            == Done(Block(b.name, b.handle, b.entities + es), Stream(more, EntitiesEndLine(es, n), true))
  {
    ParseBlockEntitiesStep(b, es, more, n);
    assert b.entities + [es[0]] + es[1..] == b.entities + es;
    assert EntitiesEndLine(es[1..], n + 2 * |es[0].data| + 4) == EntitiesEndLine(es, n) by {
      EntitiesEndLineCons(es, n);
    }
  }

  /** Inside a block, encoded entities followed by `0/ENDBLK` are appended to the block in order. */
  lemma {:induction false} ParseBlockEntitiesLines(b: Block, es: seq<Entity>, more: seq<string>, n: nat)
    requires forall k :: 0 <= k < |es| ==> Readable(es[k], "ENDBLK")
    ensures ParseBlockBody(Stream(Lines(EncodeEntities(es) + [Pair(0, "ENDBLK")]) + more, n, true), b)
            == Done(Block(b.name, b.handle, b.entities + es), Stream(more, EntitiesEndLine(es, n), true))
    decreases |es|
  {
    if es == [] {
      assert EncodeEntities(es) + [Pair(0, "ENDBLK")] == [Pair(0, "ENDBLK")];
      ReadPairLines(Pair(0, "ENDBLK"), more, n);
      ParseBlockBodyEnd(Stream(Lines([Pair(0, "ENDBLK")]) + more, n, true), Stream(more, n + 2, true), b);
      assert b.entities + es == b.entities;
    } else {
      ReadableTail(es, "ENDBLK");
      ParseBlockEntitiesLines(Block(b.name, b.handle, b.entities + [es[0]]), es[1..], more, n + 2 * |es[0].data| + 4);
      ParseBlockEntitiesCons(b, es, more, n);
    }
  }

  /** Inside a block, a canonical `2/name` or `5/handle` pair sets that field and reading continues. */
  lemma ParseBlockFieldStep(b: Block, p: Pair, tail: seq<string>, n: nat)
    requires Canonical(p) && (p.code == 2 || p.code == 5)
    ensures ParseBlockBody(Stream(Lines([p]) + tail, n, true), b)
            == ParseBlockBody(Stream(tail, n + 2, true),
                              if p.code == 2 then Block(p.value, b.handle, b.entities) else Block(b.name, p.value, b.entities))
  {
    ReadPairLines(p, tail, n);
  }

  /** The lines of a block's tail: its name, its handle, then its body. */
  lemma BlockTailLines(b: Block, more: seq<string>)
    ensures Lines(BlockTail(b)) + more
            == Lines([Pair(2, b.name)]) + (Lines([Pair(5, b.handle)]) + (Lines(EncodeEntities(b.entities) + [Pair(0, "ENDBLK")]) + more))
  {
    var body := EncodeEntities(b.entities) + [Pair(0, "ENDBLK")];
    assert BlockTail(b) == [Pair(2, b.name)] + ([Pair(5, b.handle)] + body);
    LinesAppend([Pair(2, b.name)], [Pair(5, b.handle)] + body);
    LinesAppend([Pair(5, b.handle)], body);
  }

  /** One encoded block, after its `0/BLOCK` line pair, reads back as itself. */
  lemma ParseBlockLines(b: Block, more: seq<string>, n: nat)
    requires ReadableBlock(b)
    ensures ParseBlockBody(Stream(Lines(BlockTail(b)) + more, n, true), Block("", "", []))
            == Done(b, Stream(more, n + 2 * |BlockTail(b)| + 2 * |b.entities|, true))
  {
    var rest := Lines(EncodeEntities(b.entities) + [Pair(0, "ENDBLK")]) + more;
    BlockTailLines(b, more);
    ParseBlockFieldStep(Block("", "", []), Pair(2, b.name), Lines([Pair(5, b.handle)]) + rest, n);
    ParseBlockFieldStep(Block(b.name, "", []), Pair(5, b.handle), rest, n + 2);
    ParseBlockEntitiesLines(Block(b.name, b.handle, []), b.entities, more, n + 4);
    assert [] + b.entities == b.entities;
    assert EntitiesEndLine(b.entities, n + 4) == n + 2 * |BlockTail(b)| + 2 * |b.entities|;
  }

  /** Encoded blocks and `0/ENDSEC`: the first block's `0/BLOCK`, its tail, then the other blocks. */
  lemma BlocksHeadPairs(bs: seq<Block>)
    requires bs != []
    ensures EncodeBlocks(bs) + [Pair(0, "ENDSEC")]
            == [Pair(0, "BLOCK")] + (BlockTail(bs[0]) + (EncodeBlocks(bs[1..]) + [Pair(0, "ENDSEC")]))
  {
    assert EncodeBlocks(bs) == [Pair(0, "BLOCK")] + BlockTail(bs[0]) + EncodeBlocks(bs[1..]);
  }

  /** The lines of encoded blocks: the first block's `0/BLOCK`, its tail, then the other blocks. */
  lemma BlocksHeadLines(bs: seq<Block>, more: seq<string>)
    requires bs != []
    ensures Lines(EncodeBlocks(bs) + [Pair(0, "ENDSEC")]) + more
            == Lines([Pair(0, "BLOCK")]) + (Lines(BlockTail(bs[0])) + (Lines(EncodeBlocks(bs[1..]) + [Pair(0, "ENDSEC")]) + more))
  {
    var t := BlockTail(bs[0]);
    var r := EncodeBlocks(bs[1..]) + [Pair(0, "ENDSEC")];
    BlocksHeadPairs(bs);
    LinesAppend([Pair(0, "BLOCK")], t + r);
    LinesAppend(t, r);
  }

  /** `0/BLOCK` followed by a block body that reads to its end appends that block. */
  lemma ParseBlocksBlock(st: Stream, st1: Stream, b: Block, st2: Stream, blocks: seq<Block>)
    requires st.good && ReadPair(st) == Read(Ok(Pair(0, "BLOCK")), st1)
    requires ParseBlockBody(st1, Block("", "", [])) == Done(b, st2)
    ensures ParseBlocks(st, blocks) == ParseBlocks(st2, blocks + [b])
  {
  }

  /** `0/ENDSEC` ends the blocks section with the blocks read so far. */
  lemma ParseBlocksEndsec(st: Stream, st1: Stream, blocks: seq<Block>)
    requires st.good && ReadPair(st) == Read(Ok(Pair(0, "ENDSEC")), st1)
    ensures ParseBlocks(st, blocks) == Done(blocks, st1)
  {
  }

  /** Reading the first encoded block appends it and leaves the stream at the next block. */
  lemma ParseBlocksStep(bs: seq<Block>, blocks: seq<Block>, more: seq<string>, n: nat)
    requires bs != [] && ReadableBlock(bs[0])
    ensures ParseBlocks(Stream(Lines(EncodeBlocks(bs) + [Pair(0, "ENDSEC")]) + more, n, true), blocks)
            == ParseBlocks(Stream(Lines(EncodeBlocks(bs[1..]) + [Pair(0, "ENDSEC")]) + more,
                                  n + 2 + 2 * |BlockTail(bs[0])| + 2 * |bs[0].entities|, true), blocks + [bs[0]])
  {
    var tail := Lines(EncodeBlocks(bs[1..]) + [Pair(0, "ENDSEC")]) + more;
    BlocksHeadLines(bs, more);
    ReadPairLines(Pair(0, "BLOCK"), Lines(BlockTail(bs[0])) + tail, n);
    ParseBlockLines(bs[0], tail, n + 2);
    ParseBlocksBlock(Stream(Lines(EncodeBlocks(bs) + [Pair(0, "ENDSEC")]) + more, n, true),
                     Stream(Lines(BlockTail(bs[0])) + tail, n + 2, true), bs[0],
                     Stream(tail, n + 2 + 2 * |BlockTail(bs[0])| + 2 * |bs[0].entities|, true), blocks);
  }

  /** The first block's share of the pairs and of the entities of encoded blocks. */
  lemma EncodeBlocksLength(bs: seq<Block>)
    requires bs != []
    ensures |EncodeBlocks(bs)| == 1 + |BlockTail(bs[0])| + |EncodeBlocks(bs[1..])|
    ensures |BlockEntities(bs)| == |bs[0].entities| + |BlockEntities(bs[1..])|
  {
    assert EncodeBlocks(bs) == EncodeBlock(bs[0]) + EncodeBlocks(bs[1..]);
  }

  /** The line reached after reading encoded blocks and `0/ENDSEC` from line `n`. */
  function BlocksEndLine(bs: seq<Block>, n: nat): nat {
    n + 2 * |EncodeBlocks(bs)| + 2 * |BlockEntities(bs)| + 2
  }

  /** Reading the first block reduces the round trip of encoded blocks to the remaining ones. */
  lemma {:induction false} ParseBlocksCons(bs: seq<Block>, blocks: seq<Block>, more: seq<string>, n: nat)
    requires bs != [] && forall k :: 0 <= k < |bs| ==> ReadableBlock(bs[k])
    ensures ParseBlocks(Stream(Lines(EncodeBlocks(bs) + [Pair(0, "ENDSEC")]) + more, n, true), blocks)
            == Done(blocks + bs, Stream(more, BlocksEndLine(bs, n), true))
    decreases |bs|, 0
  {
    ReadableBlocksTail(bs);
    ParseBlocksLines(bs[1..], blocks + [bs[0]], more, n + 2 + 2 * |BlockTail(bs[0])| + 2 * |bs[0].entities|);
    ParseBlocksStep(bs, blocks, more, n);
    BlocksConsResult(bs, blocks, more, n);
  }

  /** What the remaining blocks read to is what all of them read to. */
  lemma BlocksConsResult(bs: seq<Block>, blocks: seq<Block>, more: seq<string>, n: nat)
    requires bs != []
    ensures Done(blocks + [bs[0]] + bs[1..], Stream(more, BlocksEndLine(bs[1..], n + 2 + 2 * |BlockTail(bs[0])| + 2 * |bs[0].entities|), true))
            == Done(blocks + bs, Stream(more, BlocksEndLine(bs, n), true))
  {
    EncodeBlocksLength(bs);
    assert blocks + [bs[0]] + bs[1..] == blocks + bs;
  }

  /** With no blocks, `0/ENDSEC` ends the section at once. */
  lemma ParseBlocksNone(blocks: seq<Block>, more: seq<string>, n: nat)
    ensures ParseBlocks(Stream(Lines(EncodeBlocks([]) + [Pair(0, "ENDSEC")]) + more, n, true), blocks)
            == Done(blocks + [], Stream(more, BlocksEndLine([], n), true))
  {
    assert EncodeBlocks([]) + [Pair(0, "ENDSEC")] == [Pair(0, "ENDSEC")];
    ReadPairLines(Pair(0, "ENDSEC"), more, n);
    ParseBlocksEndsec(Stream(Lines([Pair(0, "ENDSEC")]) + more, n, true), Stream(more, n + 2, true), blocks);
    assert blocks + [] == blocks;
  }

  lemma ReadableBlocksTail(bs: seq<Block>)
    requires bs != [] && forall k :: 0 <= k < |bs| ==> ReadableBlock(bs[k])
    ensures forall k :: 0 <= k < |bs[1..]| ==> ReadableBlock(bs[1..][k])
  {
    forall k | 0 <= k < |bs[1..]| ensures ReadableBlock(bs[1..][k]) {
      assert bs[1..][k] == bs[k + 1];
    }
  }

  /** Encoded blocks followed by `0/ENDSEC` read back as the same blocks, in order, appended. */
  lemma {:induction false} ParseBlocksLines(bs: seq<Block>, blocks: seq<Block>, more: seq<string>, n: nat)
    requires forall k :: 0 <= k < |bs| ==> ReadableBlock(bs[k])
    ensures ParseBlocks(Stream(Lines(EncodeBlocks(bs) + [Pair(0, "ENDSEC")]) + more, n, true), blocks)
            == Done(blocks + bs, Stream(more, BlocksEndLine(bs, n), true))
    decreases |bs|, 1
  {
    if bs == [] {
      ParseBlocksNone(blocks, more, n);
    } else {
      ParseBlocksCons(bs, blocks, more, n);
    }
  }
}
