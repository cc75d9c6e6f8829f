/**
  Properties of the top-level loop of the DXF parser: how sections are
  dispatched, what ends a parse, how the header sets the version, and the
  round trip of a whole drawing written as BLOCKS and ENTITIES sections.
 */
module DxfDocument {
  import opened Wrappers
  import opened Seqs
  import opened Status
  import opened Text
  import opened DxfParser
  import opened DxfEncoding

  // ---------------------------------------------------------------------
  // What ends a parse
  // ---------------------------------------------------------------------

  /** Empty input is a drawing with no version, entities or blocks. */
  lemma ParseEmpty()
    ensures Parse([]) == Ok(EmptyFile)
  {
    assert ReadPair(Stream([], 0, true)).pair == Err(Error(OutOfRange, "End of file"));
    assert BuildLookups(EmptyFile) == EmptyFile;
  }

  /** Running out of input between sections ends the parse successfully with what was read so far. */
  lemma EndOfInputEndsParse(n: nat, good: bool, f: DxfFile)
    ensures ParseSections(Stream([], n, good), f) == Ok(f)
  {
  }

  /** `0/EOF` at top level ends the parse successfully, whatever follows it. */
  lemma EofEndsParse(st: Stream, st1: Stream, f: DxfFile)
    requires st.good && ReadPair(st) == Read(Ok(Pair(0, "EOF")), st1)
    ensures ParseSections(st, f) == Ok(f)
  {
  }

  /** The lines `0` and `EOF` end a parse; the lines after them are never read. */
  lemma EofLinesEndParse(more: seq<string>, n: nat, f: DxfFile)
    ensures ParseSections(Stream(["0", "EOF"] + more, n, true), f) == Ok(f)
  {
    ReadPairLines(Pair(0, "EOF"), more, n);
    LinesOne(Pair(0, "EOF"), more);
    EofEndsParse(Stream(["0", "EOF"] + more, n, true), Stream(more, n + 2, true), f);
  }

  /** A top-level read error other than end of input is returned as it is. */
  lemma TopLevelReadError(st: Stream, f: DxfFile)
    requires st.good && ReadPair(st).pair.Err? && ReadPair(st).pair.error.code != OutOfRange
    ensures ParseSections(st, f) == Err(ReadPair(st).pair.error)
  {
  }

  /** A top-level pair that is neither `0/SECTION` nor `0/EOF` is passed over. */
  lemma StrayPairSkipped(st: Stream, st1: Stream, p: Pair, f: DxfFile)
    requires st.good && ReadPair(st) == Read(Ok(p), st1)
    requires !IsMarker(p, "SECTION") && !IsMarker(p, "EOF")
    ensures ParseSections(st, f) == ParseSections(st1, f)
  {
  }

  // ---------------------------------------------------------------------
  // Section dispatch
  // ---------------------------------------------------------------------

  /** `0/SECTION` followed by a pair whose code is not 2 is InvalidArgument. */
  lemma SectionNeedsName(st: Stream, st1: Stream, np: Pair, st2: Stream, f: DxfFile)
    requires st.good && ReadPair(st) == Read(Ok(Pair(0, "SECTION")), st1)
    requires ReadPair(st1) == Read(Ok(np), st2) && np.code != 2
    ensures ParseSections(st, f).Err? && ParseSections(st, f).error.code == InvalidArgument
  {
  }

  /** `0/SECTION` with no readable name pair after it fails with the read's own error. */
  lemma SectionNameUnreadable(st: Stream, st1: Stream, f: DxfFile)
    requires st.good && ReadPair(st) == Read(Ok(Pair(0, "SECTION")), st1)
    requires ReadPair(st1).pair.Err?
    ensures ParseSections(st, f) == Err(ReadPair(st1).pair.error)
  {
  }

  /** A section other than HEADER, BLOCKS and ENTITIES is skipped and leaves the drawing as it was. */
  lemma UnknownSectionSkipped(st: Stream, st1: Stream, name: string, st2: Stream, f: DxfFile)
    requires st.good && ReadPair(st) == Read(Ok(Pair(0, "SECTION")), st1)
    requires ReadPair(st1) == Read(Ok(Pair(2, name)), st2)
    requires name != "HEADER" && name != "BLOCKS" && name != "ENTITIES"
    ensures ParseSections(st, f) == ParseSections(SkipSection(st2), f)
  {
  }

  /** The HEADER section replaces the version with what the header parser read. */
  lemma HeaderSection(st: Stream, st1: Stream, st2: Stream, v: string, st3: Stream, f: DxfFile)
    requires st.good && ReadPair(st) == Read(Ok(Pair(0, "SECTION")), st1)
    requires ReadPair(st1) == Read(Ok(Pair(2, "HEADER")), st2)
    requires ParseHeader(st2, f.version) == Done(v, st3)
    ensures ParseSections(st, f) == ParseSections(st3, DxfFile(v, f.entities, f.blocks, f.entityByHandle, f.blockByName))
  {
  }

  /** The BLOCKS section appends the blocks it read. */
  lemma BlocksSection(st: Stream, st1: Stream, st2: Stream, bs: seq<Block>, st3: Stream, f: DxfFile)
    requires st.good && ReadPair(st) == Read(Ok(Pair(0, "SECTION")), st1)
    requires ReadPair(st1) == Read(Ok(Pair(2, "BLOCKS")), st2)
    requires ParseBlocks(st2, f.blocks) == Done(bs, st3)
    ensures ParseSections(st, f) == ParseSections(st3, DxfFile(f.version, f.entities, bs, f.entityByHandle, f.blockByName))
  {
  }

  /** The ENTITIES section appends the entities it read. */
  lemma EntitiesSection(st: Stream, st1: Stream, st2: Stream, es: seq<Entity>, st3: Stream, f: DxfFile)
    requires st.good && ReadPair(st) == Read(Ok(Pair(0, "SECTION")), st1)
    requires ReadPair(st1) == Read(Ok(Pair(2, "ENTITIES")), st2)
    requires ParseEntities(st2, f.entities) == Done(es, st3)
    ensures ParseSections(st, f) == ParseSections(st3, DxfFile(f.version, es, f.blocks, f.entityByHandle, f.blockByName))
  {
  }

  /** An error inside a known section is the parse's error. */
  lemma SectionErrorReturned(st: Stream, st1: Stream, name: string, st2: Stream, e: Error, f: DxfFile)
    requires st.good && ReadPair(st) == Read(Ok(Pair(0, "SECTION")), st1)
    requires ReadPair(st1) == Read(Ok(Pair(2, name)), st2)
    requires || (name == "HEADER" && ParseHeader(st2, f.version) == Failed(e))
             || (name == "BLOCKS" && ParseBlocks(st2, f.blocks) == Failed(e))
             || (name == "ENTITIES" && ParseEntities(st2, f.entities) == Failed(e))
    ensures ParseSections(st, f) == Err(e)
  {
  }

  // ---------------------------------------------------------------------
  // Skipping a section
  // ---------------------------------------------------------------------

  /** While skipping, a read error is swallowed: the skip just stops where the failed read left the stream. */
  lemma SkipSwallowsErrors(st: Stream)
    requires st.good && ReadPair(st).pair.Err?
    ensures SkipSection(st) == ReadPair(st).next
  {
  }

  /** While skipping, `0/ENDSEC` ends the skip right after it; any other pair is passed over. */
  lemma SkipStep(st: Stream, st1: Stream, p: Pair)
    requires st.good && ReadPair(st) == Read(Ok(p), st1)
    ensures SkipSection(st) == if IsMarker(p, "ENDSEC") then st1 else SkipSection(st1)
  {
  }

  /**
    A bad group code inside an unknown section does not stop the parse: the
    skip ends at the failed read and the parse goes on after it, here to
    `0/EOF`.
   */
  lemma BadCodeInSkippedSection(name: string, bad: string, value: string, more: seq<string>, n: nat, f: DxfFile)
    requires Canonical(Pair(2, name)) && name != "HEADER" && name != "BLOCKS" && name != "ENTITIES"
    requires ParseInt32(Strip(bad, Ascii)).None?
    ensures ParseSections(Stream(Lines([Pair(0, "SECTION")]) + (Lines([Pair(2, name)])
                                 + ([bad, value] + (Lines([Pair(0, "EOF")]) + more))), n, true), f) == Ok(f)
  {
    var d := Lines([Pair(0, "EOF")]) + more;
    var c := [bad, value] + d;
    var b := Lines([Pair(2, name)]) + c;
    ReadPairLines(Pair(0, "SECTION"), b, n);
    ReadPairLines(Pair(2, name), c, n + 2);
    assert c[2..] == d;
    assert ReadPair(Stream(c, n + 4, true)) == Read(DecodePair(bad, value, n + 4), Stream(d, n + 6, true));
    SkipSwallowsErrors(Stream(c, n + 4, true));
    UnknownSectionSkipped(Stream(Lines([Pair(0, "SECTION")]) + b, n, true), Stream(b, n + 2, true), name,
                          Stream(c, n + 4, true), f);
    ReadPairLines(Pair(0, "EOF"), more, n + 6);
    EofEndsParse(Stream(d, n + 6, true), Stream(more, n + 8, true), f);
  }

  // ---------------------------------------------------------------------
  // The header
  // ---------------------------------------------------------------------

  /** The pair right after `9/$ACADVER` sets the version, whatever its group code. */
  lemma HeaderVersionSet(st: Stream, st1: Stream, q: Pair, st2: Stream, v: string)
    requires st.good && ReadPair(st) == Read(Ok(Pair(9, "$ACADVER")), st1)
    requires ReadPair(st1) == Read(Ok(q), st2)
    ensures ParseHeader(st, v) == ParseHeader(st2, q.value)
  {
  }

  /** When the pair after `9/$ACADVER` cannot be read, the version stays as it was. */
  lemma HeaderVersionUnread(st: Stream, st1: Stream, v: string)
    requires st.good && ReadPair(st) == Read(Ok(Pair(9, "$ACADVER")), st1)
    requires ReadPair(st1).pair.Err?
    ensures ParseHeader(st, v) == ParseHeader(ReadPair(st1).next, v)
  {
  }

  /** A header pair that neither ends the section nor announces the version. */
  predicate HeaderFiller(p: Pair) {
    Canonical(p) && !IsMarker(p, "ENDSEC") && !(p.code == 9 && p.value == "$ACADVER")
  }

  /** `0/ENDSEC` ends the header with the version read so far. */
  lemma HeaderEndsec(st: Stream, st1: Stream, v: string)
    requires st.good && ReadPair(st) == Read(Ok(Pair(0, "ENDSEC")), st1)
    ensures ParseHeader(st, v) == Done(v, st1)
  {
  }

  /** Any other header pair but `0/ENDSEC` leaves the version as it was. */
  lemma HeaderOtherPair(st: Stream, st1: Stream, p: Pair, v: string)
    requires st.good && ReadPair(st) == Read(Ok(p), st1)
    requires !IsMarker(p, "ENDSEC") && !(p.code == 9 && p.value == "$ACADVER")
    ensures ParseHeader(st, v) == ParseHeader(st1, v)
  {
  }

  /** A header with no `$ACADVER` leaves the version as it was. */
  lemma {:induction false} HeaderWithoutVersion(ps: seq<Pair>, more: seq<string>, v: string, n: nat)
    requires forall k :: 0 <= k < |ps| ==> HeaderFiller(ps[k])
    ensures ParseHeader(Stream(Lines(ps) + (Lines([Pair(0, "ENDSEC")]) + more), n, true), v)
            == Done(v, Stream(more, n + 2 * |ps| + 2, true))
    decreases |ps|
  {
    var tail := Lines([Pair(0, "ENDSEC")]) + more;
    if ps == [] {
      assert Lines(ps) + tail == tail;
      ReadPairLines(Pair(0, "ENDSEC"), more, n);
    } else {
      LinesHead(ps, tail);
      ReadPairLines(ps[0], Lines(ps[1..]) + tail, n);
      HeaderOtherPair(Stream(Lines(ps) + tail, n, true), Stream(Lines(ps[1..]) + tail, n + 2, true), ps[0], v);
      assert forall k :: 0 <= k < |ps[1..]| ==> HeaderFiller(ps[1..][k]) by {
        forall k | 0 <= k < |ps[1..]| ensures HeaderFiller(ps[1..][k]) {
          assert ps[1..][k] == ps[k + 1];
        }
      }
      HeaderWithoutVersion(ps[1..], more, v, n + 2);
    }
  }

  /** `9/$ACADVER`, the version pair and `0/ENDSEC` read as a header with that version. */
  lemma HeaderVersionLines(v: string, ver: string, more: seq<string>, n: nat)
    requires Canonical(Pair(1, v))
    ensures ParseHeader(Stream(Lines([Pair(9, "$ACADVER")]) + (Lines([Pair(1, v)]) + (Lines([Pair(0, "ENDSEC")]) + more)), n, true), ver)
            == Done(v, Stream(more, n + 6, true))
  {
    var l4 := Lines([Pair(0, "ENDSEC")]) + more;
    var l3 := Lines([Pair(1, v)]) + l4;
    ReadPairLines(Pair(9, "$ACADVER"), l3, n);
    ReadPairLines(Pair(1, v), l4, n + 2);
    HeaderVersionSet(Stream(Lines([Pair(9, "$ACADVER")]) + l3, n, true), Stream(l3, n + 2, true), Pair(1, v),
                     Stream(l4, n + 4, true), ver);
    ReadPairLines(Pair(0, "ENDSEC"), more, n + 4);
    HeaderEndsec(Stream(l4, n + 4, true), Stream(more, n + 6, true), v);
  }

  /** A HEADER section holding only `$ACADVER` and its value sets the version and nothing else. */
  lemma HeaderSectionLines(v: string, rest: seq<string>, n: nat, f: DxfFile)
    requires Canonical(Pair(1, v))
    ensures ParseSections(Stream(Lines([Pair(0, "SECTION")]) + (Lines([Pair(2, "HEADER")]) + (Lines([Pair(9, "$ACADVER")])
              + (Lines([Pair(1, v)]) + (Lines([Pair(0, "ENDSEC")]) + rest)))), n, true), f)
            == ParseSections(Stream(rest, n + 10, true), DxfFile(v, f.entities, f.blocks, f.entityByHandle, f.blockByName))
  {
    var l2 := Lines([Pair(9, "$ACADVER")]) + (Lines([Pair(1, v)]) + (Lines([Pair(0, "ENDSEC")]) + rest));
    var l1 := Lines([Pair(2, "HEADER")]) + l2;
    ReadPairLines(Pair(0, "SECTION"), l1, n);
    ReadPairLines(Pair(2, "HEADER"), l2, n + 2);
    HeaderVersionLines(v, f.version, rest, n + 4);
    HeaderSection(Stream(Lines([Pair(0, "SECTION")]) + l1, n, true), Stream(l1, n + 2, true), Stream(l2, n + 4, true),
                  v, Stream(rest, n + 10, true), f);
  }

  /** The lines `0` and `EOF`, encoded, end a parse; the lines after them are never read. */
  lemma EofPairEndsParse(more: seq<string>, n: nat, f: DxfFile)
    ensures ParseSections(Stream(Lines([Pair(0, "EOF")]) + more, n, true), f) == Ok(f)
  {
    ReadPairLines(Pair(0, "EOF"), more, n);
    EofEndsParse(Stream(Lines([Pair(0, "EOF")]) + more, n, true), Stream(more, n + 2, true), f);
  }

  /**
    A header section holding only `$ACADVER` and its value sets the version
    and nothing else; `0/EOF` after it ends the parse.
   */
  lemma HeaderOnly(v: string, more: seq<string>, n: nat, f: DxfFile)
    requires Canonical(Pair(1, v))
    ensures ParseSections(Stream(Lines([Pair(0, "SECTION")]) + (Lines([Pair(2, "HEADER")]) + (Lines([Pair(9, "$ACADVER")])
              + (Lines([Pair(1, v)]) + (Lines([Pair(0, "ENDSEC")]) + (Lines([Pair(0, "EOF")]) + more))))), n, true), f)
            == Ok(DxfFile(v, f.entities, f.blocks, f.entityByHandle, f.blockByName))
  {
    HeaderSectionLines(v, Lines([Pair(0, "EOF")]) + more, n, f);
    EofPairEndsParse(more, n + 10, DxfFile(v, f.entities, f.blocks, f.entityByHandle, f.blockByName));
  }

  /** The lines of the header-only example, as the encoded pairs `HeaderOnly` reads. */
  lemma HeaderExampleLines(lines: seq<string>)
    requires lines == ["0", "SECTION", "2", "HEADER", "9", "$ACADVER", "1", "AC1027", "0", "ENDSEC", "0", "EOF"]
    ensures lines == Lines([Pair(0, "SECTION")]) + (Lines([Pair(2, "HEADER")]) + (Lines([Pair(9, "$ACADVER")])
              + (Lines([Pair(1, "AC1027")]) + (Lines([Pair(0, "ENDSEC")]) + (Lines([Pair(0, "EOF")]) + [])))))
  {
    var l5 := Lines([Pair(0, "EOF")]) + [];
    LinesOne(Pair(0, "EOF"), []);
    var l4 := Lines([Pair(0, "ENDSEC")]) + l5;
    LinesOne(Pair(0, "ENDSEC"), l5);
    var l3 := Lines([Pair(1, "AC1027")]) + l4;
    LinesOne(Pair(1, "AC1027"), l4);
    var l2 := Lines([Pair(9, "$ACADVER")]) + l3;
    LinesOne(Pair(9, "$ACADVER"), l3);
    var l1 := Lines([Pair(2, "HEADER")]) + l2;
    LinesOne(Pair(2, "HEADER"), l2);
    LinesOne(Pair(0, "SECTION"), l1);
    assert IntToString(0) == "0" && IntToString(1) == "1" && IntToString(2) == "2" && IntToString(9) == "9";
  }

  /** A header-only drawing: its version is read, and it has no entities or blocks. */
  lemma HeaderExample(lines: seq<string>)
    requires lines == ["0", "SECTION", "2", "HEADER", "9", "$ACADVER", "1", "AC1027", "0", "ENDSEC", "0", "EOF"]
    ensures Parse(lines) == Ok(DxfFile("AC1027", [], [], map[], map[]))
  {
    assert Canonical(Pair(1, "AC1027"));
    HeaderOnly("AC1027", [], 0, EmptyFile);
    HeaderExampleLines(lines);
    assert BuildLookups(DxfFile("AC1027", [], [], map[], map[])) == DxfFile("AC1027", [], [], map[], map[]);
  }

  // ---------------------------------------------------------------------
  // Whole drawings
  // ---------------------------------------------------------------------

  /** A HEADER section that declares version `v`. */
  function HeaderPairs(v: string): seq<Pair> {
    [Pair(0, "SECTION"), Pair(2, "HEADER"), Pair(9, "$ACADVER"), Pair(1, v), Pair(0, "ENDSEC")]
  }

  /** A BLOCKS section holding `bs`. */
  function BlocksPairs(bs: seq<Block>): seq<Pair> {
    [Pair(0, "SECTION"), Pair(2, "BLOCKS")] + (EncodeBlocks(bs) + [Pair(0, "ENDSEC")])
  }

  /** An ENTITIES section holding `es`. */
  function EntitiesPairs(es: seq<Entity>): seq<Pair> {
    [Pair(0, "SECTION"), Pair(2, "ENTITIES")] + (EncodeEntities(es) + [Pair(0, "ENDSEC")])
  }

  /** A drawing written out: its header, its blocks, its entities, then `0/EOF`. */
  function EncodeDrawing(v: string, bs: seq<Block>, es: seq<Entity>): seq<Pair> {
    HeaderPairs(v) + (BlocksPairs(bs) + (EntitiesPairs(es) + [Pair(0, "EOF")]))
  }

  lemma DrawingLines(v: string, bs: seq<Block>, es: seq<Entity>)
    ensures Lines(EncodeDrawing(v, bs, es))
            == Lines(HeaderPairs(v)) + (Lines(BlocksPairs(bs)) + (Lines(EntitiesPairs(es)) + Lines([Pair(0, "EOF")])))
  {
    LinesAppend(HeaderPairs(v), BlocksPairs(bs) + (EntitiesPairs(es) + [Pair(0, "EOF")]));
    LinesAppend(BlocksPairs(bs), EntitiesPairs(es) + [Pair(0, "EOF")]);
    LinesAppend(EntitiesPairs(es), [Pair(0, "EOF")]);
  }

  lemma HeaderPairsLines(v: string, rest: seq<string>)
    ensures Lines(HeaderPairs(v)) + rest
            == Lines([Pair(0, "SECTION")]) + (Lines([Pair(2, "HEADER")]) + (Lines([Pair(9, "$ACADVER")])
                 + (Lines([Pair(1, v)]) + (Lines([Pair(0, "ENDSEC")]) + rest))))
  {
    var ps := HeaderPairs(v);
    assert ps == [ps[0]] + ([ps[1]] + ([ps[2]] + ([ps[3]] + [ps[4]])));
    LinesAppend([ps[0]], [ps[1]] + ([ps[2]] + ([ps[3]] + [ps[4]])));
    LinesAppend([ps[1]], [ps[2]] + ([ps[3]] + [ps[4]]));
    LinesAppend([ps[2]], [ps[3]] + [ps[4]]);
    LinesAppend([ps[3]], [ps[4]]);
    AppendAssoc(Lines([ps[0]]), Lines([ps[1]] + ([ps[2]] + ([ps[3]] + [ps[4]]))), rest);
    AppendAssoc(Lines([ps[1]]), Lines([ps[2]] + ([ps[3]] + [ps[4]])), rest);
    AppendAssoc(Lines([ps[2]]), Lines([ps[3]] + [ps[4]]), rest);
    AppendAssoc(Lines([ps[3]]), Lines([ps[4]]), rest);
  }

  /** The lines of a section: its `0/SECTION` pair, its name pair, then its body. */
  lemma SectionLines(name: string, body: seq<Pair>, rest: seq<string>)
    ensures Lines([Pair(0, "SECTION"), Pair(2, name)] + body) + rest
            == Lines([Pair(0, "SECTION")]) + (Lines([Pair(2, name)]) + (Lines(body) + rest))
  {
    assert [Pair(0, "SECTION"), Pair(2, name)] + body == [Pair(0, "SECTION")] + ([Pair(2, name)] + body);
    LinesAppend([Pair(0, "SECTION")], [Pair(2, name)] + body);
    LinesAppend([Pair(2, name)], body);
    AppendAssoc(Lines([Pair(0, "SECTION")]), Lines([Pair(2, name)] + body), rest);
    AppendAssoc(Lines([Pair(2, name)]), Lines(body), rest);
  }

  /** An encoded BLOCKS section appends its blocks, in order. */
  lemma BlocksSectionLines(bs: seq<Block>, rest: seq<string>, n: nat, f: DxfFile)
    requires forall k :: 0 <= k < |bs| ==> ReadableBlock(bs[k])
    ensures ParseSections(Stream(Lines(BlocksPairs(bs)) + rest, n, true), f)
            == ParseSections(Stream(rest, BlocksEndLine(bs, n + 4), true),
                             DxfFile(f.version, f.entities, f.blocks + bs, f.entityByHandle, f.blockByName))
  {
    var body := Lines(EncodeBlocks(bs) + [Pair(0, "ENDSEC")]) + rest;
    var l1 := Lines([Pair(2, "BLOCKS")]) + body;
    SectionLines("BLOCKS", EncodeBlocks(bs) + [Pair(0, "ENDSEC")], rest);
    ReadPairLines(Pair(0, "SECTION"), l1, n);
    ReadPairLines(Pair(2, "BLOCKS"), body, n + 2);
    ParseBlocksLines(bs, f.blocks, rest, n + 4);
    BlocksSection(Stream(Lines([Pair(0, "SECTION")]) + l1, n, true), Stream(l1, n + 2, true), Stream(body, n + 4, true),
                  f.blocks + bs, Stream(rest, BlocksEndLine(bs, n + 4), true), f);
  }

  /** An encoded ENTITIES section appends its entities, in order. */
  lemma EntitiesSectionLines(es: seq<Entity>, rest: seq<string>, n: nat, f: DxfFile)
    requires forall k :: 0 <= k < |es| ==> Readable(es[k], "ENDSEC")
    ensures ParseSections(Stream(Lines(EntitiesPairs(es)) + rest, n, true), f)
            == ParseSections(Stream(rest, EntitiesEndLine(es, n + 4), true),
                             DxfFile(f.version, f.entities + es, f.blocks, f.entityByHandle, f.blockByName))
  {
    var body := Lines(EncodeEntities(es) + [Pair(0, "ENDSEC")]) + rest;
    var l1 := Lines([Pair(2, "ENTITIES")]) + body;
    SectionLines("ENTITIES", EncodeEntities(es) + [Pair(0, "ENDSEC")], rest);
    ReadPairLines(Pair(0, "SECTION"), l1, n);
    ReadPairLines(Pair(2, "ENTITIES"), body, n + 2);
    ParseEntitiesLines(es, f.entities, rest, n + 4);
    EntitiesSection(Stream(Lines([Pair(0, "SECTION")]) + l1, n, true), Stream(l1, n + 2, true), Stream(body, n + 4, true),
                    f.entities + es, Stream(rest, EntitiesEndLine(es, n + 4), true), f);
  }

  /** A drawing the parser reads back unchanged. */
  predicate ReadableDrawing(v: string, bs: seq<Block>, es: seq<Entity>) {
    && Canonical(Pair(1, v))
    && (forall k :: 0 <= k < |bs| ==> ReadableBlock(bs[k]))
    && (forall k :: 0 <= k < |es| ==> Readable(es[k], "ENDSEC"))
  }

  /** The ENTITIES section and `0/EOF` after the blocks of a drawing. */
  lemma DrawingTail(v: string, bs: seq<Block>, es: seq<Entity>, n: nat)
    requires forall k :: 0 <= k < |es| ==> Readable(es[k], "ENDSEC")
    ensures ParseSections(Stream(Lines(EntitiesPairs(es)) + Lines([Pair(0, "EOF")]), n, true), DxfFile(v, [], bs, map[], map[]))
            == Ok(DxfFile(v, es, bs, map[], map[]))
  {
    var eof := Lines([Pair(0, "EOF")]);
    EntitiesSectionLines(es, eof, n, DxfFile(v, [], bs, map[], map[]));
    assert eof == eof + [];
    assert [] + es == es;
    EofPairEndsParse([], EntitiesEndLine(es, n + 4), DxfFile(v, es, bs, map[], map[]));
  }

  /** The BLOCKS and ENTITIES sections and `0/EOF` after the header of a drawing. */
  lemma DrawingBody(v: string, bs: seq<Block>, es: seq<Entity>, n: nat)
    requires ReadableDrawing(v, bs, es)
    ensures ParseSections(Stream(Lines(BlocksPairs(bs)) + (Lines(EntitiesPairs(es)) + Lines([Pair(0, "EOF")])), n, true),
                          DxfFile(v, [], [], map[], map[]))
            == Ok(DxfFile(v, es, bs, map[], map[]))
  {
    BlocksSectionLines(bs, Lines(EntitiesPairs(es)) + Lines([Pair(0, "EOF")]), n, DxfFile(v, [], [], map[], map[]));
    assert [] + bs == bs;
    DrawingTail(v, bs, es, BlocksEndLine(bs, n + 4));
  }

  /** An encoded HEADER section sets the version and hands over to what follows it. */
  lemma HeaderThen(v: string, rest: seq<string>, n: nat, f: DxfFile, g: DxfFile)
    requires Canonical(Pair(1, v))
    requires g == DxfFile(v, f.entities, f.blocks, f.entityByHandle, f.blockByName)
    ensures ParseSections(Stream(Lines(HeaderPairs(v)) + rest, n, true), f)
            == ParseSections(Stream(rest, n + 10, true), g)
  {
    HeaderPairsLines(v, rest);
    HeaderSectionLines(v, rest, n, f);
  }

  /** The sections of an encoded drawing read back as its version, blocks and entities. */
  lemma DrawingSections(v: string, bs: seq<Block>, es: seq<Entity>)
    requires ReadableDrawing(v, bs, es)
    ensures ParseSections(Stream(Lines(EncodeDrawing(v, bs, es)), 0, true), EmptyFile) == Ok(DxfFile(v, es, bs, map[], map[]))
  {
    var r1 := Lines(BlocksPairs(bs)) + (Lines(EntitiesPairs(es)) + Lines([Pair(0, "EOF")]));
    var start := DxfFile(v, [], [], map[], map[]);
    DrawingLines(v, bs, es);
    HeaderThen(v, r1, 0, EmptyFile, start);
    DrawingBody(v, bs, es, 10);
    ParseThrough(Lines(EncodeDrawing(v, bs, es)), Lines(HeaderPairs(v)), r1, EmptyFile, start, Ok(DxfFile(v, es, bs, map[], map[])));
  }

  /** Parsing through a prefix that hands over to the rest. */
  lemma ParseThrough(x: seq<string>, head: seq<string>, rest: seq<string>, f0: DxfFile, f1: DxfFile, res: Result<DxfFile, Error>)
    requires x == head + rest
    requires ParseSections(Stream(head + rest, 0, true), f0) == ParseSections(Stream(rest, 10, true), f1)
    requires ParseSections(Stream(rest, 10, true), f1) == res
    ensures ParseSections(Stream(x, 0, true), f0) == res
  {
  }

  /**
    The round trip of a whole drawing: written out as a HEADER, a BLOCKS and
    an ENTITIES section and `0/EOF`, it parses back to the same version,
    blocks and entities, with the lookup tables built from them.
   */
  lemma DrawingRoundTrip(v: string, bs: seq<Block>, es: seq<Entity>)
    requires ReadableDrawing(v, bs, es)
    ensures Parse(Lines(EncodeDrawing(v, bs, es))) == Ok(BuildLookups(DxfFile(v, es, bs, map[], map[])))
  {
    DrawingSections(v, bs, es);
  }
}
